/** The roster store of `ServerContext`: it hydrates a fetched server list and appends servers. */
module ServerStore {
  import opened Options
  import opened ServerTypes

  /** The status written back into a record: the given one when truthy, else "disconnected". */
  function StatusOrDefault(s: Server): (r: Server)
    ensures HasStatus(r)
    ensures r.(status := s.status) == s
    ensures HasStatus(s) ==> r == s
    ensures !HasStatus(s) ==> r.status == Some(Disconnected)
  {
    s.(status := if HasStatus(s) then s.status else Some(Disconnected))
  }

  /** The status-defaulting map `refreshServers` applies to the fetched list. */
  function Hydrate(data: seq<Server>): (r: seq<Server>)
    ensures |r| == |data|
    ensures forall i :: 0 <= i < |data| ==> r[i].(status := data[i].status) == data[i]
    ensures forall i :: 0 <= i < |data| ==> HasStatus(r[i])
    ensures forall i :: 0 <= i < |data| ==> HasStatus(data[i]) ==> r[i] == data[i]
    ensures forall i :: 0 <= i < |data| ==> !HasStatus(data[i]) ==> r[i].status == Some(Disconnected)
  {
    seq(|data|, i requires 0 <= i < |data| => StatusOrDefault(data[i]))
  }

  /** `refreshServers`: the fetch result replaces the roster after hydration; a fetch that throws
      (`None`) leaves the roster exactly as it was. */
  function RefreshServers(roster: seq<Server>, fetched: Option<seq<Server>>): (r: seq<Server>)
    ensures fetched.None? ==> r == roster
    ensures fetched.Some? ==> |r| == |fetched.value|
    ensures fetched.Some? ==>
              forall i :: 0 <= i < |r| ==> HasStatus(r[i]) && r[i].(status := fetched.value[i].status) == fetched.value[i]
  {
    match fetched
    case None => roster
    case Some(data) => Hydrate(data)
  }

  /** `addServer`: append the new server, its status defaulted, after every existing entry. */
  function AddServer(roster: seq<Server>, server: Server): (r: seq<Server>)
    ensures |r| == |roster| + 1
    ensures r[..|roster|] == roster
    ensures r[|roster|].(status := server.status) == server
    ensures HasStatus(server) ==> r[|roster|] == server
    ensures !HasStatus(server) ==> r[|roster|].status == Some(Disconnected)
  {
    roster + [StatusOrDefault(server)]
  }

  /** Every roster entry has a truthy status. */
  predicate AllHaveStatus(roster: seq<Server>) {
    forall i :: 0 <= i < |roster| ==> HasStatus(roster[i])
  }

  /** Hydrating an already hydrated list changes nothing. */
  lemma HydrateIdempotent(data: seq<Server>)
    ensures Hydrate(Hydrate(data)) == Hydrate(data)
  {
  }

  /** Appending commutes with hydration: adding a server to a hydrated roster gives the same
      roster as hydrating the longer fetched list. */
  lemma AddServerAfterHydrate(data: seq<Server>, server: Server)
    ensures AddServer(Hydrate(data), server) == Hydrate(data + [server])
  {
    var lhs := AddServer(Hydrate(data), server);
    var rhs := Hydrate(data + [server]);
    assert forall i :: 0 <= i < |data| ==> (data + [server])[i] == data[i];
    assert lhs[|data|] == rhs[|data|];
  }

  /** The two roster transitions keep the "every status present" invariant, starting from the
      empty roster the provider is created with. */
  datatype RosterEvent = Refresh(fetched: Option<seq<Server>>) | Add(server: Server)

  function Step(roster: seq<Server>, e: RosterEvent): seq<Server> {
    match e
    case Refresh(fetched) => RefreshServers(roster, fetched)
    case Add(server) => AddServer(roster, server)
  }

  function Run(roster: seq<Server>, events: seq<RosterEvent>): seq<Server>
    decreases |events|
  {
    if |events| == 0 then roster else Run(Step(roster, events[0]), events[1..])
  }

  lemma {:induction false} RunKeepsStatuses(roster: seq<Server>, events: seq<RosterEvent>)
    requires AllHaveStatus(roster)
    ensures AllHaveStatus(Run(roster, events))
    decreases |events|
  {
    if |events| > 0 {
      var next := Step(roster, events[0]);
      assert AllHaveStatus(next);
      RunKeepsStatuses(next, events[1..]);
    }
  }

  lemma EveryRosterHasStatuses(events: seq<RosterEvent>)
    ensures AllHaveStatus(Run([], events))
  {
    RunKeepsStatuses([], events);
  }
}
