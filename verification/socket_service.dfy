/** `SocketService`: the socket handle, the sockets earlier `connect` calls left open, and the
    single slot holding the roster-update callback. */
module SocketService {
  import opened Options
  import opened ServerTypes

  /** A callback, identified the way `===` compares JavaScript functions: by identity. */
  datatype Callback = Callback(identity: nat)

  /** `connected` says whether `socket` is non-null; `stray` counts the sockets that a later
      `connect` replaced without disconnecting them, which stay open with their 'update'
      listener; `statsCallback` is the one registered callback. */
  datatype SocketState = SocketState(stray: nat, connected: bool, statsCallback: Option<Callback>)

  /** The module-level instance before `connect`. */
  const Initial := SocketState(0, false, None)

  /** The open sockets, each with its own 'update' listener. */
  function LiveSockets(st: SocketState): nat {
    st.stray + if st.connected then 1 else 0
  }

  /** `connect`: a new socket with its own 'update' listener becomes the handle. A socket the
      handle held before is overwritten but not disconnected, so it stays live. The callback slot
      is untouched. */
  function Connect(st: SocketState): (r: SocketState)
    ensures r.connected && r.statsCallback == st.statsCallback
    ensures LiveSockets(r) == LiveSockets(st) + 1
  {
    if st.connected then st.(stray := st.stray + 1) else st.(connected := true)
  }

  /** `onServerStats`: the slot now holds `cb`, whatever it held before. */
  function OnServerStats(st: SocketState, cb: Callback): (r: SocketState)
    ensures r.statsCallback == Some(cb)
    ensures r.connected == st.connected
  {
    st.(statsCallback := Some(cb))
  }

  /** `offServerStats`: the slot is cleared only if it holds `cb` itself. */
  function OffServerStats(st: SocketState, cb: Callback): (r: SocketState)
    ensures st.statsCallback == Some(cb) ==> r == st.(statsCallback := None)
    ensures st.statsCallback != Some(cb) ==> r == st
  {
    if st.statsCallback == Some(cb) then st.(statsCallback := None) else st
  }

  /** `disconnect`: close the socket the handle holds; with no socket this is a no-op. Sockets
      replaced by an earlier `connect` stay open, and the callback slot is kept. */
  function Disconnect(st: SocketState): (r: SocketState)
    ensures !r.connected
    ensures r.stray == st.stray && r.statsCallback == st.statsCallback
    ensures LiveSockets(r) == LiveSockets(st) - (if st.connected then 1 else 0)
    ensures !st.connected ==> r == st
  {
    if st.connected then st.(connected := false) else st
  }

  /** A delivery of an 'update' payload to a callback. */
  datatype Delivery = Delivery(target: Callback, servers: seq<Server>)

  /** An 'update' broadcast: every live socket's listener forwards the payload to whatever
      callback the slot holds when it fires, and drops it when the slot is empty. */
  function OnUpdate(st: SocketState, servers: seq<Server>): (r: seq<Delivery>)
    ensures |r| == if st.statsCallback.Some? then LiveSockets(st) else 0
    ensures forall d | d in r :: d == Delivery(st.statsCallback.value, servers)
  {
    if st.statsCallback.Some? then seq(LiveSockets(st), _ => Delivery(st.statsCallback.value, servers)) else []
  }

  /** Registering and then unregistering the same callback empties the slot, whatever it held. */
  lemma OnThenOffEmpties(st: SocketState, cb: Callback)
    ensures OffServerStats(OnServerStats(st, cb), cb).statsCallback.None?
  {
  }

  /** A stale unregister cannot remove a newer callback: after `on(b)`, `off(a)` with a != b
      leaves `b` in place, so updates keep reaching `b` alone. */
  lemma StaleOffKeepsNewer(st: SocketState, a: Callback, b: Callback, servers: seq<Server>)
    requires a != b && LiveSockets(st) > 0
    ensures var r := OnUpdate(OffServerStats(OnServerStats(st, b), a), servers);
            |r| == LiveSockets(st) && forall d | d in r :: d == Delivery(b, servers)
  {
  }

  /** With one socket connected and a callback registered, an update reaches the callback once. */
  lemma ConnectDeliversOnce(cb: Callback, servers: seq<Server>)
    ensures OnUpdate(OnServerStats(Connect(Initial), cb), servers) == [Delivery(cb, servers)]
  {
  }

  /** Connecting twice without disconnecting leaves two sockets listening, so every update reaches
      the callback twice; a `disconnect` then closes only the newer socket, and updates keep
      arriving through the older one. */
  lemma ReconnectDeliversTwice(cb: Callback, servers: seq<Server>)
    ensures OnUpdate(OnServerStats(Connect(Connect(Initial)), cb), servers) == [Delivery(cb, servers), Delivery(cb, servers)]
    ensures OnUpdate(Disconnect(OnServerStats(Connect(Connect(Initial)), cb)), servers) == [Delivery(cb, servers)]
  {
  }

  /** Disconnecting after a single connect silences updates. */
  lemma ConnectDisconnectSilences(st: SocketState, servers: seq<Server>)
    requires LiveSockets(st) == 0
    ensures OnUpdate(Disconnect(Connect(st)), servers) == []
  {
  }

  /** Disconnecting twice is disconnecting once. */
  lemma DisconnectIdempotent(st: SocketState)
    ensures Disconnect(Disconnect(st)) == Disconnect(st)
  {
  }
}
