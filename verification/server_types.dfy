/** The server record the pages and stores read, with only the fields the code touches. */
module ServerTypes {
  import opened Options

  datatype ProcessStatus = Running | Stopped

  datatype Process = Process(id: int, name: string, status: ProcessStatus)

  /** A monitored agent server as the backend reports it. `status` is `None` when the backend
      omitted it; `Some("")` is the other falsy value the roster code guards against. `port` is
      `None` when absent, and `processes` is `None` when the backend sent no list. cpu is a
      percentage and memory a number of megabytes. */
  datatype Server = Server(
    id: int,
    code: string,
    name: string,
    ip: string,
    port: Option<nat>,
    status: Option<string>,
    cpu: real,
    memory: real,
    processes: Option<seq<Process>>)

  const Connected := "connected"
  const Disconnected := "disconnected"

  /** JavaScript truthiness of the status field. */
  predicate HasStatus(s: Server) {
    s.status.Some? && s.status.value != ""
  }

  /** `servers.find(s => s.code === code)`: the first server with that code. */
  function FindByCode(servers: seq<Server>, code: string): (r: Option<Server>)
    ensures r.None? <==> forall i :: 0 <= i < |servers| ==> servers[i].code != code
    ensures r.Some? ==> exists i :: 0 <= i < |servers| && servers[i] == r.value
                                    && forall j :: 0 <= j < i ==> servers[j].code != code
    ensures r.Some? ==> r.value.code == code
  {
    if |servers| == 0 then None
    else if servers[0].code == code then Some(servers[0])
    else
      var r := FindByCode(servers[1..], code);
      assert r.Some? ==> exists i :: 0 <= i < |servers[1..]| && servers[1..][i] == r.value
                                    && forall j :: 0 <= j < i ==> servers[1..][j].code != code;
      r
  }
}
