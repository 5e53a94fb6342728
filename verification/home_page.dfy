/** The derived views of `HomePage`: the summary totals and the issue and warning lists. */
module HomePage {
  import opened Options
  import opened ServerTypes
  import opened Seqs

  /** The `stats` object. Averages are exact rationals here. */
  datatype Stats = Stats(
    total: nat,
    connected: nat,
    disconnected: nat,
    avgCpu: real,
    avgMemory: real,
    totalProcesses: nat,
    runningProcesses: nat)

  /** Number of servers whose status is exactly `status`. */
  function CountStatus(servers: seq<Server>, status: string): nat {
    if |servers| == 0 then 0
    else (if servers[0].status == Some(status) then 1 else 0) + CountStatus(servers[1..], status)
  }

  function SumCpu(servers: seq<Server>): real {
    if |servers| == 0 then 0.0 else servers[0].cpu + SumCpu(servers[1..])
  }

  function SumMemory(servers: seq<Server>): real {
    if |servers| == 0 then 0.0 else servers[0].memory + SumMemory(servers[1..])
  }

  /** `s.processes?.length ?? 0`. */
  function ProcessCount(s: Server): nat {
    if s.processes.Some? then |s.processes.value| else 0
  }

  function CountRunning(ps: seq<Process>): nat {
    if |ps| == 0 then 0 else (if ps[0].status == Running then 1 else 0) + CountRunning(ps[1..])
  }

  /** `s.status === status`, as the predicate of a `filter`. */
  function StatusIs(status: string): Server -> bool {
    (s: Server) => s.status == Some(status)
  }

  /** `p.status === 'running'`. */
  predicate IsRunning(p: Process) {
    p.status == Running
  }

  /** The status count is the length of the filtered list. */
  lemma {:induction false} CountStatusIsFilterLength(servers: seq<Server>, status: string)
    ensures CountStatus(servers, status) == |Filter(servers, StatusIs(status))|
  {
    if |servers| > 0 {
      CountStatusIsFilterLength(servers[1..], status);
      FilterStep(servers, StatusIs(status));
    }
  }

  /** The running count is the length of the filtered process list. */
  lemma {:induction false} CountRunningIsFilterLength(ps: seq<Process>)
    ensures CountRunning(ps) == |Filter(ps, IsRunning)|
  {
    if |ps| > 0 {
      CountRunningIsFilterLength(ps[1..]);
      FilterStep(ps, IsRunning);
    }
  }

  /** `s.processes?.filter(p => p.status === 'running').length ?? 0`. */
  function RunningCount(s: Server): (r: nat)
    ensures s.processes.Some? ==> r == |Filter(s.processes.value, IsRunning)|
    ensures s.processes.None? ==> r == 0
  {
    if s.processes.Some? then
      CountRunningIsFilterLength(s.processes.value);
      CountRunning(s.processes.value)
    else 0
  }

  function SumProcesses(servers: seq<Server>): nat {
    if |servers| == 0 then 0 else ProcessCount(servers[0]) + SumProcesses(servers[1..])
  }

  function SumRunning(servers: seq<Server>): nat {
    if |servers| == 0 then 0 else RunningCount(servers[0]) + SumRunning(servers[1..])
  }

  /** The summary the page renders from the fetched list. The status counts are the lengths of
      the filtered lists and the process counts are the per-server sums. */
  function ComputeStats(servers: seq<Server>): (r: Stats)
    ensures r.total == |servers|
    ensures r.connected == |Filter(servers, StatusIs(Connected))|
    ensures r.disconnected == |Filter(servers, StatusIs(Disconnected))|
    ensures |servers| == 0 ==> r.avgCpu == 0.0 && r.avgMemory == 0.0
    ensures r.totalProcesses == SumProcesses(servers) && r.runningProcesses == SumRunning(servers)
  {
    CountStatusIsFilterLength(servers, Connected);
    CountStatusIsFilterLength(servers, Disconnected);
    var n := |servers|;
    Stats(
      n,
      CountStatus(servers, Connected),
      CountStatus(servers, Disconnected),
      if n > 0 then SumCpu(servers) / (n as real) else 0.0,
      if n > 0 then SumMemory(servers) / (n as real) else 0.0,
      if n > 0 then SumProcesses(servers) else 0,
      if n > 0 then SumRunning(servers) else 0)
  }

  /** Every sum over the list grows by the appended server's share. */
  lemma {:induction false} SumsAppend(servers: seq<Server>, x: Server, status: string)
    ensures CountStatus(servers + [x], status) == CountStatus(servers, status) + (if x.status == Some(status) then 1 else 0)
    ensures SumProcesses(servers + [x]) == SumProcesses(servers) + ProcessCount(x)
    ensures SumRunning(servers + [x]) == SumRunning(servers) + RunningCount(x)
  {
    if |servers| > 0 {
      assert (servers + [x])[1..] == servers[1..] + [x];
      SumsAppend(servers[1..], x, status);
    }
  }

  /** The summary is built server by server: appending a server adds one to its status count,
      adds its process-list length (0 when missing) to the total processes and its running
      processes to the running count. */
  lemma StatsAppend(servers: seq<Server>, x: Server)
    ensures var before, after := ComputeStats(servers), ComputeStats(servers + [x]);
            after.total == before.total + 1
            && after.connected == before.connected + (if x.status == Some(Connected) then 1 else 0)
            && after.disconnected == before.disconnected + (if x.status == Some(Disconnected) then 1 else 0)
            && after.totalProcesses == before.totalProcesses + ProcessCount(x)
            && after.runningProcesses == before.runningProcesses + RunningCount(x)
  {
    SumsAppend(servers, x, Connected);
    SumsAppend(servers, x, Disconnected);
    CountStatusIsFilterLength(servers, Connected);
    CountStatusIsFilterLength(servers, Disconnected);
    CountStatusIsFilterLength(servers + [x], Connected);
    CountStatusIsFilterLength(servers + [x], Disconnected);
    assert |servers + [x]| == |servers| + 1;
  }

  /** Connected and disconnected count different servers, so together they never exceed the total. */
  lemma {:induction false} StatusCountsBounded(servers: seq<Server>)
    ensures CountStatus(servers, Connected) + CountStatus(servers, Disconnected) <= |servers|
  {
    if |servers| > 0 {
      StatusCountsBounded(servers[1..]);
    }
  }

  lemma {:induction false} RunningAtMostAll(ps: seq<Process>)
    ensures CountRunning(ps) <= |ps|
  {
    if |ps| > 0 {
      RunningAtMostAll(ps[1..]);
    }
  }

  /** A server never has more running processes than processes; summed over the list. */
  lemma {:induction false} RunningAtMostTotal(servers: seq<Server>)
    ensures SumRunning(servers) <= SumProcesses(servers)
  {
    if |servers| > 0 {
      RunningAtMostTotal(servers[1..]);
      if servers[0].processes.Some? {
        RunningAtMostAll(servers[0].processes.value);
      }
    }
  }

  /** The bounds of the summary taken together. */
  lemma StatsBounds(servers: seq<Server>)
    ensures ComputeStats(servers).connected + ComputeStats(servers).disconnected <= ComputeStats(servers).total
    ensures ComputeStats(servers).runningProcesses <= ComputeStats(servers).totalProcesses
  {
    StatusCountsBounded(servers);
    RunningAtMostTotal(servers);
  }

  lemma {:induction false} SumCpuBounds(servers: seq<Server>, lo: real, hi: real)
    requires forall i :: 0 <= i < |servers| ==> lo <= servers[i].cpu <= hi
    ensures (|servers| as real) * lo <= SumCpu(servers) <= (|servers| as real) * hi
  {
    if |servers| > 0 {
      SumCpuBounds(servers[1..], lo, hi);
    }
  }

  /** The average CPU lies within the range of the individual values. */
  lemma AvgCpuWithinRange(servers: seq<Server>, lo: real, hi: real)
    requires |servers| > 0
    requires forall i :: 0 <= i < |servers| ==> lo <= servers[i].cpu <= hi
    ensures lo <= ComputeStats(servers).avgCpu <= hi
  {
    SumCpuBounds(servers, lo, hi);
    var n := |servers| as real;
    assert SumCpu(servers) / n >= lo by {
      assert SumCpu(servers) >= n * lo;
    }
    assert SumCpu(servers) / n <= hi by {
      assert SumCpu(servers) <= n * hi;
    }
  }

  /** The issue-list condition. */
  predicate IsIssue(s: Server) {
    s.status == Some(Disconnected) || s.cpu > 80.0 || s.memory > 8192.0
  }

  /** The warning-list condition. */
  predicate IsWarning(s: Server) {
    s.status == Some(Connected) && ((60.0 < s.cpu <= 80.0) || (6144.0 < s.memory <= 8192.0))
  }

  function Issues(servers: seq<Server>): seq<Server> {
    Filter(servers, IsIssue)
  }

  function Warnings(servers: seq<Server>): seq<Server> {
    Filter(servers, IsWarning)
  }

  /** The issue list holds exactly the servers that are disconnected, or above 80% CPU, or above
      8192 MB memory, every copy of each, in their original order. */
  lemma IssuesExact(servers: seq<Server>)
    ensures forall s :: s in Issues(servers) <==>
              s in servers && (s.status == Some(Disconnected) || s.cpu > 80.0 || s.memory > 8192.0)
    ensures forall s :: multiset(Issues(servers))[s] == if IsIssue(s) then multiset(servers)[s] else 0
    ensures Subsequence(Issues(servers), servers)
  {
    FilterIsSubsequence(servers, IsIssue);
  }

  /** The warning list holds exactly the connected servers with CPU in (60, 80] or memory in
      (6144, 8192], every copy of each, in their original order. */
  lemma WarningsExact(servers: seq<Server>)
    ensures forall s :: s in Warnings(servers) <==>
              s in servers && s.status == Some(Connected)
              && ((60.0 < s.cpu <= 80.0) || (6144.0 < s.memory <= 8192.0))
    ensures forall s :: multiset(Warnings(servers))[s] == if IsWarning(s) then multiset(servers)[s] else 0
    ensures Subsequence(Warnings(servers), servers)
  {
    FilterIsSubsequence(servers, IsWarning);
  }

  /** A connected server within both comfort thresholds is in neither list. */
  lemma HealthyInNeitherList(servers: seq<Server>, s: Server)
    requires s.status == Some(Connected) && s.cpu <= 60.0 && s.memory <= 6144.0
    ensures s !in Issues(servers) && s !in Warnings(servers)
  {
  }

  /** The two lists can overlap: a connected server above 80% CPU whose memory is in the warning
      band is listed both as an issue and as a warning. */
  lemma IssueAndWarningOverlap()
    ensures var s := Server(1, "A", "a", "10.0.0.1", Some(22), Some(Connected), 90.0, 7000.0, None);
            s in Issues([s]) && s in Warnings([s])
  {
    var s := Server(1, "A", "a", "10.0.0.1", Some(22), Some(Connected), 90.0, 7000.0, None);
    assert Issues([s]) == [s];
    assert Warnings([s]) == [s];
  }
}
