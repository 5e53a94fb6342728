/** The log feed of `LogContext`: each received log goes to the head of the list. */
module LogStore {
  import opened Seqs

  datatype LogLevel = Error | Warning | Info

  /** One server log line; the timestamp is kept as an opaque number. */
  datatype ServerLog = ServerLog(serverCode: string, serverName: string, level: LogLevel, message: string, timestamp: int)

  /** `addLog`: the new log first, then the previous list unchanged. */
  function AddLog(logs: seq<ServerLog>, log: ServerLog): (r: seq<ServerLog>)
    ensures |r| == |logs| + 1
    ensures r[0] == log
    ensures r[1..] == logs
  {
    [log] + logs
  }

  /** The store after receiving `received` in order, one `addLog` each. */
  function ReceiveAll(logs: seq<ServerLog>, received: seq<ServerLog>): seq<ServerLog>
    decreases |received|
  {
    if |received| == 0 then logs else ReceiveAll(AddLog(logs, received[0]), received[1..])
  }

  /** Logs received in sequence end up newest first, in front of what was already there. */
  lemma {:induction false} ReceiveAllNewestFirst(logs: seq<ServerLog>, received: seq<ServerLog>)
    ensures ReceiveAll(logs, received) == Reverse(received) + logs
    decreases |received|
  {
    if |received| > 0 {
      ReceiveAllNewestFirst(AddLog(logs, received[0]), received[1..]);
      assert Reverse(received) == Reverse(received[1..]) + [received[0]];
    }
  }
}
