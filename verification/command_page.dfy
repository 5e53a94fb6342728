/** The command page: submitting a command to a server and collecting the results it reports. */
module CommandPage {
  import opened Options
  import opened Text
  import opened ServerTypes

  datatype CommandResult = CommandResult(serverCode: string, serverName: string, command: string, result: string, timestamp: string)

  /** The toast messages, by string-table key. */
  datatype CommandToast = EmptyError | ServerNotFound

  function ToastKey(t: CommandToast): string {
    match t
    case EmptyError => "command.error.empty"
    case ServerNotFound => "command.error.serverNotFound"
  }

  /** The page state: selected server code ("" for none), the command input, the result history
      (newest first), the executing flag, and the last toast. */
  datatype CommandState = CommandState(
    selected: string,
    command: string,
    history: seq<CommandResult>,
    isExecuting: bool,
    toast: Option<CommandToast>)

  const Initial := CommandState("", "", [], false, None)

  /** The outbound `command` message. */
  datatype Sent = Sent(serverCode: string, command: string)

  /** `handleCommandSubmit` against the current roster. */
  function Submit(st: CommandState, servers: seq<Server>): (r: (CommandState, Option<Sent>))
    ensures (st.selected == "" || Trim(st.command) == "") ==>
              r.1.None? && r.0 == st.(toast := Some(EmptyError))
    ensures st.selected != "" && Trim(st.command) != "" && FindByCode(servers, st.selected).None? ==>
              r.1.None? && r.0 == st.(toast := Some(ServerNotFound))
    ensures r.1.Some? <==> st.selected != "" && Trim(st.command) != "" && FindByCode(servers, st.selected).Some?
    ensures r.1.Some? ==> r.1.value == Sent(st.selected, Trim(st.command))
    ensures r.1.Some? ==> r.0 == st.(command := "", isExecuting := true)
  {
    if st.selected == "" || Trim(st.command) == "" then (st.(toast := Some(EmptyError)), None)
    else if FindByCode(servers, st.selected).None? then (st.(toast := Some(ServerNotFound)), None)
    else (st.(command := "", isExecuting := true), Some(Sent(st.selected, Trim(st.command))))
  }

  /** A `command_show` reply. */
  datatype Reply = Reply(serverCode: string, result: string, command: string)

  /** The `command_show` handler: a reply for a known server is put at the head of the history
      under that server's code and name; any reply ends the execution. `now` is the local time
      string the handler stamps the entry with. */
  function OnReply(st: CommandState, servers: seq<Server>, reply: Reply, now: string): (r: CommandState)
    ensures !r.isExecuting
    ensures r.selected == st.selected && r.command == st.command && r.toast == st.toast
    ensures FindByCode(servers, reply.serverCode).None? ==> r.history == st.history
    ensures FindByCode(servers, reply.serverCode).Some? ==>
              |r.history| == |st.history| + 1 && r.history[1..] == st.history
              && r.history[0].serverCode == reply.serverCode
              && r.history[0].serverName == FindByCode(servers, reply.serverCode).value.name
              && r.history[0].command == reply.command && r.history[0].result == reply.result
  {
    match FindByCode(servers, reply.serverCode)
    case None => st.(isExecuting := false)
    case Some(server) =>
      st.(history := [CommandResult(server.code, server.name, reply.command, reply.result, now)] + st.history,
          isExecuting := false)
  }

  /** A whitespace-only command is refused like an empty one. */
  lemma BlankCommandRefused(st: CommandState, servers: seq<Server>)
    requires forall i :: 0 <= i < |st.command| ==> IsJsSpace(st.command[i])
    ensures Submit(st, servers).1.None?
    ensures Submit(st, servers).0.isExecuting == st.isExecuting
  {
    TrimEmptyIffBlank(st.command);
  }

  /** Replies received in turn: the history grows at the head, keeping earlier entries behind. */
  function OnReplies(st: CommandState, servers: seq<Server>, replies: seq<Reply>, now: string): CommandState
    decreases |replies|
  {
    if |replies| == 0 then st else OnReplies(OnReply(st, servers, replies[0], now), servers, replies[1..], now)
  }

  lemma {:induction false} EarlierHistoryKept(st: CommandState, servers: seq<Server>, replies: seq<Reply>, now: string)
    ensures |OnReplies(st, servers, replies, now).history| >= |st.history|
    ensures var h := OnReplies(st, servers, replies, now).history;
            h[|h| - |st.history|..] == st.history
    decreases |replies|
  {
    if |replies| > 0 {
      var next := OnReply(st, servers, replies[0], now);
      EarlierHistoryKept(next, servers, replies[1..], now);
      var h := OnReplies(st, servers, replies, now).history;
      assert next.history[|next.history| - |st.history|..] == st.history;
      assert h[|h| - |st.history|..] == h[|h| - |next.history|..][|next.history| - |st.history|..];
    }
  }
}
