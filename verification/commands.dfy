/**
 The command pipe of the stdout host: one `read` of at most 255 bytes is one
 command record; its text is classified in a fixed order and dispatched to
 the engine. Engine calls are represented by their replies (`EngineReply`)
 and by the calls and messages the host makes (`CompileCall`, `EngineMsg`).
 */
module Commands {
  import opened Wrappers
  import opened Text
  import opened Numeric

  /** The bytes one `read` may return: the 256-byte buffer less one. */
  const ReadSize: nat := 255

  /** What one `read` on the pipe returned: an error (-1), or its bytes (none at end of file). */
  datatype ReadResult = ReadError | Read(data: seq<char>)

  predicate HasBytes(rd: ReadResult) {
    rd.Read? && |rd.data| > 0
  }

  /** A character that stands for one byte of the pipe. */
  predicate IsByte(c: char) {
    c as int < 256
  }

  /** `read` returns bytes, and never more of them than it was asked for. */
  predicate FitsBuffer(rd: ReadResult) {
    rd.Read? ==> |rd.data| <= ReadSize && forall i :: 0 <= i < |rd.data| ==> IsByte(rd.data[i])
  }

  /**
   The command text of a read of `data`: its last byte is overwritten by a
   NUL (a writer's trailing newline is dropped that way) and the C string
   ends at the first NUL.
   */
  function CommandText(data: seq<char>): (cmd: string)
    requires 1 <= |data| <= ReadSize
    ensures |cmd| < |data| && |cmd| <= ReadSize - 1
    ensures cmd == data[..|cmd|] && Nul !in cmd
    ensures |cmd| < |data| - 1 ==> data[|cmd|] == Nul
  {
    TakeUntilNul(data[..|data| - 1])
  }

  /** The classified command. */
  datatype Command =
    | Exit
    | Eval(code: string)
    | Add(pathWithArgs: string)
    | Remove(id: ULong)
    | RemoveBadFormat
    | RemoveBadId(token: string)
    | Status
    | StartTime
    | Unrecognized(cmd: string)

  /**
   Command texts that stop the host abnormally: `front()` of an empty string
   is undefined behaviour; `substr(2)` of the one-character command `+`
   throws `std::out_of_range`, which nothing catches, so `std::terminate`
   ends the process.
   */
  datatype Fault = FrontOfEmpty | SubstrOutOfRange

  /** The marker that selects radix 16 for a shred id: a lower-case `0x` only. */
  const HexMarker: string := "0x"

  /** The prefix of the start-time query. */
  const StartTimeQuery: string := "get_vm_start_time()"

  /** A shred id token: radix 16 when it starts with `0x`, radix 10 otherwise. */
  function ParseShredId(token: string): (r: Result<ULong, ConversionError>)
    ensures r.Success? ==> exists i :: 0 <= i < |token| && IsDigit(token[i], Hex)
    ensures r.Success? && !StartsWith(token, HexMarker) ==>
      exists i :: 0 <= i < |token| && IsDigit(token[i], Decimal)
  {
    StrToUL(token, if StartsWith(token, HexMarker) then Hex else Decimal)
  }

  /** A `-` command: the id token is everything after the first space. */
  function ParseRemove(cmd: string): (c: Command)
    ensures c.RemoveBadFormat? <==> ' ' !in cmd
    ensures c.Remove? || c.RemoveBadFormat? || c.RemoveBadId?
  {
    match Find(cmd, ' ')
    case None => RemoveBadFormat
    case Some(space) =>
      var token := cmd[space + 1..];
      match ParseShredId(token)
      case Success(id) => Remove(id)
      case Failure(_) => RemoveBadId(token)
  }

  /**
   The dispatch order of the command handler: exact `exit`; braces around
   code; a leading `+`, `-` or `^`; the start-time query; anything else.
   */
  function Classify(cmd: string): (r: Result<Command, Fault>)
    ensures r == Success(Exit) <==> cmd == "exit"
    ensures r == Failure(FrontOfEmpty) <==> cmd == ""
    ensures r == Failure(SubstrOutOfRange) <==> cmd == "+"
    ensures r.Success? && r.value.Eval? ==> cmd == "{" + r.value.code + "}"
    ensures r.Success? && r.value.Add? ==>
      |cmd| >= 2 && cmd[0] == '+' && cmd[2..] == r.value.pathWithArgs
    ensures r.Success? && (r.value.Remove? || r.value.RemoveBadFormat? || r.value.RemoveBadId?)
      <==> |cmd| > 0 && cmd[0] == '-'
    ensures r == Success(Status) <==> |cmd| > 0 && cmd[0] == '^'
    ensures r == Success(StartTime) <==> StartsWith(cmd, StartTimeQuery)
    ensures r.Success? && r.value.Unrecognized? ==>
      r.value.cmd == cmd && cmd != "exit" && |cmd| > 0
      && !(cmd[0] == '{' && cmd[|cmd| - 1] == '}')
      && cmd[0] !in "+-^" && !StartsWith(cmd, StartTimeQuery)
  {
    if cmd == "exit" then Success(Exit)
    else if |cmd| == 0 then Failure(FrontOfEmpty)
    else if cmd[0] == '{' && cmd[|cmd| - 1] == '}' then
      assert cmd == "{" + cmd[1..|cmd| - 1] + "}";
      Success(Eval(cmd[1..|cmd| - 1]))
    else if cmd[0] == '+' then
      if |cmd| < 2 then Failure(SubstrOutOfRange) else Success(Add(cmd[2..]))
    else if cmd[0] == '-' then Success(ParseRemove(cmd))
    else if cmd[0] == '^' then Success(Status)
    else if StartsWith(cmd, StartTimeQuery) then Success(StartTime)
    else Success(Unrecognized(cmd))
  }

  /** What the engine answers this iteration: whether the compile call succeeds, and `last_id()`. */
  datatype EngineReply = EngineReply(compileOk: bool, lastId: ULong)

  /** A synchronous compile request: inline code, or a file with its `:`-separated arguments. */
  datatype CompileCall = CompileCode(code: string) | CompileFile(pathWithArgs: string)

  /**
   A message handed to the engine: an ADD is processed at once
   (`process_msg`), a REMOVE or STATUS is queued (`queue_msg`).
   */
  datatype EngineMsg = AddShred(pathWithArgs: string) | RemoveShred(param: ULong) | StatusQuery

  /** The host's own state: the last shred id it echoes, and the exit flag. */
  datatype HostState = HostState(shredId: ULong, exitRequested: bool)

  /** One poll of the pipe: the command seen, the engine calls made, the new state, and whether the pipe was drained. */
  datatype Poll = Poll(
    command: Option<Command>,
    compile: Option<CompileCall>,
    sent: Option<EngineMsg>,
    next: HostState,
    drained: bool)

  /** The handlers that return before the drain: a failed `+` compile, a `-` without a space, a bad id. */
  predicate SkipsDrain(c: Command, eng: EngineReply) {
    (c.Add? && !eng.compileOk) || c.RemoveBadFormat? || c.RemoveBadId?
  }

  /** The effect of one classified command. */
  function Dispatch(c: Command, eng: EngineReply, st: HostState): (p: Poll)
    ensures p.command == Some(c)
    ensures p.drained <==> !SkipsDrain(c, eng)
    ensures p.next.exitRequested <==> st.exitRequested || c == Exit
    ensures p.next.shredId == if c.Eval? && eng.compileOk then eng.lastId else st.shredId
    ensures p.compile.Some? <==> c.Eval? || c.Add?
    ensures c.Eval? ==> p.compile == Some(CompileCode(c.code))
    ensures c.Add? ==> p.compile == Some(CompileFile(c.pathWithArgs))
    ensures p.sent.Some? <==> (c.Add? && eng.compileOk) || c.Remove? || c == Status
    ensures p.sent.Some? ==> match c
      case Add(path) => p.sent.value == AddShred(path)
      case Remove(id) => p.sent.value == RemoveShred(id)
      case _ => p.sent.value == StatusQuery
  {
    match c
    case Exit => Poll(Some(c), None, None, st.(exitRequested := true), true)
    case Eval(code) =>
      var next := if eng.compileOk then st.(shredId := eng.lastId) else st;
      Poll(Some(c), Some(CompileCode(code)), None, next, true)
    case Add(path) =>
      if eng.compileOk then Poll(Some(c), Some(CompileFile(path)), Some(AddShred(path)), st, true)
      else Poll(Some(c), Some(CompileFile(path)), None, st, false)
    case Remove(id) => Poll(Some(c), None, Some(RemoveShred(id)), st, true)
    case RemoveBadFormat => Poll(Some(c), None, None, st, false)
    case RemoveBadId(_) => Poll(Some(c), None, None, st, false)
    case Status => Poll(Some(c), None, Some(StatusQuery), st, true)
    case StartTime => Poll(Some(c), None, None, st, true)
    case Unrecognized(_) => Poll(Some(c), None, None, st, true)
  }

  /** A poll that found nothing: no command, no engine call, no drain. */
  function Idle(st: HostState): Poll {
    Poll(None, None, None, st, false)
  }

  /** The command handler run once per loop iteration. */
  function CheckCommands(rd: ReadResult, eng: EngineReply, st: HostState): (r: Result<Poll, Fault>)
    requires FitsBuffer(rd)
    ensures !HasBytes(rd) ==> r == Success(Idle(st))
    ensures HasBytes(rd) ==> match Classify(CommandText(rd.data))
      case Success(c) => r.Success? && r.value.command == Some(c)
      case Failure(f) => r == Failure(f)
  {
    if !HasBytes(rd) then Success(Idle(st))
    else
      var c :- Classify(CommandText(rd.data));
      Success(Dispatch(c, eng, st))
  }
}
