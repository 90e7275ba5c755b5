/**
 The main loop of the stdout host: while the VM runs and no exit was
 requested, poll the pipe once, render one block and write it. A trace
 supplies, for each evaluation of the loop condition, what `vm_running()`
 answers, what the pipe read returns and what the engine replies.
 */
module HostLoop {
  import opened Wrappers
  import opened Commands
  import opened Cli
  import CommandLemmas
  import CliLemmas

  /** One evaluation of the loop condition and, if it holds, one iteration's inputs. */
  datatype Tick = Tick(vmRunning: bool, read: ReadResult, engine: EngineReply)

  predicate ValidTrace(trace: seq<Tick>) {
    forall i :: 0 <= i < |trace| ==> FitsBuffer(trace[i].read)
  }

  /** Why the loop stopped, or that the trace ended while it was still running. */
  datatype LoopEnd = VmHalted | ExitRequested | TraceEnded | Aborted(fault: Fault)

  /** The blocks and samples written, the final host state, and the messages sent, in order. */
  datatype LoopRun = LoopRun(end: LoopEnd, blocks: nat, samples: nat, state: HostState, sent: seq<EngineMsg>)

  function OptionToSeq<T>(o: Option<T>): seq<T> {
    if o.Some? then [o.value] else []
  }

  /** The main loop over a trace, writing `frame` samples per block. */
  function RunLoop(trace: seq<Tick>, st: HostState, frame: nat): (r: LoopRun)
    requires ValidTrace(trace)
    ensures r.samples == r.blocks * frame
    ensures r.blocks <= |trace|
    ensures r.end == TraceEnded ==> r.blocks == |trace|
    decreases |trace|
  {
    if |trace| == 0 then LoopRun(TraceEnded, 0, 0, st, [])
    else if !trace[0].vmRunning then LoopRun(VmHalted, 0, 0, st, [])
    else if st.exitRequested then LoopRun(ExitRequested, 0, 0, st, [])
    else match CheckCommands(trace[0].read, trace[0].engine, st)
      case Failure(f) => LoopRun(Aborted(f), 0, 0, st, [])
      case Success(p) =>
        var rest := RunLoop(trace[1..], p.next, frame);
        LoopRun(rest.end, rest.blocks + 1, rest.samples + frame, rest.state, OptionToSeq(p.sent) + rest.sent)
  }

  /** The tick's read carries the command `exit`. */
  predicate RequestsExit(t: Tick)
    requires FitsBuffer(t.read)
  {
    HasBytes(t.read) && CommandText(t.read.data) == "exit"
  }

  /** The tick's read carries a command that stops the host abnormally (a `Fault`). */
  predicate Faults(t: Tick)
    requires FitsBuffer(t.read)
  {
    HasBytes(t.read) && Classify(CommandText(t.read.data)).Failure?
  }

  /**
   Where the loop stops, stated by index: every rendered iteration saw a
   running VM and a handled command, only the last one may carry `exit`,
   and the tick after the last rendered one is the reason for stopping.
   In particular the iteration that receives `exit` still writes its block.
   */
  lemma {:induction false} LoopStopsWhere(trace: seq<Tick>, st: HostState, frame: nat)
    requires ValidTrace(trace) && !st.exitRequested
    ensures var r := RunLoop(trace, st, frame);
      && (forall i :: 0 <= i < r.blocks ==> trace[i].vmRunning && !Faults(trace[i]))
      && (forall i :: 0 <= i < r.blocks - 1 ==> !RequestsExit(trace[i]))
      && (r.end == VmHalted ==> r.blocks < |trace| && !trace[r.blocks].vmRunning)
      && (r.end == ExitRequested ==>
            0 < r.blocks < |trace| && RequestsExit(trace[r.blocks - 1]) && trace[r.blocks].vmRunning)
      && (r.end.Aborted? ==>
            r.blocks < |trace| && Faults(trace[r.blocks]) && trace[r.blocks].vmRunning)
    decreases |trace|
  {
    if |trace| > 0 && trace[0].vmRunning {
      var t := trace[0];
      match CheckCommands(t.read, t.engine, st)
      case Failure(f) =>
      case Success(p) =>
        assert !Faults(t);
        assert p.next.exitRequested <==> RequestsExit(t);
        var rest := RunLoop(trace[1..], p.next, frame);
        var r := RunLoop(trace, st, frame);
        assert r.blocks == rest.blocks + 1 && r.end == rest.end;
        if p.next.exitRequested {
          assert |trace| == 1 ==> rest.end == TraceEnded;
        } else {
          LoopStopsWhere(trace[1..], p.next, frame);
          assert forall i :: 1 <= i < r.blocks ==> trace[i] == trace[1..][i - 1];
        }
    }
  }

  /** `exit` in tick k ends the loop with exactly k + 1 blocks written, the last one after `exit`. */
  lemma ExitWritesOneMoreBlock(trace: seq<Tick>, st: HostState, frame: nat, k: nat)
    requires ValidTrace(trace) && !st.exitRequested
    requires k < |trace| && RequestsExit(trace[k])
    requires forall i :: 0 <= i <= k ==> trace[i].vmRunning && !Faults(trace[i])
    requires forall i :: 0 <= i < k ==> !RequestsExit(trace[i])
    ensures RunLoop(trace, st, frame).blocks == k + 1
    ensures RunLoop(trace, st, frame).samples == (k + 1) * frame
  {
    LoopStopsWhere(trace, st, frame);
  }

  /** A VM that stops at tick k, with no exit or fault before it, ends the loop after k blocks. */
  lemma HaltStopsAtOnce(trace: seq<Tick>, st: HostState, frame: nat, k: nat)
    requires ValidTrace(trace) && !st.exitRequested
    requires k < |trace| && !trace[k].vmRunning
    requires forall i :: 0 <= i < k ==> trace[i].vmRunning && !Faults(trace[i]) && !RequestsExit(trace[i])
    ensures RunLoop(trace, st, frame).blocks == k
    ensures RunLoop(trace, st, frame).end == VmHalted
  {
    LoopStopsWhere(trace, st, frame);
  }

  /** With nothing written to the pipe, every tick renders a block and nothing else happens. */
  lemma {:induction false} IdlePolling(trace: seq<Tick>, st: HostState, frame: nat)
    requires ValidTrace(trace) && !st.exitRequested
    requires forall i :: 0 <= i < |trace| ==> trace[i].vmRunning && !HasBytes(trace[i].read)
    ensures RunLoop(trace, st, frame) == LoopRun(TraceEnded, |trace|, |trace| * frame, st, [])
    decreases |trace|
  {
    if |trace| > 0 {
      IdlePolling(trace[1..], st, frame);
    }
  }

  /**
   The exit status a parent process observes when `main` returns
   `returned`: its low eight bits, so a return of -1 is seen as 255.
   */
  function ExitStatus(returned: int): (s: nat)
    ensures s < 256 && (returned - s) % 256 == 0
  {
    returned % 256
  }

  /**
   How the process ends: an exit status; termination by an uncaught
   exception (`substr(2)` of `+`, or `new[]` of a negative length); an
   input with no defined behaviour (`front()` of an empty command); or
   still running when the trace ends.
   */
  datatype ProcessEnd = Exited(status: nat) | Terminated | UndefinedBehaviour | StillRunning

  /** The end of the process and the blocks and samples it wrote to standard output. */
  datatype Process = Process(end: ProcessEnd, blocks: nat, samples: nat)

  /**
   `main`: start-up, then the loop with blocks of `bufferSize * numChannels`
   samples; a clean stop returns 0.
   */
  function RunHost(args: seq<string>, scriptCompiles: bool, trace: seq<Tick>): (r: Process)
    requires ValidTrace(trace)
    ensures r.end.Exited? ==> r.end.status == 0 || r.end.status == 1 || r.end.status == 255
    ensures r.end == Exited(255) <==> ParseArgs(args).code == -1
    ensures r.end == UndefinedBehaviour || r.end == StillRunning ==> Startup(args, scriptCompiles).Serve?
    ensures r.blocks > 0 ==> Startup(args, scriptCompiles).Serve?
    ensures r.end == Exited(0) ==> ParseArgs(args).code == 1 || (ParseArgs(args).code == 0 && r.blocks == 0)
    ensures Startup(args, scriptCompiles).Serve? ==>
      r.samples == r.blocks * BlockLength(Startup(args, scriptCompiles).config)
  {
    match Startup(args, scriptCompiles)
    case Quit(returned) => Process(Exited(ExitStatus(returned)), 0, 0)
    case Terminate => Process(Terminated, 0, 0)
    case Serve(cfg, _) =>
      var run := RunLoop(trace, HostState(0, false), BlockLength(cfg));
      var end := match run.end
        case TraceEnded => StillRunning
        case Aborted(SubstrOutOfRange) => Terminated
        case Aborted(FrontOfEmpty) => UndefinedBehaviour
        case _ => Exited(0);
      Process(end, run.blocks, run.samples)
  }

  /**
   With no options, an `exit` written with a trailing newline in the first
   iteration stops the host cleanly after one block of 256 frames of 2
   channels.
   */
  lemma ExitScenario(eng: EngineReply, later: Tick)
    requires FitsBuffer(later.read)
    ensures RunHost([], false, [Tick(true, Read("exit\n"), eng), later])
      == Process(Exited(0), 1, 512)
  {
    assert "exit\n" == "exit" + ['\n'];
    CommandLemmas.ReadBackTerminated("exit", '\n');
    var st := HostState(0, false);
    var poll := Dispatch(Exit, eng, st);
    assert CheckCommands(Read("exit\n"), eng, st) == Success(poll);
    assert poll.next.exitRequested && poll.sent.None?;
    assert Startup([], false) == Serve(Defaults, None);
    var trace := [Tick(true, Read("exit\n"), eng), later];
    assert trace[1..] == [later];
    var rest := RunLoop([later], poll.next, 512);
    assert rest.blocks == 0 && (rest.end == VmHalted || rest.end == ExitRequested);
    assert RunLoop(trace, st, 512).blocks == 1;
  }

  /** An unknown option makes `main` return -1, which a parent sees as exit status 255. */
  lemma UnknownOptionExitStatus(opt: string, scriptCompiles: bool, trace: seq<Tick>)
    requires IsOption(opt) && opt != "-h" && !TakesValue(opt)
    requires ValidTrace(trace)
    ensures RunHost([opt], scriptCompiles, trace) == Process(Exited(255), 0, 0)
  {
    CliLemmas.UnknownOptionStops([], opt, [], Defaults);
    assert [] + [opt] + [] == [opt];
  }

  /**
   An empty line written to the pipe (`echo` with no text) reaches `front()`
   of an empty command before any block is written.
   */
  lemma EmptyLineScenario(eng: EngineReply, later: seq<Tick>)
    requires ValidTrace(later)
    ensures ValidTrace([Tick(true, Read("\n"), eng)] + later)
    ensures RunHost([], false, [Tick(true, Read("\n"), eng)] + later)
      == Process(UndefinedBehaviour, 0, 0)
  {
    var trace := [Tick(true, Read("\n"), eng)] + later;
    assert trace[0] == Tick(true, Read("\n"), eng);
    assert ValidTrace(trace) by {
      forall i | 0 <= i < |trace|
        ensures FitsBuffer(trace[i].read)
      {
        if i > 0 {
          assert trace[i] == later[i - 1];
        }
      }
    }
    assert "\n" == "" + ['\n'];
    CommandLemmas.ReadBackTerminated("", '\n');
    assert Startup([], false) == Serve(Defaults, None);
  }
}
