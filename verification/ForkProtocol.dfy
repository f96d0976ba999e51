/**
 The fork-per-scenario protocol of the runner (integration-tests/src/Main.cxx): a child runs
 the scenario and sends its failure message through a pipe, the parent drains the pipe to
 end-of-file and then waits for the child.

 The protocol is a state machine over the system calls of the two processes, for any pipe
 capacity of at least one byte.  A read or write may move any part of what it could move, any
 call may be interrupted by a signal, and the child may be killed at any moment.
 Assumed: only the forked child inherits the write end, and `EINTR` is the only I/O error.
 */
module ForkProtocol {
  import opened Wrappers

  /** How the scenario ends in the child (`RunScenarioInProcess`). */
  datatype Outcome = Passes | Fails(message: string)

  /** A wait status: a normal exit or a death by signal. */
  datatype Status = Code(code: nat) | Signal(number: nat)

  datatype Child =
    | Forked
    | Initialising
    | Running
    | Writing
    | Closing
    | Exiting
    | Dead(status: Status)

  datatype Parent =
    | ClosingWriteEnd
    | Reading
    | ClosingReadEnd
    | Waiting
    | Finished(report: Report)

  /** A `ScenarioResult`: passed, or failed with a message of one of four forms. */
  datatype Report = Passed | FailedWith(message: string) | ExitedWith(code: nat) | KilledBy(number: nat, message: string)

  datatype Config = Config(outcome: Outcome, capacity: nat)

  const READ_BUFFER: nat := 4096

  /**
   `written` counts the bytes that `write` has accepted; `received` is the parent's buffer; `left` is
   history: the scenario ended the child itself.
   */
  datatype State = State(
    child: Child,
    parent: Parent,
    childReads: bool,
    childWrites: bool,
    parentReads: bool,
    parentWrites: bool,
    pipe: string,
    written: nat,
    received: string,
    left: bool)

  const INITIAL := State(Forked, ClosingWriteEnd, true, true, true, true, "", 0, "", false)

  datatype Step =
    | CloseInheritedReadEnd
    | InitialiseEngine(ok: bool)
    | RunScenario
    | LeaveEarly(code: nat)
    | Write(count: nat)
    | WriteInterrupted
    | WriteToBrokenPipe
    | FinishWriting
    | CloseChildEnd
    | Exit
    | Kill(number: nat)
    | CloseInheritedWriteEnd
    | Read(count: nat)
    | ReadInterrupted
    | ReadEof
    | CloseParentEnd
    | WaitInterrupted
    | Reap

  predicate IsInterrupt(step: Step) {
    step.WriteInterrupted? || step.ReadInterrupted? || step.WaitInterrupted?
  }

  function Message(c: Config): string {
    if c.outcome.Passes? then "" else c.outcome.message
  }

  /** How the parent turns a wait status and what it has read into a result. */
  function Decode(status: Status, received: string): Report {
    match status
    case Code(code) =>
      if code == 0 then Passed else if received != "" then FailedWith(received) else ExitedWith(code)
    case Signal(number) => KilledBy(number, received)
  }

  predicate Enabled(c: Config, s: State, step: Step) {
    match step
    case CloseInheritedReadEnd => s.child.Forked?
    case InitialiseEngine(_) => s.child.Initialising?
    case RunScenario => s.child.Running?
    case LeaveEarly(_) => s.child.Running?
    case Write(n) =>
      && s.child.Writing? && (s.parentReads || s.childReads)
      && 1 <= n <= |Message(c)| - s.written && n <= c.capacity - |s.pipe|
    case WriteInterrupted => s.child.Writing? && s.written < |Message(c)|
    case WriteToBrokenPipe => s.child.Writing? && s.written < |Message(c)| && !s.parentReads && !s.childReads
    case FinishWriting => s.child.Writing? && s.written >= |Message(c)|
    case CloseChildEnd => s.child.Closing?
    case Exit => s.child.Exiting?
    case Kill(_) => !s.child.Dead?
    case CloseInheritedWriteEnd => s.parent.ClosingWriteEnd?
    case Read(n) => s.parent.Reading? && 1 <= n <= |s.pipe| && n <= READ_BUFFER
    case ReadInterrupted => s.parent.Reading?
    case ReadEof => s.parent.Reading? && s.pipe == "" && !s.childWrites && !s.parentWrites
    case CloseParentEnd => s.parent.ClosingReadEnd?
    case WaitInterrupted => s.parent.Waiting?
    case Reap => s.parent.Waiting? && s.child.Dead?
  }

  /** A process that ends closes its descriptors. */
  function Die(s: State, status: Status): State {
    s.(child := Dead(status), childReads := false, childWrites := false)
  }

  function Next(c: Config, s: State, step: Step): State
    requires Enabled(c, s, step)
  {
    match step
    case CloseInheritedReadEnd => s.(child := Initialising, childReads := false)
    case InitialiseEngine(ok) => if ok then s.(child := Running) else Die(s, Code(2))
    case RunScenario => s.(child := if Message(c) == "" then Closing else Writing)
    case LeaveEarly(code) => Die(s, Code(code)).(left := true)
    case Write(n) => s.(pipe := s.pipe + Message(c)[s.written..s.written + n], written := s.written + n)
    case WriteInterrupted => s
    case WriteToBrokenPipe => Die(s, Signal(13))
    case FinishWriting => s.(child := Closing)
    case CloseChildEnd => s.(child := Exiting, childWrites := false)
    case Exit => Die(s, Code(if c.outcome.Passes? then 0 else 1))
    case Kill(number) => Die(s, Signal(number))
    case CloseInheritedWriteEnd => s.(parent := Reading, parentWrites := false)
    case Read(n) => s.(pipe := s.pipe[n..], received := s.received + s.pipe[..n])
    case ReadInterrupted => s
    case ReadEof => s.(parent := ClosingReadEnd)
    case CloseParentEnd => s.(parent := Waiting, parentReads := false)
    case WaitInterrupted => s
    case Reap => s.(parent := Finished(Decode(s.child.status, s.received)))
  }

  /** The state after the given steps from `s`, if each of them is possible when its turn comes. */
  function Run(c: Config, s: State, steps: seq<Step>): Option<State>
    decreases |steps|
  {
    if steps == [] then Some(s)
    else if Enabled(c, s, steps[0]) then Run(c, Next(c, s, steps[0]), steps[1..])
    else None
  }

  predicate Reaches(c: Config, steps: seq<Step>, s: State) {
    Run(c, INITIAL, steps) == Some(s)
  }

  // ----- what every step keeps -----

  /** The ways a child can die, and what it must have written by then. */
  predicate DeathExplained(c: Config, s: State) {
    s.child.Dead? ==>
      match s.child.status
      case Signal(_) => true
      case Code(code) =>
        || ((code == 2 || s.left) && s.written == 0)
        || (code == (if c.outcome.Passes? then 0 else 1) && s.written == |Message(c)|)
  }

  /** No byte is lost: what the parent has and what is in the pipe is what was written. */
  predicate BytesInvariant(c: Config, s: State) {
    && |s.pipe| <= c.capacity && s.written <= |Message(c)|
    && s.received + s.pipe == Message(c)[..s.written]
  }

  predicate ControlInvariant(c: Config, s: State) {
    && (s.child.Forked? || s.child.Initialising? || s.child.Running? ==> s.written == 0)
    && (s.child.Closing? || s.child.Exiting? ==> s.written == |Message(c)|)
    && (s.childReads <==> s.child.Forked?)
    && (s.childWrites <==> !s.child.Exiting? && !s.child.Dead?)
    && (s.parentWrites <==> s.parent.ClosingWriteEnd?)
    && (s.parentReads <==> s.parent.ClosingWriteEnd? || s.parent.Reading? || s.parent.ClosingReadEnd?)
    && (!s.parent.ClosingWriteEnd? && !s.parent.Reading? ==> s.pipe == "" && !s.childWrites)
    && (s.left ==> s.child.Dead? && s.written == 0) && DeathExplained(c, s)
    && (s.parent.Finished? ==> s.child.Dead? && s.parent.report == Decode(s.child.status, s.received))
  }

  predicate Invariant(c: Config, s: State) {
    BytesInvariant(c, s) && ControlInvariant(c, s)
  }

  lemma Regroup(a: string, b: string, c: string)
    ensures (a + b) + c == a + (b + c)
  {
  }

  lemma WriteKeepsBytes(c: Config, s: State, n: nat)
    requires BytesInvariant(c, s) && Enabled(c, s, Write(n))
    ensures BytesInvariant(c, Next(c, s, Write(n)))
  {
    hide Message;
    var piece := Message(c)[s.written..s.written + n];
    assert Message(c)[..s.written + n] == Message(c)[..s.written] + piece;
    Regroup(s.received, s.pipe, piece);
  }

  lemma ReadKeepsBytes(c: Config, s: State, n: nat)
    requires BytesInvariant(c, s) && Enabled(c, s, Read(n))
    ensures BytesInvariant(c, Next(c, s, Read(n)))
  {
    hide Message;
    assert s.pipe == s.pipe[..n] + s.pipe[n..];
    Regroup(s.received, s.pipe[..n], s.pipe[n..]);
  }

  lemma TransferKeepsControl(c: Config, s: State, step: Step)
    requires Invariant(c, s) && Enabled(c, s, step) && (step.Write? || step.Read?)
    ensures ControlInvariant(c, Next(c, s, step))
  {
    hide Message, Decode, BytesInvariant;
  }

  lemma InvariantParts(c: Config, s: State)
    ensures Invariant(c, s) <==> BytesInvariant(c, s) && ControlInvariant(c, s)
  {
    hide BytesInvariant, ControlInvariant;
  }

  /** Steps that do not touch the pipe's contents. */
  lemma OtherStep(c: Config, s: State, step: Step)
    requires Invariant(c, s) && Enabled(c, s, step) && !step.Write? && !step.Read?
    ensures Invariant(c, Next(c, s, step))
  {
    hide Message, Decode;
    assert step.FinishWriting? ==> s.written == |Message(c)|;
  }

  lemma StepKeepsInvariant(c: Config, s: State, step: Step)
    requires Invariant(c, s) && Enabled(c, s, step)
    ensures Invariant(c, Next(c, s, step))
  {
    hide Invariant, BytesInvariant, ControlInvariant, Enabled, Next;
    match step {
      case Write(n) =>
        InvariantParts(c, s);
        WriteKeepsBytes(c, s, n);
        TransferKeepsControl(c, s, step);
        InvariantParts(c, Next(c, s, step));
      case Read(n) =>
        InvariantParts(c, s);
        ReadKeepsBytes(c, s, n);
        TransferKeepsControl(c, s, step);
        InvariantParts(c, Next(c, s, step));
      case _ =>
        OtherStep(c, s, step);
    }
  }

  lemma {:induction false} RunKeepsInvariant(c: Config, s: State, steps: seq<Step>)
    requires Invariant(c, s) && Run(c, s, steps).Some?
    ensures Invariant(c, Run(c, s, steps).value)
    decreases |steps|
  {
    hide Invariant, Enabled, Next;
    if steps != [] {
      StepKeepsInvariant(c, s, steps[0]);
      RunKeepsInvariant(c, Next(c, s, steps[0]), steps[1..]);
    }
  }

  lemma ReachableInvariant(c: Config, steps: seq<Step>, s: State)
    requires Reaches(c, steps, s)
    ensures Invariant(c, s)
  {
    hide Run;
    assert Invariant(c, INITIAL);
    RunKeepsInvariant(c, INITIAL, steps);
  }

  // ----- safety -----

  /** No byte is lost, duplicated or reordered, at any moment of any run. */
  lemma NothingLost(c: Config, steps: seq<Step>, s: State)
    requires Reaches(c, steps, s)
    ensures s.written <= |Message(c)| && s.received + s.pipe == Message(c)[..s.written]
  {
    ReachableInvariant(c, steps, s);
  }

  /** The child never writes into a pipe that nobody can read. */
  lemma PipeNeverBroken(c: Config, steps: seq<Step>, s: State)
    requires Reaches(c, steps, s)
    ensures !Enabled(c, s, WriteToBrokenPipe)
  {
    ReachableInvariant(c, steps, s);
  }

  /** What the result of a run must be, from the way the child ended and what it had written. */
  predicate Faithful(c: Config, s: State, status: Status, report: Report)
    requires s.written <= |Message(c)|
  {
    match status
    case Code(code) =>
      if code == 0 then (c.outcome.Passes? || s.left) && report == Passed
      else if code == 1 && c.outcome.Fails? && c.outcome.message != "" && !s.left then report == FailedWith(c.outcome.message)
      else report == ExitedWith(code)
    case Signal(number) => report == KilledBy(number, Message(c)[..s.written])
  }

  /**
   At the end of every run the parent reports a pass exactly when the child exited with 0, which
   only a passing scenario does or one that ends the child itself with 0; otherwise the whole
   message of a child that failed, and all that a killed child had written.
   */
  lemma ReportIsFaithful(c: Config, steps: seq<Step>, s: State)
    requires Reaches(c, steps, s)
    requires s.parent.Finished?
    ensures s.child.Dead? && s.written <= |Message(c)| && Faithful(c, s, s.child.status, s.parent.report)
    ensures s.parent.report == Passed <==> s.child.status == Code(0)
    ensures s.child.status == Code(0) ==> c.outcome.Passes? || s.left
  {
    ReachableInvariant(c, steps, s);
    assert s.received == s.received + s.pipe;
    assert Message(c)[..|Message(c)|] == Message(c);
    assert Message(c)[..s.written] <= Message(c);
  }

  /**
   When the parent can see end-of-file it holds every byte that was written, and the whole message of
   a child that ended by itself after its scenario returned.
   */
  lemma EofMeansComplete(c: Config, steps: seq<Step>, s: State)
    requires Reaches(c, steps, s)
    ensures Enabled(c, s, ReadEof) ==> s.written <= |Message(c)| && s.received == Message(c)[..s.written]
    ensures Enabled(c, s, ReadEof) && Returned(s) ==> s.received == Message(c)
  {
    hide Run;
    ReachableInvariant(c, steps, s);
    assert s.pipe == "" ==> s.received == s.received + s.pipe;
    assert Message(c)[..|Message(c)|] == Message(c);
  }

  /** The child has got past its scenario, and was not killed afterwards. */
  predicate Returned(s: State) {
    s.child.Exiting? || (s.child.Dead? && s.child.status.Code? && s.child.status.code != 2 && !s.left)
  }

  // ----- progress -----

  /** What one of the two processes can do next, while the parent has not finished. */
  function Progress(c: Config, s: State): Step {
    match s.parent
    case ClosingWriteEnd => CloseInheritedWriteEnd
    case Reading =>
      if s.pipe != "" then Read(1)
      else (match s.child
            case Forked => CloseInheritedReadEnd
            case Initialising => InitialiseEngine(true)
            case Running => RunScenario
            case Writing => if s.written < |Message(c)| then Write(1) else FinishWriting
            case Closing => CloseChildEnd
            case _ => ReadEof)
    case ClosingReadEnd => CloseParentEnd
    case _ => if s.child.Dead? then Reap else Exit
  }

  /** It is possible, and neither an interruption nor a kill, in any state the parent has not finished in. */
  lemma ProgressIsPossible(c: Config, s: State)
    requires c.capacity >= 1 && Invariant(c, s) && !s.parent.Finished?
    ensures var step := Progress(c, s); Enabled(c, s, step) && !IsInterrupt(step) && !step.Kill?
  {
    hide Message, Decode;
  }

  /** No reachable state is deadlocked, whatever the capacity of the pipe and the length of the message. */
  lemma NoDeadlock(c: Config, steps: seq<Step>, s: State)
    requires c.capacity >= 1
    requires Reaches(c, steps, s)
    ensures s.parent.Finished? || exists step :: Enabled(c, s, step) && !IsInterrupt(step) && !step.Kill?
  {
    ReachableInvariant(c, steps, s);
    if !s.parent.Finished? {
      ProgressIsPossible(c, s);
    }
  }

  function ChildRank(child: Child): nat {
    match child
    case Forked => 6
    case Initialising => 5
    case Running => 4
    case Writing => 3
    case Closing => 2
    case Exiting => 1
    case Dead(_) => 0
  }

  function ParentRank(parent: Parent): nat {
    match parent
    case ClosingWriteEnd => 4
    case Reading => 3
    case ClosingReadEnd => 2
    case Waiting => 1
    case Finished(_) => 0
  }

  /** A byte still to be written costs two moves, a byte in the pipe one. */
  function Remaining(c: Config, s: State): nat
    requires s.written <= |Message(c)|
  {
    2 * (|Message(c)| - s.written) + |s.pipe| + ChildRank(s.child) + ParentRank(s.parent)
  }

  /** A step that moves no byte takes one of the processes further. */
  lemma ControlAdvances(c: Config, s: State, step: Step)
    requires Enabled(c, s, step) && !IsInterrupt(step) && !step.Write? && !step.Read?
    ensures var t := Next(c, s, step);
            && t.pipe == s.pipe && t.written == s.written
            && ChildRank(t.child) + ParentRank(t.parent) < ChildRank(s.child) + ParentRank(s.parent)
  {
    hide Message, Decode;
    var t := Next(c, s, step);
    match step {
      case CloseInheritedWriteEnd => assert t.child == s.child && ParentRank(t.parent) == 3;
      case ReadEof => assert t.child == s.child && ParentRank(t.parent) == 2;
      case CloseParentEnd => assert t.child == s.child && ParentRank(t.parent) == 1;
      case Reap => assert t.child == s.child && ParentRank(t.parent) == 0;
      case CloseInheritedReadEnd => assert t.parent == s.parent && ChildRank(t.child) == 5;
      case RunScenario => assert t.parent == s.parent && ChildRank(t.child) <= 3;
      case FinishWriting => assert t.parent == s.parent && ChildRank(t.child) == 2;
      case CloseChildEnd => assert t.parent == s.parent && ChildRank(t.child) == 1;
      case InitialiseEngine(_) => assert t.parent == s.parent && ChildRank(t.child) <= 4;
      case Exit => assert t.parent == s.parent && ChildRank(t.child) == 0;
      case Kill(_) => assert t.parent == s.parent && ChildRank(t.child) == 0;
      case LeaveEarly(_) => assert t.parent == s.parent && ChildRank(t.child) == 0;
      case WriteToBrokenPipe => assert t.parent == s.parent && ChildRank(t.child) == 0;
      case _ =>
    }
  }

  lemma WriteAdvances(c: Config, s: State, n: nat)
    requires Enabled(c, s, Write(n))
    ensures var t := Next(c, s, Write(n));
            |t.pipe| == |s.pipe| + n && t.written == s.written + n <= |Message(c)| && t.child == s.child && t.parent == s.parent
  {
    hide Message;
  }

  lemma ReadAdvances(c: Config, s: State, n: nat)
    requires Enabled(c, s, Read(n))
    ensures var t := Next(c, s, Read(n));
            |t.pipe| == |s.pipe| - n && t.written == s.written && t.child == s.child && t.parent == s.parent
  {
  }

  lemma StepMakesProgress(c: Config, s: State, step: Step)
    requires Invariant(c, s) && Enabled(c, s, step)
    ensures Next(c, s, step).written <= |Message(c)|
    ensures IsInterrupt(step) ==> Next(c, s, step) == s
    ensures !IsInterrupt(step) ==> Remaining(c, Next(c, s, step)) < Remaining(c, s)
  {
    assert s.written <= |Message(c)|;
    assert step.Write? ==> step.count >= 1;
    assert step.Read? ==> step.count >= 1;
    assert IsInterrupt(step) ==> Next(c, s, step) == s;
    hide Invariant, Message, Next, Enabled, ChildRank, ParentRank;
    if step.Write? {
      WriteAdvances(c, s, step.count);
    } else if step.Read? {
      ReadAdvances(c, s, step.count);
    } else if !IsInterrupt(step) {
      ControlAdvances(c, s, step);
    }
  }

  function Moves(steps: seq<Step>): nat {
    if steps == [] then 0 else (if IsInterrupt(steps[0]) then 0 else 1) + Moves(steps[1..])
  }

  lemma {:induction false} RunIsBounded(c: Config, s: State, steps: seq<Step>)
    requires Invariant(c, s) && Run(c, s, steps).Some?
    ensures Invariant(c, Run(c, s, steps).value)
    ensures Moves(steps) + Remaining(c, Run(c, s, steps).value) <= Remaining(c, s)
    decreases |steps|
  {
    hide Enabled, Next, Remaining;
    if steps != [] {
      StepKeepsInvariant(c, s, steps[0]);
      StepMakesProgress(c, s, steps[0]);
      RunIsBounded(c, Next(c, s, steps[0]), steps[1..]);
    }
  }

  /** However the two processes interleave, a run has at most two moves per byte and ten more. */
  lemma RunsAreBounded(c: Config, steps: seq<Step>, s: State)
    requires Reaches(c, steps, s)
    ensures Moves(steps) <= 2 * |Message(c)| + 10
  {
    hide Run;
    assert Invariant(c, INITIAL);
    RunIsBounded(c, INITIAL, steps);
  }

  /** From every reachable state the parent can still finish, without help from a signal. */
  lemma {:induction false} CanFinish(c: Config, s: State) returns (steps: seq<Step>)
    requires c.capacity >= 1 && Invariant(c, s)
    ensures Run(c, s, steps).Some? && Run(c, s, steps).value.parent.Finished?
    ensures forall i :: 0 <= i < |steps| ==> !IsInterrupt(steps[i]) && !steps[i].Kill?
    decreases Remaining(c, s)
  {
    hide Enabled, Next;
    if s.parent.Finished? {
      steps := [];
    } else {
      var step := Progress(c, s);
      ProgressIsPossible(c, s);
      StepKeepsInvariant(c, s, step);
      StepMakesProgress(c, s, step);
      var rest := CanFinish(c, Next(c, s, step));
      steps := [step] + rest;
      assert steps[1..] == rest;
    }
  }
}
