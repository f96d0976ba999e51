/**
 The life cycle of a crash-test child (integration-tests/src/Framework/CrashHelper.cxx): the
 object's `_pid` and `_reaped` against the kernel's view of the child, over every sequence of
 method calls that the destructor ends.

 The clock, the sentinel file and the moment at which the child dies are parameters: a poll says
 what it would find.  Assumed: the pid is not reused for another child.
 */
module ChildProcess {
  import opened Wrappers

  /** What the kernel keeps for the child: running, dead with a status to collect, or collected. */
  datatype Kernel = Alive | Zombie(status: int) | Gone

  /** What the kernel was asked to do to the child, in order. */
  datatype Event = Signalled(number: int) | Reaped(status: int)

  const SIGKILL := 9

  /** The object and the kernel together. */
  datatype State = State(reaped: bool, kernel: Kernel, log: seq<Event>)

  /** One turn of a polling loop: whether the sentinel is there, and whether the child has died by now. */
  datatype Poll = Poll(sentinel: bool, death: Option<int>)

  datatype Wait = Collected(status: int) | NotYet | Error

  // ----- the kernel -----

  function Dies(s: State, death: Option<int>): State {
    if s.kernel.Alive? && death.Some? then s.(kernel := Zombie(death.value)) else s
  }

  function Collect(s: State): State
    requires s.kernel.Zombie?
  {
    s.(kernel := Gone, log := s.log + [Reaped(s.kernel.status)])
  }

  /** `waitpid(pid, &status, WNOHANG)`. */
  function TryWait(s: State): (State, Wait) {
    match s.kernel
    case Alive => (s, NotYet)
    case Zombie(status) => (Collect(s), Collected(status))
    case Gone => (s, Error)
  }

  /** `waitpid(pid, &status, 0)`: blocks until the child dies with `death`, unless a signal interrupts it first. */
  function BlockingWait(s: State, death: int, interrupted: bool): (State, Wait) {
    if s.kernel.Alive? && interrupted then (s, Error) else TryWait(Dies(s, Some(death)))
  }

  /** `kill(pid, number)`. */
  function Signal(s: State, number: int): State {
    s.(log := s.log + [Signalled(number)])
  }

  // ----- what the methods do -----

  datatype Readiness = Ready | DiedEarly(status: int) | NeverReady

  function ReadyOutcome(s: State, polls: seq<Poll>): (State, Readiness)
    decreases |polls|
  {
    if polls == [] then (s, NeverReady)
    else if polls[0].sentinel then (s, Ready)
    else
      var (next, wait) := TryWait(Dies(s, polls[0].death));
      if wait.Collected? then (next.(reaped := true), DiedEarly(wait.status)) else ReadyOutcome(next, polls[1..])
  }

  function Killed(s: State, number: int): State {
    if s.reaped then s else Signal(s, number)
  }

  datatype ExitWait = Exited(status: int) | TimedOut | Threw

  function PollForExit(s: State, polls: seq<Poll>): (State, ExitWait)
    decreases |polls|
  {
    if polls == [] then (s, TimedOut)
    else
      var (next, wait) := TryWait(Dies(s, polls[0].death));
      match wait
      case Collected(status) => (next.(reaped := true), Exited(status))
      case Error => (next, Threw)
      case NotYet => PollForExit(next, polls[1..])
  }

  function ExitWithinOutcome(s: State, polls: seq<Poll>): (State, ExitWait) {
    if s.reaped then (s, Exited(0)) else PollForExit(s, polls)
  }

  function ExitOutcome(s: State, death: int, interrupted: bool): (State, ExitWait) {
    if s.reaped then (s, Exited(0))
    else
      var (next, wait) := BlockingWait(s, death, interrupted);
      if wait.Collected? then (next.(reaped := true), Exited(wait.status)) else (next, Threw)
  }

  /** The destructor kills and waits, and ignores the result of the wait. */
  function Destroyed(s: State, death: int, interrupted: bool): State {
    if s.reaped then s else BlockingWait(Signal(s, SIGKILL), death, interrupted).0
  }

  // ----- what the polling loops decide -----

  /** The child dies by the `i`-th poll and not before. */
  predicate DiesAt(polls: seq<Poll>, i: nat) {
    i < |polls| && polls[i].death.Some? && forall j :: 0 <= j < i ==> polls[j].death.None?
  }

  predicate NeverDies(polls: seq<Poll>) {
    forall i :: 0 <= i < |polls| ==> polls[i].death.None?
  }

  /** A wait for a live child times out exactly if the child does not die by any poll. */
  lemma {:induction false} PollTimesOut(s: State, polls: seq<Poll>)
    requires s.kernel.Alive?
    ensures PollForExit(s, polls).1 == TimedOut <==> NeverDies(polls)
    decreases |polls|
  {
    if polls != [] && polls[0].death.None? {
      PollTimesOut(s, polls[1..]);
      assert polls == [polls[0]] + polls[1..];
    }
  }

  /** Otherwise it ends with the status of that death. */
  lemma {:induction false} PollEnds(s: State, polls: seq<Poll>, i: nat)
    requires s.kernel.Alive? && DiesAt(polls, i)
    ensures PollForExit(s, polls).1 == Exited(polls[i].death.value)
    decreases |polls|
  {
    if i > 0 {
      PollEnds(s, polls[1..], i - 1);
    }
  }

  /** A dead child is found at the first poll. */
  lemma PollFindsDead(s: State, polls: seq<Poll>)
    requires s.kernel.Zombie? && polls != []
    ensures PollForExit(s, polls).1 == Exited(s.kernel.status)
  {
  }

  /** The sentinel is there at the `i`-th poll, and neither it nor a death before. */
  predicate ReadyAt(polls: seq<Poll>, i: nat) {
    i < |polls| && polls[i].sentinel && forall j :: 0 <= j < i ==> !polls[j].sentinel && polls[j].death.None?
  }

  /** The child dies by the `i`-th poll, which does not find the sentinel, and neither was before. */
  predicate EarlyAt(polls: seq<Poll>, i: nat) {
    && DiesAt(polls, i) && forall j :: 0 <= j <= i ==> !polls[j].sentinel
  }

  predicate NeitherComes(polls: seq<Poll>) {
    forall i :: 0 <= i < |polls| ==> !polls[i].sentinel && polls[i].death.None?
  }

  /** A live child is ready at the first sentinel. */
  lemma {:induction false} ReadyComes(s: State, polls: seq<Poll>, i: nat)
    requires s.kernel.Alive? && ReadyAt(polls, i)
    ensures ReadyOutcome(s, polls).1 == Ready
    decreases |polls|
  {
    if i > 0 {
      ReadyComes(s, polls[1..], i - 1);
    }
  }

  /** It has died early if a death comes first. */
  lemma {:induction false} DeathComes(s: State, polls: seq<Poll>, i: nat)
    requires s.kernel.Alive? && EarlyAt(polls, i)
    ensures ReadyOutcome(s, polls).1 == DiedEarly(polls[i].death.value)
    decreases |polls|
  {
    if i > 0 {
      DeathComes(s, polls[1..], i - 1);
    }
  }

  /** And it never gets ready exactly if neither comes. */
  lemma {:induction false} NothingComes(s: State, polls: seq<Poll>)
    requires s.kernel.Alive?
    ensures ReadyOutcome(s, polls).1 == NeverReady <==> NeitherComes(polls)
    decreases |polls|
  {
    if polls != [] && !polls[0].sentinel && polls[0].death.None? {
      NothingComes(s, polls[1..]);
      assert polls == [polls[0]] + polls[1..];
    }
  }

  // ----- the class -----

  /** `State` as the object that the scenarios hold. */
  class Child {
    var reaped: bool
    var kernel: Kernel
    var log: seq<Event>

    function View(): State
      reads this
    {
      State(reaped, kernel, log)
    }

    /** After a successful fork. */
    constructor ()
      ensures View() == State(false, Alive, [])
    {
      reaped, kernel, log := false, Alive, [];
    }

    method WaitPidNoHang() returns (wait: Wait)
      modifies this`kernel, this`log
      ensures (View(), wait) == TryWait(old(View()))
    {
      match kernel {
        case Alive =>
          wait := NotYet;
        case Zombie(status) =>
          wait, kernel, log := Collected(status), Gone, log + [Reaped(status)];
        case Gone =>
          wait := Error;
      }
    }

    method ChildMayDie(death: Option<int>)
      modifies this`kernel
      ensures View() == Dies(old(View()), death)
    {
      if kernel.Alive? && death.Some? {
        kernel := Zombie(death.value);
      }
    }

    method WaitUntilReady(polls: seq<Poll>) returns (r: Readiness)
      modifies this
      ensures r.DiedEarly? ==> reaped && kernel.Gone? && log == old(log) + [Reaped(r.status)]
      ensures !r.DiedEarly? ==> reaped == old(reaped) && log == old(log)
      ensures r.Ready? ==> exists i :: 0 <= i < |polls| && polls[i].sentinel
      ensures r.NeverReady? ==> forall i :: 0 <= i < |polls| ==> !polls[i].sentinel
      ensures old(kernel).Alive? ==> (r.NeverReady? <==> NeitherComes(polls))
      ensures old(kernel).Alive? ==> forall i: nat :: ReadyAt(polls, i) ==> r == Ready
      ensures old(kernel).Alive? ==> forall i: nat :: EarlyAt(polls, i) ==> r == DiedEarly(polls[i].death.value)
      ensures (View(), r) == ReadyOutcome(old(View()), polls)
    {
      if kernel.Alive? {
        NothingComes(View(), polls);
        forall i: nat | ReadyAt(polls, i) {
          ReadyComes(View(), polls, i);
        }
        forall i: nat | EarlyAt(polls, i) {
          DeathComes(View(), polls, i);
        }
      }
      var i := 0;
      while i < |polls|
        invariant 0 <= i <= |polls|
        invariant reaped == old(reaped) && log == old(log) && forall j :: 0 <= j < i ==> !polls[j].sentinel
        invariant ReadyOutcome(View(), polls[i..]) == ReadyOutcome(old(View()), polls)
      {
        assert polls[i..][0] == polls[i] && polls[i..][1..] == polls[i + 1..];
        if polls[i].sentinel {
          return Ready;
        }
        ChildMayDie(polls[i].death);
        var wait := WaitPidNoHang();
        if wait.Collected? {
          reaped := true;
          return DiedEarly(wait.status);
        }
        i := i + 1;
      }
      return NeverReady;
    }

    method Kill(number: int)
      modifies this`log
      ensures log == old(log) + if reaped then [] else [Signalled(number)]
      ensures View() == Killed(old(View()), number)
    {
      if !reaped {
        log := log + [Signalled(number)];
      }
    }

    method WaitForExitWithin(polls: seq<Poll>) returns (r: ExitWait)
      modifies this
      ensures old(reaped) ==> r == Exited(0) && View() == old(View())
      ensures !old(reaped) && r.Exited? ==> reaped && kernel.Gone? && log == old(log) + [Reaped(r.status)]
      ensures !r.Exited? ==> reaped == old(reaped) && log == old(log)
      ensures r.Threw? ==> kernel.Gone?
      ensures !old(reaped) && old(kernel).Alive? ==> (r == TimedOut <==> NeverDies(polls))
      ensures !old(reaped) && old(kernel).Alive? ==> forall i: nat :: DiesAt(polls, i) ==> r == Exited(polls[i].death.value)
      ensures !old(reaped) && old(kernel).Zombie? && polls != [] ==> r == Exited(old(kernel).status)
      ensures (View(), r) == ExitWithinOutcome(old(View()), polls)
    {
      if kernel.Alive? {
        PollTimesOut(View(), polls);
        forall i: nat | DiesAt(polls, i) {
          PollEnds(View(), polls, i);
        }
      }
      if reaped {
        return Exited(0);
      }
      var i := 0;
      assert polls[0..] == polls;
      while i < |polls|
        invariant 0 <= i <= |polls| && !reaped && log == old(log)
        invariant PollForExit(View(), polls[i..]) == PollForExit(old(View()), polls)
      {
        assert polls[i..][0] == polls[i] && polls[i..][1..] == polls[i + 1..];
        ChildMayDie(polls[i].death);
        var wait := WaitPidNoHang();
        if wait.Collected? {
          reaped := true;
          return Exited(wait.status);
        }
        if wait.Error? {
          return Threw;
        }
        i := i + 1;
      }
      return TimedOut;
    }

    method WaitForExit(death: int, interrupted: bool) returns (r: ExitWait)
      modifies this
      ensures old(reaped) ==> r == Exited(0) && View() == old(View())
      ensures !old(reaped) && r.Exited? ==> reaped && kernel.Gone? && log == old(log) + [Reaped(r.status)]
      ensures !old(reaped) && r.Exited? ==> r.status == if old(kernel).Zombie? then old(kernel).status else death
      ensures r.Threw? ==> View() == old(View()) && (kernel.Gone? || (kernel.Alive? && interrupted))
      ensures (View(), r) == ExitOutcome(old(View()), death, interrupted)
    {
      if reaped {
        return Exited(0);
      }
      if kernel.Alive? && interrupted {
        return Threw;
      }
      ChildMayDie(Some(death));
      var wait := WaitPidNoHang();
      if !wait.Collected? {
        return Threw;
      }
      reaped := true;
      return Exited(wait.status);
    }

    method Destroy(death: int, interrupted: bool)
      modifies this`kernel, this`log
      ensures reaped ==> kernel == old(kernel) && log == old(log)
      ensures !reaped && old(kernel).Alive? && interrupted ==> kernel.Alive? && log == old(log) + [Signalled(9)]
      ensures !reaped && !old(kernel).Gone? && !(old(kernel).Alive? && interrupted) ==>
                var status := if old(kernel).Zombie? then old(kernel).status else death;
                kernel.Gone? && log == old(log) + [Signalled(9), Reaped(status)]
      ensures View() == Destroyed(old(View()), death, interrupted)
    {
      if !reaped {
        log := log + [Signalled(SIGKILL)];
        if kernel.Alive? && interrupted {
          return;
        }
        ChildMayDie(Some(death));
        var _ := WaitPidNoHang();
      }
    }
  }

  // ----- every sequence of calls -----

  datatype Call =
    | CallWaitUntilReady(polls: seq<Poll>)
    | CallKill(number: int)
    | CallWaitForExitWithin(polls: seq<Poll>)
    | CallWaitForExit(death: int, interrupted: bool)
    | Elapse(exit: Option<int>)

  function Apply(s: State, call: Call): State {
    match call
    case CallWaitUntilReady(polls) => ReadyOutcome(s, polls).0
    case CallKill(number) => Killed(s, number)
    case CallWaitForExitWithin(polls) => ExitWithinOutcome(s, polls).0
    case CallWaitForExit(death, interrupted) => ExitOutcome(s, death, interrupted).0
    case Elapse(exit) => Dies(s, exit)
  }

  function ApplyAll(s: State, calls: seq<Call>): State
    decreases |calls|
  {
    if calls == [] then s else ApplyAll(Apply(s, calls[0]), calls[1..])
  }

  const FORKED := State(false, Alive, [])

  predicate OnlySignals(log: seq<Event>) {
    forall i :: 0 <= i < |log| ==> log[i].Signalled?
  }

  /** Signals first, then one collection, then nothing. */
  predicate ReapedOnceAtEnd(log: seq<Event>) {
    log != [] && log[|log| - 1].Reaped? && OnlySignals(log[..|log| - 1])
  }

  /** The object knows exactly whether the child has been collected, and never touches it afterwards. */
  predicate Invariant(s: State) {
    && (s.reaped <==> s.kernel.Gone?)
    && (if s.kernel.Gone? then ReapedOnceAtEnd(s.log) else OnlySignals(s.log))
  }

  lemma CollectKeepsInvariant(s: State)
    requires Invariant(s) && s.kernel.Zombie?
    ensures Invariant(Collect(s).(reaped := true))
  {
    var next := Collect(s);
    assert next.log[..|next.log| - 1] == s.log;
  }

  lemma {:induction false} ReadyKeepsInvariant(s: State, polls: seq<Poll>)
    requires Invariant(s)
    ensures Invariant(ReadyOutcome(s, polls).0)
    decreases |polls|
  {
    if polls != [] && !polls[0].sentinel {
      var t := Dies(s, polls[0].death);
      if t.kernel.Zombie? {
        CollectKeepsInvariant(t);
      } else {
        ReadyKeepsInvariant(t, polls[1..]);
      }
    }
  }

  lemma {:induction false} PollKeepsInvariant(s: State, polls: seq<Poll>)
    requires Invariant(s)
    ensures Invariant(PollForExit(s, polls).0)
    decreases |polls|
  {
    if polls != [] {
      var t := Dies(s, polls[0].death);
      if t.kernel.Zombie? {
        CollectKeepsInvariant(t);
      } else if t.kernel.Alive? {
        PollKeepsInvariant(t, polls[1..]);
      }
    }
  }

  lemma CallKeepsInvariant(s: State, call: Call)
    requires Invariant(s)
    ensures Invariant(Apply(s, call))
  {
    match call {
      case CallWaitUntilReady(polls) => ReadyKeepsInvariant(s, polls);
      case CallKill(_) =>
      case CallWaitForExitWithin(polls) => PollKeepsInvariant(s, polls);
      case CallWaitForExit(death, interrupted) =>
        if !s.reaped && !(s.kernel.Alive? && interrupted) {
          CollectKeepsInvariant(Dies(s, Some(death)));
        }
      case Elapse(_) =>
    }
  }

  /** Before destruction, `_reaped` holds exactly when the kernel has given the child up. */
  lemma {:induction false} CallsKeepInvariant(s: State, calls: seq<Call>)
    requires Invariant(s)
    ensures Invariant(ApplyAll(s, calls))
    decreases |calls|
  {
    hide Invariant, Apply;
    if calls != [] {
      CallKeepsInvariant(s, calls[0]);
      CallsKeepInvariant(Apply(s, calls[0]), calls[1..]);
    }
  }

  /**
   Every life of a child object, however its calls end: no signal follows the collection of the
   child, which happens at most once.  It happens, and no zombie is left, if and only if the
   child had been collected before, or the destructor's wait is not interrupted while the child
   is still dying.
   */
  lemma EveryLifeEndsReaped(calls: seq<Call>, death: int, interrupted: bool)
    ensures var last := ApplyAll(FORKED, calls);
            var end := Destroyed(last, death, interrupted);
            && (last.reaped <==> last.kernel.Gone?)
            && (last.reaped ==> end == last)
            && (end.kernel.Gone? <==> last.reaped || !last.kernel.Alive? || !interrupted)
            && (if end.kernel.Gone? then ReapedOnceAtEnd(end.log) else OnlySignals(end.log))
            && last.log <= end.log
  {
    hide ApplyAll;
    CallsKeepInvariant(FORKED, calls);
    var last := ApplyAll(FORKED, calls);
    if !last.reaped {
      var killed := Signal(last, SIGKILL);
      assert Invariant(killed);
      if !(killed.kernel.Alive? && interrupted) {
        CollectKeepsInvariant(Dies(killed, Some(death)));
      }
    }
  }

  /** A wait that returns normally for a child not yet collected returns the status the child died with. */
  lemma StatusIsTheChilds(s: State, death: int, interrupted: bool)
    requires Invariant(s) && !s.reaped
    ensures var (next, r) := ExitOutcome(s, death, interrupted);
            && (r.Exited? ==> next.log == s.log + [Reaped(r.status)] && r.status == (if s.kernel.Zombie? then s.kernel.status else death))
            && (r.Threw? <==> s.kernel.Alive? && interrupted)
            && (r.Threw? ==> next == s)
  {
  }

  /** The same on the object itself: any calls, then the destructor. */
  method LiveAndDie(calls: seq<Call>, death: int) returns (child: Child)
    ensures fresh(child)
    ensures child.View() == Destroyed(ApplyAll(FORKED, calls), death, false)
    ensures child.kernel.Gone? && ReapedOnceAtEnd(child.log)
  {
    hide ReapedOnceAtEnd, ReadyOutcome, ExitWithinOutcome, ExitOutcome, Killed, Destroyed;
    child := new Child();
    for i := 0 to |calls|
      invariant fresh(child)
      invariant ApplyAll(child.View(), calls[i..]) == ApplyAll(FORKED, calls)
    {
      assert calls[i..][0] == calls[i] && calls[i..][1..] == calls[i + 1..];
      match calls[i] {
        case CallWaitUntilReady(polls) =>
          var _ := child.WaitUntilReady(polls);
        case CallKill(number) =>
          child.Kill(number);
        case CallWaitForExitWithin(polls) =>
          var _ := child.WaitForExitWithin(polls);
        case CallWaitForExit(exit, interrupted) =>
          var _ := child.WaitForExit(exit, interrupted);
        case Elapse(exit) =>
          child.ChildMayDie(exit);
      }
    }
    EveryLifeEndsReaped(calls, death, false);
    child.Destroy(death, false);
  }
}
