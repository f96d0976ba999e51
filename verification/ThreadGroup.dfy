/**
 The thread group of the concurrency scenarios (integration-tests/src/Framework/ThreadGroup.cxx)
 as a state machine over the steps of its workers and of the thread that owns the group.

 A worker either returns, or throws, takes the exception lock, records its exception if none is
 recorded, and releases the lock.  `Join` waits for the workers one by one, clears the group
 and rethrows what was recorded.
 */
module ThreadGroup {
  import opened Wrappers

  type Exception = nat

  /** `Done` remembers how the worker's callable ended. */
  datatype Worker =
    | Active
    | Caught(exception: Exception)
    | Locking(exception: Exception)
    | Unlocking(exception: Exception)
    | Done(threw: Option<Exception>)

  /**
   `workers`, `firstException` and `lock` are the group's fields; `joining` is how many workers
   `Join` has waited for, if it is running.  `lockOrder` is history: the workers in the order in
   which they took the lock since the group was last empty.
   */
  datatype Group = Group(
    workers: seq<Worker>,
    firstException: Option<Exception>,
    lock: Option<nat>,
    joining: Option<nat>,
    lockOrder: seq<nat>)

  const FRESH := Group([], None, None, None, [])

  datatype Step =
    | Launch(count: nat)
    | Return(worker: nat)
    | Throw(worker: nat, exception: Exception)
    | Acquire(worker: nat)
    | RecordFirst(worker: nat)
    | Release(worker: nat)
    | BeginJoin
    | JoinWorker
    | EndJoin

  predicate Enabled(g: Group, step: Step) {
    match step
    case Launch(_) => g.joining.None?
    case Return(i) => i < |g.workers| && g.workers[i].Active?
    case Throw(i, _) => i < |g.workers| && g.workers[i].Active?
    case Acquire(i) => i < |g.workers| && g.workers[i].Caught? && g.lock.None?
    case RecordFirst(i) => i < |g.workers| && g.workers[i].Locking?
    case Release(i) => i < |g.workers| && g.workers[i].Unlocking?
    case BeginJoin => g.joining.None?
    case JoinWorker => g.joining.Some? && g.joining.value < |g.workers| && g.workers[g.joining.value].Done?
    case EndJoin => g.joining.Some? && g.joining.value >= |g.workers|
  }

  function Next(g: Group, step: Step): Group
    requires Enabled(g, step)
  {
    match step
    case Launch(count) => g.(workers := g.workers + seq(count, i => Active))
    case Return(i) => g.(workers := g.workers[i := Done(None)])
    case Throw(i, e) => g.(workers := g.workers[i := Caught(e)])
    case Acquire(i) =>
      g.(workers := g.workers[i := Locking(g.workers[i].exception)], lock := Some(i), lockOrder := g.lockOrder + [i])
    case RecordFirst(i) =>
      var e := g.workers[i].exception;
      g.(workers := g.workers[i := Unlocking(e)],
         firstException := if g.firstException.None? then Some(e) else g.firstException)
    case Release(i) => g.(workers := g.workers[i := Done(Some(g.workers[i].exception))], lock := None)
    case BeginJoin => g.(joining := Some(0))
    case JoinWorker => g.(joining := Some(g.joining.value + 1))
    case EndJoin => g.(workers := [], firstException := None, joining := None, lockOrder := [])
  }

  function Run(g: Group, steps: seq<Step>): Option<Group>
    decreases |steps|
  {
    if steps == [] then Some(g)
    else if Enabled(g, steps[0]) then Run(Next(g, steps[0]), steps[1..])
    else None
  }

  predicate Reaches(steps: seq<Step>, g: Group) {
    Run(FRESH, steps) == Some(g)
  }

  // ----- what every step keeps -----

  predicate HoldsLock(w: Worker) {
    w.Locking? || w.Unlocking?
  }

  /** A worker that threw and has taken the lock. */
  predicate HasLocked(w: Worker) {
    HoldsLock(w) || (w.Done? && w.threw.Some?)
  }

  function ExceptionOf(w: Worker): Exception
    requires HasLocked(w)
  {
    if w.Done? then w.threw.value else w.exception
  }

  /** The lock is held exactly by the worker inside the handler, who was the last to take it. */
  predicate LockInvariant(g: Group) {
    && (forall i :: 0 <= i < |g.workers| ==> (HoldsLock(g.workers[i]) <==> g.lock == Some(i)))
    && (g.lock.Some? ==> g.lock.value < |g.workers| && g.lockOrder != [] && g.lockOrder[|g.lockOrder| - 1] == g.lock.value)
  }

  /** The history names exactly the workers that have taken the lock. */
  predicate OrderInvariant(g: Group) {
    && (forall k :: 0 <= k < |g.lockOrder| ==> g.lockOrder[k] < |g.workers| && HasLocked(g.workers[g.lockOrder[k]]))
    && (forall i :: 0 <= i < |g.workers| && HasLocked(g.workers[i]) ==> i in g.lockOrder)
  }

  /** The recorded exception is that of the first worker to take the lock, once it is past the test. */
  predicate FirstInvariant(g: Group)
    requires OrderInvariant(g)
  {
    g.firstException ==
      if g.lockOrder == [] || (|g.lockOrder| == 1 && g.workers[g.lockOrder[0]].Locking?) then None
      else Some(ExceptionOf(g.workers[g.lockOrder[0]]))
  }

  predicate JoinInvariant(g: Group) {
    g.joining.Some? ==>
      && g.joining.value <= |g.workers|
      && forall i :: 0 <= i < g.joining.value ==> g.workers[i].Done?
  }

  predicate Invariant(g: Group) {
    LockInvariant(g) && OrderInvariant(g) && FirstInvariant(g) && JoinInvariant(g)
  }

  /** Steps of a worker outside the handler. */
  lemma QuietStep(g: Group, step: Step)
    requires Invariant(g) && Enabled(g, step)
    requires step.Return? || step.Throw? || step.Launch?
    ensures Invariant(Next(g, step))
  {
    var h := Next(g, step);
    assert h.lockOrder == g.lockOrder;
    assert forall i :: 0 <= i < |g.workers| && HasLocked(g.workers[i]) ==> h.workers[i] == g.workers[i];
  }

  lemma AcquireStep(g: Group, i: nat)
    requires Invariant(g) && Enabled(g, Acquire(i))
    ensures Invariant(Next(g, Acquire(i)))
  {
    var h := Next(g, Acquire(i));
    assert i !in g.lockOrder;
    assert forall j :: j in g.lockOrder ==> j in h.lockOrder;
    assert i == h.lockOrder[|g.lockOrder|];
    assert OrderInvariant(h);
    if g.lockOrder != [] {
      assert h.lockOrder[0] == g.lockOrder[0];
    }
  }

  lemma RecordStep(g: Group, i: nat)
    requires Invariant(g) && Enabled(g, RecordFirst(i))
    ensures Invariant(Next(g, RecordFirst(i)))
  {
    assert g.lock == Some(i);
    assert HasLocked(g.workers[i]) && HasLocked(Next(g, RecordFirst(i)).workers[i]);
    assert OrderInvariant(Next(g, RecordFirst(i)));
  }

  lemma ReleaseStep(g: Group, i: nat)
    requires Invariant(g) && Enabled(g, Release(i))
    ensures Invariant(Next(g, Release(i)))
  {
    assert g.lock == Some(i);
    assert OrderInvariant(Next(g, Release(i)));
  }

  lemma JoinStep(g: Group, step: Step)
    requires Invariant(g) && Enabled(g, step)
    requires step.BeginJoin? || step.JoinWorker? || step.EndJoin?
    ensures Invariant(Next(g, step))
  {
    if step.EndJoin? {
      AllDone(g);
    }
  }

  /** When `Join` has waited for every worker, nobody holds the lock. */
  lemma AllDone(g: Group)
    requires Invariant(g) && Enabled(g, EndJoin)
    ensures g.lock.None? && forall i :: 0 <= i < |g.workers| ==> g.workers[i].Done?
  {
    assert g.lock.Some? ==> HoldsLock(g.workers[g.lock.value]);
  }

  lemma StepKeepsInvariant(g: Group, step: Step)
    requires Invariant(g) && Enabled(g, step)
    ensures Invariant(Next(g, step))
  {
    hide Invariant, Next, Enabled;
    match step {
      case Acquire(i) => AcquireStep(g, i);
      case RecordFirst(i) => RecordStep(g, i);
      case Release(i) => ReleaseStep(g, i);
      case BeginJoin => JoinStep(g, step);
      case JoinWorker => JoinStep(g, step);
      case EndJoin => JoinStep(g, step);
      case _ => QuietStep(g, step);
    }
  }

  lemma {:induction false} RunKeepsInvariant(g: Group, steps: seq<Step>)
    requires Invariant(g) && Run(g, steps).Some?
    ensures Invariant(Run(g, steps).value)
    decreases |steps|
  {
    hide Invariant, Enabled, Next;
    if steps != [] {
      StepKeepsInvariant(g, steps[0]);
      RunKeepsInvariant(Next(g, steps[0]), steps[1..]);
    }
  }

  lemma ReachableInvariant(steps: seq<Step>, g: Group)
    requires Reaches(steps, g)
    ensures Invariant(g)
  {
    hide Run;
    assert Invariant(FRESH);
    RunKeepsInvariant(FRESH, steps);
  }

  // ----- what Launch does -----

  /** `Launch` adds that many running workers and leaves the others and everything else alone. */
  lemma LaunchAdds(g: Group, count: nat)
    requires Enabled(g, Launch(count))
    ensures var h := Next(g, Launch(count));
            && |h.workers| == |g.workers| + count
            && h.workers[..|g.workers|] == g.workers
            && (forall i :: |g.workers| <= i < |h.workers| ==> h.workers[i].Active?)
            && h.firstException == g.firstException && h.lock == g.lock && h.lockOrder == g.lockOrder && h.joining == g.joining
  {
  }

  // ----- what Join does -----

  /** What `Join` rethrows when it ends. */
  function Rethrown(g: Group): Option<Exception> {
    g.firstException
  }

  predicate Threw(w: Worker) {
    w.Done? && w.threw.Some?
  }

  /**
   For every interleaving: `Join` ends only when all workers have; it rethrows if and only if
   some worker threw; what it rethrows is the exception of the first worker to take the lock; and
   it leaves the group as if it were new.
   */
  lemma JoinRethrowsFirst(steps: seq<Step>, g: Group)
    requires Reaches(steps, g) && Enabled(g, EndJoin)
    ensures forall i :: 0 <= i < |g.workers| ==> g.workers[i].Done?
    ensures Rethrown(g).Some? <==> exists i :: 0 <= i < |g.workers| && Threw(g.workers[i])
    ensures Rethrown(g).Some? ==>
              && g.lockOrder != [] && g.lockOrder[0] < |g.workers|
              && g.workers[g.lockOrder[0]] == Done(Rethrown(g))
    ensures Next(g, EndJoin) == FRESH
  {
    ReachableInvariant(steps, g);
    AllDone(g);
    if g.lockOrder != [] {
      assert HasLocked(g.workers[g.lockOrder[0]]);
      assert Threw(g.workers[g.lockOrder[0]]);
    }
    forall i | 0 <= i < |g.workers| && Threw(g.workers[i]) ensures g.lockOrder != [] {
      assert HasLocked(g.workers[i]);
    }
  }

  /** Two workers are never inside the handler together. */
  lemma MutualExclusion(steps: seq<Step>, g: Group, i: nat, j: nat)
    requires Reaches(steps, g)
    requires i < |g.workers| && j < |g.workers| && HoldsLock(g.workers[i]) && HoldsLock(g.workers[j])
    ensures i == j
  {
    ReachableInvariant(steps, g);
  }

  // ----- progress -----

  /** What a worker that has not finished can do now, or let the lock's holder do. */
  function WorkerStep(g: Group, i: nat): (step: Step)
    requires Invariant(g) && i < |g.workers| && !g.workers[i].Done?
    ensures Enabled(g, step)
    ensures step.Return? || step.Acquire? || step.RecordFirst? || step.Release?
  {
    match g.workers[i]
    case Active => Return(i)
    case Caught(_) =>
      if g.lock.None? then Acquire(i)
      else if g.workers[g.lock.value].Locking? then RecordFirst(g.lock.value) else Release(g.lock.value)
    case Locking(_) => RecordFirst(i)
    case Unlocking(_) => Release(i)
  }

  /** A step towards the end of `Join`: of the joiner, or of a worker that keeps it waiting. */
  function JoinProgress(g: Group): (step: Step)
    requires Invariant(g) && g.joining.Some?
    ensures Enabled(g, step)
  {
    var k := g.joining.value;
    if k >= |g.workers| then EndJoin else if g.workers[k].Done? then JoinWorker else WorkerStep(g, k)
  }

  /** How many steps a worker has before it is done. */
  function Work(w: Worker): nat {
    match w
    case Active => 4
    case Caught(_) => 3
    case Locking(_) => 2
    case Unlocking(_) => 1
    case Done(_) => 0
  }

  function TotalWork(workers: seq<Worker>): (n: nat)
    ensures n <= 4 * |workers|
  {
    if workers == [] then 0 else Work(workers[0]) + TotalWork(workers[1..])
  }

  lemma {:induction false} WorkUpdate(workers: seq<Worker>, i: nat, w: Worker)
    requires i < |workers|
    ensures TotalWork(workers[i := w]) == TotalWork(workers) - Work(workers[i]) + Work(w)
    decreases |workers|
  {
    hide Work;
    if i == 0 {
      assert workers[i := w][1..] == workers[1..];
    } else {
      WorkUpdate(workers[1..], i - 1, w);
      assert workers[i := w][1..] == workers[1..][i - 1 := w];
    }
  }

  /** The steps that are left before `Join` can end. */
  function Remaining(g: Group): nat
    requires JoinInvariant(g) && g.joining.Some?
  {
    TotalWork(g.workers) + |g.workers| - g.joining.value
  }

  /** While `Join` runs every step but its last brings its end nearer. */
  lemma StepMakesProgress(g: Group, step: Step)
    requires Invariant(g) && g.joining.Some? && Enabled(g, step) && !step.EndJoin?
    ensures Invariant(Next(g, step)) && Next(g, step).joining.Some? && Remaining(Next(g, step)) < Remaining(g)
  {
    hide TotalWork, LockInvariant, OrderInvariant, FirstInvariant;
    StepKeepsInvariant(g, step);
    var h := Next(g, step);
    match step {
      case Return(i) => WorkUpdate(g.workers, i, h.workers[i]);
      case Throw(i, _) => WorkUpdate(g.workers, i, h.workers[i]);
      case Acquire(i) => WorkUpdate(g.workers, i, h.workers[i]);
      case RecordFirst(i) => WorkUpdate(g.workers, i, h.workers[i]);
      case Release(i) => WorkUpdate(g.workers, i, h.workers[i]);
      case _ =>
    }
  }

  /** `Join` runs for at most five steps per worker before it ends, on every interleaving. */
  lemma {:induction false} JoinIsBounded(g: Group, steps: seq<Step>)
    requires Invariant(g) && g.joining.Some? && Run(g, steps).Some?
    requires forall i :: 0 <= i < |steps| ==> !steps[i].EndJoin?
    ensures |steps| <= Remaining(g) <= 5 * |g.workers|
    decreases |steps|
  {
    hide Invariant, Enabled, Next;
    assert JoinInvariant(g) by { JoinPart(g); }
    if steps != [] {
      StepMakesProgress(g, steps[0]);
      JoinIsBounded(Next(g, steps[0]), steps[1..]);
    }
  }

  lemma JoinPart(g: Group)
    requires Invariant(g)
    ensures JoinInvariant(g)
  {
  }

  /** From wherever `Join` has got to, there is a run to its end, after which the group is as new. */
  lemma {:induction false} JoinCanFinish(g: Group) returns (steps: seq<Step>)
    requires Invariant(g) && g.joining.Some?
    ensures steps != [] && steps[|steps| - 1].EndJoin? && Run(g, steps) == Some(FRESH)
    decreases Remaining(g)
  {
    hide Invariant, Enabled, Next;
    assert JoinInvariant(g) by { JoinPart(g); }
    var step := JoinProgress(g);
    if step.EndJoin? {
      EndIsFresh(g);
      steps := [step];
      assert steps[1..] == [];
      assert Run(FRESH, []) == Some(FRESH);
    } else {
      StepMakesProgress(g, step);
      var rest := JoinCanFinish(Next(g, step));
      steps := [step] + rest;
      assert steps[1..] == rest;
    }
  }

  lemma EndIsFresh(g: Group)
    requires Invariant(g) && Enabled(g, EndJoin)
    ensures Next(g, EndJoin) == FRESH
  {
    AllDone(g);
  }

  /** The same from every reachable state in which `Join` runs. */
  lemma JoinIsNeverStuck(steps: seq<Step>, g: Group) returns (rest: seq<Step>)
    requires Reaches(steps, g) && g.joining.Some?
    ensures rest != [] && rest[|rest| - 1].EndJoin? && Run(g, rest) == Some(FRESH)
  {
    ReachableInvariant(steps, g);
    rest := JoinCanFinish(g);
  }
}
