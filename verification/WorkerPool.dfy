/**
 The worker pool as a transition system over the queue protocol.

 Worker `i` is call `i` of the queue; submitters and closers use larger
 identifiers.  Tasks are identified by the position at which the queue handed
 them out, so "exactly once" is meaningful even for equal tasks.
 */
module WorkerPool {
  import opened Optional
  import opened QueueProtocol

  /** Where a worker is in its loop. */
  datatype Phase =
    | Checking            // about to test its stop token
    | Entering            // about to call pop
    | InPop               // blocked inside pop
    | Running(task: nat)  // executing the task that was popped at this position
    | Done                // has returned

  datatype Pool<T> = Pool(
    queue: State<T>,
    workers: seq<Phase>,
    executed: seq<nat>)   // positions of finished tasks, in order of completion

  function NormalizedWorkerCount(workers: nat): nat {
    if workers == 0 then 1 else workers
  }

  function NormalizedQueueCapacity(workers: nat, requested: nat): nat {
    if requested != 0 then requested else NormalizedWorkerCount(workers) * 2
  }

  function Start<T>(workers: nat, requestedCapacity: nat): Pool<T> {
    Pool(Init(NormalizedQueueCapacity(workers, requestedCapacity)),
         seq(NormalizedWorkerCount(workers), _ => Checking), [])
  }

  datatype PoolAction<T> =
    | Outside(act: Action<T>)                 // submit, close, stop requests, spurious wake-ups
    | Check(worker: nat)
    | Enter(worker: nat, wake: Option<CallId>)
    | Resume(worker: nat, wake: Option<CallId>)
    | Finish(worker: nat)

  predicate Joined<T>(p: Pool<T>) {
    forall i :: 0 <= i < |p.workers| ==> p.workers[i].Done?
  }

  /** Only the workers pop; everybody else may do everything else. */
  predicate ByOutsider<T>(p: Pool<T>, a: Action<T>) {
    match a
    case PushEnter(c, _, _) => c >= |p.workers|
    case PushResume(c, _) => c >= |p.workers|
    case PopEnter(_, _) => false
    case PopResume(_, _) => false
    case CloseBegin(c) => c >= |p.workers|
    case CloseNotifyConsumers(c) => c >= |p.workers|
    case CloseNotifyProducers(c) => c >= |p.workers|
    case RequestStop(_) => true
    case SpuriousWake(_) => true
  }

  predicate PoolEnabled<T>(p: Pool<T>, a: PoolAction<T>) {
    match a
    case Outside(act) => Enabled(p.queue, act) && ByOutsider(p, act)
    case Check(i) => i < |p.workers| && p.workers[i] == Checking
    case Enter(i, wake) =>
      i < |p.workers| && p.workers[i] == Entering && Enabled(p.queue, PopEnter(i, wake))
    case Resume(i, wake) =>
      i < |p.workers| && p.workers[i] == InPop && Enabled(p.queue, PopResume(i, wake))
    case Finish(i) => i < |p.workers| && p.workers[i].Running?
  }

  /** What a pop section means for the worker that ran it. */
  function AfterPop<T>(q: State<T>, i: nat): Phase {
    if PopSleeps(q, i) then InPop
    else if q.queue != [] then Running(|q.history.popped|)
    else Done
  }

  function PoolApply<T>(p: Pool<T>, a: PoolAction<T>): Pool<T>
    requires PoolEnabled(p, a)
  {
    match a
    case Outside(act) => p.(queue := Apply(p.queue, act))
    case Check(i) => p.(workers := p.workers[i := if i in p.queue.stopped then Done else Entering])
    case Enter(i, wake) =>
      p.(queue := Apply(p.queue, PopEnter(i, wake)), workers := p.workers[i := AfterPop(p.queue, i)])
    case Resume(i, wake) =>
      p.(queue := Apply(p.queue, PopResume(i, wake)), workers := p.workers[i := AfterPop(p.queue, i)])
    case Finish(i) =>
      p.(executed := p.executed + [p.workers[i].task], workers := p.workers[i := Checking])
  }

  // ---- Invariant -------------------------------------------------------------

  /** The blocked consumers are exactly the workers that are inside pop. */
  ghost predicate ConsumersPlaced<T>(p: Pool<T>) {
    && (forall i :: 0 <= i < |p.workers| ==> (p.workers[i].InPop? <==> p.queue.consumers.Has(i)))
    && (forall c: CallId :: p.queue.consumers.Has(c) ==> c < |p.workers|)
  }

  ghost predicate OutsidersPlaced<T>(p: Pool<T>) {
    && (forall c: CallId :: p.queue.producers.Has(c) ==> c >= |p.workers|)
    && (forall c: CallId :: c in p.queue.closers + p.queue.halfClosers ==> c >= |p.workers|)
  }

  /** A worker leaves without being stopped only once the queue is closed and drained. */
  ghost predicate LeavesDrained<T>(p: Pool<T>) {
    forall i :: 0 <= i < |p.workers| && p.workers[i].Done? && i !in p.queue.stopped ==>
      p.queue.closed && p.queue.queue == []
  }

  /** Each of the first `n` tasks is held by one worker or has been executed once. */
  ghost predicate TasksPlaced(workers: seq<Phase>, executed: seq<nat>, n: nat) {
    && (forall k :: 0 <= k < n ==> k in executed || Running(k) in workers)
    && (forall i :: 0 <= i < |workers| && workers[i].Running? ==>
          workers[i].task < n && workers[i].task !in executed)
    && (forall i, j :: 0 <= i < j < |workers| && workers[i].Running? && workers[j].Running? ==>
          workers[i].task != workers[j].task)
    && (forall x :: 0 <= x < |executed| ==> executed[x] < n)
    && (forall x, y :: 0 <= x < y < |executed| ==> executed[x] != executed[y])
  }

  ghost predicate PoolInv<T>(p: Pool<T>) {
    && Inv(p.queue) && |p.workers| >= 1
    && ConsumersPlaced(p) && OutsidersPlaced(p) && LeavesDrained(p)
    && TasksPlaced(p.workers, p.executed, |p.queue.history.popped|)
  }

  /** Which calls an action of the queue blocks or releases. */
  lemma BlockedAfter<T>(s: State<T>, a: Action<T>)
    requires Enabled(s, a) && Shape(s)
    ensures forall c: CallId :: !(a.PopEnter? || a.PopResume?) || c != a.call ==>
      (Apply(s, a).consumers.Has(c) <==> s.consumers.Has(c))
    ensures a.PopEnter? || a.PopResume? ==> (Apply(s, a).consumers.Has(a.call) <==> PopSleeps(s, a.call))
  {
  }

  lemma OutsidersAfter<T>(s: State<T>, a: Action<T>)
    requires Enabled(s, a) && Shape(s)
    ensures forall c: CallId :: Apply(s, a).producers.Has(c) ==> s.producers.Has(c) || (a.PushEnter? && c == a.call)
    ensures forall c: CallId :: c in Apply(s, a).closers + Apply(s, a).halfClosers ==>
      c in s.closers + s.halfClosers || (a.CloseBegin? && c == a.call)
  {
  }

  /** The queue action inside a pool action, if there is one. */
  function QueuePart<T>(a: PoolAction<T>): Option<Action<T>> {
    match a
    case Outside(act) => Some(act)
    case Enter(i, wake) => Some(PopEnter(i, wake))
    case Resume(i, wake) => Some(PopResume(i, wake))
    case _ => None
  }

  lemma ConsumersPlacedStep<T>(p: Pool<T>, a: PoolAction<T>)
    requires ConsumersPlaced(p) && Shape(p.queue) && PoolEnabled(p, a)
    ensures ConsumersPlaced(PoolApply(p, a))
  {
    if QueuePart(a).Some? { BlockedAfter(p.queue, QueuePart(a).value); }
  }

  lemma OutsidersPlacedStep<T>(p: Pool<T>, a: PoolAction<T>)
    requires OutsidersPlaced(p) && Shape(p.queue) && PoolEnabled(p, a)
    ensures OutsidersPlaced(PoolApply(p, a))
  {
    if QueuePart(a).Some? { OutsidersAfter(p.queue, QueuePart(a).value); }
  }

  lemma LeavesDrainedStep<T>(p: Pool<T>, a: PoolAction<T>)
    requires LeavesDrained(p) && PoolEnabled(p, a)
    ensures LeavesDrained(PoolApply(p, a))
  {
  }

  lemma TaskKept(workers: seq<Phase>, executed: seq<nat>, n: nat, i: nat, phase: Phase)
    requires TasksPlaced(workers, executed, n) && i < |workers| && !workers[i].Running? && !phase.Running?
    ensures TasksPlaced(workers[i := phase], executed, n)
  {
    var after := workers[i := phase];
    forall k | 0 <= k < n && k !in executed ensures Running(k) in after {
      var j :| 0 <= j < |workers| && workers[j] == Running(k);
      assert after[j] == Running(k);
    }
  }

  lemma TaskTaken(workers: seq<Phase>, executed: seq<nat>, n: nat, i: nat)
    requires TasksPlaced(workers, executed, n) && i < |workers| && !workers[i].Running?
    ensures TasksPlaced(workers[i := Running(n)], executed, n + 1)
  {
    var after := workers[i := Running(n)];
    assert after[i] == Running(n);
    forall k | 0 <= k < n && k !in executed ensures Running(k) in after {
      var j :| 0 <= j < |workers| && workers[j] == Running(k);
      assert after[j] == Running(k);
    }
  }

  lemma TaskFinished(workers: seq<Phase>, executed: seq<nat>, n: nat, i: nat)
    requires TasksPlaced(workers, executed, n) && i < |workers| && workers[i].Running?
    ensures TasksPlaced(workers[i := Checking], executed + [workers[i].task], n)
  {
    var after, done := workers[i := Checking], executed + [workers[i].task];
    assert done[|executed|] == workers[i].task;
    forall k | 0 <= k < n && k !in done ensures Running(k) in after {
      var j :| 0 <= j < |workers| && workers[j] == Running(k);
      assert after[j] == Running(k);
    }
  }

  lemma PoppedAfter<T>(s: State<T>, a: Action<T>)
    requires Enabled(s, a)
    ensures |Apply(s, a).history.popped| ==
      |s.history.popped| + (if (a.PopEnter? || a.PopResume?) && s.queue != [] then 1 else 0)
  {
  }

  lemma TasksStep<T>(p: Pool<T>, a: PoolAction<T>)
    requires TasksPlaced(p.workers, p.executed, |p.queue.history.popped|) && PoolEnabled(p, a)
    ensures var q := PoolApply(p, a); TasksPlaced(q.workers, q.executed, |q.queue.history.popped|)
  {
    var n := |p.queue.history.popped|;
    if QueuePart(a).Some? { PoppedAfter(p.queue, QueuePart(a).value); }
    match a
    case Outside(_) =>
    case Check(i) => TaskKept(p.workers, p.executed, n, i, PoolApply(p, a).workers[i]);
    case Finish(i) => TaskFinished(p.workers, p.executed, n, i);
    case Enter(i, _) =>
      if AfterPop(p.queue, i).Running? { TaskTaken(p.workers, p.executed, n, i); }
      else { TaskKept(p.workers, p.executed, n, i, AfterPop(p.queue, i)); }
    case Resume(i, _) =>
      if AfterPop(p.queue, i).Running? { TaskTaken(p.workers, p.executed, n, i); }
      else { TaskKept(p.workers, p.executed, n, i, AfterPop(p.queue, i)); }
  }

  lemma PoolInvStep<T>(p: Pool<T>, a: PoolAction<T>)
    requires PoolInv(p) && PoolEnabled(p, a)
    ensures PoolInv(PoolApply(p, a))
  {
    if QueuePart(a).Some? { InvStep(p.queue, QueuePart(a).value); }
    ConsumersPlacedStep(p, a);
    OutsidersPlacedStep(p, a);
    LeavesDrainedStep(p, a);
    TasksStep(p, a);
  }

  // ---- Whole runs --------------------------------------------------------------

  ghost predicate PoolReaches<T>(p: Pool<T>, acts: seq<PoolAction<T>>, q: Pool<T>)
    decreases |acts|
  {
    if acts == [] then p == q
    else PoolEnabled(p, acts[0]) && PoolReaches(PoolApply(p, acts[0]), acts[1..], q)
  }

  lemma {:induction false} PoolRunKeepsInv<T>(p: Pool<T>, acts: seq<PoolAction<T>>, q: Pool<T>)
    requires PoolInv(p) && PoolReaches(p, acts, q)
    ensures PoolInv(q)
    decreases |acts|
  {
    if acts != [] {
      PoolInvStep(p, acts[0]);
      PoolRunKeepsInv(PoolApply(p, acts[0]), acts[1..], q);
    }
  }

  lemma ReachablePool<T>(workers: nat, capacity: nat, acts: seq<PoolAction<T>>, p: Pool<T>)
    requires PoolReaches(Start(workers, capacity), acts, p)
    ensures PoolInv(p)
  {
    PoolRunKeepsInv(Start(workers, capacity), acts, p);
  }

  /** Every number below `n` occurs in `xs`, once. */
  ghost predicate EachOnce(xs: seq<nat>, n: nat) {
    && (forall k :: 0 <= k < n ==> k in xs)
    && (forall x :: 0 <= x < |xs| ==> xs[x] < n)
    && (forall x, y :: 0 <= x < y < |xs| ==> xs[x] != xs[y])
  }

  /** When close() has joined the workers and no worker was asked to stop, the
      queue is empty and closed and every accepted task has run exactly once. */
  lemma CloseDrains<T>(workers: nat, capacity: nat, acts: seq<PoolAction<T>>, p: Pool<T>)
    requires PoolReaches(Start(workers, capacity), acts, p) && Joined(p)
    requires exists i :: 0 <= i < |p.workers| && i !in p.queue.stopped
    ensures p.queue.queue == [] && p.queue.closed
    ensures p.queue.history.popped == p.queue.history.accepted
    ensures EachOnce(p.executed, |p.queue.history.accepted|)
  {
    ReachablePool(workers, capacity, acts, p);
    assert forall k: nat :: Running(k) !in p.workers;
  }

  /** requestStop: once the workers are joined, every accepted task has either
      run exactly once or is still in the queue, in order. */
  lemma StopLosesNoTask<T>(workers: nat, capacity: nat, acts: seq<PoolAction<T>>, p: Pool<T>)
    requires PoolReaches(Start(workers, capacity), acts, p) && Joined(p)
    ensures EachOnce(p.executed, |p.queue.history.popped|)
    ensures p.queue.history.accepted == p.queue.history.popped + p.queue.queue
  {
    ReachablePool(workers, capacity, acts, p);
    assert forall k: nat :: Running(k) !in p.workers;
  }

  lemma {:induction false} ShapeOverRun<T>(p: Pool<T>, acts: seq<PoolAction<T>>, q: Pool<T>)
    requires PoolReaches(p, acts, q)
    ensures |q.workers| == |p.workers| && q.queue.capacity == p.queue.capacity
    decreases |acts|
  {
    if acts != [] {
      if QueuePart(acts[0]).Some? { ClosedStep(p.queue, QueuePart(acts[0]).value); }
      ShapeOverRun(PoolApply(p, acts[0]), acts[1..], q);
    }
  }

  /** The pool keeps at least one worker, and without a requested capacity its queue has
      room for two tasks per worker. */
  lemma PoolKeepsShape<T>(workers: nat, capacity: nat, acts: seq<PoolAction<T>>, p: Pool<T>)
    requires PoolReaches(Start(workers, capacity), acts, p)
    ensures |p.workers| == if workers == 0 then 1 else workers
    ensures p.queue.capacity == if capacity == 0 then 2 * |p.workers| else capacity
  {
    ShapeOverRun(Start(workers, capacity), acts, p);
  }

  // ---- A stop ends the work ------------------------------------------------------

  /** A stopped worker that has come back to its loop takes nothing more. */
  ghost predicate HasStopped<T>(p: Pool<T>, i: nat) {
    i < |p.workers| && i in p.queue.stopped && (p.workers[i].Checking? || p.workers[i].Done?)
  }

  lemma StopStays<T>(p: Pool<T>, a: PoolAction<T>)
    requires PoolEnabled(p, a)
    ensures p.queue.stopped <= PoolApply(p, a).queue.stopped && |PoolApply(p, a).workers| == |p.workers|
    ensures forall i :: HasStopped(p, i) ==> HasStopped(PoolApply(p, a), i)
  {}

  lemma {:induction false} StoppedWorkerStays<T>(p: Pool<T>, acts: seq<PoolAction<T>>, q: Pool<T>, i: nat)
    requires PoolReaches(p, acts, q) && HasStopped(p, i)
    ensures HasStopped(q, i)
    decreases |acts|
  {
    if acts != [] {
      StopStays(p, acts[0]);
      StoppedWorkerStays(PoolApply(p, acts[0]), acts[1..], q, i);
    }
  }

  /** How many workers are about to pop or inside pop. */
  function Popping(workers: seq<Phase>): nat {
    if workers == [] then 0
    else (if workers[0].Entering? || workers[0].InPop? then 1 else 0) + Popping(workers[1..])
  }

  lemma {:induction false} PoppingOfUpdate(workers: seq<Phase>, i: nat, phase: Phase)
    requires i < |workers|
    ensures Popping(workers[i := phase]) == Popping(workers)
      - (if workers[i].Entering? || workers[i].InPop? then 1 else 0)
      + (if phase.Entering? || phase.InPop? then 1 else 0)
  {
    if i > 0 {
      assert workers[i := phase][1..] == workers[1..][i - 1 := phase];
      PoppingOfUpdate(workers[1..], i - 1, phase);
    } else {
      assert workers[i := phase][1..] == workers[1..];
    }
  }

  ghost predicate AllStopped<T>(p: Pool<T>) {
    forall i :: 0 <= i < |p.workers| ==> i in p.queue.stopped
  }

  lemma StoppedPoolStep<T>(p: Pool<T>, a: PoolAction<T>)
    requires AllStopped(p) && PoolEnabled(p, a)
    ensures var q := PoolApply(p, a);
      && AllStopped(q)
      && |q.queue.history.popped| + Popping(q.workers) <= |p.queue.history.popped| + Popping(p.workers)
  {
    StopStays(p, a);
    if QueuePart(a).Some? { PoppedAfter(p.queue, QueuePart(a).value); }
    if !a.Outside? { PoppingOfUpdate(p.workers, a.worker, PoolApply(p, a).workers[a.worker]); }
  }

  /** Once every worker is stopped, whatever else happens, only those already at their
      pop take one task more; the rest of the queue is never started. */
  lemma {:induction false} StopEndsTheWork<T>(p: Pool<T>, acts: seq<PoolAction<T>>, q: Pool<T>)
    requires AllStopped(p) && PoolReaches(p, acts, q)
    ensures |q.queue.history.popped| <= |p.queue.history.popped| + Popping(p.workers)
    decreases |acts|
  {
    if acts != [] {
      StoppedPoolStep(p, acts[0]);
      StopEndsTheWork(PoolApply(p, acts[0]), acts[1..], q);
    }
  }

  // ---- close() returns -----------------------------------------------------------

  function Weight(phase: Phase): nat {
    match phase
    case Done => 0
    case InPop => 1
    case Entering => 1
    case Checking => 2
    case Running(_) => 3
  }

  function TotalWeight(workers: seq<Phase>): nat {
    if workers == [] then 0 else Weight(workers[0]) + TotalWeight(workers[1..])
  }

  /** Bound on the steps the workers can still take once the queue is closed. */
  function StepsLeft<T>(p: Pool<T>): nat {
    3 * |p.queue.queue| + TotalWeight(p.workers)
  }

  lemma {:induction false} WeightOfUpdate(workers: seq<Phase>, i: nat, phase: Phase)
    requires i < |workers|
    ensures TotalWeight(workers[i := phase]) == TotalWeight(workers) - Weight(workers[i]) + Weight(phase)
  {
    if i > 0 {
      assert workers[i := phase][1..] == workers[1..][i - 1 := phase];
      WeightOfUpdate(workers[1..], i - 1, phase);
    } else {
      assert workers[i := phase][1..] == workers[1..];
    }
  }

  ghost predicate ClosedAndNotified<T>(p: Pool<T>) {
    p.queue.closed && p.queue.closers == {} && p.queue.halfClosers == {}
  }

  /** After close() has notified, joining cannot get stuck: some worker that has
      not returned can always take a step. */
  lemma JoinNeverStuck<T>(workers: nat, capacity: nat, acts: seq<PoolAction<T>>, p: Pool<T>)
    requires PoolReaches(Start(workers, capacity), acts, p) && ClosedAndNotified(p)
    ensures Joined(p) || exists a: PoolAction<T> :: !a.Outside? && PoolEnabled(p, a)
  {
    ReachablePool(workers, capacity, acts, p);
    if !Joined(p) {
      var i :| 0 <= i < |p.workers| && !p.workers[i].Done?;
      assert p.queue.producers.sleeping == {};
      match p.workers[i]
      case Checking => assert PoolEnabled(p, Check(i));
      case Running(_) => assert PoolEnabled(p, Finish(i));
      case Entering => assert PoolEnabled(p, Enter(i, None));
      case InPop => assert PoolEnabled(p, Resume(i, None));
    }
  }

  lemma WorkerStepsRunOut<T>(p: Pool<T>, a: PoolAction<T>)
    requires p.queue.closed && PoolEnabled(p, a)
    ensures PoolApply(p, a).queue.closed
    ensures if a.Outside? then StepsLeft(PoolApply(p, a)) == StepsLeft(p)
            else StepsLeft(PoolApply(p, a)) < StepsLeft(p)
  {
    if !a.Outside? {
      WeightOfUpdate(p.workers, a.worker, PoolApply(p, a).workers[a.worker]);
    }
  }

  ghost function WorkerSteps<T>(acts: seq<PoolAction<T>>): nat {
    if acts == [] then 0 else (if acts[0].Outside? then 0 else 1) + WorkerSteps(acts[1..])
  }

  /** From any closed state, whatever else happens, the workers take a bounded
      number of steps; with JoinNeverStuck, close() and requestStop() return. */
  lemma {:induction false} JoinTerminates<T>(p: Pool<T>, acts: seq<PoolAction<T>>, q: Pool<T>)
    requires p.queue.closed && PoolReaches(p, acts, q)
    ensures WorkerSteps(acts) <= StepsLeft(p)
    decreases |acts|
  {
    if acts != [] {
      WorkerStepsRunOut(p, acts[0]);
      JoinTerminates(PoolApply(p, acts[0]), acts[1..], q);
    }
  }
}
