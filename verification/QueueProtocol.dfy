/**
 The lock-protected protocol of the bounded queue, as a transition system.

 Every action is one critical section of a source call: it runs from the moment
 the lock is taken to the moment the call either sleeps on its condition
 variable (which releases the lock) or returns.  A sleeping call is woken by
 notify_one, by notify_all, by a stop request on its own token, or spuriously.
 */
module QueueProtocol {
  import opened Optional

  /** Identifies one call in progress (a thread runs one call at a time). */
  type CallId = nat

  // ---- Condition variables -------------------------------------------------

  /** The calls blocked on one condition variable.  A woken call has been
      notified but has not yet taken the lock again. */
  datatype Room = Room(sleeping: set<CallId>, woken: set<CallId>) {
    predicate Has(c: CallId) { c in sleeping || c in woken }

    function Sleep(c: CallId): Room { Room(sleeping + {c}, woken) }

    function Leave(c: CallId): Room { Room(sleeping, woken - {c}) }

    function Wake(c: CallId): Room {
      if c in sleeping then Room(sleeping - {c}, woken + {c}) else this
    }

    function NotifyAll(): Room { Room({}, woken + sleeping) }

    /** notify_one wakes some sleeper exactly when there is one. */
    predicate Picks(wake: Option<CallId>) {
      if sleeping == {} then wake.None? else wake.Some? && wake.value in sleeping
    }

    function NotifyOne(wake: Option<CallId>): Room {
      match wake case None => this case Some(c) => Wake(c)
    }

    ghost predicate Valid() { sleeping !! woken }

    /** While somebody sleeps, `work` units of work have a woken call each. */
    ghost predicate Covers(work: int) { sleeping != {} ==> work <= |woken| }

    lemma SleepCovers(c: CallId)
      requires Valid() && c !in woken
      ensures Sleep(c).Valid() && Sleep(c).Covers(0)
    {}

    lemma LeaveCovers(c: CallId, work: int)
      requires Valid() && Covers(work) && c in woken
      ensures Leave(c).Valid() && Leave(c).Covers(work - 1)
    {}

    lemma WakeCovers(c: CallId, work: int)
      requires Valid() && Covers(work)
      ensures Wake(c).Valid() && Wake(c).Covers(if c in sleeping then work + 1 else work)
    {}

    lemma NotifyOneCovers(wake: Option<CallId>, work: int)
      requires Valid() && Covers(work) && Picks(wake)
      ensures NotifyOne(wake).Valid() && NotifyOne(wake).Covers(work + 1)
    {
      if wake.Some? { WakeCovers(wake.value, work); }
    }
  }

  // ---- The state -----------------------------------------------------------

  datatype Metrics = Metrics(producerWaits: nat, consumerWaits: nat, peak: nat)

  /** What callers have observed so far; the code does not store it. */
  datatype History<T> = History(
    accepted: seq<T>,       // values of pushes that returned true, in order
    popped: seq<T>,         // values handed out by pops, in order
    abandoned: seq<CallId>) // woken producers that a stop made leave a slot free

  datatype State<T> = State(
    capacity: nat,
    queue: seq<T>,
    closed: bool,
    consumers: Room,          // notEmpty
    producers: Room,          // notFull
    pending: map<CallId, T>,  // the value each blocked producer holds
    stopped: set<CallId>,     // calls whose stop token has been triggered
    closers: set<CallId>,     // close() calls that have not notified yet
    halfClosers: set<CallId>, // close() calls that have notified notEmpty only
    metrics: Metrics,
    history: History<T>)

  function Init<T>(requestedCapacity: nat): State<T> {
    State(if requestedCapacity == 0 then 1 else requestedCapacity,
          [], false, Room({}, {}), Room({}, {}), map[], {}, {}, {}, Metrics(0, 0, 0), History([], [], []))
  }

  /** `wake` names the sleeper that notify_one picks, if the action notifies. */
  datatype Action<T> =
    | PushEnter(call: CallId, value: T, wake: Option<CallId>)
    | PushResume(call: CallId, wake: Option<CallId>)
    | PopEnter(call: CallId, wake: Option<CallId>)
    | PopResume(call: CallId, wake: Option<CallId>)
    | CloseBegin(call: CallId)
    | CloseNotifyConsumers(call: CallId)
    | CloseNotifyProducers(call: CallId)
    | RequestStop(call: CallId)
    | SpuriousWake(call: CallId)

  predicate Idle<T>(s: State<T>, c: CallId) {
    !s.consumers.Has(c) && !s.producers.Has(c) && c !in s.closers && c !in s.halfClosers
  }

  predicate PushSleeps<T>(s: State<T>, c: CallId) {
    c !in s.stopped && !s.closed && |s.queue| >= s.capacity
  }

  predicate PushAccepts<T>(s: State<T>, c: CallId) {
    c !in s.stopped && !s.closed && |s.queue| < s.capacity
  }

  predicate PopSleeps<T>(s: State<T>, c: CallId) {
    c !in s.stopped && !s.closed && s.queue == []
  }

  /** push from its wait onwards, with the call running inside the lock. */
  function PushSection<T>(s: State<T>, c: CallId, v: T, wake: Option<CallId>): State<T> {
    if PushSleeps(s, c) then
      s.(producers := s.producers.Sleep(c), pending := s.pending[c := v])
    else if PushAccepts(s, c) then
      var queue := s.queue + [v];
      s.(queue := queue,
         consumers := s.consumers.NotifyOne(wake),
         metrics := s.metrics.(peak := if |queue| > s.metrics.peak then |queue| else s.metrics.peak),
         history := s.history.(accepted := s.history.accepted + [v]))
    else
      s  // returns false: closed or stopped
  }

  /** pop from its wait onwards: even a stopped or closed pop takes an item. */
  function PopSection<T>(s: State<T>, c: CallId, wake: Option<CallId>): State<T> {
    if PopSleeps(s, c) then
      s.(consumers := s.consumers.Sleep(c))
    else if s.queue != [] then
      s.(queue := s.queue[1..],
         producers := s.producers.NotifyOne(wake),
         history := s.history.(popped := s.history.popped + [s.queue[0]]))
    else
      s  // returns nothing
  }

  function CountProducerWait<T>(s: State<T>): State<T> {
    if !s.closed && |s.queue| >= s.capacity
    then s.(metrics := s.metrics.(producerWaits := s.metrics.producerWaits + 1)) else s
  }

  function CountConsumerWait<T>(s: State<T>): State<T> {
    if !s.closed && s.queue == []
    then s.(metrics := s.metrics.(consumerWaits := s.metrics.consumerWaits + 1)) else s
  }

  /** A woken producer takes the lock again; the history notes a slot it is
      about to leave unused because its token is stopped. */
  function ProducerBack<T>(s: State<T>, c: CallId): State<T> {
    s.(producers := s.producers.Leave(c),
       pending := s.pending - {c},
       history := if c in s.stopped && !s.closed && |s.queue| < s.capacity
                  then s.history.(abandoned := s.history.abandoned + [c]) else s.history)
  }

  predicate PicksConsumer<T>(s: State<T>, c: CallId, wake: Option<CallId>) {
    if PushAccepts(s, c) then s.consumers.Picks(wake) else wake.None?
  }

  predicate PicksProducer<T>(s: State<T>, wake: Option<CallId>) {
    if s.queue != [] then s.producers.Picks(wake) else wake.None?
  }

  predicate Enabled<T>(s: State<T>, a: Action<T>) {
    match a
    case PushEnter(c, _, wake) => Idle(s, c) && PicksConsumer(s, c, wake)
    case PushResume(c, wake) => c in s.producers.woken && c in s.pending && PicksConsumer(s, c, wake)
    case PopEnter(c, wake) => Idle(s, c) && PicksProducer(s, wake)
    case PopResume(c, wake) => c in s.consumers.woken && PicksProducer(s, wake)
    case CloseBegin(c) => Idle(s, c)
    case CloseNotifyConsumers(c) => c in s.closers
    case CloseNotifyProducers(c) => c in s.halfClosers
    case RequestStop(c) => true
    case SpuriousWake(c) => c in s.consumers.sleeping || c in s.producers.sleeping
  }

  function WakeCall<T>(s: State<T>, c: CallId): State<T> {
    s.(consumers := s.consumers.Wake(c), producers := s.producers.Wake(c))
  }

  function Apply<T>(s: State<T>, a: Action<T>): State<T>
    requires Enabled(s, a)
  {
    match a
    case PushEnter(c, v, wake) => PushSection(CountProducerWait(s), c, v, wake)
    case PushResume(c, wake) => PushSection(ProducerBack(s, c), c, s.pending[c], wake)
    case PopEnter(c, wake) => PopSection(CountConsumerWait(s), c, wake)
    case PopResume(c, wake) => PopSection(s.(consumers := s.consumers.Leave(c)), c, wake)
    case CloseBegin(c) => s.(closed := true, closers := s.closers + {c})
    case CloseNotifyConsumers(c) =>
      s.(closers := s.closers - {c}, halfClosers := s.halfClosers + {c}, consumers := s.consumers.NotifyAll())
    case CloseNotifyProducers(c) =>
      s.(halfClosers := s.halfClosers - {c}, producers := s.producers.NotifyAll())
    case RequestStop(c) => WakeCall(s.(stopped := s.stopped + {c}), c)
    case SpuriousWake(c) => WakeCall(s, c)
  }

  // ---- The inductive invariant ---------------------------------------------

  /** Each blocked call is in one place, and each blocked producer has a value. */
  ghost predicate Shape<T>(s: State<T>) {
    && s.consumers.Valid() && s.producers.Valid()
    && s.pending.Keys == s.producers.sleeping + s.producers.woken
    && (s.consumers.sleeping + s.consumers.woken) !! (s.producers.sleeping + s.producers.woken)
  }

  /** Accepted values are the popped ones followed by the queued ones, and the
      queue never holds more than the recorded peak or the capacity. */
  ghost predicate Conserved<T>(s: State<T>) {
    && s.capacity >= 1
    && s.history.accepted == s.history.popped + s.queue
    && |s.queue| <= s.metrics.peak <= s.capacity
  }

  /** A sleeper on a closed queue still has a notify_all coming. */
  ghost predicate CloseCovers<T>(s: State<T>) {
    && (s.closed && s.consumers.sleeping != {} ==> s.closers != {})
    && (s.closed && s.producers.sleeping != {} ==> s.closers != {} || s.halfClosers != {})
    && (s.closers != {} || s.halfClosers != {} ==> s.closed)
  }

  /** While a consumer sleeps, every queued item has a woken consumer. */
  ghost predicate ItemsCovered<T>(s: State<T>) {
    s.consumers.Covers(|s.queue|)
  }

  /** While a producer sleeps on an open queue, every free slot has a woken
      producer, except for slots that stopped producers walked away from. */
  ghost predicate SlotsCovered<T>(s: State<T>) {
    !s.closed ==> s.producers.Covers(s.capacity - |s.queue| - |s.history.abandoned|)
  }

  ghost predicate AbandonersStopped<T>(s: State<T>) {
    forall c :: c in s.history.abandoned ==> c in s.stopped
  }

  ghost predicate Inv<T>(s: State<T>) {
    Shape(s) && Conserved(s) && CloseCovers(s) && ItemsCovered(s) && SlotsCovered(s) && AbandonersStopped(s)
  }

  lemma ShapePush<T>(s: State<T>, c: CallId, v: T, wake: Option<CallId>)
    requires Shape(s) && !s.producers.Has(c) && !s.consumers.Has(c)
    ensures Shape(PushSection(s, c, v, wake))
  {}

  lemma ShapePop<T>(s: State<T>, c: CallId, wake: Option<CallId>)
    requires Shape(s) && !s.producers.Has(c) && !s.consumers.Has(c)
    ensures Shape(PopSection(s, c, wake))
  {}

  lemma ShapeStep<T>(s: State<T>, a: Action<T>)
    requires Shape(s) && Enabled(s, a)
    ensures Shape(Apply(s, a))
  {
    hide PushSection, PopSection;
    match a
    case PushEnter(c, v, wake) => ShapePush(CountProducerWait(s), c, v, wake);
    case PushResume(c, wake) => ShapePush(ProducerBack(s, c), c, s.pending[c], wake);
    case PopEnter(c, wake) => ShapePop(CountConsumerWait(s), c, wake);
    case PopResume(c, wake) => ShapePop(s.(consumers := s.consumers.Leave(c)), c, wake);
    case _ =>
  }

  lemma ConservedPush<T>(s: State<T>, c: CallId, v: T, wake: Option<CallId>)
    requires Conserved(s)
    ensures Conserved(PushSection(s, c, v, wake))
  {
    assert s.history.accepted + [v] == s.history.popped + (s.queue + [v]) || !PushAccepts(s, c);
  }

  lemma ConservedPop<T>(s: State<T>, c: CallId, wake: Option<CallId>)
    requires Conserved(s)
    ensures Conserved(PopSection(s, c, wake))
  {
    if s.queue != [] { assert s.history.popped + s.queue == s.history.popped + [s.queue[0]] + s.queue[1..]; }
  }

  lemma ConservedStep<T>(s: State<T>, a: Action<T>)
    requires Conserved(s) && Enabled(s, a)
    ensures Conserved(Apply(s, a))
  {
    hide PushSection, PopSection;
    match a
    case PushEnter(c, v, wake) => ConservedPush(CountProducerWait(s), c, v, wake);
    case PushResume(c, wake) => ConservedPush(ProducerBack(s, c), c, s.pending[c], wake);
    case PopEnter(c, wake) => ConservedPop(CountConsumerWait(s), c, wake);
    case PopResume(c, wake) => ConservedPop(s.(consumers := s.consumers.Leave(c)), c, wake);
    case _ =>
  }

  lemma CloseStep<T>(s: State<T>, a: Action<T>)
    requires CloseCovers(s) && Enabled(s, a)
    ensures CloseCovers(Apply(s, a))
  {
  }

  lemma ItemsStep<T>(s: State<T>, a: Action<T>)
    requires Shape(s) && ItemsCovered(s) && Enabled(s, a)
    ensures ItemsCovered(Apply(s, a))
  {
    match a
    case PushEnter(c, _, wake) =>
      if PushAccepts(s, c) { s.consumers.NotifyOneCovers(wake, |s.queue|); }
    case PushResume(c, wake) =>
      if PushAccepts(s, c) { s.consumers.NotifyOneCovers(wake, |s.queue|); }
    case PopEnter(c, _) =>
      if PopSleeps(s, c) { s.consumers.SleepCovers(c); }
    case PopResume(c, _) =>
      s.consumers.LeaveCovers(c, |s.queue|);
      if PopSleeps(s, c) { s.consumers.Leave(c).SleepCovers(c); }
    case RequestStop(c) => s.consumers.WakeCovers(c, |s.queue|);
    case SpuriousWake(c) => s.consumers.WakeCovers(c, |s.queue|);
    case _ =>
  }

  lemma SlotsPushEnter<T>(s: State<T>, c: CallId, v: T, wake: Option<CallId>)
    requires Shape(s) && SlotsCovered(s) && !s.producers.Has(c)
    ensures SlotsCovered(PushSection(s, c, v, wake))
  {
    if PushSleeps(s, c) { s.producers.SleepCovers(c); }
  }

  lemma SlotsPushResume<T>(s: State<T>, c: CallId, wake: Option<CallId>)
    requires Shape(s) && SlotsCovered(s) && c in s.producers.woken && c in s.pending
    ensures SlotsCovered(PushSection(ProducerBack(s, c), c, s.pending[c], wake))
  {
    var back := ProducerBack(s, c);
    if !s.closed {
      s.producers.LeaveCovers(c, s.capacity - |s.queue| - |s.history.abandoned|);
      if PushSleeps(s, c) { back.producers.SleepCovers(c); }
    }
  }

  lemma SlotsPop<T>(s: State<T>, c: CallId, wake: Option<CallId>)
    requires Shape(s) && SlotsCovered(s) && PicksProducer(s, wake)
    ensures SlotsCovered(PopSection(s, c, wake))
  {
    if !s.closed && s.queue != [] {
      s.producers.NotifyOneCovers(wake, s.capacity - |s.queue| - |s.history.abandoned|);
    }
  }

  lemma SlotsStep<T>(s: State<T>, a: Action<T>)
    requires Shape(s) && SlotsCovered(s) && Enabled(s, a)
    ensures SlotsCovered(Apply(s, a))
  {
    match a
    case PushEnter(c, v, wake) => SlotsPushEnter(CountProducerWait(s), c, v, wake);
    case PushResume(c, wake) => SlotsPushResume(s, c, wake);
    case PopEnter(c, wake) => SlotsPop(CountConsumerWait(s), c, wake);
    case PopResume(c, wake) => SlotsPop(s.(consumers := s.consumers.Leave(c)), c, wake);
    case RequestStop(c) =>
      if !s.closed { s.producers.WakeCovers(c, s.capacity - |s.queue| - |s.history.abandoned|); }
    case SpuriousWake(c) =>
      if !s.closed { s.producers.WakeCovers(c, s.capacity - |s.queue| - |s.history.abandoned|); }
    case _ =>
  }

  lemma AbandonStep<T>(s: State<T>, a: Action<T>)
    requires AbandonersStopped(s) && Enabled(s, a)
    ensures AbandonersStopped(Apply(s, a))
  {
  }

  lemma InvStep<T>(s: State<T>, a: Action<T>)
    requires Inv(s) && Enabled(s, a)
    ensures Inv(Apply(s, a))
  {
    ShapeStep(s, a);
    ConservedStep(s, a);
    CloseStep(s, a);
    ItemsStep(s, a);
    SlotsStep(s, a);
    AbandonStep(s, a);
  }

  // ---- Whole runs ----------------------------------------------------------

  /** The run `acts` from `s` reaches `t`, action by action. */
  ghost predicate Reaches<T>(s: State<T>, acts: seq<Action<T>>, t: State<T>)
    decreases |acts|
  {
    if acts == [] then s == t
    else Enabled(s, acts[0]) && Reaches(Apply(s, acts[0]), acts[1..], t)
  }

  lemma {:induction false} RunKeepsInv<T>(s: State<T>, acts: seq<Action<T>>, t: State<T>)
    requires Inv(s) && Reaches(s, acts, t)
    ensures Inv(t)
    decreases |acts|
  {
    if acts != [] {
      InvStep(s, acts[0]);
      RunKeepsInv(Apply(s, acts[0]), acts[1..], t);
    }
  }

  /** No consumer sleeps through work: in every reachable state each queued item
      has its own woken consumer, and a closed queue keeps no sleeper once every
      close() call has notified. */
  lemma NoLostConsumerWakeup<T>(capacity: nat, acts: seq<Action<T>>, s: State<T>)
    requires Reaches(Init(capacity), acts, s)
    ensures s.consumers.sleeping != {} ==> |s.queue| <= |s.consumers.woken|
    ensures s.closed && s.closers == {} ==> s.consumers.sleeping == {}
    ensures s.closed && s.closers == {} && s.halfClosers == {} ==> s.producers.sleeping == {}
  {
    RunKeepsInv(Init(capacity), acts, s);
  }

  /** The queue is first-in first-out and loses and invents nothing. */
  lemma FirstInFirstOut<T>(capacity: nat, acts: seq<Action<T>>, s: State<T>)
    requires Reaches(Init(capacity), acts, s)
    ensures s.history.accepted == s.history.popped + s.queue
    ensures |s.queue| <= s.metrics.peak <= if capacity == 0 then 1 else capacity
  {
    RunKeepsInv(Init(capacity), acts, s);
    ClosedForGood(Init(capacity), acts, s);
  }

  ghost function Pushers<T>(acts: seq<Action<T>>): set<CallId> {
    set a | a in acts && a.PushEnter? :: a.call
  }

  ghost function Stops<T>(acts: seq<Action<T>>): set<CallId> {
    set a | a in acts && a.RequestStop? :: a.call
  }

  lemma {:induction false} RunOrigins<T>(s: State<T>, acts: seq<Action<T>>, t: State<T>)
    requires Reaches(s, acts, t)
    ensures t.stopped == s.stopped + Stops(acts)
    ensures t.pending.Keys <= s.pending.Keys + Pushers(acts)
    ensures forall c :: c in t.history.abandoned ==>
      c in s.history.abandoned || (c in t.stopped && c in s.pending.Keys + Pushers(acts))
    decreases |acts|
  {
    if acts != [] {
      var next := Apply(s, acts[0]);
      assert acts == [acts[0]] + acts[1..];
      StepOrigins(s, acts[0]);
      RunOrigins(next, acts[1..], t);
    }
  }

  lemma StepOrigins<T>(s: State<T>, a: Action<T>)
    requires Enabled(s, a)
    ensures Apply(s, a).stopped == s.stopped + Stops([a])
    ensures Apply(s, a).pending.Keys <= s.pending.Keys + Pushers([a])
    ensures forall c :: c in Apply(s, a).history.abandoned ==>
      c in s.history.abandoned || (c in s.stopped && c in s.pending.Keys)
  {
    assert a in [a];
  }

  lemma EmptyOrInhabited(calls: seq<CallId>)
    ensures calls == [] || exists c :: c in calls
  {
    if calls != [] { assert calls[0] in calls; }
  }

  /** While a producer sleeps on an open queue, each free slot has its own woken producer. */
  ghost predicate ProducersServed<T>(s: State<T>) {
    !s.closed && s.producers.sleeping != {} ==> s.capacity - |s.queue| <= |s.producers.woken|
  }

  /** The only producer sleeps on a full queue. */
  ghost predicate LoneProducer<T>(s: State<T>, p: CallId) {
    && s.pending.Keys <= {p} && s.producers.sleeping <= {p}
    && (!s.closed && s.producers.sleeping != {} ==> |s.queue| >= s.capacity)
  }

  lemma LoneProducerStep<T>(s: State<T>, a: Action<T>, p: CallId)
    requires Shape(s) && LoneProducer(s, p) && Enabled(s, a) && (a.PushEnter? ==> a.call == p)
    ensures LoneProducer(Apply(s, a), p)
  {
    match a
    case PopEnter(_, wake) => LonePop(CountConsumerWait(s), a.call, p, wake);
    case PopResume(c, wake) => LonePop(s.(consumers := s.consumers.Leave(c)), c, p, wake);
    case _ =>
  }

  lemma LonePop<T>(s: State<T>, c: CallId, p: CallId, wake: Option<CallId>)
    requires LoneProducer(s, p) && PicksProducer(s, wake)
    ensures LoneProducer(PopSection(s, c, wake), p)
  {
    if s.queue != [] && s.producers.sleeping != {} { assert wake == Some(p); }
  }

  lemma {:induction false} LoneProducerRun<T>(s: State<T>, acts: seq<Action<T>>, t: State<T>, p: CallId)
    requires Inv(s) && LoneProducer(s, p) && Reaches(s, acts, t) && Pushers(acts) <= {p}
    ensures LoneProducer(t, p)
    decreases |acts|
  {
    if acts != [] {
      var a := acts[0];
      assert a in acts && (a.PushEnter? ==> a.call in Pushers(acts));
      InvStep(s, a);
      LoneProducerStep(s, a, p);
      assert forall b :: b in acts[1..] ==> b in acts;
      LoneProducerRun(Apply(s, a), acts[1..], t, p);
    }
  }

  lemma AtMostOne(calls: set<CallId>) returns (p: CallId)
    requires |calls| <= 1
    ensures calls <= {p}
  {
    p := 0;
    if calls != {} {
      p :| p in calls;
      assert calls == {p} + (calls - {p});
    }
  }

  /** Producers are never stranded either, when no producer's token is stopped or
      only one call produces. */
  lemma NoLostProducerWakeup<T>(capacity: nat, acts: seq<Action<T>>, s: State<T>)
    requires Reaches(Init(capacity), acts, s)
    requires Stops(acts) !! Pushers(acts) || |Pushers(acts)| <= 1
    ensures ProducersServed(s)
  {
    hide Reaches, Inv;
    if Stops(acts) !! Pushers(acts) {
      ServedWithoutStops(capacity, acts, s);
    } else {
      var p := AtMostOne(Pushers(acts));
      StartsAlone<T>(capacity, p);
      LoneProducerRun(Init(capacity), acts, s, p);
    }
  }

  lemma StartsAlone<T>(capacity: nat, p: CallId)
    ensures Inv(Init<T>(capacity)) && LoneProducer(Init<T>(capacity), p)
  {}

  lemma ServedWithoutStops<T>(capacity: nat, acts: seq<Action<T>>, s: State<T>)
    requires Reaches(Init(capacity), acts, s) && Stops(acts) !! Pushers(acts)
    ensures ProducersServed(s)
  {
    hide Reaches;
    RunKeepsInv(Init(capacity), acts, s);
    RunOrigins(Init(capacity), acts, s);
    EmptyOrInhabited(s.history.abandoned);
  }

  /** No blocked call can run and no close() is under way: nothing will change
      until somebody outside makes a new call. */
  ghost predicate Quiescent<T>(s: State<T>) {
    s.consumers.woken == {} && s.producers.woken == {} && s.closers == {} && s.halfClosers == {}
  }

  /** Calls sleep only when they must: consumers on an empty open queue,
      producers on a full open one, and so never both kinds at once. */
  lemma QuiescentSleepersHaveCause<T>(capacity: nat, acts: seq<Action<T>>, s: State<T>)
    requires Reaches(Init(capacity), acts, s) && Quiescent(s)
    ensures s.consumers.sleeping != {} ==> s.queue == [] && !s.closed
    ensures s.producers.sleeping != {} ==> !s.closed
    ensures Stops(acts) !! Pushers(acts) || |Pushers(acts)| <= 1 ==>
      && (s.producers.sleeping != {} ==> |s.queue| == s.capacity)
      && (s.consumers.sleeping == {} || s.producers.sleeping == {})
  {
    RunKeepsInv(Init(capacity), acts, s);
    if Stops(acts) !! Pushers(acts) || |Pushers(acts)| <= 1 { NoLostProducerWakeup(capacity, acts, s); }
  }

  // ---- Stopped and closed calls --------------------------------------------

  /** No call whose token is stopped is asleep. */
  ghost predicate StoppedAwake<T>(s: State<T>) {
    s.stopped !! s.consumers.sleeping + s.producers.sleeping
  }

  lemma StoppedAwakeStep<T>(s: State<T>, a: Action<T>)
    requires StoppedAwake(s) && Enabled(s, a)
    ensures StoppedAwake(Apply(s, a))
  {}

  lemma {:induction false} StoppedAwakeRun<T>(s: State<T>, acts: seq<Action<T>>, t: State<T>)
    requires StoppedAwake(s) && Reaches(s, acts, t)
    ensures StoppedAwake(t)
    decreases |acts|
  {
    if acts != [] {
      StoppedAwakeStep(s, acts[0]);
      StoppedAwakeRun(Apply(s, acts[0]), acts[1..], t);
    }
  }

  /** In every reachable state a stopped call is awake. */
  lemma StoppedCallsAreAwake<T>(capacity: nat, acts: seq<Action<T>>, s: State<T>)
    requires Reaches(Init(capacity), acts, s)
    ensures s.stopped !! s.consumers.sleeping + s.producers.sleeping
  {
    StoppedAwakeRun(Init(capacity), acts, s);
  }

  /** When a stopped push next holds the lock, it returns and leaves nothing behind. */
  lemma StoppedPushReturns<T>(capacity: nat, acts: seq<Action<T>>, s: State<T>, a: Action<T>)
    requires Reaches(Init(capacity), acts, s) && Enabled(s, a)
    requires (a.PushEnter? || a.PushResume?) && a.call in s.stopped
    ensures var t := Apply(s, a);
      && !t.consumers.Has(a.call) && !t.producers.Has(a.call)
      && t.queue == s.queue && t.history.accepted == s.history.accepted
  {
    hide Reaches, Conserved, CloseCovers, ItemsCovered, SlotsCovered, AbandonersStopped, Room.Picks;
    RunKeepsInv(Init(capacity), acts, s);
  }

  lemma StoppedPopSection<T>(s: State<T>, c: CallId, wake: Option<CallId>)
    requires c in s.stopped && !s.consumers.Has(c) && !s.producers.Has(c)
    ensures var t := PopSection(s, c, wake);
      && !t.consumers.Has(c) && !t.producers.Has(c)
      && t.queue == (if s.queue == [] then [] else s.queue[1..])
      && t.history.popped == s.history.popped + s.queue[..|s.queue| - |t.queue|]
  {
    if s.queue != [] { assert s.queue[..1] == [s.queue[0]]; }
  }

  /** When a stopped pop next holds the lock, it returns with the front item, if any. */
  lemma StoppedPopReturns<T>(capacity: nat, acts: seq<Action<T>>, s: State<T>, a: Action<T>)
    requires Reaches(Init(capacity), acts, s) && Enabled(s, a)
    requires (a.PopEnter? || a.PopResume?) && a.call in s.stopped
    ensures var t := Apply(s, a);
      && !t.consumers.Has(a.call) && !t.producers.Has(a.call)
      && t.queue == (if s.queue == [] then [] else s.queue[1..])
      && t.history.popped == s.history.popped + s.queue[..|s.queue| - |t.queue|]
  {
    hide Reaches, PopSection, PushSection;
    RunKeepsInv(Init(capacity), acts, s);
    match a
    case PopEnter(c, wake) => StoppedPopSection(CountConsumerWait(s), c, wake);
    case PopResume(c, wake) => StoppedPopSection(s.(consumers := s.consumers.Leave(c)), c, wake);
  }

  lemma ClosedStep<T>(s: State<T>, a: Action<T>)
    requires Enabled(s, a)
    ensures var t := Apply(s, a);
      && t.capacity == s.capacity
      && (s.closed ==> t.closed && t.history.accepted == s.history.accepted)
      && (s.closed ==> (t.consumers.sleeping <= s.consumers.sleeping && t.producers.sleeping <= s.producers.sleeping))
  {}

  /** Closing is for good: nothing is accepted and nobody falls asleep any more. */
  lemma {:induction false} ClosedForGood<T>(s: State<T>, acts: seq<Action<T>>, t: State<T>)
    requires Reaches(s, acts, t)
    ensures t.capacity == s.capacity
    ensures s.closed ==> t.closed && t.history.accepted == s.history.accepted
    ensures s.closed ==> t.consumers.sleeping <= s.consumers.sleeping && t.producers.sleeping <= s.producers.sleeping
    decreases |acts|
  {
    if acts != [] {
      ClosedStep(s, acts[0]);
      ClosedForGood(Apply(s, acts[0]), acts[1..], t);
    }
  }

  // ---- The wait metrics ----------------------------------------------------

  /** How many pushes of the run found the queue open and full when they began. */
  ghost function FoundFull<T>(s: State<T>, acts: seq<Action<T>>): nat
    decreases |acts|
  {
    if acts == [] || !Enabled(s, acts[0]) then 0
    else
      var found := if acts[0].PushEnter? && !s.closed && |s.queue| == s.capacity then 1 else 0;
      found + FoundFull(Apply(s, acts[0]), acts[1..])
  }

  /** How many pops of the run found it open and empty when they began. */
  ghost function FoundEmpty<T>(s: State<T>, acts: seq<Action<T>>): nat
    decreases |acts|
  {
    if acts == [] || !Enabled(s, acts[0]) then 0
    else
      var found := if acts[0].PopEnter? && !s.closed && |s.queue| == 0 then 1 else 0;
      found + FoundEmpty(Apply(s, acts[0]), acts[1..])
  }

  lemma WaitsStep<T>(s: State<T>, a: Action<T>)
    requires Conserved(s) && Enabled(s, a)
    ensures Apply(s, a).metrics.producerWaits
      == s.metrics.producerWaits + if a.PushEnter? && !s.closed && |s.queue| == s.capacity then 1 else 0
    ensures Apply(s, a).metrics.consumerWaits
      == s.metrics.consumerWaits + if a.PopEnter? && !s.closed && |s.queue| == 0 then 1 else 0
  {}

  lemma {:induction false} WaitsOverRun<T>(s: State<T>, acts: seq<Action<T>>, t: State<T>)
    requires Inv(s) && Reaches(s, acts, t)
    ensures t.metrics.producerWaits == s.metrics.producerWaits + FoundFull(s, acts)
    ensures t.metrics.consumerWaits == s.metrics.consumerWaits + FoundEmpty(s, acts)
    decreases |acts|
  {
    if acts != [] {
      WaitsStep(s, acts[0]);
      InvStep(s, acts[0]);
      WaitsOverRun(Apply(s, acts[0]), acts[1..], t);
    }
  }

  /** The wait counters count the calls that met a full or an empty queue. */
  lemma WaitsAreCounted<T>(capacity: nat, acts: seq<Action<T>>, s: State<T>)
    requires Reaches(Init(capacity), acts, s)
    ensures s.metrics.producerWaits == FoundFull(Init(capacity), acts)
    ensures s.metrics.consumerWaits == FoundEmpty(Init(capacity), acts)
  {
    WaitsOverRun(Init(capacity), acts, s);
  }

  // ---- The peak metric -----------------------------------------------------

  /** Largest queue length seen in any state of the run, the first included. */
  ghost function LargestQueue<T>(s: State<T>, acts: seq<Action<T>>): nat
    decreases |acts|
  {
    if acts == [] || !Enabled(s, acts[0]) then |s.queue|
    else
      var rest := LargestQueue(Apply(s, acts[0]), acts[1..]);
      if |s.queue| > rest then |s.queue| else rest
  }

  lemma PeakStep<T>(s: State<T>, a: Action<T>)
    requires Conserved(s) && Enabled(s, a)
    ensures var t := Apply(s, a);
      t.metrics.peak == if |t.queue| > s.metrics.peak then |t.queue| else s.metrics.peak
  {
  }

  lemma {:induction false} PeakOverRun<T>(s: State<T>, acts: seq<Action<T>>, t: State<T>)
    requires Inv(s) && Reaches(s, acts, t)
    ensures t.metrics.peak ==
      if LargestQueue(s, acts) > s.metrics.peak then LargestQueue(s, acts) else s.metrics.peak
    decreases |acts|
  {
    if acts != [] {
      PeakStep(s, acts[0]);
      InvStep(s, acts[0]);
      PeakOverRun(Apply(s, acts[0]), acts[1..], t);
    }
  }

  /** The reported peak is the largest length the queue ever had. */
  lemma PeakIsRunningMaximum<T>(capacity: nat, acts: seq<Action<T>>, s: State<T>)
    requires Reaches(Init(capacity), acts, s)
    ensures s.metrics.peak == LargestQueue(Init(capacity), acts)
  {
    PeakOverRun(Init(capacity), acts, s);
  }

  // ---- A stopped producer can strand another -------------------------------

  lemma {:induction false} ReachesAppend<T>(s: State<T>, left: seq<Action<T>>, m: State<T>,
                                            right: seq<Action<T>>, t: State<T>)
    requires Reaches(s, left, m) && Reaches(m, right, t)
    ensures Reaches(s, left + right, t)
    decreases |left|
  {
    if left == [] {
      assert left + right == right;
    } else {
      assert (left + right)[1..] == left[1..] + right;
      ReachesAppend(Apply(s, left[0]), left[1..], m, right, t);
    }
  }

  /** `n` pushes by one caller that find room, one after another. */
  lemma {:induction false} FillRun<T>(capacity: nat, n: nat, p: CallId, v: T)
    returns (acts: seq<Action<T>>, s: State<T>)
    requires n <= Init<T>(capacity).capacity
    ensures Reaches(Init(capacity), acts, s) && |s.queue| == n
    ensures s.capacity == Init<T>(capacity).capacity && !s.closed && s.stopped == {}
    ensures s.consumers == s.producers == Room({}, {}) && s.closers == s.halfClosers == {}
    ensures s.pending == map[] && s.history.abandoned == []
    ensures forall a :: a in acts ==> a.PushEnter? && a.call == p
  {
    s := Init(capacity);
    acts := [];
    if n > 0 {
      acts, s := FillRun(capacity, n - 1, p, v);
      var a := PushEnter(p, v, None);
      ReachesAppend(Init(capacity), acts, s, [a], Apply(s, a));
      acts, s := acts + [a], Apply(s, a);
    }
  }

  /** For every capacity and every two producers, some run stops the one when it has
      been woken and leaves the other asleep for good beside a free slot. */
  lemma StoppedProducerStrandsAnother<T>(capacity: nat, p: CallId, q: CallId, v: T)
    returns (acts: seq<Action<T>>, s: State<T>)
    requires p != q
    ensures Reaches(Init(capacity), acts, s) && Quiescent(s) && !s.closed
    ensures s.producers.sleeping != {} && |s.queue| < s.capacity
    ensures Pushers(acts) <= {p, q} && Stops(acts) <= {p}
  {
    var full, r := Init<T>(capacity), p + q + 1;
    acts, full := FillRun(capacity, full.capacity, p, v);
    var tail := [PushEnter(p, v, None), PushEnter(q, v, None), PopEnter(r, Some(p)), RequestStop(p),
      PushResume(p, None)];
    s := StrandingTail(full, p, q, r, v);
    ReachesAppend(Init(capacity), acts, full, tail, s);
    forall a | a in acts + tail ensures a in acts || a in tail {}
    acts := acts + tail;
  }

  lemma StrandingTail<T>(full: State<T>, p: CallId, q: CallId, r: CallId, v: T) returns (s: State<T>)
    requires p != q && r != p && r != q && |full.queue| == full.capacity >= 1 && !full.closed && full.stopped == {}
    requires full.consumers == full.producers == Room({}, {}) && full.closers == full.halfClosers == {}
    ensures Reaches(full,
      [PushEnter(p, v, None), PushEnter(q, v, None), PopEnter(r, Some(p)), RequestStop(p), PushResume(p, None)], s)
    ensures Quiescent(s) && !s.closed && s.producers.sleeping != {} && |s.queue| < s.capacity
  {
    var one := Apply(full, PushEnter(p, v, None));
    var two := Apply(one, PushEnter(q, v, None));
    assert two.producers == Room({p, q}, {});
    var taken := Apply(two, PopEnter(r, Some(p)));
    assert taken.producers == Room({q}, {p});
    var stop := Apply(taken, RequestStop(p));
    s := Apply(stop, PushResume(p, None));
    assert s.producers == Room({q}, {});
    var tail := [PushEnter(p, v, None), PushEnter(q, v, None), PopEnter(r, Some(p)), RequestStop(p),
      PushResume(p, None)];
    assert Reaches(stop, tail[4..], s);
    assert Reaches(taken, tail[3..], s);
    assert Reaches(two, tail[2..], s);
    assert Reaches(one, tail[1..], s);
  }

  /** Every run with these producers and these stopped calls serves its producers. */
  ghost predicate AlwaysServed<T(!new)>(capacity: nat, producers: set<CallId>, stopped: set<CallId>) {
    forall acts: seq<Action<T>>, s: State<T> ::
      Reaches(Init(capacity), acts, s) && Pushers(acts) <= producers && Stops(acts) <= stopped ==> ProducersServed(s)
  }

  /** The exact condition: no producer's token is stopped, or only one call produces. */
  lemma ProducersServedExactlyWhen<T(!new)>(capacity: nat, producers: set<CallId>, stopped: set<CallId>, v: T)
    ensures AlwaysServed<T>(capacity, producers, stopped) <==> producers !! stopped || |producers| <= 1
  {
    if producers !! stopped || |producers| <= 1 {
      forall acts: seq<Action<T>>, s: State<T> |
        Reaches(Init(capacity), acts, s) && Pushers(acts) <= producers && Stops(acts) <= stopped
        ensures ProducersServed(s)
      {
        FewerCalls(Pushers(acts), producers);
        NoLostProducerWakeup(capacity, acts, s);
      }
    } else {
      var p :| p in producers && p in stopped;
      var q := Another(producers, p);
      var acts, s := StoppedProducerStrandsAnother(capacity, p, q, v);
      assert !ProducersServed(s);
    }
  }

  lemma FewerCalls(some: set<CallId>, all: set<CallId>)
    requires some <= all
    ensures |some| <= |all|
  {
    assert all == some + (all - some);
  }

  lemma Another(calls: set<CallId>, p: CallId) returns (q: CallId)
    requires |calls| > 1 && p in calls
    ensures q in calls && q != p
  {
    assert calls == {p} + (calls - {p});
    q :| q in calls - {p};
  }
}
