/**
 The bounded queue object.  Its methods are the critical sections of push, pop
 and close; each one takes exactly one enabled step of QueueProtocol, whose
 reachable states satisfy the wake-up and conservation guarantees proved there.
 */
module BoundedQueues {
  import opened Optional
  import opened QueueProtocol

  datatype PushOutcome = PushWaits | Accepted | Refused

  datatype PopOutcome<+T> = PopWaits | Item(value: T) | Nothing

  class BoundedQueue<T> {
    const capacityValue: nat
    var queue: seq<T>
    var closedValue: bool
    var metricsValue: Metrics
    var notEmpty: Room
    var notFull: Room
    ghost var state: State<T>

    /** The fields agree with the ghost state. */
    ghost predicate Mirrors()
      reads this
    {
      && state.capacity == capacityValue
      && state.queue == queue
      && state.closed == closedValue
      && state.metrics == metricsValue
      && state.consumers == notEmpty
      && state.producers == notFull
    }

    ghost predicate Valid()
      reads this
    {
      Mirrors() && Inv(state)
    }

    constructor (capacity: nat)
      ensures Valid() && state == Init(capacity)
      ensures capacityValue >= 1 && (capacity != 0 ==> capacityValue == capacity)
    {
      capacityValue := if capacity == 0 then 1 else capacity;
      queue := [];
      closedValue := false;
      metricsValue := Metrics(0, 0, 0);
      notEmpty := Room({}, {});
      notFull := Room({}, {});
      state := Init(capacity);
    }

    /** The sleeper notify_one wakes: any one of them. */
    static method PickSleeper(room: Room) returns (wake: Option<CallId>)
      ensures room.Picks(wake)
    {
      if room.sleeping == {} {
        wake := None;
      } else {
        var c :| c in room.sleeping;
        wake := Some(c);
      }
    }

    /** push, up to its first sleep or its return. */
    method BeginPush(call: CallId, value: T, stopRequested: bool)
        returns (outcome: PushOutcome, ghost wake: Option<CallId>)
      requires Valid() && Idle(state, call) && stopRequested == (call in state.stopped)
      modifies this
      ensures Valid()
      ensures Enabled(old(state), PushEnter(call, value, wake))
      ensures state == Apply(old(state), PushEnter(call, value, wake))
      ensures outcome.PushWaits? <==> call in notFull.sleeping
      ensures outcome.Accepted? <==> !stopRequested && !old(closedValue) && |old(queue)| < capacityValue
      ensures queue == if outcome.Accepted? then old(queue) + [value] else old(queue)
    {
      ghost var before := state;
      if !closedValue && |queue| >= capacityValue {
        metricsValue := metricsValue.(producerWaits := metricsValue.producerWaits + 1);
      }
      state := CountProducerWait(state);
      outcome, wake := FinishPush(call, value, stopRequested);
      InvStep(before, PushEnter(call, value, wake));
    }

    /** push, from the moment it has been woken and holds the lock again. */
    method ResumePush(call: CallId, value: T, stopRequested: bool)
        returns (outcome: PushOutcome, ghost wake: Option<CallId>)
      requires Valid() && call in notFull.woken && call in state.pending && state.pending[call] == value
      requires stopRequested == (call in state.stopped)
      modifies this
      ensures Valid()
      ensures Enabled(old(state), PushResume(call, wake))
      ensures state == Apply(old(state), PushResume(call, wake))
      ensures outcome.PushWaits? <==> call in notFull.sleeping
      ensures outcome.Accepted? <==> !stopRequested && !old(closedValue) && |old(queue)| < capacityValue
      ensures queue == if outcome.Accepted? then old(queue) + [value] else old(queue)
    {
      ghost var before := state;
      notFull := notFull.Leave(call);
      state := ProducerBack(state, call);
      outcome, wake := FinishPush(call, value, stopRequested);
      InvStep(before, PushResume(call, wake));
    }

    /** The wait predicate of push and what follows it. */
    method FinishPush(call: CallId, value: T, stopRequested: bool)
        returns (outcome: PushOutcome, ghost wake: Option<CallId>)
      requires Mirrors() && !state.producers.Has(call) && stopRequested == (call in state.stopped)
      modifies this
      ensures Mirrors()
      ensures PicksConsumer(old(state), call, wake)
      ensures state == PushSection(old(state), call, value, wake)
      ensures outcome.PushWaits? <==> PushSleeps(old(state), call)
      ensures outcome.Accepted? <==> PushAccepts(old(state), call)
    {
      wake := None;
      ghost var before := state;
      if !stopRequested && !closedValue && |queue| >= capacityValue {
        notFull := notFull.Sleep(call);
        state := PushSection(before, call, value, None);
        return PushWaits, None;
      }
      if closedValue || stopRequested {
        return Refused, None;
      }
      queue := queue + [value];
      if |queue| > metricsValue.peak {
        metricsValue := metricsValue.(peak := |queue|);
      }
      var woken := PickSleeper(notEmpty);
      notEmpty := notEmpty.NotifyOne(woken);
      state := PushSection(before, call, value, woken);
      return Accepted, woken;
    }

    /** pop, up to its first sleep or its return. */
    method BeginPop(call: CallId, stopRequested: bool)
        returns (outcome: PopOutcome<T>, ghost wake: Option<CallId>)
      requires Valid() && Idle(state, call) && stopRequested == (call in state.stopped)
      modifies this
      ensures Valid()
      ensures Enabled(old(state), PopEnter(call, wake))
      ensures state == Apply(old(state), PopEnter(call, wake))
      ensures outcome.PopWaits? <==> call in notEmpty.sleeping
      ensures if old(queue) != [] then outcome == Item(old(queue)[0]) && queue == old(queue)[1..]
              else !outcome.Item? && queue == []
    {
      ghost var before := state;
      if !closedValue && |queue| == 0 {
        metricsValue := metricsValue.(consumerWaits := metricsValue.consumerWaits + 1);
      }
      state := CountConsumerWait(state);
      outcome, wake := FinishPop(call, stopRequested);
      InvStep(before, PopEnter(call, wake));
    }

    /** pop, from the moment it has been woken and holds the lock again. */
    method ResumePop(call: CallId, stopRequested: bool)
        returns (outcome: PopOutcome<T>, ghost wake: Option<CallId>)
      requires Valid() && call in notEmpty.woken && stopRequested == (call in state.stopped)
      modifies this
      ensures Valid()
      ensures Enabled(old(state), PopResume(call, wake))
      ensures state == Apply(old(state), PopResume(call, wake))
      ensures outcome.PopWaits? <==> call in notEmpty.sleeping
      ensures if old(queue) != [] then outcome == Item(old(queue)[0]) && queue == old(queue)[1..]
              else !outcome.Item? && queue == []
    {
      ghost var before := state;
      notEmpty := notEmpty.Leave(call);
      state := state.(consumers := state.consumers.Leave(call));
      outcome, wake := FinishPop(call, stopRequested);
      InvStep(before, PopResume(call, wake));
    }

    method FinishPop(call: CallId, stopRequested: bool)
        returns (outcome: PopOutcome<T>, ghost wake: Option<CallId>)
      requires Mirrors() && stopRequested == (call in state.stopped)
      modifies this
      ensures Mirrors()
      ensures PicksProducer(old(state), wake)
      ensures state == PopSection(old(state), call, wake)
      ensures outcome.PopWaits? <==> PopSleeps(old(state), call)
      ensures if old(queue) != [] then outcome == Item(old(queue)[0]) else !outcome.Item?
    {
      ghost var before := state;
      if !stopRequested && !closedValue && |queue| == 0 {
        notEmpty := notEmpty.Sleep(call);
        state := PopSection(before, call, None);
        return PopWaits, None;
      }
      if |queue| == 0 {
        return Nothing, None;
      }
      var value := queue[0];
      queue := queue[1..];
      var woken := PickSleeper(notFull);
      notFull := notFull.NotifyOne(woken);
      state := PopSection(before, call, woken);
      return Item(value), woken;
    }

    /** close, first part: the flag is set under the lock. */
    method BeginClose(call: CallId)
      requires Valid() && Idle(state, call)
      modifies this
      ensures Valid() && state == Apply(old(state), CloseBegin(call))
    {
      InvStep(state, CloseBegin(call));
      closedValue := true;
      state := Apply(state, CloseBegin(call));
    }

    /** close, second part: notEmpty.notify_all. */
    method NotifyConsumers(call: CallId)
      requires Valid() && call in state.closers
      modifies this
      ensures Valid() && state == Apply(old(state), CloseNotifyConsumers(call))
      ensures notEmpty.sleeping == {}
    {
      InvStep(state, CloseNotifyConsumers(call));
      notEmpty := notEmpty.NotifyAll();
      state := Apply(state, CloseNotifyConsumers(call));
    }

    /** close, third part: notFull.notify_all. */
    method NotifyProducers(call: CallId)
      requires Valid() && call in state.halfClosers
      modifies this
      ensures Valid() && state == Apply(old(state), CloseNotifyProducers(call))
      ensures notFull.sleeping == {}
    {
      InvStep(state, CloseNotifyProducers(call));
      notFull := notFull.NotifyAll();
      state := Apply(state, CloseNotifyProducers(call));
    }

    /** The token of one call is triggered: its callback notifies the call. */
    method StopRequested(call: CallId)
      requires Valid()
      modifies this
      ensures Valid() && state == Apply(old(state), RequestStop(call))
      ensures call !in notEmpty.sleeping && call !in notFull.sleeping
    {
      InvStep(state, RequestStop(call));
      notEmpty := notEmpty.Wake(call);
      notFull := notFull.Wake(call);
      state := Apply(state, RequestStop(call));
    }
  }
}
