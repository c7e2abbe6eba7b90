/**
 The bounded buffer with one mutex and one condition variable: a producer counting down from n, a consumer that
 takes from the end it was pushed to. Each thread is a program counter; the scheduler picks any enabled step.
 */
module BoundedBuffer {

  /**
   Where a thread stands: at the head of its loop, holding the mutex before the wait predicate, asleep in the wait
   set, woken but without the mutex, holding the mutex after its push or pop, before its notify, or gone.
   */
  datatype Place = Head | Holding | Asleep | Woken | Moved | Notifying | Gone

  datatype State = State(val: nat, buffer: seq<nat>, out: seq<nat>, producer: Place, consumer: Place)

  function Start(n: nat): State { State(n, [], [], Head, Head) }

  predicate HasMutex(p: Place) { p == Holding || p == Moved }

  predicate MutexFree(s: State) { !HasMutex(s.producer) && !HasMutex(s.consumer) }

  datatype Event =
    | ProducerLocks | ProducerWaits | Pushes | ProducerUnlocks | ProducerNotifies | ProducerEnds
    | ConsumerLocks | ConsumerWaits | Pops | ConsumerUnlocks | ConsumerNotifies
    | ProducerSpurious | ConsumerSpurious

  predicate IsSpurious(e: Event) { e == ProducerSpurious || e == ConsumerSpurious }

  predicate Enabled(s: State, e: Event, capacity: nat) {
    match e
    case ProducerLocks => MutexFree(s) && ((s.producer == Head && s.val > 0) || s.producer == Woken)
    case ProducerWaits => s.producer == Holding && |s.buffer| >= capacity
    case Pushes => s.producer == Holding && |s.buffer| < capacity && s.val > 0
    case ProducerUnlocks => s.producer == Moved
    case ProducerNotifies => s.producer == Notifying
    case ProducerEnds => s.producer == Head && s.val == 0
    case ConsumerLocks => MutexFree(s) && (s.consumer == Head || s.consumer == Woken)
    case ConsumerWaits => s.consumer == Holding && s.buffer == []
    case Pops => s.consumer == Holding && s.buffer != []
    case ConsumerUnlocks => s.consumer == Moved
    case ConsumerNotifies => s.consumer == Notifying
    case ProducerSpurious => s.producer == Asleep
    case ConsumerSpurious => s.consumer == Asleep
  }

  function Wake(p: Place): Place { if p == Asleep then Woken else p }

  function Last(b: seq<nat>): nat
    requires b != []
  {
    b[|b| - 1]
  }

  function Do(s: State, e: Event, capacity: nat): State
    requires Enabled(s, e, capacity)
  {
    match e
    case ProducerLocks => s.(producer := Holding)
    case ProducerWaits => s.(producer := Asleep)
    case Pushes => s.(producer := Moved, buffer := s.buffer + [s.val], val := s.val - 1)
    case ProducerUnlocks => s.(producer := Notifying)
    case ProducerNotifies => s.(producer := Head, consumer := Wake(s.consumer))
    case ProducerEnds => s.(producer := Gone)
    case ConsumerLocks => s.(consumer := Holding)
    case ConsumerWaits => s.(consumer := Asleep)
    case Pops => s.(consumer := Moved, out := s.out + [Last(s.buffer)], buffer := s.buffer[..|s.buffer| - 1])
    case ConsumerUnlocks => s.(consumer := Notifying)
    case ConsumerNotifies => s.(consumer := Head, producer := Wake(s.producer))
    case ProducerSpurious => s.(producer := Woken)
    case ConsumerSpurious => s.(consumer := Woken)
  }

  /** A run from n: a schedule, each of its steps enabled when its turn comes. */
  ghost predicate Runs(s: State, schedule: seq<Event>, capacity: nat)
    decreases |schedule|
  {
    schedule == [] || (Enabled(s, schedule[0], capacity) && Runs(Do(s, schedule[0], capacity), schedule[1..], capacity))
  }

  ghost function After(s: State, schedule: seq<Event>, capacity: nat): State
    requires Runs(s, schedule, capacity)
    decreases |schedule|
  {
    if schedule == [] then s else After(Do(s, schedule[0], capacity), schedule[1..], capacity)
  }

  // ---------- The invariant ----------

  /** Mutual exclusion, and who may be where: only the producer ends, and only with its count at 0. */
  predicate Control(s: State) {
    && !(HasMutex(s.producer) && HasMutex(s.consumer))
    && (s.producer == Gone ==> s.val == 0)
    && (s.producer in {Holding, Asleep, Woken} ==> s.val > 0)
    && s.consumer != Gone
  }

  /** A sleeper has nothing to do yet, or the notify that will wake it is still to come. */
  predicate NoLostWakeup(s: State, capacity: nat) {
    && (s.consumer == Asleep ==> s.buffer == [] || s.producer in {Moved, Notifying})
    && (s.producer == Asleep ==> |s.buffer| >= capacity || s.consumer in {Moved, Notifying})
  }

  function CountUp(from: nat, last: nat): multiset<nat>
    decreases last - from
  {
    if from >= last then multiset{} else CountUp(from + 1, last) + multiset{from + 1}
  }

  predicate IsFalling(b: seq<nat>) { forall i, j :: 0 <= i < j < |b| ==> b[i] > b[j] }

  /** A small, then a large value with `x` between them. */
  predicate Straddled(out: seq<nat>, i: nat, j: nat, x: nat)
    requires i < j < |out|
  {
    out[i] < x < out[j]
  }

  /** Nothing left in the buffer fits between an early small output and a later large one. */
  predicate NothingBetween(out: seq<nat>, buffer: seq<nat>) {
    forall i, j, b :: 0 <= i < j < |out| && 0 <= b < |buffer| ==> !Straddled(out, i, j, buffer[b])
  }

  /** The outputs never show a small, then a large, then a middle value. */
  predicate Avoids132(out: seq<nat>) {
    forall i, j, k :: 0 <= i < j < k < |out| ==> !Straddled(out, i, j, out[k])
  }

  /**
   The countdown is pushed and popped at one end, so the buffer falls strictly; both it and the output lie above
   what is still to come; and together they are exactly the values produced.
   */
  ghost predicate DataInv(val: nat, out: seq<nat>, buffer: seq<nat>, n: nat, capacity: nat) {
    && val <= n && |buffer| <= capacity
    && IsFalling(buffer)
    && (forall i :: 0 <= i < |buffer| ==> buffer[i] > val)
    && (forall i :: 0 <= i < |out| ==> out[i] > val)
    && multiset(out) + multiset(buffer) == CountUp(val, n)
    && NothingBetween(out, buffer) && Avoids132(out)
  }

  ghost predicate Inv(s: State, n: nat, capacity: nat) {
    Control(s) && NoLostWakeup(s, capacity) && DataInv(s.val, s.out, s.buffer, n, capacity)
  }

  lemma StartKeepsInv(n: nat, capacity: nat)
    ensures Inv(Start(n), n, capacity)
  {
  }

  lemma StepKeepsInv(s: State, e: Event, n: nat, capacity: nat)
    requires capacity > 0 && Inv(s, n, capacity) && Enabled(s, e, capacity)
    ensures Inv(Do(s, e, capacity), n, capacity)
  {
    StepKeepsControl(s, e, capacity);
    hide Control, NoLostWakeup, DataInv;
    if e == Pushes {
      PushKeepsData(s.val, s.out, s.buffer, n, capacity);
    } else if e == Pops {
      PopKeepsData(s.val, s.out, s.buffer, n, capacity);
    } else {
      OnlyMovesTouchData(s, e, capacity);
    }
  }

  lemma OnlyMovesTouchData(s: State, e: Event, capacity: nat)
    requires Enabled(s, e, capacity) && e != Pushes && e != Pops
    ensures var s' := Do(s, e, capacity); s'.val == s.val && s'.buffer == s.buffer && s'.out == s.out
  {
  }

  lemma StepKeepsControl(s: State, e: Event, capacity: nat)
    requires capacity > 0 && Control(s) && NoLostWakeup(s, capacity) && Enabled(s, e, capacity)
    ensures Control(Do(s, e, capacity)) && NoLostWakeup(Do(s, e, capacity), capacity)
  {
  }

  lemma PushKeepsData(val: nat, out: seq<nat>, buffer: seq<nat>, n: nat, capacity: nat)
    requires val > 0 && |buffer| < capacity && DataInv(val, out, buffer, n, capacity)
    ensures DataInv(val - 1, out, buffer + [val], n, capacity)
  {
    assert CountUp(val - 1, n) == CountUp(val, n) + multiset{val};
  }

  lemma PopKeepsData(val: nat, out: seq<nat>, buffer: seq<nat>, n: nat, capacity: nat)
    requires buffer != [] && DataInv(val, out, buffer, n, capacity)
    ensures DataInv(val, out + [Last(buffer)], buffer[..|buffer| - 1], n, capacity)
  {
    PopKeepsOrder(out, buffer);
    hide IsFalling, NothingBetween, Avoids132;
  }

  lemma PopKeepsOrder(out: seq<nat>, buffer: seq<nat>)
    requires buffer != [] && IsFalling(buffer) && NothingBetween(out, buffer) && Avoids132(out)
    ensures var out', buffer' := out + [Last(buffer)], buffer[..|buffer| - 1];
            && IsFalling(buffer') && NothingBetween(out', buffer') && Avoids132(out')
            && multiset(out') + multiset(buffer') == multiset(out) + multiset(buffer)
  {
    var m := |buffer| - 1;
    var out', buffer' := out + [Last(buffer)], buffer[..m];
    assert buffer == buffer' + [Last(buffer)];
    forall i, j, b | 0 <= i < j < |out'| && 0 <= b < |buffer'|
      ensures !Straddled(out', i, j, buffer'[b])
    {
      if j < |out| {
        assert !Straddled(out, i, j, buffer[b]);
      } else {
        assert buffer[b] > buffer[m];
      }
    }
    forall i, j, k | 0 <= i < j < k < |out'|
      ensures !Straddled(out', i, j, out'[k])
    {
      if k < |out| {
        assert !Straddled(out, i, j, out[k]);
      } else {
        assert !Straddled(out, i, j, buffer[m]);
      }
    }
  }

  lemma {:induction false} RunsKeepInv(s: State, schedule: seq<Event>, n: nat, capacity: nat)
    requires capacity > 0 && Inv(s, n, capacity) && Runs(s, schedule, capacity)
    ensures Inv(After(s, schedule, capacity), n, capacity)
    decreases |schedule|
  {
    if schedule != [] {
      hide Inv, Enabled, Do;
      StepKeepsInv(s, schedule[0], n, capacity);
      RunsKeepInv(Do(s, schedule[0], capacity), schedule[1..], n, capacity);
    }
  }

  // ---------- Safety and progress of every run ----------

  /**
   In every reachable state: the buffer is bounded, one thread at a time has the mutex, nothing is lost or made up,
   not both sleep, no 1-3-2 comes out.
   */
  lemma Safety(n: nat, schedule: seq<Event>, capacity: nat)
    requires capacity > 0 && Runs(Start(n), schedule, capacity)
    ensures var s := After(Start(n), schedule, capacity);
            && |s.buffer| <= capacity
            && multiset(s.out) + multiset(s.buffer) == CountUp(s.val, n)
            && !(s.producer == Asleep && s.consumer == Asleep)
            && !(s.producer in {Holding, Moved} && s.consumer in {Holding, Moved})
            && Avoids132(s.out)
  {
    StartKeepsInv(n, capacity);
    RunsKeepInv(Start(n), schedule, n, capacity);
  }

  /** No thread can make a step of its own accord. */
  ghost predicate Stuck(s: State, capacity: nat) {
    forall e :: Enabled(s, e, capacity) ==> IsSpurious(e)
  }

  predicate Finished(s: State) {
    s.producer == Gone && s.consumer == Asleep && s.buffer == [] && s.val == 0
  }

  /** The only state without progress is the finished one, with every value consumed once: no wakeup is lost. */
  lemma StuckIffFinished(s: State, n: nat, capacity: nat)
    requires capacity > 0 && Inv(s, n, capacity)
    ensures Stuck(s, capacity) <==> Finished(s)
    ensures Finished(s) ==> multiset(s.out) == CountUp(0, n)
  {
    if Stuck(s, capacity) {
      assert !Enabled(s, ProducerLocks, capacity) && !Enabled(s, ProducerWaits, capacity) && !Enabled(s, Pushes, capacity);
      assert !Enabled(s, ProducerUnlocks, capacity) && !Enabled(s, ProducerNotifies, capacity) && !Enabled(s, ProducerEnds, capacity);
      assert !Enabled(s, ConsumerLocks, capacity) && !Enabled(s, ConsumerWaits, capacity) && !Enabled(s, Pops, capacity);
      assert !Enabled(s, ConsumerUnlocks, capacity) && !Enabled(s, ConsumerNotifies, capacity);
    }
  }

  /** How many steps a thread at a place can still make before it sleeps, counting the wakeup its notify may give. */
  function Weight(p: Place): nat {
    match p
    case Gone => 0
    case Asleep => 0
    case Holding => 1
    case Head => 2
    case Woken => 2
    case Notifying => 5
    case Moved => 6
  }

  function Measure(s: State): nat {
    12 * s.val + 6 * |s.buffer| + Weight(s.producer) + Weight(s.consumer)
  }

  lemma StepMeasure(s: State, e: Event, capacity: nat)
    requires Enabled(s, e, capacity)
    ensures var s' := Do(s, e, capacity);
            if IsSpurious(e) then Measure(s') == Measure(s) + 2 else Measure(s') < Measure(s)
  {
  }

  function Spurious(schedule: seq<Event>): nat {
    if schedule == [] then 0 else (if IsSpurious(schedule[0]) then 1 else 0) + Spurious(schedule[1..])
  }

  lemma {:induction false} RunMeasure(s: State, schedule: seq<Event>, capacity: nat)
    requires Runs(s, schedule, capacity)
    ensures Measure(After(s, schedule, capacity)) + |schedule| <= Measure(s) + 3 * Spurious(schedule)
    decreases |schedule|
  {
    if schedule != [] {
      hide Enabled, Do, Measure;
      StepMeasure(s, schedule[0], capacity);
      RunMeasure(Do(s, schedule[0], capacity), schedule[1..], capacity);
    }
  }

  /** Apart from spurious wakeups every run is over after at most 12 n + 4 steps, whatever the scheduler does. */
  lemma EveryRunEnds(n: nat, schedule: seq<Event>, capacity: nat)
    requires Runs(Start(n), schedule, capacity)
    ensures |schedule| <= 12 * n + 4 + 3 * Spurious(schedule)
    ensures ProducerSpurious !in schedule && ConsumerSpurious !in schedule ==> |schedule| <= 12 * n + 4
  {
    RunMeasure(Start(n), schedule, capacity);
    if ProducerSpurious !in schedule && ConsumerSpurious !in schedule { NoneSpurious(schedule); }
  }

  lemma {:induction false} NoneSpurious(schedule: seq<Event>)
    requires ProducerSpurious !in schedule && ConsumerSpurious !in schedule
    ensures Spurious(schedule) == 0
  {
    if schedule != [] {
      assert schedule[0] in schedule;
      NoneSpurious(schedule[1..]);
    }
  }

  /** Without room in the buffer both sides can fall asleep for good with everything still to produce. */
  lemma ZeroCapacityDeadlocks(n: nat)
    requires n > 0
    ensures exists schedule :: Runs(Start(n), schedule, 0) &&
              var s := After(Start(n), schedule, 0); Stuck(s, 0) && s.producer == s.consumer == Asleep && s.val == n
  {
    var s := Start(n);
    var s1 := Do(s, ProducerLocks, 0);
    var s2 := Do(s1, ProducerWaits, 0);
    var s3 := Do(s2, ConsumerLocks, 0);
    var s4 := Do(s3, ConsumerWaits, 0);
    assert Runs(s4, [], 0) && After(s4, [], 0) == s4;
    OneMore(s3, ConsumerWaits, [], 0);
    OneMore(s2, ConsumerLocks, [ConsumerWaits], 0);
    OneMore(s1, ProducerWaits, [ConsumerLocks] + [ConsumerWaits], 0);
    OneMore(s, ProducerLocks, [ProducerWaits] + ([ConsumerLocks] + [ConsumerWaits]), 0);
    assert [ConsumerWaits] + [] == [ConsumerWaits];
    assert Stuck(s4, 0);
  }

  lemma OneMore(s: State, e: Event, schedule: seq<Event>, capacity: nat)
    requires Enabled(s, e, capacity) && Runs(Do(s, e, capacity), schedule, capacity)
    ensures Runs(s, [e] + schedule, capacity)
    ensures After(s, [e] + schedule, capacity) == After(Do(s, e, capacity), schedule, capacity)
  {
    assert ([e] + schedule)[1..] == schedule;
  }
}
