/**
 Exactly which sequences the consumer can print: the arrangements of 1..n that avoid 1-3-2 and never need more
 room than the buffer has.
 */
module BufferOutputs {
  import opened BoundedBuffer

  /** When the k-th value is taken, everything from n down to the smallest value so far was pushed and k values were popped. */
  predicate Roomy(out: seq<nat>, n: nat, capacity: nat) {
    forall i, k :: 0 <= i <= k < |out| ==> Held(out[i], k, n) <= capacity
  }

  function Held(smallest: nat, popped: nat, n: nat): int { n + 1 - smallest - popped }

  ghost predicate Printable(out: seq<nat>, n: nat, capacity: nat) {
    multiset(out) == CountUp(0, n) && Avoids132(out) && Roomy(out, n, capacity)
  }

  lemma {:induction false} CountUpIs(from: nat, last: nat, x: nat)
    ensures CountUp(from, last)[x] == (if from < x <= last then 1 else 0)
    ensures |CountUp(from, last)| == (if from <= last then last - from else 0)
    decreases last - from
  {
    if from < last {
      CountUpIs(from + 1, last, x);
    }
  }

  // ---------- Every complete run prints such a sequence ----------

  lemma BufferSize(s: State, n: nat, capacity: nat)
    requires Inv(s, n, capacity)
    ensures |s.buffer| == n - s.val - |s.out|
  {
    CountUpIs(s.val, n, 0);
    assert |multiset(s.out) + multiset(s.buffer)| == |s.out| + |s.buffer|;
  }

  lemma StepKeepsRoomy(s: State, e: Event, n: nat, capacity: nat)
    requires Inv(s, n, capacity) && Roomy(s.out, n, capacity) && Enabled(s, e, capacity)
    ensures Roomy(Do(s, e, capacity).out, n, capacity)
  {
    if e == Pops {
      BufferSize(s, n, capacity);
    } else if e != Pushes {
      OnlyMovesTouchData(s, e, capacity);
    }
  }

  lemma {:induction false} RunsKeepRoomy(s: State, schedule: seq<Event>, n: nat, capacity: nat)
    requires capacity > 0 && Inv(s, n, capacity) && Roomy(s.out, n, capacity) && Runs(s, schedule, capacity)
    ensures Roomy(After(s, schedule, capacity).out, n, capacity)
    decreases |schedule|
  {
    if schedule != [] {
      StepKeepsRoomy(s, schedule[0], n, capacity);
      StepKeepsInv(s, schedule[0], n, capacity);
      hide Inv, Enabled, Do, Roomy;
      RunsKeepRoomy(Do(s, schedule[0], capacity), schedule[1..], n, capacity);
    }
  }

  lemma CompleteRunsArePrintable(n: nat, schedule: seq<Event>, capacity: nat)
    requires capacity > 0 && Runs(Start(n), schedule, capacity) && Finished(After(Start(n), schedule, capacity))
    ensures Printable(After(Start(n), schedule, capacity).out, n, capacity)
  {
    StartKeepsInv(n, capacity);
    RunsKeepInv(Start(n), schedule, n, capacity);
    StuckIffFinished(After(Start(n), schedule, capacity), n, capacity);
    RunsKeepRoomy(Start(n), schedule, n, capacity);
  }

  // ---------- Every such sequence is printed by some run ----------

  ghost predicate Reaches(s: State, s': State, capacity: nat) {
    exists schedule :: Runs(s, schedule, capacity) && After(s, schedule, capacity) == s'
  }

  lemma ReachesItself(s: State, capacity: nat)
    ensures Reaches(s, s, capacity)
  {
    assert Runs(s, [], capacity) && After(s, [], capacity) == s;
  }

  lemma StepThenReaches(s: State, e: Event, s': State, capacity: nat)
    requires Enabled(s, e, capacity) && Reaches(Do(s, e, capacity), s', capacity)
    ensures Reaches(s, s', capacity)
  {
    var schedule :| Runs(Do(s, e, capacity), schedule, capacity) && After(Do(s, e, capacity), schedule, capacity) == s';
    OneMore(s, e, schedule, capacity);
  }

  /** Both threads at the heads of their loops. */
  predicate AtHeads(s: State) { s.producer == Head && s.consumer == Head }

  function Pushed(s: State): State
    requires s.val > 0
  {
    s.(buffer := s.buffer + [s.val], val := s.val - 1)
  }

  function Popped(s: State): State
    requires s.buffer != []
  {
    s.(out := s.out + [Last(s.buffer)], buffer := s.buffer[..|s.buffer| - 1])
  }

  /** One round of the producer: lock, push, unlock, notify. */
  lemma PushRound(s: State, s': State, capacity: nat)
    requires AtHeads(s) && s.val > 0 && |s.buffer| < capacity && Reaches(Pushed(s), s', capacity)
    ensures Reaches(s, s', capacity)
  {
    var s1 := Do(s, ProducerLocks, capacity);
    var s2 := Do(s1, Pushes, capacity);
    var s3 := Do(s2, ProducerUnlocks, capacity);
    assert Do(s3, ProducerNotifies, capacity) == Pushed(s);
    hide Reaches;
    StepThenReaches(s3, ProducerNotifies, s', capacity);
    StepThenReaches(s2, ProducerUnlocks, s', capacity);
    StepThenReaches(s1, Pushes, s', capacity);
    StepThenReaches(s, ProducerLocks, s', capacity);
  }

  lemma PopRound(s: State, s': State, capacity: nat)
    requires AtHeads(s) && s.buffer != [] && Reaches(Popped(s), s', capacity)
    ensures Reaches(s, s', capacity)
  {
    var s1 := Do(s, ConsumerLocks, capacity);
    var s2 := Do(s1, Pops, capacity);
    var s3 := Do(s2, ConsumerUnlocks, capacity);
    assert Do(s3, ConsumerNotifies, capacity) == Popped(s);
    hide Reaches;
    StepThenReaches(s3, ConsumerNotifies, s', capacity);
    StepThenReaches(s2, ConsumerUnlocks, s', capacity);
    StepThenReaches(s1, Pops, s', capacity);
    StepThenReaches(s, ConsumerLocks, s', capacity);
  }

  /** The value that was pushed last has been printed, so nothing was pushed before it was wanted. */
  predicate Greedy(s: State, w: seq<nat>, n: nat) {
    && AtHeads(s) && s.out <= w
    && (s.val < n ==> s.val + 1 in s.out)
  }

  /** A value still in the buffer has not been printed. */
  lemma BufferedIsNotPrinted(s: State, n: nat, capacity: nat, x: nat)
    requires Inv(s, n, capacity) && x in s.buffer
    ensures s.val < x <= n && x !in s.out
  {
    CountUpIs(s.val, n, x);
    assert (multiset(s.out) + multiset(s.buffer))[x] == multiset(s.out)[x] + multiset(s.buffer)[x];
    assert x in multiset(s.buffer);
    assert x in s.out <==> x in multiset(s.out);
  }

  /** Each value stands once in an arrangement. */
  lemma OnceEach(w: seq<nat>, n: nat, k: nat)
    requires multiset(w) == CountUp(0, n) && k < |w|
    ensures 0 < w[k] <= n && w[k] !in w[..k]
  {
    assert w[k] in multiset(w);
    CountUpIs(0, n, w[k]);
    assert w == w[..k] + ([w[k]] + w[k + 1..]);
    assert multiset(w) == multiset(w[..k]) + (multiset{w[k]} + multiset(w[k + 1..]));
    assert w[k] in w[..k] <==> w[k] in multiset(w[..k]);
  }

  /** If the next value wanted was pushed already, avoiding 1-3-2 has it on top. */
  lemma WantedIsOnTop(s: State, w: seq<nat>, n: nat, capacity: nat)
    requires Inv(s, n, capacity) && Greedy(s, w, n) && Printable(w, n, capacity)
    requires |s.out| < |w| && w[|s.out|] > s.val
    ensures s.buffer != [] && Last(s.buffer) == w[|s.out|]
  {
    hide CountUp, Roomy, NothingBetween, Control, NoLostWakeup, Avoids132;
    var k := |s.out|;
    var v := w[k];
    OnceEach(w, n, k);
    assert w[..k] == s.out;
    CountUpIs(s.val, n, v);
    assert v in multiset(s.out) + multiset(s.buffer);
    assert v in s.buffer;
    var top := Last(s.buffer);
    BufferedIsNotPrinted(s, n, capacity, top);
    if top != v {
      var i :| 0 <= i < k && s.out[i] == s.val + 1;
      CountUpIs(0, n, top);
      assert top in multiset(w);
      var p :| 0 <= p < |w| && w[p] == top;
      assert p > k;
      LastIsNotBetween(w, i, k, p);
    }
  }

  lemma LastIsNotBetween(w: seq<nat>, i: nat, j: nat, k: nat)
    requires Avoids132(w) && i < j < k < |w|
    ensures w[k] <= w[i] || w[j] <= w[k]
  {
    assert !Straddled(w, i, j, w[k]);
  }

  lemma PushedKeepsInv(s: State, n: nat, capacity: nat)
    requires capacity > 0 && Inv(s, n, capacity) && AtHeads(s) && s.val > 0 && |s.buffer| < capacity
    ensures Inv(Pushed(s), n, capacity)
  {
    PushKeepsData(s.val, s.out, s.buffer, n, capacity);
    hide DataInv;
  }

  lemma PoppedKeepsInv(s: State, n: nat, capacity: nat)
    requires Inv(s, n, capacity) && AtHeads(s) && s.buffer != []
    ensures Inv(Popped(s), n, capacity)
  {
    PopKeepsData(s.val, s.out, s.buffer, n, capacity);
    hide DataInv;
  }

  /** Push until the wanted value is on top, pop it, and go on with the next. */
  lemma {:induction false} PrintsTheRest(s: State, w: seq<nat>, n: nat, capacity: nat, s': State)
    requires capacity > 0 && Inv(s, n, capacity) && AtHeads(s) && s.out <= w && Printable(w, n, capacity)
    requires Greedy(s, w, n) || (|s.out| < |w| && s.val + 1 >= w[|s.out|] && |s.buffer| > 0 && Last(s.buffer) == s.val + 1)
    requires s' == State(0, [], w, Gone, Asleep)
    ensures Reaches(s, s', capacity)
    decreases |w| - |s.out|, s.val
  {
    hide Reaches, Inv;
    if s.out == w {
      AllPrinted(s, n, capacity);
      LastSteps(s, s', capacity);
    } else {
      var k := |s.out|;
      var v := w[k];
      assert w[..k] == s.out;
      OnceEach(w, n, k);
      if v <= s.val {
        RoomForOneMore(s, w, n, capacity);
        PushedKeepsInv(s, n, capacity);
        PrintsTheRest(Pushed(s), w, n, capacity, s');
        PushRound(s, s', capacity);
      } else {
        if Greedy(s, w, n) {
          WantedIsOnTop(s, w, n, capacity);
        }
        PoppedKeepsInv(s, n, capacity);
        assert Popped(s).out == w[..k + 1];
        assert s.val < n ==> s.val + 1 in Popped(s).out by {
          BufferedIsNotPrintedOrNext(s, w, n);
        }
        PrintsTheRest(Popped(s), w, n, capacity, s');
        PopRound(s, s', capacity);
      }
    }
  }

  lemma BufferedIsNotPrintedOrNext(s: State, w: seq<nat>, n: nat)
    requires s.buffer != [] && (Greedy(s, w, n) || Last(s.buffer) == s.val + 1)
    ensures s.val < n ==> s.val + 1 in Popped(s).out
  {
    if s.val < n {
      assert Popped(s).out[|s.out|] == Last(s.buffer);
      assert forall x :: x in s.out ==> x in Popped(s).out;
    }
  }

  lemma RoomForOneMore(s: State, w: seq<nat>, n: nat, capacity: nat)
    requires Inv(s, n, capacity) && Roomy(w, n, capacity) && |s.out| < |w| && w[|s.out|] <= s.val
    ensures |s.buffer| < capacity
  {
    BufferSize(s, n, capacity);
    var k := |s.out|;
    assert Held(w[k], k, n) <= capacity;
  }

  lemma AllPrinted(s: State, n: nat, capacity: nat)
    requires Inv(s, n, capacity) && multiset(s.out) == CountUp(0, n)
    ensures s.val == 0 && s.buffer == []
  {
    BufferSize(s, n, capacity);
    CountUpIs(0, n, 0);
    assert |multiset(s.out)| == |s.out|;
  }

  lemma LastSteps(s: State, s': State, capacity: nat)
    requires AtHeads(s) && s.val == 0 && s.buffer == [] && s' == s.(producer := Gone, consumer := Asleep)
    ensures Reaches(s, s', capacity)
  {
    var s1 := Do(s, ProducerEnds, capacity);
    var s2 := Do(s1, ConsumerLocks, capacity);
    ReachesItself(s', capacity);
    hide Reaches;
    StepThenReaches(s2, ConsumerWaits, s', capacity);
    StepThenReaches(s1, ConsumerLocks, s', capacity);
    StepThenReaches(s, ProducerEnds, s', capacity);
  }

  /** A schedule that runs to the finished state and has the consumer print `w`. */
  ghost predicate Prints(schedule: seq<Event>, n: nat, w: seq<nat>, capacity: nat) {
    && Runs(Start(n), schedule, capacity)
    && Finished(After(Start(n), schedule, capacity))
    && After(Start(n), schedule, capacity).out == w
  }

  /** The consumer's possible outputs, exactly. */
  lemma OutputsExactly(n: nat, w: seq<nat>, capacity: nat)
    requires capacity > 0
    ensures Printable(w, n, capacity) <==> exists schedule :: Prints(schedule, n, w, capacity)
  {
    if Printable(w, n, capacity) {
      StartKeepsInv(n, capacity);
      var s' := State(0, [], w, Gone, Asleep);
      PrintsTheRest(Start(n), w, n, capacity, s');
      var schedule :| Runs(Start(n), schedule, capacity) && After(Start(n), schedule, capacity) == s';
      assert Prints(schedule, n, w, capacity);
    }
    if schedule :| Prints(schedule, n, w, capacity) {
      CompleteRunsArePrintable(n, schedule, capacity);
    }
  }
}
