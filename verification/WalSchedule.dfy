/**
 Concurrent callers of the write-ahead-log store. The log write of a call and its change of the map under the
 mutex are two steps; any number of calls may stand between theirs.
 */
module WalSchedule {
  import opened Sequences
  import opened Bytes
  import opened WalCodec
  import opened WalStore

  /**
   The operations in the order in which they were logged, the positions of those not applied yet, the map, and
   as history the positions in the order in which they were applied.
   */
  datatype State = State(log: seq<Op>, pending: set<nat>, store: Store, applied: seq<nat>)

  function Start(): State { State([], {}, map[], []) }

  datatype Event = Logs(op: Op) | Applies(i: nat)

  predicate Enabled(s: State, e: Event) {
    e.Applies? ==> e.i in s.pending && e.i < |s.log|
  }

  function Do(s: State, e: Event): State
    requires Enabled(s, e)
  {
    match e
    case Logs(op) => s.(log := s.log + [op], pending := s.pending + {|s.log|})
    case Applies(i) => s.(pending := s.pending - {i}, store := Apply(s.log[i], s.store), applied := s.applied + [i])
  }

  ghost predicate Step(s: State, s': State) {
    exists e :: Enabled(s, e) && s' == Do(s, e)
  }

  /** A run, as the states it goes through. */
  ghost predicate Run(states: seq<State>) {
    && states != [] && states[0] == Start()
    && forall i :: 0 <= i < |states| - 1 ==> Step(states[i], states[i + 1])
  }

  lemma RunPrefix(states: seq<State>)
    requires Run(states) && |states| > 1
    ensures Run(states[..|states| - 1])
    ensures Step(states[|states| - 2], states[|states| - 1])
  {
    var n := |states| - 2;
    assert Step(states[n], states[n + 1]);
  }

  // ---------- In every interleaving ----------

  function OpsAt(log: seq<Op>, positions: seq<nat>): seq<Op>
    requires forall j :: 0 <= j < |positions| ==> positions[j] < |log|
  {
    seq(|positions|, j requires 0 <= j < |positions| => log[positions[j]])
  }

  predicate Inv(s: State) {
    && (forall i :: i in s.pending ==> i < |s.log|)
    && (forall a :: 0 <= a < |s.applied| ==> s.applied[a] < |s.log| && s.applied[a] !in s.pending)
    && (forall i: nat :: i < |s.log| && i !in s.pending ==> i in s.applied)
    && (forall a, b :: 0 <= a < b < |s.applied| ==> s.applied[a] != s.applied[b])
    && s.store == ApplyAll(OpsAt(s.log, s.applied), map[])
  }

  lemma StepKeepsInv(s: State, e: Event)
    requires Inv(s) && Enabled(s, e)
    ensures Inv(Do(s, e))
  {
    var s' := Do(s, e);
    if e.Logs? {
      assert OpsAt(s'.log, s'.applied) == OpsAt(s.log, s.applied);
    } else {
      assert OpsAt(s'.log, s'.applied) == OpsAt(s.log, s.applied) + [s.log[e.i]];
      ApplyAllAppend(OpsAt(s.log, s.applied), [s.log[e.i]], map[]);
      assert [s.log[e.i]][1..] == [];
      forall i: nat | i < |s'.log| && i !in s'.pending
        ensures i in s'.applied
      {
        assert i in s.applied || i == s'.applied[|s.applied|];
      }
    }
  }

  /** Each operation is applied at most once and only after it is in the log, and the map is what applying them in that order gives. */
  lemma {:induction false} RunsKeepInv(states: seq<State>)
    requires Run(states)
    ensures Inv(states[|states| - 1])
  {
    if |states| > 1 {
      hide Run, Inv;
      RunPrefix(states);
      var s := states[|states| - 2];
      RunsKeepInv(states[..|states| - 1]);
      var e :| Enabled(s, e) && states[|states| - 1] == Do(s, e);
      StepKeepsInv(s, e);
    }
  }

  // ---------- One key ----------

  function Lookup(m: Store, k: seq<byte>): Option<seq<byte>> {
    if k in m then Some(m[k]) else None
  }

  /** What an operation leaves under its key. */
  function Outcome(op: Op): Option<seq<byte>> {
    match op
    case Put(_, v) => Some(v)
    case Delete(_) => None
  }

  /** What the last operation on `k` leaves there; nothing when there is none. */
  function Effect(ops: seq<Op>, k: seq<byte>): Option<seq<byte>> {
    if ops == [] then None
    else
      var last := ops[|ops| - 1];
      if last.key != k then Effect(ops[..|ops| - 1], k) else Outcome(last)
  }

  predicate Touches(ops: seq<Op>, k: seq<byte>) { exists i :: 0 <= i < |ops| && ops[i].key == k }

  lemma {:induction false} LookupAfter(ops: seq<Op>, m: Store, k: seq<byte>)
    ensures Lookup(ApplyAll(ops, m), k) == if Touches(ops, k) then Effect(ops, k) else Lookup(m, k)
  {
    if ops != [] {
      var front, last := ops[..|ops| - 1], ops[|ops| - 1];
      LookupAfter(front, m, k);
      assert ops == front + [last];
      ApplyAllAppend(front, [last], m);
      assert [last][1..] == [];
      assert Touches(ops, k) <==> Touches(front, k) || last.key == k;
    }
  }

  lemma {:induction false} EffectIsAnOutcome(ops: seq<Op>, k: seq<byte>)
    requires Touches(ops, k)
    ensures exists i :: 0 <= i < |ops| && ops[i].key == k && Effect(ops, k) == Outcome(ops[i])
  {
    var front, last := ops[..|ops| - 1], ops[|ops| - 1];
    if last.key == k {
      assert Effect(ops, k) == Outcome(ops[|ops| - 1]);
    } else {
      EffectIsAnOutcome(front, k);
      var i :| 0 <= i < |front| && front[i].key == k && Effect(front, k) == Outcome(front[i]);
      assert ops[i] == front[i];
    }
  }

  lemma {:induction false} UntouchedHasNoEffect(ops: seq<Op>, k: seq<byte>)
    requires !Touches(ops, k)
    ensures Effect(ops, k) == None
  {
    if ops != [] {
      assert ops[|ops| - 1].key != k;
      UntouchedHasNoEffect(ops[..|ops| - 1], k);
    }
  }

  lemma LookupIsLastEffect(ops: seq<Op>, k: seq<byte>)
    ensures Lookup(ApplyAll(ops, map[]), k) == Effect(ops, k)
  {
    LookupAfter(ops, map[], k);
    if !Touches(ops, k) { UntouchedHasNoEffect(ops, k); }
  }

  lemma {:induction false} EffectIsLogged(ops: seq<Op>, k: seq<byte>)
    ensures Effect(ops, k).Some? ==> Put(k, Effect(ops, k).value) in ops
  {
    if ops != [] {
      EffectIsLogged(ops[..|ops| - 1], k);
    }
  }

  /** Every stored value comes from some logged put on its key. */
  lemma StoredValuesAreLogged(s: State, k: seq<byte>)
    requires Inv(s) && k in s.store
    ensures Put(k, s.store[k]) in s.log
  {
    var ops := OpsAt(s.log, s.applied);
    LookupIsLastEffect(ops, k);
    EffectIsLogged(ops, k);
    var j :| 0 <= j < |ops| && ops[j] == Put(k, s.store[k]);
    assert s.applied[j] in s.applied;
    assert ops[j] == s.log[s.applied[j]];
  }

  /** The call logged at position `i` is on key `k` and not applied yet. */
  predicate OnKey(s: State, i: nat, k: seq<byte>) {
    i in s.pending && i < |s.log| && s.log[i].key == k
  }

  /** A key on which no two calls are ever in flight together. */
  ghost predicate AtMostOneInFlight(s: State, k: seq<byte>) {
    forall i: nat, j: nat :: OnKey(s, i, k) && OnKey(s, j, k) ==> i == j
  }

  ghost predicate InFlight(s: State, k: seq<byte>) {
    exists i: nat :: OnKey(s, i, k)
  }

  /** The pending call on `k`, if any, is the last on `k` in the log, and the map stands where the log stood before it. */
  ghost predicate KeyInv(s: State, k: seq<byte>) {
    && (!InFlight(s, k) ==> Lookup(s.store, k) == Effect(s.log, k))
    && (forall i: nat :: OnKey(s, i, k) ==>
          && (forall j :: i < j < |s.log| ==> s.log[j].key != k)
          && Lookup(s.store, k) == Effect(s.log[..i], k))
  }

  lemma {:induction false} EffectSkips(ops: seq<Op>, n: nat, k: seq<byte>)
    requires n <= |ops| && forall j :: n <= j < |ops| ==> ops[j].key != k
    ensures Effect(ops, k) == Effect(ops[..n], k)
  {
    if n == |ops| {
      assert ops[..n] == ops;
    } else {
      EffectSkips(ops[..|ops| - 1], n, k);
      assert ops[..|ops| - 1][..n] == ops[..n];
    }
  }

  lemma LoggingKeepsKeyInv(s: State, op: Op, k: seq<byte>)
    requires Inv(s) && KeyInv(s, k) && AtMostOneInFlight(Do(s, Logs(op)), k)
    ensures KeyInv(Do(s, Logs(op)), k)
  {
    var s' := Do(s, Logs(op));
    assert s'.log[..|s.log|] == s.log;
    forall i: nat | OnKey(s, i, k)
      ensures OnKey(s', i, k) && s'.log[..i] == s.log[..i]
    {
    }
    if op.key == k {
      assert OnKey(s', |s.log|, k);
    } else {
      assert forall i: nat :: OnKey(s', i, k) ==> OnKey(s, i, k);
    }
  }

  lemma ApplyingKeepsKeyInv(s: State, i: nat, k: seq<byte>)
    requires Inv(s) && KeyInv(s, k) && Enabled(s, Applies(i)) && AtMostOneInFlight(s, k)
    ensures KeyInv(Do(s, Applies(i)), k)
  {
    if OnKey(s, i, k) {
      ApplyingOnKey(s, i, k);
    } else {
      ApplyingElsewhere(s, i, k);
    }
  }

  lemma ApplyingOnKey(s: State, i: nat, k: seq<byte>)
    requires Inv(s) && KeyInv(s, k) && Enabled(s, Applies(i)) && AtMostOneInFlight(s, k) && OnKey(s, i, k)
    ensures KeyInv(Do(s, Applies(i)), k)
  {
    hide Inv;
    EffectSkips(s.log, i + 1, k);
    assert s.log[..i + 1][..i] == s.log[..i];
    hide Effect;
    forall j: nat
      ensures !OnKey(Do(s, Applies(i)), j, k)
    {
      assert OnKey(s, j, k) ==> i == j;
    }
  }

  lemma ApplyingElsewhere(s: State, i: nat, k: seq<byte>)
    requires Inv(s) && KeyInv(s, k) && Enabled(s, Applies(i)) && !OnKey(s, i, k)
    ensures KeyInv(Do(s, Applies(i)), k)
  {
    hide Effect;
    assert s.log[i].key != k;
    assert forall j: nat :: OnKey(Do(s, Applies(i)), j, k) <==> OnKey(s, j, k);
  }

  lemma {:induction false} RunsKeepKeyInv(states: seq<State>, k: seq<byte>)
    requires Run(states) && forall i :: 0 <= i < |states| ==> AtMostOneInFlight(states[i], k)
    ensures KeyInv(states[|states| - 1], k)
  {
    if |states| > 1 {
      hide Run, Inv, KeyInv, AtMostOneInFlight;
      RunPrefix(states);
      var before := states[..|states| - 1];
      var s := states[|states| - 2];
      RunsKeepKeyInv(before, k);
      RunsKeepInv(before);
      var e :| Enabled(s, e) && states[|states| - 1] == Do(s, e);
      match e {
        case Logs(op) => LoggingKeepsKeyInv(s, op, k);
        case Applies(i) => ApplyingKeepsKeyInv(s, i, k);
      }
    }
  }

  /** For a key that never has two calls in flight, the map agrees with replaying the log whenever none is pending. */
  lemma StoreAgreesWithLog(states: seq<State>, k: seq<byte>)
    requires Run(states) && forall i :: 0 <= i < |states| ==> AtMostOneInFlight(states[i], k)
    requires !InFlight(states[|states| - 1], k)
    ensures var s := states[|states| - 1];
            Lookup(s.store, k) == Lookup(ApplyAll(s.log, map[]), k)
  {
    RunsKeepKeyInv(states, k);
    LookupIsLastEffect(states[|states| - 1].log, k);
  }

  // ---------- Back to the bytes ----------

  /** Texts that come back from the log as they were, in entries short enough to be read back. */
  predicate Durable(op: Op) {
    && Fits(Json(op)) && ValidUtf8(op.key)
    && (op.Put? ==> ValidUtf8(op.value))
  }

  lemma RestartReplaysTheLog(log: seq<Op>)
    requires forall op :: op in log ==> Durable(op)
    ensures Recover(Log(log)) == Some(ApplyAll(log, map[]))
  {
    hide Fits, Json, Log, Recover, ValidUtf8;
    forall i | 0 <= i < |log|
      ensures CleanOp(log[i]) == log[i]
    {
      assert Durable(log[i]);
      DurableIsClean(log[i]);
    }
    assert CleanOps(log) == log;
    assert OpsFit(log);
    RestartSucceedsIffEntriesFit(log);
  }

  /** When no call is pending and none ever overlapped another on its key, a restart on the log gives the map. */
  lemma RestartGivesTheStore(states: seq<State>)
    requires Run(states)
    requires forall i, k :: 0 <= i < |states| ==> AtMostOneInFlight(states[i], k)
    requires var s := states[|states| - 1]; s.pending == {} && forall op :: op in s.log ==> Durable(op)
    ensures var s := states[|states| - 1]; Recover(Log(s.log)) == Some(s.store)
  {
    hide Durable, Log, Recover;
    var s := states[|states| - 1];
    forall k
      ensures Lookup(s.store, k) == Lookup(ApplyAll(s.log, map[]), k)
    {
      StoreAgreesWithLog(states, k);
    }
    SameLookups(s.store, ApplyAll(s.log, map[]));
    RestartReplaysTheLog(s.log);
  }

  lemma DurableIsClean(op: Op)
    requires Durable(op)
    ensures CleanOp(op) == op
  {
    CleanIffValid(op.key);
    if op.Put? {
      CleanIffValid(op.value);
    }
  }

  lemma SameLookups(a: Store, b: Store)
    requires forall k :: Lookup(a, k) == Lookup(b, k)
    ensures a == b
  {
    forall k | k in a
      ensures k in b && a[k] == b[k]
    {
      assert Lookup(a, k) == Lookup(b, k);
    }
    forall k | k in b
      ensures k in a
    {
      assert Lookup(a, k) == Lookup(b, k);
    }
  }

  // ---------- Overlapping calls ----------

  ghost predicate Agrees(s: State, k: seq<byte>) {
    Lookup(s.store, k) == Lookup(ApplyAll(s.log, map[]), k)
  }

  /** An order in which the calls in flight can be finished: each of them once. */
  ghost predicate Finishes(s: State, order: seq<nat>) {
    && (forall i :: i in s.pending ==> i in order)
    && (forall a :: 0 <= a < |order| ==> order[a] in s.pending && order[a] < |s.log|)
    && (forall a, b :: 0 <= a < b < |order| ==> order[a] != order[b])
  }

  lemma FinishesRest(s: State, order: seq<nat>)
    requires Finishes(s, order) && order != []
    ensures Enabled(s, Applies(order[0])) && Finishes(Do(s, Applies(order[0])), order[1..])
  {
    var s', rest := Do(s, Applies(order[0])), order[1..];
    forall i | i in s'.pending
      ensures i in rest
    {
      assert i in order && order == [order[0]] + rest;
    }
  }

  ghost function Finished(s: State, order: seq<nat>): State
    requires Finishes(s, order)
    decreases |order|
  {
    if order == [] then s
    else
      FinishesRest(s, order);
      Finished(Do(s, Applies(order[0])), order[1..])
  }

  lemma {:induction false} FinishedIs(s: State, order: seq<nat>)
    requires Finishes(s, order)
    ensures Finished(s, order) == State(s.log, {}, ApplyAll(OpsAt(s.log, order), s.store), s.applied + order)
    decreases |order|
  {
    if order != [] {
      FinishesRest(s, order);
      var s', rest := Do(s, Applies(order[0])), order[1..];
      FinishedIs(s', rest);
      assert OpsAt(s.log, order)[1..] == OpsAt(s.log, rest);
      assert s'.applied + rest == s.applied + order;
    } else {
      assert forall i :: i !in s.pending;
      assert s.applied + order == s.applied;
    }
  }

  /** Finishing the calls in flight is one way for a run to go on. */
  lemma {:induction false} FinishingIsARun(states: seq<State>, order: seq<nat>)
    requires Run(states) && Finishes(states[|states| - 1], order)
    ensures exists more: seq<State> :: Run(more) && states <= more && more[|more| - 1] == Finished(states[|states| - 1], order)
    decreases |order|
  {
    var s := states[|states| - 1];
    if order == [] {
      assert Run(states) && states <= states && states[|states| - 1] == Finished(s, order);
    } else {
      FinishesRest(s, order);
      var s' := Do(s, Applies(order[0]));
      assert Step(s, s');
      RunGrows(states, s');
      hide Run, Step, Finishes;
      FinishingIsARun(states + [s'], order[1..]);
      var more :| Run(more) && states + [s'] <= more && more[|more| - 1] == Finished(s', order[1..]);
      assert states <= more;
    }
  }

  lemma RunGrows(states: seq<State>, s': State)
    requires Run(states) && Step(states[|states| - 1], s')
    ensures Run(states + [s'])
  {
    var longer := states + [s'];
    forall i | 0 <= i < |longer| - 1
      ensures Step(longer[i], longer[i + 1])
    {
      assert i < |states| - 1 ==> Step(states[i], states[i + 1]);
    }
  }

  lemma {:induction false} SomeOrder(pending: set<nat>) returns (order: seq<nat>)
    ensures forall i :: i in pending ==> i in order
    ensures forall a :: 0 <= a < |order| ==> order[a] in pending
    ensures forall a, b :: 0 <= a < b < |order| ==> order[a] != order[b]
    decreases |pending|
  {
    order := [];
    if pending != {} {
      var i :| i in pending;
      order := SomeOrder(pending - {i});
      order := order + [i];
    }
  }

  /** Any call in flight can be made the last one. */
  lemma MadeLast(s: State, i: nat) returns (order: seq<nat>)
    requires Inv(s) && i in s.pending
    ensures order != [] && order[|order| - 1] == i && Finishes(s, order)
  {
    order := SomeOrder(s.pending - {i});
    order := order + [i];
  }

  /**
   Every call on `k` in flight would leave what the last logged one leaves; and if none is in flight, the last
   one applied has left that.
   */
  ghost predicate Settled(s: State, k: seq<byte>)
    requires Inv(s)
  {
    && (forall i: nat :: OnKey(s, i, k) ==> Outcome(s.log[i]) == Effect(s.log, k))
    && (!InFlight(s, k) ==> Effect(OpsAt(s.log, s.applied), k) == Effect(s.log, k))
  }

  lemma FinishedLookup(s: State, order: seq<nat>, k: seq<byte>)
    requires Inv(s) && Finishes(s, order)
    ensures Agrees(Finished(s, order), k)
            <==> (if InFlight(s, k) then Effect(OpsAt(s.log, order), k) else Effect(OpsAt(s.log, s.applied), k)) == Effect(s.log, k)
  {
    var ops := OpsAt(s.log, order);
    FinishedIs(s, order);
    LookupAfter(ops, s.store, k);
    LookupIsLastEffect(OpsAt(s.log, s.applied), k);
    LookupIsLastEffect(s.log, k);
    hide ApplyAll, Effect, Lookup;
    if i: nat :| OnKey(s, i, k) {
      var a :| 0 <= a < |order| && order[a] == i;
      assert ops[a] == s.log[i];
    }
    if Touches(ops, k) {
      var a :| 0 <= a < |ops| && ops[a].key == k;
      assert OnKey(s, order[a], k);
    }
  }

  lemma SettledAgrees(s: State, order: seq<nat>, k: seq<byte>)
    requires Inv(s) && Settled(s, k) && Finishes(s, order)
    ensures Agrees(Finished(s, order), k)
  {
    FinishedLookup(s, order, k);
    var ops := OpsAt(s.log, order);
    hide Agrees, Finished, Effect;
    if i: nat :| OnKey(s, i, k) {
      var a :| 0 <= a < |order| && order[a] == i;
      assert ops[a] == s.log[i];
      EffectIsAnOutcome(ops, k);
      var b :| 0 <= b < |ops| && ops[b].key == k && Effect(ops, k) == Outcome(ops[b]);
      assert OnKey(s, order[b], k);
    }
  }

  /** A call whose outcome is not the log's, finished last, leaves the map apart from the log. */
  lemma LastDecides(s: State, i: nat, k: seq<byte>)
    requires Inv(s) && OnKey(s, i, k) && Outcome(s.log[i]) != Effect(s.log, k)
    ensures exists order :: Finishes(s, order) && !Agrees(Finished(s, order), k)
  {
    var order := MadeLast(s, i);
    FinishedLookup(s, order, k);
    var ops := OpsAt(s.log, order);
    assert ops[|ops| - 1] == s.log[i];
    assert Effect(ops, k) == Outcome(s.log[i]);
  }

  /**
   The exact condition, in every reachable state: however the calls in flight are finished, the map ends up with
   what the log says of `k`, if and only if `k` is settled.
   */
  lemma AgreesHoweverFinishedIffSettled(states: seq<State>, k: seq<byte>)
    requires Run(states)
    ensures var s := states[|states| - 1];
            && Inv(s)
            && ((forall order :: Finishes(s, order) ==> Agrees(Finished(s, order), k)) <==> Settled(s, k))
  {
    var s := states[|states| - 1];
    RunsKeepInv(states);
    hide Run, Agrees, Finished, Finishes, Effect;
    if Settled(s, k) {
      forall order | Finishes(s, order)
        ensures Agrees(Finished(s, order), k)
      {
        SettledAgrees(s, order, k);
      }
    } else if i: nat :| OnKey(s, i, k) && Outcome(s.log[i]) != Effect(s.log, k) {
      LastDecides(s, i, k);
    } else {
      var order := AnyFinish(s);
      FinishedLookup(s, order, k);
    }
  }

  lemma AnyFinish(s: State) returns (order: seq<nat>)
    requires Inv(s)
    ensures Finishes(s, order)
  {
    order := SomeOrder(s.pending);
  }

  /**
   From every reachable state with two calls of different outcome in flight on one key, puts or deletions, some
   run finishes all calls and leaves the map apart from the log.
   */
  lemma OverlapDiverges(states: seq<State>, i: nat, j: nat, k: seq<byte>)
    requires Run(states)
    requires var s := states[|states| - 1]; OnKey(s, i, k) && OnKey(s, j, k) && Outcome(s.log[i]) != Outcome(s.log[j])
    ensures exists more: seq<State> :: Run(more) && states <= more && more[|more| - 1].pending == {} && !Agrees(more[|more| - 1], k)
  {
    var s := states[|states| - 1];
    RunsKeepInv(states);
    LastDecides(s, if Outcome(s.log[i]) != Effect(s.log, k) then i else j, k);
    var order :| Finishes(s, order) && !Agrees(Finished(s, order), k);
    FinishedIs(s, order);
    FinishingIsARun(states, order);
  }

  /** With overlaps too: when no call is pending, a restart on the log gives the map if and only if every key is settled. */
  lemma RestartGivesTheStoreIffSettled(states: seq<State>)
    requires Run(states)
    requires var s := states[|states| - 1]; s.pending == {} && forall op :: op in s.log ==> Durable(op)
    ensures var s := states[|states| - 1];
            && Inv(s)
            && (Recover(Log(s.log)) == Some(s.store) <==> forall k :: Settled(s, k))
  {
    hide Durable, Log, Recover, ApplyAll, Effect;
    var s := states[|states| - 1];
    RunsKeepInv(states);
    RestartReplaysTheLog(s.log);
    forall k
      ensures Settled(s, k) <==> Lookup(s.store, k) == Lookup(ApplyAll(s.log, map[]), k)
    {
      LookupIsLastEffect(s.log, k);
      LookupIsLastEffect(OpsAt(s.log, s.applied), k);
    }
    if forall k :: Settled(s, k) {
      SameLookups(s.store, ApplyAll(s.log, map[]));
    }
  }
}
