/**
 Two counters under a mutex each, incremented `rounds` times by a thread each, and a collector that needs both
 mutexes at once and gets them with try_lock: first m1, then m2, giving m1 back when m2 is taken.
 */
module TryLock {

  /** An incrementing thread: between rounds, holding its mutex before the increment, or after it. */
  datatype WorkerPlace = Idle | Locked | Added

  datatype Worker = Worker(place: WorkerPlace, increments: nat)

  /** The collector: before trying m1, holding m1, holding both, after its body, holding m2 only, before the loop test, out. */
  datatype CollectorPlace = TryFirst | TrySecond | Body | UnlockFirst | UnlockSecond | Test | Exited

  /** Beside the program's variables, how much of each counter was ever taken. */
  datatype State = State(x: nat, y: nat, workerX: Worker, workerY: Worker, collector: CollectorPlace,
                         useCount: int, sum: nat, takenX: nat, takenY: nat)

  function Start(rounds: nat): State {
    State(0, 0, Worker(Idle, 0), Worker(Idle, 0), TryFirst, rounds, 0, 0, 0)
  }

  predicate WorkerHolds(w: Worker) { w.place != Idle }

  predicate CollectorHolds1(c: CollectorPlace) { c in {TrySecond, Body, UnlockFirst} }

  predicate CollectorHolds2(c: CollectorPlace) { c in {Body, UnlockFirst, UnlockSecond} }

  predicate Free1(s: State) { !WorkerHolds(s.workerX) && !CollectorHolds1(s.collector) }

  predicate Free2(s: State) { !WorkerHolds(s.workerY) && !CollectorHolds2(s.collector) }

  datatype Event = LocksX | AddsX | UnlocksX | LocksY | AddsY | UnlocksY | Collector

  predicate Enabled(s: State, e: Event, rounds: nat) {
    match e
    case LocksX => s.workerX.place == Idle && s.workerX.increments < rounds && Free1(s)
    case AddsX => s.workerX.place == Locked
    case UnlocksX => s.workerX.place == Added
    case LocksY => s.workerY.place == Idle && s.workerY.increments < rounds && Free2(s)
    case AddsY => s.workerY.place == Locked
    case UnlocksY => s.workerY.place == Added
    case Collector => s.collector != Exited
  }

  function CollectorStep(s: State): State
    requires s.collector != Exited
  {
    match s.collector
    case TryFirst => if Free1(s) then s.(collector := TrySecond) else s
    case TrySecond => if Free2(s) then s.(collector := Body) else s.(collector := TryFirst)
    case Body =>
      if s.x != 0 && s.y != 0 then
        s.(collector := UnlockFirst, useCount := s.useCount - 1, sum := s.sum + (s.x + s.y), x := 0, y := 0,
           takenX := s.takenX + s.x, takenY := s.takenY + s.y)
      else s.(collector := UnlockFirst)
    case UnlockFirst => s.(collector := UnlockSecond)
    case UnlockSecond => s.(collector := Test)
    case Test => if s.useCount == 0 then s.(collector := Exited) else s.(collector := TryFirst)
  }

  function Do(s: State, e: Event, rounds: nat): State
    requires Enabled(s, e, rounds)
  {
    match e
    case LocksX => s.(workerX := s.workerX.(place := Locked))
    case AddsX => s.(x := s.x + 1, workerX := Worker(Added, s.workerX.increments + 1))
    case UnlocksX => s.(workerX := s.workerX.(place := Idle))
    case LocksY => s.(workerY := s.workerY.(place := Locked))
    case AddsY => s.(y := s.y + 1, workerY := Worker(Added, s.workerY.increments + 1))
    case UnlocksY => s.(workerY := s.workerY.(place := Idle))
    case Collector => CollectorStep(s)
  }

  ghost predicate Runs(s: State, schedule: seq<Event>, rounds: nat)
    decreases |schedule|
  {
    schedule == [] || (Enabled(s, schedule[0], rounds) && Runs(Do(s, schedule[0], rounds), schedule[1..], rounds))
  }

  ghost function After(s: State, schedule: seq<Event>, rounds: nat): State
    requires Runs(s, schedule, rounds)
    decreases |schedule|
  {
    if schedule == [] then s else After(Do(s, schedule[0], rounds), schedule[1..], rounds)
  }

  // ---------- The invariant ----------

  predicate WorkerInv(w: Worker, rounds: nat) {
    w.increments <= rounds && (w.place == Locked ==> w.increments < rounds)
  }

  predicate Inv(s: State, rounds: nat) {
    && WorkerInv(s.workerX, rounds) && WorkerInv(s.workerY, rounds)
    && !(WorkerHolds(s.workerX) && CollectorHolds1(s.collector))
    && !(WorkerHolds(s.workerY) && CollectorHolds2(s.collector))
    && s.x + s.takenX == s.workerX.increments
    && s.y + s.takenY == s.workerY.increments
    && s.sum == s.takenX + s.takenY
    && 0 <= s.useCount <= rounds
    && s.takenX >= rounds - s.useCount && s.takenY >= rounds - s.useCount
    && (s.collector == Exited ==> s.useCount == 0)
  }

  lemma StepKeepsInv(s: State, e: Event, rounds: nat)
    requires Inv(s, rounds) && Enabled(s, e, rounds)
    ensures Inv(Do(s, e, rounds), rounds)
  {
  }

  lemma {:induction false} RunsKeepInv(s: State, schedule: seq<Event>, rounds: nat)
    requires Inv(s, rounds) && Runs(s, schedule, rounds)
    ensures Inv(After(s, schedule, rounds), rounds)
    decreases |schedule|
  {
    if schedule != [] {
      hide Inv, Enabled, Do;
      StepKeepsInv(s, schedule[0], rounds);
      RunsKeepInv(Do(s, schedule[0], rounds), schedule[1..], rounds);
    }
  }

  /** In every reachable state nothing is lost: the counters and the sum are the increments done. */
  lemma NothingIsLost(rounds: nat, schedule: seq<Event>)
    requires Runs(Start(rounds), schedule, rounds)
    ensures var s := After(Start(rounds), schedule, rounds);
            s.x + s.y + s.sum == s.workerX.increments + s.workerY.increments
  {
    RunsKeepInv(Start(rounds), schedule, rounds);
  }

  /** A collector that got out has taken every increment there will ever be. */
  lemma ExitMeansAllCollected(rounds: nat, schedule: seq<Event>)
    requires Runs(Start(rounds), schedule, rounds) && After(Start(rounds), schedule, rounds).collector == Exited
    ensures var s := After(Start(rounds), schedule, rounds);
            && s.x == 0 && s.y == 0 && s.sum == 2 * rounds
            && s.workerX.increments == s.workerY.increments == rounds
  {
    RunsKeepInv(Start(rounds), schedule, rounds);
  }

  // ---------- When it can get out ----------

  /** What a counter will hold when its mutex is free again. */
  function Due(counter: nat, w: Worker): nat { counter + if w.place == Locked then 1 else 0 }

  /** Some collection has taken more than one of a counter: the sum is past two for each collection. */
  predicate Overdrawn(s: State, rounds: nat) { s.sum > 2 * (rounds - s.useCount) }

  /** Some collection has taken more than one of a counter, or the next one has to. */
  predicate Doomed(s: State, rounds: nat) {
    Overdrawn(s, rounds) || Due(s.x, s.workerX) >= 2 || Due(s.y, s.workerY) >= 2
  }

  lemma StepKeepsDoomed(s: State, e: Event, rounds: nat)
    requires Inv(s, rounds) && Doomed(s, rounds) && Enabled(s, e, rounds)
    ensures Doomed(Do(s, e, rounds), rounds) && s.collector != Exited
  {
  }

  /** From then on, whatever the schedule, the collector stays in its loop. */
  lemma {:induction false} DoomedNeverExits(s: State, schedule: seq<Event>, rounds: nat)
    requires Inv(s, rounds) && Doomed(s, rounds) && Runs(s, schedule, rounds)
    ensures Doomed(After(s, schedule, rounds), rounds) && After(s, schedule, rounds).collector != Exited
    decreases |schedule|
  {
    if schedule != [] {
      hide Enabled, Do;
      StepKeepsInv(s, schedule[0], rounds);
      StepKeepsDoomed(s, schedule[0], rounds);
      DoomedNeverExits(Do(s, schedule[0], rounds), schedule[1..], rounds);
    }
  }

  ghost predicate Reaches(s: State, s': State, rounds: nat) {
    exists schedule :: Runs(s, schedule, rounds) && After(s, schedule, rounds) == s'
  }

  lemma ReachesItself(s: State, rounds: nat)
    ensures Reaches(s, s, rounds)
  {
    assert Runs(s, [], rounds) && After(s, [], rounds) == s;
  }

  lemma StepThenReaches(s: State, e: Event, s': State, rounds: nat)
    requires Enabled(s, e, rounds) && Reaches(Do(s, e, rounds), s', rounds)
    ensures Reaches(s, s', rounds)
  {
    var schedule :| Runs(Do(s, e, rounds), schedule, rounds) && After(Do(s, e, rounds), schedule, rounds) == s';
    assert ([e] + schedule)[1..] == schedule;
    assert Runs(s, [e] + schedule, rounds) && After(s, [e] + schedule, rounds) == s';
  }

  ghost predicate CanExit(s: State, rounds: nat) {
    exists s' :: Reaches(s, s', rounds) && s'.collector == Exited
  }

  /**
   A scheduler that lets the collector out: threads that hold a mutex go on, then the collector finishes its lap,
   and only from the head of its loop is an empty counter incremented, once.
   */
  function Guided(s: State): Event {
    if s.workerX.place == Locked then AddsX
    else if s.workerX.place == Added then UnlocksX
    else if s.workerY.place == Locked then AddsY
    else if s.workerY.place == Added then UnlocksY
    else if s.collector == TryFirst && s.useCount > 0 && s.x == 0 then LocksX
    else if s.collector == TryFirst && s.useCount > 0 && s.y == 0 then LocksY
    else Collector
  }

  /** How many steps a guided thread makes until it rests with its counter filled. */
  function WorkerLeft(counter: nat, w: Worker, useCount: int): nat {
    match w.place
    case Idle => if counter == 0 && useCount > 0 then 3 else 0
    case Locked => 2
    case Added => if counter == 0 then 4 else 1
  }

  /** How many steps a guided collector makes until it collects, needs a thread or is out. */
  function CollectorLeft(s: State): nat {
    match s.collector
    case TryFirst => if s.useCount == 0 then 9 else 3
    case TrySecond => if s.x == 0 || s.y == 0 then 8 else 2
    case Body => if s.x == 0 || s.y == 0 then 7 else 1
    case UnlockFirst => 6
    case UnlockSecond => 5
    case Test => 4
    case Exited => 0
  }

  lemma GuidedStep(s: State, rounds: nat)
    requires Inv(s, rounds) && !Doomed(s, rounds) && s.collector != Exited
    ensures Enabled(s, Guided(s), rounds)
    ensures var s' := Do(s, Guided(s), rounds);
            && Inv(s', rounds) && !Doomed(s', rounds)
            && var (w, w') := (WorkerLeft(s.x, s.workerX, s.useCount) + WorkerLeft(s.y, s.workerY, s.useCount),
                               WorkerLeft(s'.x, s'.workerX, s'.useCount) + WorkerLeft(s'.y, s'.workerY, s'.useCount));
               || s'.useCount < s.useCount
               || (s'.useCount == s.useCount && w' < w)
               || (s'.useCount == s.useCount && w' == w && CollectorLeft(s') < CollectorLeft(s))
  {
  }

  lemma {:induction false} GuidedExits(s: State, rounds: nat)
    requires Inv(s, rounds) && !Doomed(s, rounds)
    ensures CanExit(s, rounds)
    decreases s.useCount,
              WorkerLeft(s.x, s.workerX, s.useCount) + WorkerLeft(s.y, s.workerY, s.useCount),
              CollectorLeft(s)
  {
    hide Reaches;
    if s.collector == Exited {
      ReachesItself(s, rounds);
    } else {
      GuidedStep(s, rounds);
      hide Inv, Doomed, Do, Enabled, Guided, WorkerLeft, CollectorLeft;
      var e := Guided(s);
      GuidedExits(Do(s, e, rounds), rounds);
      var s' :| Reaches(Do(s, e, rounds), s', rounds) && s'.collector == Exited;
      StepThenReaches(s, e, s', rounds);
    }
  }

  /**
   The exact condition, in every reachable state and for any number of rounds: some continuation lets the collector
   out unless a collection took more than one of a counter, or a counter that is due to hold two awaits the next.
   */
  lemma CanExitIffNotDoomed(rounds: nat, schedule: seq<Event>)
    requires Runs(Start(rounds), schedule, rounds)
    ensures var s := After(Start(rounds), schedule, rounds);
            CanExit(s, rounds) <==> !Doomed(s, rounds)
  {
    var s := After(Start(rounds), schedule, rounds);
    RunsKeepInv(Start(rounds), schedule, rounds);
    if Doomed(s, rounds) {
      forall s' | Reaches(s, s', rounds)
        ensures s'.collector != Exited
      {
        var more :| Runs(s, more, rounds) && After(s, more, rounds) == s';
        DoomedNeverExits(s, more, rounds);
      }
    } else {
      GuidedExits(s, rounds);
    }
  }

  /** Some schedule lets the collector out, whatever the number of rounds. */
  lemma ExitIsPossible(rounds: nat)
    ensures CanExit(Start(rounds), rounds)
  {
    CanExitIffNotDoomed(rounds, []);
  }

  /** A state from which no continuation lets the collector out can be reached exactly when there are two rounds or more. */
  lemma HangIsPossibleIff(rounds: nat)
    ensures (exists s :: Reaches(Start(rounds), s, rounds) && !CanExit(s, rounds)) <==> rounds >= 2
  {
    if rounds >= 2 {
      TwoIncrementsDoom(rounds);
    }
    forall s | rounds < 2 && Reaches(Start(rounds), s, rounds)
      ensures CanExit(s, rounds)
    {
      var schedule :| Runs(Start(rounds), schedule, rounds) && After(Start(rounds), schedule, rounds) == s;
      OneRoundIsNeverDoomed(Start(rounds), schedule, rounds);
      CanExitIffNotDoomed(rounds, schedule);
    }
  }

  /** It is enough that X is locked again before anything is collected. */
  lemma TwoIncrementsDoom(rounds: nat)
    requires rounds >= 2
    ensures exists s :: Reaches(Start(rounds), s, rounds) && !CanExit(s, rounds)
  {
    hide CanExit;
    var s0 := Start(rounds);
    var s1 := Do(s0, LocksX, rounds);
    var s2 := Do(s1, AddsX, rounds);
    var s3 := Do(s2, UnlocksX, rounds);
    var s4 := Do(s3, LocksX, rounds);
    var schedule := [LocksX] + ([AddsX] + ([UnlocksX] + ([LocksX] + [])));
    RunsStep(s3, LocksX, [], rounds);
    RunsStep(s2, UnlocksX, [LocksX] + [], rounds);
    RunsStep(s1, AddsX, [UnlocksX] + ([LocksX] + []), rounds);
    RunsStep(s0, LocksX, [AddsX] + ([UnlocksX] + ([LocksX] + [])), rounds);
    CanExitIffNotDoomed(rounds, schedule);
    assert After(s0, schedule, rounds) == s4;
    assert Reaches(s0, s4, rounds);
  }

  lemma RunsStep(s: State, e: Event, rest: seq<Event>, rounds: nat)
    requires Enabled(s, e, rounds) && Runs(Do(s, e, rounds), rest, rounds)
    ensures Runs(s, [e] + rest, rounds) && After(s, [e] + rest, rounds) == After(Do(s, e, rounds), rest, rounds)
  {
    assert ([e] + rest)[1..] == rest;
  }

  lemma {:induction false} OneRoundIsNeverDoomed(s: State, schedule: seq<Event>, rounds: nat)
    requires Inv(s, rounds) && !Doomed(s, rounds) && Runs(s, schedule, rounds) && rounds <= 1
    ensures !Doomed(After(s, schedule, rounds), rounds)
    decreases |schedule|
  {
    if schedule != [] {
      StepKeepsInv(s, schedule[0], rounds);
      OneRoundIsNeverDoomed(Do(s, schedule[0], rounds), schedule[1..], rounds);
    }
  }
}
