/**
 The slotted page as a value: what AddTuple and DeleteTuple do to it, and the history of tuples it refines.
 Header and slots grow from the start of the 4096 bytes, tuple data from their end.
 */
module PageModel {
  import opened Sequences
  import opened Bytes

  newtype uint16 = x: int | 0 <= x < 0x1_0000
  newtype uint32 = x: int | 0 <= x < 0x1_0000_0000

  const PAGE_SIZE := 4096
  const HEADER_SIZE := 8
  const SLOT_SIZE := 4
  const DELETED: uint16 := 0xFFFF

  datatype Slot = Slot(offset: uint16, size: uint16) {
    predicate IsDeleted() { offset == DELETED }
  }

  datatype PageValue = PageValue(id: uint32, tupleCount: uint16, freeSpaceOffset: uint16, slots: seq<Slot>, data: seq<byte>)

  function Zeros(n: nat): (z: seq<byte>)
    ensures |z| == n
  {
    seq(n, _ => 0)
  }

  function Empty(id: uint32): PageValue {
    PageValue(id, 0, PAGE_SIZE as uint16, [], Zeros(PAGE_SIZE))
  }

  /** Sixteen-bit arithmetic wraps around. */
  function Wrap16(x: int): uint16 { (x % 0x1_0000) as uint16 }

  lemma WrapTwice(x: int, d: int)
    ensures Wrap16(Wrap16(x) as int + d) == Wrap16(x + d)
  {
    var q := x / 0x1_0000;
    assert x + d == Wrap16(x) as int + d + q * 0x1_0000;
    WrapShift(Wrap16(x) as int + d, q);
  }

  lemma {:induction false} WrapShift(x: int, q: int)
    ensures (x + q * 0x1_0000) % 0x1_0000 == x % 0x1_0000
    decreases if q < 0 then -q else q
  {
    if q > 0 {
      WrapShift(x, q - 1);
      assert x + q * 0x1_0000 == x + (q - 1) * 0x1_0000 + 0x1_0000;
    } else if q < 0 {
      WrapShift(x, q + 1);
      assert x + q * 0x1_0000 == x + (q + 1) * 0x1_0000 - 0x1_0000;
    }
  }

  // ---------- AddTuple and DeleteTuple on values ----------

  datatype AddResult = Added(index: nat) | NoSpace | Panics

  predicate Sound(p: PageValue) { |p.data| == PAGE_SIZE && p.freeSpaceOffset as int <= PAGE_SIZE }

  /** A slot the reuse branch takes: its offset lies past the page, so the copy into it panics. */
  predicate Reuses(s: Slot, size: nat) { s.IsDeleted() && size <= s.size as int }

  ghost predicate SomeReusable(slots: seq<Slot>, size: nat) {
    exists i :: 0 <= i < |slots| && Reuses(slots[i], size)
  }

  ghost function AddOutcome(p: PageValue, tuple: seq<byte>): AddResult {
    if SomeReusable(p.slots, |tuple|) then Panics
    else if p.freeSpaceOffset as int < |tuple| + 2 * |p.slots| then NoSpace
    else Added(|p.slots|)
  }

  ghost function AfterAdd(p: PageValue, tuple: seq<byte>): PageValue
    requires Sound(p)
  {
    if !AddOutcome(p, tuple).Added? then p
    else
      var free := p.freeSpaceOffset as int;
      var offset := free - |tuple|;
      PageValue(p.id, Wrap16(p.tupleCount as int + 1), offset as uint16,
                p.slots + [Slot(offset as uint16, |tuple| as uint16)],
                p.data[..offset] + tuple + p.data[free..])
  }

  function AfterDelete(p: PageValue, i: int): PageValue {
    if 0 <= i < |p.slots| then
      p.(slots := p.slots[i := Slot(DELETED, 0)], tupleCount := Wrap16(p.tupleCount as int - 1))
    else p
  }

  // ---------- The history a page refines ----------

  /** Every tuple ever added, which of them are still there, and how often a slot already dead was deleted again. */
  datatype History = History(tuples: seq<seq<byte>>, live: seq<bool>, deadDeletes: nat)

  function NoHistory(): History { History([], [], 0) }

  function Total(tuples: seq<seq<byte>>): nat {
    if tuples == [] then 0 else Total(tuples[..|tuples| - 1]) + |tuples[|tuples| - 1]|
  }

  /** Tuple data as it lies at the end of the page: the last tuple first. */
  function Stacked(tuples: seq<seq<byte>>): (s: seq<byte>)
    ensures |s| == Total(tuples)
  {
    if tuples == [] then [] else tuples[|tuples| - 1] + Stacked(tuples[..|tuples| - 1])
  }

  function LiveCount(live: seq<bool>): (n: nat)
    ensures n <= |live|
  {
    if live == [] then 0 else LiveCount(live[..|live| - 1]) + if live[|live| - 1] then 1 else 0
  }

  function Offset(h: History, i: nat): int
    requires i < |h.tuples|
  {
    PAGE_SIZE - Total(h.tuples[..i + 1])
  }

  function SlotOf(h: History, i: nat): Slot
    requires i < |h.tuples| == |h.live| && Total(h.tuples[..i + 1]) <= PAGE_SIZE
  {
    if h.live[i] then Slot(Offset(h, i) as uint16, |h.tuples[i]| as uint16) else Slot(DELETED, 0)
  }

  predicate SlotRefines(p: PageValue, h: History, i: nat)
    requires i < |h.tuples| == |h.live| == |p.slots|
  {
    Total(h.tuples[..i + 1]) <= PAGE_SIZE && p.slots[i] == SlotOf(h, i)
  }

  ghost predicate Refines(p: PageValue, h: History) {
    && |h.live| == |h.tuples| == |p.slots|
    && Total(h.tuples) <= PAGE_SIZE
    && (|h.tuples| > 0 ==> Total(h.tuples) + 2 * (|h.tuples| - 1) <= PAGE_SIZE)
    && p.freeSpaceOffset as int == PAGE_SIZE - Total(h.tuples)
    && p.data == Zeros(PAGE_SIZE - Total(h.tuples)) + Stacked(h.tuples)
    && (forall i :: 0 <= i < |h.tuples| ==> SlotRefines(p, h, i))
    && p.tupleCount == Wrap16(LiveCount(h.live) - h.deadDeletes)
  }

  function WithTuple(h: History, tuple: seq<byte>): History {
    h.(tuples := h.tuples + [tuple], live := h.live + [true])
  }

  function Without(h: History, i: nat): History
    requires i < |h.live|
  {
    if h.live[i] then h.(live := h.live[i := false]) else h.(deadDeletes := h.deadDeletes + 1)
  }

  /** What AddTuple answers, told from the history alone. */
  ghost predicate AllLive(h: History) { forall i :: 0 <= i < |h.live| ==> h.live[i] }

  ghost function Promised(h: History, tuple: seq<byte>): AddResult {
    if tuple == [] && !AllLive(h) then Panics
    else if PAGE_SIZE - Total(h.tuples) < |tuple| + 2 * |h.tuples| then NoSpace
    else Added(|h.tuples|)
  }

  // ---------- Every operation keeps the refinement ----------

  lemma {:induction false} TotalGrows(tuples: seq<seq<byte>>, i: nat)
    requires i <= |tuples|
    ensures Total(tuples[..i]) <= Total(tuples)
  {
    if i < |tuples| {
      TotalGrows(tuples[..|tuples| - 1], i);
      assert tuples[..|tuples| - 1][..i] == tuples[..i];
    } else {
      assert tuples[..i] == tuples;
    }
  }

  lemma EmptyRefines(id: uint32)
    ensures Refines(Empty(id), NoHistory())
  {
    assert Zeros(PAGE_SIZE) + [] == Zeros(PAGE_SIZE);
  }

  lemma AddIsPromised(p: PageValue, h: History, tuple: seq<byte>)
    requires Refines(p, h)
    ensures AddOutcome(p, tuple) == Promised(h, tuple)
  {
    forall i | 0 <= i < |p.slots|
      ensures Reuses(p.slots[i], |tuple|) <==> !h.live[i] && tuple == []
    {
      assert SlotRefines(p, h, i);
    }
    if !AllLive(h) {
      var i :| 0 <= i < |h.live| && !h.live[i];
      assert SlotRefines(p, h, i);
      assert Reuses(p.slots[i], 0);
    }
  }

  lemma CountMoves(p: PageValue, h: History, h': History, d: int)
    requires p.tupleCount == Wrap16(LiveCount(h.live) - h.deadDeletes)
    requires LiveCount(h'.live) - h'.deadDeletes == LiveCount(h.live) - h.deadDeletes + d
    ensures Wrap16(p.tupleCount as int + d) == Wrap16(LiveCount(h'.live) - h'.deadDeletes)
  {
    WrapTwice(LiveCount(h.live) - h.deadDeletes, d);
  }

  lemma AddRefines(p: PageValue, h: History, tuple: seq<byte>)
    requires Refines(p, h)
    ensures Sound(p)
    ensures Refines(AfterAdd(p, tuple), if Promised(h, tuple).Added? then WithTuple(h, tuple) else h)
  {
    AddIsPromised(p, h, tuple);
    if Promised(h, tuple).Added? {
      var h', p' := WithTuple(h, tuple), AfterAdd(p, tuple);
      var n, free := |h.tuples|, PAGE_SIZE - Total(h.tuples);
      assert h'.tuples[..n] == h.tuples && h'.live[..n] == h.live;
      CountMoves(p, h, h', 1);
      assert p'.data == Zeros(free - |tuple|) + Stacked(h'.tuples) by {
        assert p.data[..free - |tuple|] == Zeros(free - |tuple|);
        assert p.data[free..] == Stacked(h.tuples);
        Associative(Zeros(free - |tuple|), tuple, Stacked(h.tuples));
      }
      forall i | 0 <= i <= n
        ensures SlotRefines(p', h', i)
      {
        if i < n {
          assert h'.tuples[..i + 1] == h.tuples[..i + 1];
          assert SlotRefines(p, h, i);
        } else {
          assert h'.tuples[..i + 1] == h'.tuples;
        }
      }
    }
  }

  lemma {:induction false} LiveCountUpdate(live: seq<bool>, i: nat)
    requires i < |live| && live[i]
    ensures LiveCount(live[i := false]) == LiveCount(live) - 1
  {
    var n := |live| - 1;
    if i < n {
      assert live[i := false][..n] == live[..n][i := false];
      LiveCountUpdate(live[..n], i);
    } else {
      assert live[i := false][..n] == live[..n];
    }
  }

  lemma DeleteRefines(p: PageValue, h: History, i: int)
    requires Refines(p, h)
    ensures Refines(AfterDelete(p, i), if 0 <= i < |p.slots| then Without(h, i) else h)
  {
    hide Total, Stacked, Zeros, LiveCount, Wrap16;
    if 0 <= i < |p.slots| {
      if h.live[i] {
        LiveCountUpdate(h.live, i);
      }
      var h', p' := Without(h, i), AfterDelete(p, i);
      CountMoves(p, h, h', -1);
      assert p'.tupleCount == Wrap16(LiveCount(h'.live) - h'.deadDeletes);
      forall j | 0 <= j < |h.tuples|
        ensures SlotRefines(p', h', j)
      {
        assert SlotRefines(p, h, j);
        assert p'.slots[j] == if j == i then Slot(DELETED, 0) else p.slots[j];
      }
    }
  }

  // ---------- What the refinement gives ----------

  function Extent(p: PageValue, i: nat): seq<byte>
    requires i < |p.slots| && p.slots[i].offset as int + p.slots[i].size as int <= |p.data|
  {
    p.data[p.slots[i].offset..p.slots[i].offset as int + p.slots[i].size as int]
  }

  lemma {:induction false} StackedAt(tuples: seq<seq<byte>>, i: nat)
    requires i < |tuples|
    ensures var from := Total(tuples) - Total(tuples[..i + 1]);
            && Total(tuples[..i + 1]) == Total(tuples[..i]) + |tuples[i]|
            && 0 <= from && from + |tuples[i]| <= Total(tuples)
            && Stacked(tuples)[from..from + |tuples[i]|] == tuples[i]
  {
    var n := |tuples| - 1;
    assert tuples[..i + 1][..i] == tuples[..i];
    if i == n {
      assert tuples[..i + 1] == tuples;
    } else {
      StackedAt(tuples[..n], i);
      assert tuples[..n][..i + 1] == tuples[..i + 1] && tuples[..n][..i] == tuples[..i];
      var from := Total(tuples[..n]) - Total(tuples[..i + 1]);
      var shift := |tuples[n]|;
      assert Stacked(tuples)[shift..] == Stacked(tuples[..n]);
      assert Stacked(tuples)[from + shift..from + shift + |tuples[i]|] == Stacked(tuples[..n])[from..from + |tuples[i]|];
    }
  }

  /** A live slot reads back, byte for byte, what was added. */
  lemma LiveSlotReadsBack(p: PageValue, h: History, i: nat)
    requires Refines(p, h) && i < |p.slots| && h.live[i]
    ensures var s := p.slots[i];
            && p.freeSpaceOffset as int <= s.offset as int
            && s.offset as int + s.size as int <= PAGE_SIZE == |p.data|
            && Extent(p, i) == h.tuples[i]
  {
    StackedAt(h.tuples, i);
    assert SlotRefines(p, h, i);
    var free, from := PAGE_SIZE - Total(h.tuples), Total(h.tuples) - Total(h.tuples[..i + 1]);
    assert p.data[free..] == Stacked(h.tuples);
    assert Extent(p, i) == p.data[free..][from..from + |h.tuples[i]|];
  }

  /** The extent of a later tuple ends at or before the start of an earlier one. */
  lemma ExtentsAreDisjoint(p: PageValue, h: History, i: nat, j: nat)
    requires Refines(p, h) && i < j < |p.slots| && h.live[i] && h.live[j]
    ensures p.slots[j].offset as int + p.slots[j].size as int <= p.slots[i].offset as int
  {
    StackedAt(h.tuples, j);
    TotalGrows(h.tuples[..j], i + 1);
    assert h.tuples[..j][..i + 1] == h.tuples[..i + 1];
    assert SlotRefines(p, h, i) && SlotRefines(p, h, j);
  }

  // ---------- Runs ----------

  datatype Call = AddCall(tuple: seq<byte>) | DeleteCall(index: int)

  ghost function Step(p: PageValue, c: Call): PageValue
    requires Sound(p)
    ensures Sound(Step(p, c))
  {
    match c
    case AddCall(t) => AfterAdd(p, t)
    case DeleteCall(i) => AfterDelete(p, i)
  }

  ghost function StepHistory(h: History, c: Call): History
    requires |h.live| == |h.tuples|
    ensures |StepHistory(h, c).live| == |StepHistory(h, c).tuples|
  {
    match c
    case AddCall(t) => if Promised(h, t).Added? then WithTuple(h, t) else h
    case DeleteCall(i) => if 0 <= i < |h.live| then Without(h, i) else h
  }

  ghost function RunFrom(p: PageValue, calls: seq<Call>): PageValue
    requires Sound(p)
    decreases |calls|
  {
    if calls == [] then p else RunFrom(Step(p, calls[0]), calls[1..])
  }

  ghost function HistoryFrom(h: History, calls: seq<Call>): History
    requires |h.live| == |h.tuples|
    decreases |calls|
  {
    if calls == [] then h else HistoryFrom(StepHistory(h, calls[0]), calls[1..])
  }

  /** Whatever is added and deleted, in whatever order, the page refines its history. */
  lemma {:induction false} RunsRefine(p: PageValue, h: History, calls: seq<Call>)
    requires Refines(p, h) && Sound(p)
    ensures Refines(RunFrom(p, calls), HistoryFrom(h, calls))
    decreases |calls|
  {
    if calls != [] {
      match calls[0] {
        case AddCall(t) => AddRefines(p, h, t);
        case DeleteCall(i) => DeleteRefines(p, h, i);
      }
      RunsRefine(Step(p, calls[0]), StepHistory(h, calls[0]), calls[1..]);
    }
  }

  lemma {:induction false} LiveCountFull(live: seq<bool>)
    requires forall i :: 0 <= i < |live| ==> live[i]
    ensures LiveCount(live) == |live|
  {
    if live != [] {
      LiveCountFull(live[..|live| - 1]);
    }
  }

  /** The counter is the number of live slots exactly when no dead slot was deleted again, up to wrap-around. */
  lemma TupleCountIsLiveCount(p: PageValue, h: History)
    requires Refines(p, h)
    ensures |p.slots| <= 2049
    ensures p.tupleCount as int == LiveCount(h.live) <==> h.deadDeletes % 0x1_0000 == 0
  {
    var n := LiveCount(h.live);
    assert p.tupleCount == Wrap16(n - h.deadDeletes);
    assert Wrap16(n - h.deadDeletes) as int == (n - h.deadDeletes) % 0x1_0000;
    WrapsBack(n, h.deadDeletes);
  }

  lemma WrapsBack(n: nat, d: nat)
    requires n < 0x1_0000
    ensures (n - d) % 0x1_0000 == n <==> d % 0x1_0000 == 0
  {
    var q, r := (n - d) / 0x1_0000, (n - d) % 0x1_0000;
    assert n - d == q * 0x1_0000 + r;
    if r == n {
      assert d == -q * 0x1_0000;
    }
    if d % 0x1_0000 == 0 {
      assert n - d == n + (-(d / 0x1_0000)) * 0x1_0000;
    }
  }

  lemma {:induction false} TotalOfNonempty(tuples: seq<seq<byte>>)
    requires [] !in tuples
    ensures |tuples| <= Total(tuples)
  {
    if tuples != [] {
      TotalOfNonempty(tuples[..|tuples| - 1]);
      assert tuples[|tuples| - 1] in tuples;
    }
  }

  /** With nonempty tuples a page never has more than 1366 slots and never takes the reuse branch. */
  lemma NonemptyTuplesBound(p: PageValue, h: History, tuple: seq<byte>)
    requires Refines(p, h) && [] !in h.tuples
    ensures |p.slots| <= 1366
    ensures tuple != [] ==> !SomeReusable(p.slots, |tuple|)
  {
    TotalOfNonempty(h.tuples);
    AddIsPromised(p, h, tuple);
  }

  // ---------- Runs from the empty page ----------

  /** No empty tuple is added and no dead slot is deleted again; an index out of range is refused anyway. */
  ghost predicate Regular(p: PageValue, calls: seq<Call>)
    requires Sound(p)
    decreases |calls|
  {
    calls == []
    || ((match calls[0]
         case AddCall(t) => t != []
         case DeleteCall(i) => 0 <= i < |p.slots| ==> !p.slots[i].IsDeleted())
        && Regular(Step(p, calls[0]), calls[1..]))
  }

  /** No AddTuple of the run slices past the page. */
  ghost predicate NeverPanics(p: PageValue, calls: seq<Call>)
    requires Sound(p)
    decreases |calls|
  {
    calls == []
    || ((calls[0].AddCall? ==> AddOutcome(p, calls[0].tuple) != Panics) && NeverPanics(Step(p, calls[0]), calls[1..]))
  }

  ghost predicate Tidy(p: PageValue, h: History) {
    Refines(p, h) && [] !in h.tuples && h.deadDeletes == 0
  }

  lemma RegularStepKeepsTidy(p: PageValue, h: History, calls: seq<Call>)
    requires Sound(p) && Tidy(p, h) && calls != [] && Regular(p, calls)
    ensures Tidy(Step(p, calls[0]), StepHistory(h, calls[0]))
    ensures calls[0].AddCall? ==> AddOutcome(p, calls[0].tuple) != Panics
  {
    hide Total, Stacked, LiveCount, Regular;
    RegularHead(p, calls);
    match calls[0] {
      case AddCall(t) =>
        AddIsPromised(p, h, t);
        AddRefines(p, h, t);
      case DeleteCall(i) =>
        DeleteRefines(p, h, i);
        if 0 <= i < |p.slots| {
          assert SlotRefines(p, h, i);
        }
    }
  }

  lemma RegularHead(p: PageValue, calls: seq<Call>)
    requires Sound(p) && calls != [] && Regular(p, calls)
    ensures match calls[0]
            case AddCall(t) => t != []
            case DeleteCall(i) => 0 <= i < |p.slots| ==> !p.slots[i].IsDeleted()
  {
  }

  lemma {:induction false} RegularRunsKeepTidy(p: PageValue, h: History, calls: seq<Call>)
    requires Sound(p) && Tidy(p, h) && Regular(p, calls)
    ensures Tidy(RunFrom(p, calls), HistoryFrom(h, calls)) && NeverPanics(p, calls)
    decreases |calls|
  {
    hide Tidy;
    if calls != [] {
      TidyIsAligned(p, h);
      RegularStepKeepsTidy(p, h, calls);
      RegularRunsKeepTidy(Step(p, calls[0]), StepHistory(h, calls[0]), calls[1..]);
    }
    TidyIsAligned(p, h);
  }

  lemma TidyIsAligned(p: PageValue, h: History)
    requires Tidy(p, h)
    ensures |h.live| == |h.tuples|
  {
  }

  /**
   From a new page on, through every run that adds nonempty tuples and deletes live slots: the page refines the
   history of its tuples, the count is the number of live ones, there are at most 1366 slots, and nothing panics.
   */
  lemma RegularRuns(id: uint32, calls: seq<Call>)
    requires Regular(Empty(id), calls)
    ensures var p, h := RunFrom(Empty(id), calls), HistoryFrom(NoHistory(), calls);
            && Refines(p, h) && h.deadDeletes == 0
            && p.tupleCount as int == LiveCount(h.live)
            && |p.slots| <= 1366
            && NeverPanics(Empty(id), calls)
  {
    EmptyRefines(id);
    RegularRunsKeepTidy(Empty(id), NoHistory(), calls);
    var p, h := RunFrom(Empty(id), calls), HistoryFrom(NoHistory(), calls);
    TupleCountIsLiveCount(p, h);
    NonemptyTuplesBound(p, h, []);
  }

  /** Any run at all from a new page refines its history. */
  lemma RunsFromEmpty(id: uint32, calls: seq<Call>)
    ensures Refines(RunFrom(Empty(id), calls), HistoryFrom(NoHistory(), calls))
  {
    EmptyRefines(id);
    RunsRefine(Empty(id), NoHistory(), calls);
  }

  function SmallAdds(n: nat, b: byte): seq<Call> { seq(n, _ => AddCall([b])) }

  lemma {:induction false} SmallHistory(n: nat, b: byte)
    requires n <= 1366
    ensures var h := HistoryFrom(NoHistory(), SmallAdds(n, b));
            && |h.tuples| == |h.live| == n && Total(h.tuples) == n && AllLive(h) && h.deadDeletes == 0
            && forall t :: t in h.tuples ==> t == [b]
  {
    var calls := SmallAdds(n, b);
    if n > 0 {
      SmallHistory(n - 1, b);
      var front := SmallAdds(n - 1, b);
      assert calls == front + [AddCall([b])];
      HistorySnoc(NoHistory(), front, AddCall([b]));
      var h := HistoryFrom(NoHistory(), front);
      assert WithTuple(h, [b]).tuples[..n - 1] == h.tuples;
    }
  }

  /** The bound is tight: up to 1366 one-byte tuples all go into a new page. */
  lemma BoundIsReached(id: uint32, n: nat, b: byte)
    requires n <= 1366
    ensures var p, h := RunFrom(Empty(id), SmallAdds(n, b)), HistoryFrom(NoHistory(), SmallAdds(n, b));
            && Refines(p, h) && |p.slots| == n && p.freeSpaceOffset as int == 4096 - n
            && AllLive(h) && h.deadDeletes == 0 && forall t :: t in h.tuples ==> t == [b]
  {
    RunsFromEmpty(id, SmallAdds(n, b));
    SmallHistory(n, b);
  }

  lemma {:induction false} HistorySnoc(h: History, calls: seq<Call>, c: Call)
    requires |h.live| == |h.tuples|
    ensures |HistoryFrom(h, calls).live| == |HistoryFrom(h, calls).tuples|
    ensures HistoryFrom(h, calls + [c]) == StepHistory(HistoryFrom(h, calls), c)
    decreases |calls|
  {
    if calls == [] {
      assert (calls + [c])[1..] == [];
    } else {
      assert (calls + [c])[1..] == calls[1..] + [c];
      HistorySnoc(StepHistory(h, calls[0]), calls[1..], c);
    }
  }
}
