/** The 4096-byte image of a page: little-endian header, slot directory, tuple data; and what loading it gives. */
module PageImage {
  import opened Sequences
  import opened Bytes
  import opened PageModel

  // ---------- Little-endian numbers ----------

  function Le16(v: uint16): (b: seq<byte>)
    ensures |b| == 2
  {
    [(v as int % 0x100) as byte, (v as int / 0x100) as byte]
  }

  function Le32(v: uint32): (b: seq<byte>)
    ensures |b| == 4
  {
    [(v as int % 0x100) as byte, (v as int / 0x100 % 0x100) as byte,
     (v as int / 0x1_0000 % 0x100) as byte, (v as int / 0x100_0000) as byte]
  }

  function Uint16(data: seq<byte>, at: nat): uint16
    requires at + 2 <= |data|
  {
    (data[at] as int + 0x100 * data[at + 1] as int) as uint16
  }

  function Uint32(data: seq<byte>, at: nat): uint32
    requires at + 4 <= |data|
  {
    (data[at] as int + 0x100 * data[at + 1] as int + 0x1_0000 * data[at + 2] as int + 0x100_0000 * data[at + 3] as int) as uint32
  }

  lemma Reads16(v: uint16, data: seq<byte>, at: nat)
    requires at + 2 <= |data| && data[at..at + 2] == Le16(v)
    ensures Uint16(data, at) == v
  {
    assert data[at] == data[at..at + 2][0] && data[at + 1] == data[at..at + 2][1];
  }

  lemma Reads32(v: uint32, data: seq<byte>, at: nat)
    requires at + 4 <= |data| && data[at..at + 4] == Le32(v)
    ensures Uint32(data, at) == v
  {
    var w := data[at..at + 4];
    assert data[at] == w[0] && data[at + 1] == w[1] && data[at + 2] == w[2] && data[at + 3] == w[3];
    FourDigits(v as int);
  }

  lemma FourDigits(v: int)
    requires 0 <= v < 0x1_0000_0000
    ensures v == v % 0x100 + 0x100 * (v / 0x100 % 0x100) + 0x1_0000 * (v / 0x1_0000 % 0x100) + 0x100_0000 * (v / 0x100_0000)
  {
    var a := v / 0x100;
    var b := a / 0x100;
    assert v == v % 0x100 + 0x100 * a;
    assert a == a % 0x100 + 0x100 * b;
    assert b == b % 0x100 + 0x100 * (b / 0x100);
    assert b == v / 0x1_0000 && b / 0x100 == v / 0x100_0000;
  }

  // ---------- Serialising ----------

  function DirectoryEnd(slots: nat): nat { HEADER_SIZE + SLOT_SIZE * slots }

  function Header(p: PageValue): (h: seq<byte>)
    ensures |h| == HEADER_SIZE
  {
    Le32(p.id) + Le16(p.tupleCount) + Le16(p.freeSpaceOffset)
  }

  function SlotBytes(s: Slot): (b: seq<byte>)
    ensures |b| == SLOT_SIZE
  {
    Le16(s.offset) + Le16(s.size)
  }

  function Directory(slots: seq<Slot>): (d: seq<byte>)
    ensures |d| == SLOT_SIZE * |slots|
  {
    if slots == [] then [] else Directory(slots[..|slots| - 1]) + SlotBytes(slots[|slots| - 1])
  }

  /** Header, directory and zeros, with the tuple data laid over them from the free-space offset on. */
  function Image(p: PageValue): (image: seq<byte>)
    requires Sound(p) && DirectoryEnd(|p.slots|) <= PAGE_SIZE
    ensures |image| == PAGE_SIZE
  {
    var front := Header(p) + Directory(p.slots) + Zeros(PAGE_SIZE - DirectoryEnd(|p.slots|));
    front[..p.freeSpaceOffset] + p.data[p.freeSpaceOffset..]
  }

  /** The writer indexes past its buffer, and panics, exactly when the directory does not fit the page. */
  function Serialized(p: PageValue): Option<seq<byte>>
    requires Sound(p)
  {
    if DirectoryEnd(|p.slots|) <= PAGE_SIZE then Some(Image(p)) else None
  }

  // ---------- Loading ----------

  function SlotAt(image: seq<byte>, i: nat): Slot
    requires DirectoryEnd(i + 1) <= |image|
  {
    Slot(Uint16(image, DirectoryEnd(i)), Uint16(image, DirectoryEnd(i) + 2))
  }

  function SlotsAt(image: seq<byte>, n: nat): (slots: seq<Slot>)
    requires DirectoryEnd(n) <= |image|
    ensures |slots| == n && forall i :: 0 <= i < n ==> slots[i] == SlotAt(image, i)
  {
    if n == 0 then [] else SlotsAt(image, n - 1) + [SlotAt(image, n - 1)]
  }

  function Loaded(image: seq<byte>): PageValue
    requires |image| == PAGE_SIZE && DirectoryEnd(Uint16(image, 4) as nat) <= PAGE_SIZE
  {
    var count := Uint16(image, 4);
    var end := DirectoryEnd(count as nat);
    PageValue(Uint32(image, 0), count, Uint16(image, 6),
              SlotsAt(image, count as nat), image[end..] + Zeros(end))
  }

  function Deserialized(image: seq<byte>): Option<PageValue>
    requires |image| == PAGE_SIZE
  {
    if DirectoryEnd(Uint16(image, 4) as nat) <= PAGE_SIZE then Some(Loaded(image)) else None
  }

  // ---------- The round trip ----------

  lemma {:induction false} DirectoryAt(slots: seq<Slot>, i: nat)
    requires i < |slots|
    ensures Directory(slots)[SLOT_SIZE * i..SLOT_SIZE * i + SLOT_SIZE] == SlotBytes(slots[i])
  {
    var n := |slots| - 1;
    if i < n {
      DirectoryAt(slots[..n], i);
    }
  }

  /** Below the free-space offset the image is header and directory. */
  lemma ImageFront(p: PageValue, from: nat, to: nat)
    requires Sound(p) && DirectoryEnd(|p.slots|) <= PAGE_SIZE
    requires from <= to <= DirectoryEnd(|p.slots|) && to <= p.freeSpaceOffset as int
    ensures Image(p)[from..to] == (Header(p) + Directory(p.slots))[from..to]
  {
    forall k | from <= k < to
      ensures Image(p)[k] == (Header(p) + Directory(p.slots))[k]
    {
    }
  }

  lemma ImageHeader(p: PageValue)
    requires Sound(p) && DirectoryEnd(|p.slots|) <= PAGE_SIZE && HEADER_SIZE <= p.freeSpaceOffset as int
    ensures var m := Image(p); Uint32(m, 0) == p.id && Uint16(m, 4) == p.tupleCount && Uint16(m, 6) == p.freeSpaceOffset
  {
    var m := Image(p);
    ImageFront(p, 0, 4);
    ImageFront(p, 4, 6);
    ImageFront(p, 6, 8);
    assert m[0..4] == Header(p)[0..4] == Le32(p.id);
    assert m[4..6] == Header(p)[4..6] == Le16(p.tupleCount);
    assert m[6..8] == Header(p)[6..8] == Le16(p.freeSpaceOffset);
    hide Image, Header;
    Reads32(p.id, m, 0);
    Reads16(p.tupleCount, m, 4);
    Reads16(p.freeSpaceOffset, m, 6);
  }

  lemma SlotReads(image: seq<byte>, i: nat, slot: Slot)
    requires DirectoryEnd(i + 1) <= |image|
    ensures SlotAt(image, i) == slot <==> image[DirectoryEnd(i)..DirectoryEnd(i + 1)] == SlotBytes(slot)
  {
    var at := DirectoryEnd(i);
    var bytes := image[at..at + 4];
    if bytes == SlotBytes(slot) {
      assert image[at..at + 2] == bytes[0..2] == Le16(slot.offset);
      assert image[at + 2..at + 4] == bytes[2..4] == Le16(slot.size);
      Reads16(slot.offset, image, at);
      Reads16(slot.size, image, at + 2);
    }
  }

  lemma ImageSlot(p: PageValue, i: nat)
    requires Sound(p) && DirectoryEnd(|p.slots|) <= PAGE_SIZE
    requires i < |p.slots| && DirectoryEnd(i + 1) <= p.freeSpaceOffset as int
    ensures SlotAt(Image(p), i) == p.slots[i]
  {
    ImageFront(p, DirectoryEnd(i), DirectoryEnd(i + 1));
    SlotReads(Image(p), i, p.slots[i]);
    FrontSlot(p, i);
  }

  lemma FrontSlot(p: PageValue, i: nat)
    requires i < |p.slots|
    ensures (Header(p) + Directory(p.slots))[DirectoryEnd(i)..DirectoryEnd(i + 1)] == SlotBytes(p.slots[i])
  {
    DirectoryAt(p.slots, i);
    var front := Header(p) + Directory(p.slots);
    hide Header, Directory;
    assert front[DirectoryEnd(i)..DirectoryEnd(i + 1)] == Directory(p.slots)[SLOT_SIZE * i..SLOT_SIZE * i + SLOT_SIZE];
  }

  /**
   Saving and loading any page whose directory fits the page and whose tuples leave the header alone. The header
   comes back, and every slot written below the free-space offset; the loader gives up exactly when the directory
   it is told of leaves the page; and each byte of tuple data past that directory comes back exactly
   `DirectoryEnd(tupleCount)` lower.
   */
  lemma LoadedPage(p: PageValue)
    requires Sound(p) && DirectoryEnd(|p.slots|) <= PAGE_SIZE && HEADER_SIZE <= p.freeSpaceOffset as int
    ensures Serialized(p).Some?
    ensures Deserialized(Image(p)).Some? <==> DirectoryEnd(p.tupleCount as nat) <= PAGE_SIZE
    ensures Deserialized(Image(p)).Some? ==>
              var q := Deserialized(Image(p)).value; var count := p.tupleCount as nat;
              && q.id == p.id && q.tupleCount == p.tupleCount && q.freeSpaceOffset == p.freeSpaceOffset
              && |q.slots| == count && |q.data| == PAGE_SIZE
              && (forall i :: 0 <= i < count && i < |p.slots| && DirectoryEnd(i + 1) <= p.freeSpaceOffset as int ==>
                    q.slots[i] == p.slots[i])
              && (forall j :: p.freeSpaceOffset as int <= j < PAGE_SIZE && DirectoryEnd(count) <= j ==>
                    q.data[j - DirectoryEnd(count)] == p.data[j])
  {
    ImageHeader(p);
    var m, count := Image(p), p.tupleCount as nat;
    var end := DirectoryEnd(count);
    if end <= PAGE_SIZE {
      var q := Loaded(m);
      forall i | 0 <= i < count && i < |p.slots| && DirectoryEnd(i + 1) <= p.freeSpaceOffset as int
        ensures q.slots[i] == p.slots[i]
      {
        ImageSlot(p, i);
      }
      forall j | p.freeSpaceOffset as int <= j < PAGE_SIZE && end <= j
        ensures q.data[j - end] == p.data[j]
      {
        assert q.data[j - end] == m[end..][j - end] == m[j];
      }
    }
  }

  /** Where a loaded page holds the bytes of a live tuple: below its offset by the size of header and directory. */
  lemma LoadedTupleIsShifted(p: PageValue, h: History, i: nat)
    requires Refines(p, h) && i < |p.slots| && h.live[i]
    requires DirectoryEnd(|p.slots|) <= PAGE_SIZE && HEADER_SIZE <= p.freeSpaceOffset as int
    requires DirectoryEnd(p.tupleCount as nat) <= PAGE_SIZE
    ensures Sound(p) && Deserialized(Image(p)).Some?
    ensures var q := Deserialized(Image(p)).value;
            var at, shift := p.slots[i].offset as int, DirectoryEnd(p.tupleCount as nat);
            forall k :: 0 <= k < |h.tuples[i]| && shift <= at + k ==>
              0 <= at + k - shift < |q.data| && q.data[at + k - shift] == h.tuples[i][k]
  {
    LoadedPage(p);
    LiveSlotReadsBack(p, h, i);
    var q := Deserialized(Image(p)).value;
    var at, shift := p.slots[i].offset as int, DirectoryEnd(p.tupleCount as nat);
    hide Refines, Image, Deserialized;
    forall k | 0 <= k < |h.tuples[i]| && shift <= at + k
      ensures q.data[at + k - shift] == h.tuples[i][k]
    {
      assert Extent(p, i)[k] == p.data[at + k];
    }
  }

  // ---------- When the slots come back ----------

  /** The page can be saved, its image loads, and the loaded directory is the page's. */
  predicate SlotsReturn(p: PageValue)
    requires Sound(p)
  {
    Serialized(p).Some? && Deserialized(Serialized(p).value).Some? && Deserialized(Serialized(p).value).value.slots == p.slots
  }

  /** With the directory clear of the tuples it comes back exactly when the count is the number of slots. */
  lemma SlotsReturnIffCounted(p: PageValue)
    requires Sound(p) && DirectoryEnd(|p.slots|) <= p.freeSpaceOffset as int
    ensures SlotsReturn(p) <==> p.tupleCount as int == |p.slots|
  {
    LoadedPage(p);
  }

  /** That is, short of a dead slot deleted over and over, exactly when no slot is dead. */
  lemma SlotsSurviveIffAllLive(p: PageValue, h: History)
    requires Refines(p, h) && DirectoryEnd(|p.slots|) <= p.freeSpaceOffset as int
    ensures Sound(p)
    ensures h.deadDeletes % 0x1_0000 == 0 ==> (SlotsReturn(p) <==> AllLive(h))
    ensures h.deadDeletes % 0x1_0000 != 0 ==>
              (SlotsReturn(p) <==> (LiveCount(h.live) - h.deadDeletes) % 0x1_0000 == |h.live|)
  {
    TupleCountIsLiveCount(p, h);
    SlotsReturnIffCounted(p);
    if AllLive(h) {
      LiveCountFull(h.live);
    } else {
      var i :| 0 <= i < |h.live| && !h.live[i];
      LiveCountNotFull(h.live, i);
    }
  }

  lemma {:induction false} LiveCountNotFull(live: seq<bool>, i: nat)
    requires i < |live| && !live[i]
    ensures LiveCount(live) < |live|
  {
    if i < |live| - 1 {
      LiveCountNotFull(live[..|live| - 1], i);
    }
  }

  // ---------- When the tuples reach the directory ----------

  /** An image that starts with the header reads as these slots exactly when their directory follows. */
  lemma SlotsReadIff(p: PageValue, image: seq<byte>)
    requires DirectoryEnd(|p.slots|) <= |image| && image[..HEADER_SIZE] == Header(p)
    ensures (forall i :: 0 <= i < |p.slots| ==> SlotAt(image, i) == p.slots[i])
            <==> image[..DirectoryEnd(|p.slots|)] == Header(p) + Directory(p.slots)
  {
    var front, end := Header(p) + Directory(p.slots), DirectoryEnd(|p.slots|);
    forall i | 0 <= i < |p.slots|
      ensures SlotAt(image, i) == p.slots[i]
              <==> image[DirectoryEnd(i)..DirectoryEnd(i + 1)] == front[DirectoryEnd(i)..DirectoryEnd(i + 1)]
    {
      FrontSlot(p, i);
      SlotReads(image, i, p.slots[i]);
    }
    hide SlotAt;
    if image[..end] == front {
      forall i | 0 <= i < |p.slots|
        ensures SlotAt(image, i) == p.slots[i]
      {
        assert image[DirectoryEnd(i)..DirectoryEnd(i + 1)] == image[..end][DirectoryEnd(i)..DirectoryEnd(i + 1)];
      }
    } else if forall i :: 0 <= i < |p.slots| ==> SlotAt(image, i) == p.slots[i] {
      SlotwiseEqual(image, front, |p.slots|);
    }
  }

  lemma SlotwiseEqual(image: seq<byte>, front: seq<byte>, n: nat)
    requires |front| == DirectoryEnd(n) <= |image| && image[..HEADER_SIZE] == front[..HEADER_SIZE]
    requires forall i :: 0 <= i < n ==>
               image[DirectoryEnd(i)..DirectoryEnd(i + 1)] == front[DirectoryEnd(i)..DirectoryEnd(i + 1)]
    ensures image[..|front|] == front
  {
    forall k | 0 <= k < |front|
      ensures image[k] == front[k]
    {
      if k < HEADER_SIZE {
        assert image[k] == image[..HEADER_SIZE][k];
      } else {
        var i := (k - HEADER_SIZE) / SLOT_SIZE;
        assert image[k] == image[DirectoryEnd(i)..DirectoryEnd(i + 1)][k - DirectoryEnd(i)];
        assert front[k] == front[DirectoryEnd(i)..DirectoryEnd(i + 1)][k - DirectoryEnd(i)];
      }
    }
  }

  /** What lies over the directory is tuple data. */
  lemma ImageStart(p: PageValue)
    requires Sound(p) && HEADER_SIZE <= p.freeSpaceOffset as int <= DirectoryEnd(|p.slots|) <= PAGE_SIZE
    ensures var free, end := p.freeSpaceOffset as int, DirectoryEnd(|p.slots|);
            && Image(p)[..HEADER_SIZE] == Header(p)
            && Image(p)[..end] == (Header(p) + Directory(p.slots))[..free] + p.data[free..end]
  {
    var free, end := p.freeSpaceOffset as int, DirectoryEnd(|p.slots|);
    ImageFront(p, 0, free);
    ImageFront(p, 0, HEADER_SIZE);
    assert Image(p)[..end] == Image(p)[0..free] + Image(p)[free..end];
    assert Image(p)[free..end] == p.data[free..end];
  }

  /**
   The exact condition for every page whose tuples reach the directory but not the header: the slots come back iff
   all are counted and the tuple bytes over the directory happen to be the directory's own.
   */
  lemma OverrunSlotsReturnIff(p: PageValue)
    requires Sound(p) && HEADER_SIZE <= p.freeSpaceOffset as int <= DirectoryEnd(|p.slots|) <= PAGE_SIZE
    ensures var end := DirectoryEnd(|p.slots|);
            SlotsReturn(p) <==>
            && p.tupleCount as int == |p.slots|
            && p.data[p.freeSpaceOffset..end] == (Header(p) + Directory(p.slots))[p.freeSpaceOffset..]
  {
    hide Image, Header, Directory, SlotAt;
    SlotsReturnIfRead(p);
    ImageStart(p);
    SlotsReadIff(p, Image(p));
    var front, free, end := Header(p) + Directory(p.slots), p.freeSpaceOffset as int, DirectoryEnd(|p.slots|);
    SameTail(front, free, p.data[free..end]);
  }

  lemma SlotsReturnIfRead(p: PageValue)
    requires Sound(p) && DirectoryEnd(|p.slots|) <= PAGE_SIZE && HEADER_SIZE <= p.freeSpaceOffset as int
    ensures SlotsReturn(p) <==>
            p.tupleCount as int == |p.slots| && forall i :: 0 <= i < |p.slots| ==> SlotAt(Image(p), i) == p.slots[i]
  {
    ImageHeader(p);
    hide Image, SlotAt;
  }

  lemma SameTail(front: seq<byte>, from: nat, tail: seq<byte>)
    requires from + |tail| == |front|
    ensures front[..from] + tail == front <==> tail == front[from..]
  {
    assert front == front[..from] + front[from..];
    if front[..from] + tail == front {
      assert tail == (front[..from] + tail)[from..];
    }
  }

  /** The last byte of a directory is the high byte of the last size; tuple data laid over it changes that size. */
  lemma LastSlotIsOverwritten(p: PageValue)
    requires Sound(p) && p.slots != []
    requires p.freeSpaceOffset as int < DirectoryEnd(|p.slots|) <= PAGE_SIZE
    requires p.slots[|p.slots| - 1].size < 0x100 && p.data[DirectoryEnd(|p.slots|) - 1] != 0
    ensures SlotAt(Image(p), |p.slots| - 1) != p.slots[|p.slots| - 1]
    ensures !SlotsReturn(p)
  {
    var m, n := Image(p), |p.slots|;
    assert m[DirectoryEnd(n) - 1] == p.data[DirectoryEnd(n) - 1];
    assert DirectoryEnd(n - 1) + 3 == DirectoryEnd(n) - 1;
    assert SlotAt(m, n - 1).size as int >= 0x100;
  }

  /** Tuples of fewer than 256 bytes, none of them zero. */
  predicate IsPlain(tuple: seq<byte>) { |tuple| < 0x100 && forall k :: 0 <= k < |tuple| ==> tuple[k] != 0 }

  lemma {:induction false} PlainStack(tuples: seq<seq<byte>>)
    requires forall t :: t in tuples ==> IsPlain(t)
    ensures forall k :: 0 <= k < Total(tuples) ==> Stacked(tuples)[k] != 0
  {
    if tuples != [] {
      var n := |tuples| - 1;
      PlainStack(tuples[..n]);
      assert tuples[n] in tuples;
    }
  }

  /** The exact condition for pages of plain tuples: the slots come back iff all are counted and the tuples end short of them. */
  lemma PlainSlotsReturnIff(p: PageValue, h: History)
    requires Refines(p, h) && forall t :: t in h.tuples ==> IsPlain(t)
    ensures Sound(p)
    ensures SlotsReturn(p) <==>
            p.tupleCount as int == |p.slots| && DirectoryEnd(|p.slots|) <= p.freeSpaceOffset as int
  {
    var n, free := |p.slots|, p.freeSpaceOffset as int;
    if DirectoryEnd(n) <= free {
      SlotsReturnIffCounted(p);
    } else if DirectoryEnd(n) <= PAGE_SIZE {
      PlainOverrun(p, h);
    }
  }

  lemma PlainOverrun(p: PageValue, h: History)
    requires Refines(p, h) && Sound(p) && forall t :: t in h.tuples ==> IsPlain(t)
    requires p.freeSpaceOffset as int < DirectoryEnd(|p.slots|) <= PAGE_SIZE
    ensures !SlotsReturn(p)
  {
    var n, free := |p.slots|, p.freeSpaceOffset as int;
    assert n > 0;
    PlainStack(h.tuples);
    assert SlotRefines(p, h, n - 1) && h.tuples[n - 1] in h.tuples;
    assert p.data[DirectoryEnd(n) - 1] == Stacked(h.tuples)[DirectoryEnd(n) - 1 - free];
    LastSlotIsOverwritten(p);
  }

  /** A page reached by adding one-byte tuples that are not zero loses its directory exactly from the 818th on. */
  lemma OneByteTuples(id: uint32, n: nat, b: byte)
    requires n <= 1366 && b != 0
    ensures var p := RunFrom(Empty(id), SmallAdds(n, b));
            Sound(p) && |p.slots| == n && (SlotsReturn(p) <==> n <= 817)
  {
    BoundIsReached(id, n, b);
    var p, h := RunFrom(Empty(id), SmallAdds(n, b)), HistoryFrom(NoHistory(), SmallAdds(n, b));
    TupleCountIsLiveCount(p, h);
    LiveCountFull(h.live);
    PlainSlotsReturnIff(p, h);
  }

  /** Tuple data that reaches into the header is loaded as header: the free-space offset comes back as another one. */
  lemma HeaderReturnsIffClear(p: PageValue)
    requires Sound(p) && DirectoryEnd(|p.slots|) <= PAGE_SIZE
    requires forall j :: p.freeSpaceOffset as int <= j < PAGE_SIZE ==> p.data[j] != 0
    ensures Uint16(Image(p), 6) == p.freeSpaceOffset <==> HEADER_SIZE <= p.freeSpaceOffset as int
  {
    if HEADER_SIZE <= p.freeSpaceOffset as int {
      ImageHeader(p);
    } else {
      assert Image(p)[7] == p.data[7];
      assert Uint16(Image(p), 6) as int >= 0x100;
    }
  }
}
