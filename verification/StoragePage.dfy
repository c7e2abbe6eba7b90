/** The page object of the storage package, its fields changed in place, proved against the page values. */
module StoragePage {
  import opened Sequences
  import opened Bytes
  import opened PageModel
  import opened PageImage

  method PutUint16(buf: array<byte>, at: nat, v: uint16)
    requires at + 2 <= buf.Length
    modifies buf
    ensures buf[..] == old(buf[..at]) + Le16(v) + old(buf[at + 2..])
  {
    buf[at] := (v as int % 0x100) as byte;
    buf[at + 1] := (v as int / 0x100) as byte;
  }

  method PutUint32(buf: array<byte>, at: nat, v: uint32)
    requires at + 4 <= buf.Length
    modifies buf
    ensures buf[..] == old(buf[..at]) + Le32(v) + old(buf[at + 4..])
  {
    buf[at] := (v as int % 0x100) as byte;
    buf[at + 1] := (v as int / 0x100 % 0x100) as byte;
    buf[at + 2] := (v as int / 0x1_0000 % 0x100) as byte;
    buf[at + 3] := (v as int / 0x100_0000) as byte;
  }

  /** Writing into the zeros right behind what has been written. */
  lemma WritesBehind(written: seq<byte>, b: seq<byte>, zeros: nat, buf: seq<byte>)
    requires |b| <= zeros && buf == written + Zeros(zeros)
    ensures buf[..|written|] + b + buf[|written| + |b|..] == written + b + Zeros(zeros - |b|)
  {
    assert buf[|written| + |b|..] == Zeros(zeros - |b|);
  }

  class Page {
    var id: uint32
    var tupleCount: uint16
    var freeSpaceOffset: uint16
    var slots: seq<Slot>
    var data: array<byte>

    function Value(): PageValue
      reads this, data
    {
      PageValue(id, tupleCount, freeSpaceOffset, slots, data[..])
    }

    /** The empty page of AllocateNewPage. */
    constructor New(id: uint32)
      ensures Value() == Empty(id) && fresh(data)
    {
      this.id := id;
      tupleCount, freeSpaceOffset, slots := 0, PAGE_SIZE as uint16, [];
      data := new byte[PAGE_SIZE](_ => 0);
    }

    method AddTuple(tuple: seq<byte>) returns (r: AddResult)
      requires Sound(Value())
      modifies this`tupleCount, this`freeSpaceOffset, this`slots, data
      ensures r == AddOutcome(old(Value()), tuple)
      ensures Value() == AfterAdd(old(Value()), tuple)
    {
      for i := 0 to |slots|
        invariant forall j :: 0 <= j < i ==> !Reuses(slots[j], |tuple|)
        invariant Value() == old(Value())
      {
        if slots[i].IsDeleted() && |tuple| <= slots[i].size as int {
          assert slots[i].offset as int > data.Length;
          return Panics;
        }
      }
      if freeSpaceOffset as int < |tuple| + 2 * |slots| {
        return NoSpace;
      }
      var offset := freeSpaceOffset as int - |tuple|;
      forall k | 0 <= k < |tuple| {
        data[offset + k] := tuple[k];
      }
      slots := slots + [Slot(offset as uint16, |tuple| as uint16)];
      freeSpaceOffset := offset as uint16;
      tupleCount := Wrap16(tupleCount as int + 1);
      r := Added(|slots| - 1);
      assert data[..] == old(data[..offset]) + tuple + old(data[offset + |tuple|..]);
    }

    method DeleteTuple(slotIndex: int) returns (ok: bool)
      modifies this`tupleCount, this`slots
      ensures ok <==> 0 <= slotIndex < |old(slots)|
      ensures Value() == AfterDelete(old(Value()), slotIndex)
    {
      if slotIndex < 0 || slotIndex >= |slots| {
        return false;
      }
      slots := slots[slotIndex := Slot(DELETED, 0)];
      tupleCount := Wrap16(tupleCount as int - 1);
      return true;
    }

    method WriteHeader(buf: array<byte>)
      requires buf[..] == Zeros(PAGE_SIZE) && buf != data
      modifies buf
      ensures buf[..] == Header(Value()) + Zeros(PAGE_SIZE - HEADER_SIZE)
    {
      hide Le16, Le32;
      PutUint32(buf, 0, id);
      assert buf[..] == Le32(id) + Zeros(PAGE_SIZE - 4);
      WritesBehind(Le32(id), Le16(tupleCount), PAGE_SIZE - 4, buf[..]);
      PutUint16(buf, 4, tupleCount);
      WritesBehind(Le32(id) + Le16(tupleCount), Le16(freeSpaceOffset), PAGE_SIZE - 6, buf[..]);
      PutUint16(buf, 6, freeSpaceOffset);
    }

    method WriteSlot(buf: array<byte>, ghost header: seq<byte>, i: nat)
      requires i < |slots| && |header| == HEADER_SIZE && DirectoryEnd(i + 1) <= PAGE_SIZE && buf != data
      requires buf[..] == header + Directory(slots[..i]) + Zeros(PAGE_SIZE - DirectoryEnd(i))
      modifies buf
      ensures buf[..] == header + Directory(slots[..i + 1]) + Zeros(PAGE_SIZE - DirectoryEnd(i + 1))
    {
      hide Le16, Zeros, Directory;
      var base := HEADER_SIZE + i * SLOT_SIZE;
      ghost var written, slot := header + Directory(slots[..i]), slots[i];
      WritesBehind(written, Le16(slot.offset), PAGE_SIZE - base, buf[..]);
      PutUint16(buf, base, slots[i].offset);
      WritesBehind(written + Le16(slot.offset), Le16(slot.size), PAGE_SIZE - base - 2, buf[..]);
      PutUint16(buf, base + 2, slots[i].size);
      NextSlot(header, slots, i);
    }

    /** Null stands for the panic on a directory longer than the page. */
    method Serialize() returns (buf: array?<byte>)
      requires Sound(Value())
      ensures buf != null ==> fresh(buf)
      ensures Serialized(Value()) == if buf == null then None else Some(buf[..])
    {
      hide Header, Directory;
      buf := new byte[PAGE_SIZE](_ => 0);
      assert buf[..] == Zeros(PAGE_SIZE);
      WriteHeader(buf);
      ghost var header := Header(Value());
      NoSlots(header);
      for i := 0 to |slots|
        invariant buf != null && fresh(buf) && buf.Length == PAGE_SIZE && DirectoryEnd(i) <= PAGE_SIZE
        invariant buf[..] == header + Directory(slots[..i]) + Zeros(PAGE_SIZE - DirectoryEnd(i))
      {
        if HEADER_SIZE + i * SLOT_SIZE + SLOT_SIZE > PAGE_SIZE {
          return null;
        }
        WriteSlot(buf, header, i);
      }
      assert slots[..|slots|] == slots;
      ghost var front := buf[..];
      forall k | freeSpaceOffset as int <= k < PAGE_SIZE {
        buf[k] := data[k];
      }
      assert buf[..] == front[..freeSpaceOffset] + data[freeSpaceOffset..];
    }

    static lemma NoSlots(header: seq<byte>)
      ensures header + Directory([]) == header
    {
    }

    static lemma NextSlot(header: seq<byte>, slots: seq<Slot>, i: nat)
      requires i < |slots|
      ensures header + Directory(slots[..i]) + Le16(slots[i].offset) + Le16(slots[i].size) ==
              header + Directory(slots[..i + 1])
    {
      assert slots[..i + 1][..i] == slots[..i];
      Associative(header, Directory(slots[..i]), SlotBytes(slots[i]));
      Associative(header + Directory(slots[..i]), Le16(slots[i].offset), Le16(slots[i].size));
    }

    /** Null stands for the panic on a tuple count whose directory would not fit the page. */
    static method DeserializePage(image: seq<byte>) returns (p: Page?)
      requires |image| == PAGE_SIZE
      ensures p != null ==> fresh(p) && fresh(p.data)
      ensures Deserialized(image) == if p == null then None else Some(p.Value())
    {
      p := new Page.New(Uint32(image, 0));
      p.tupleCount, p.freeSpaceOffset := Uint16(image, 4), Uint16(image, 6);
      var count := p.tupleCount as nat;
      for i := 0 to count
        invariant DirectoryEnd(i) <= PAGE_SIZE
        invariant fresh(p) && fresh(p.data) && p.data[..] == Zeros(PAGE_SIZE)
        invariant p.id == Uint32(image, 0) && p.tupleCount as nat == count && p.freeSpaceOffset == Uint16(image, 6)
        invariant p.slots == SlotsAt(image, i)
      {
        var base := HEADER_SIZE + i * SLOT_SIZE;
        if base + SLOT_SIZE > PAGE_SIZE {
          return null;
        }
        p.slots := p.slots + [Slot(Uint16(image, base), Uint16(image, base + 2))];
      }
      var end := HEADER_SIZE + count * SLOT_SIZE;
      forall k | end <= k < PAGE_SIZE {
        p.data[k - end] := image[k];
      }
      assert p.data[..] == image[end..] + Zeros(end);
    }
  }
}
