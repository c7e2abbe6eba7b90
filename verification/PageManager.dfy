/** A file of pages: allocation at the end, positioned reads and writes, and what every page number reads as. */
module PageManager {
  import opened Sequences
  import opened Bytes
  import opened PageModel
  import opened PageImage
  import opened StoragePage

  const MAX_PAGES := 0x1_0000_0000

  // ---------- The file as bytes ----------

  /** A positioned write; what lies between the old end of the file and the write is filled with zeros. */
  function WriteAt(file: seq<byte>, at: nat, buf: seq<byte>): seq<byte> {
    if at >= |file| then file + Zeros(at - |file|) + buf
    else file[..at] + buf + if at + |buf| < |file| then file[at + |buf|..] else []
  }

  function PageBytes(file: seq<byte>, i: nat): seq<byte>
    requires (i + 1) * PAGE_SIZE <= |file|
  {
    file[i * PAGE_SIZE..(i + 1) * PAGE_SIZE]
  }

  function NumPages(file: seq<byte>): nat { |file| / PAGE_SIZE }

  /** The page number a new page gets: the size is cut down to 32 bits. */
  function NewID(file: seq<byte>): uint32 { (NumPages(file) % MAX_PAGES) as uint32 }

  // ---------- What the file holds, page by page ----------

  /** A page that can be written and loaded again. */
  predicate Savable(p: PageValue) {
    Sound(p) && DirectoryEnd(|p.slots|) <= p.freeSpaceOffset as int && p.tupleCount as int <= |p.slots|
  }

  function BytesOf(page: Option<PageValue>): (b: seq<byte>)
    requires page.Some? ==> Savable(page.value)
    ensures |b| == PAGE_SIZE
  {
    if page.None? then Zeros(PAGE_SIZE) else Image(page.value)
  }

  /** Page i of the file is the last page written under number i; a number skipped over by a write is all zeros. */
  ghost predicate Holds(file: seq<byte>, pages: seq<Option<PageValue>>) {
    && |file| == |pages| * PAGE_SIZE
    && (forall i :: 0 <= i < |pages| && pages[i].Some? ==> Savable(pages[i].value) && pages[i].value.id as int == i)
    && (forall i :: 0 <= i < |pages| ==> PageBytes(file, i) == BytesOf(pages[i]))
  }

  function Written(pages: seq<Option<PageValue>>, p: PageValue): seq<Option<PageValue>> {
    var i := p.id as nat;
    if i < |pages| then pages[i := Some(p)] else pages + seq(i - |pages|, _ => None) + [Some(p)]
  }

  lemma WriteInside(file: seq<byte>, i: nat, buf: seq<byte>, j: nat)
    requires |buf| == PAGE_SIZE && (i + 1) * PAGE_SIZE <= |file| && (j + 1) * PAGE_SIZE <= |file|
    ensures |WriteAt(file, i * PAGE_SIZE, buf)| == |file|
    ensures PageBytes(WriteAt(file, i * PAGE_SIZE, buf), j) == if j == i then buf else PageBytes(file, j)
  {
    var file' := WriteAt(file, i * PAGE_SIZE, buf);
    if j < i {
      assert (j + 1) * PAGE_SIZE <= i * PAGE_SIZE;
      assert file'[..i * PAGE_SIZE] == file[..i * PAGE_SIZE];
    } else if i < j {
      assert (i + 1) * PAGE_SIZE <= j * PAGE_SIZE;
      assert file'[(i + 1) * PAGE_SIZE..] == file[(i + 1) * PAGE_SIZE..];
    }
    forall k | 0 <= k < PAGE_SIZE
      ensures PageBytes(file', j)[k] == (if j == i then buf else PageBytes(file, j))[k]
    {
      assert PageBytes(file', j)[k] == file'[j * PAGE_SIZE + k];
    }
  }

  lemma WritePast(file: seq<byte>, n: nat, i: nat, buf: seq<byte>, j: nat)
    requires |buf| == PAGE_SIZE && |file| == n * PAGE_SIZE && n <= i && j <= i
    ensures |WriteAt(file, i * PAGE_SIZE, buf)| == (i + 1) * PAGE_SIZE
    ensures (j + 1) * PAGE_SIZE <= (i + 1) * PAGE_SIZE
    ensures PageBytes(WriteAt(file, i * PAGE_SIZE, buf), j) ==
              if j == i then buf else if j < n then PageBytes(file, j) else Zeros(PAGE_SIZE)
  {
    var at := i * PAGE_SIZE;
    var file' := WriteAt(file, at, buf);
    assert at >= |file|;
    assert file' == file + Zeros(at - |file|) + buf;
    var expected := if j == i then buf else if j < n then PageBytes(file, j) else Zeros(PAGE_SIZE);
    assert j < n ==> (j + 1) * PAGE_SIZE <= n * PAGE_SIZE;
    assert j < i ==> (j + 1) * PAGE_SIZE <= i * PAGE_SIZE;
    assert n <= j ==> n * PAGE_SIZE <= j * PAGE_SIZE;
    forall k | 0 <= k < PAGE_SIZE
      ensures PageBytes(file', j)[k] == expected[k]
    {
      assert PageBytes(file', j)[k] == file'[j * PAGE_SIZE + k];
    }
  }

  /** Writing one page changes that page and leaves the bytes of every other one alone. */
  lemma WriteKeepsHolds(file: seq<byte>, pages: seq<Option<PageValue>>, p: PageValue)
    requires Holds(file, pages) && Savable(p)
    ensures Holds(WriteAt(file, p.id as nat * PAGE_SIZE, Image(p)), Written(pages, p))
  {
    hide Image;
    var i := p.id as nat;
    var pages', file' := Written(pages, p), WriteAt(file, i * PAGE_SIZE, Image(p));
    if i < |pages| {
      assert (i + 1) * PAGE_SIZE <= |file|;
      WriteInside(file, i, Image(p), i);
    } else {
      WritePast(file, |pages|, i, Image(p), i);
    }
    forall j | 0 <= j < |pages'|
      ensures (j + 1) * PAGE_SIZE <= |file'| && PageBytes(file', j) == BytesOf(pages'[j])
    {
      if i < |pages| {
        assert (j + 1) * PAGE_SIZE <= |file|;
        WriteInside(file, i, Image(p), j);
      } else {
        WritePast(file, |pages|, i, Image(p), j);
      }
      assert j < |pages| ==> PageBytes(file, j) == BytesOf(pages[j]);
    }
  }

  // ---------- What reads give ----------

  lemma EmptyIsSavable(id: uint32)
    ensures Savable(Empty(id))
  {
  }

  /** The empty page comes back as it was. */
  lemma EmptyLoadsBack(id: uint32)
    ensures Deserialized(Image(Empty(id))) == Some(Empty(id))
  {
    var e := Empty(id);
    LoadedPage(e);
    var q := Deserialized(Image(e)).value;
    assert q.slots == [];
    forall j | 0 <= j < PAGE_SIZE
      ensures q.data[j] == 0
    {
      if j + HEADER_SIZE < PAGE_SIZE {
        assert Image(e)[j + HEADER_SIZE] == 0;
      }
    }
    assert q.data == e.data;
  }

  /** A page of zeros loads as an empty page numbered 0 whose free space ends at byte 0. */
  lemma ZerosLoad()
    ensures Deserialized(Zeros(PAGE_SIZE)) == Some(PageValue(0, 0, 0, [], Zeros(PAGE_SIZE)))
  {
    assert Zeros(PAGE_SIZE)[HEADER_SIZE..] + Zeros(HEADER_SIZE) == Zeros(PAGE_SIZE);
  }

  /** Reading page i gives a page numbered i exactly when i is 0 or was written. */
  lemma ReadGivesItsNumber(file: seq<byte>, pages: seq<Option<PageValue>>, i: nat)
    requires Holds(file, pages) && i < |pages|
    ensures (i + 1) * PAGE_SIZE <= |file| && Deserialized(PageBytes(file, i)).Some?
    ensures Deserialized(PageBytes(file, i)).value.id as int == i <==> i == 0 || pages[i].Some?
  {
    hide Image;
    assert (i + 1) * PAGE_SIZE <= |file|;
    assert PageBytes(file, i) == BytesOf(pages[i]);
    if pages[i].Some? {
      LoadedPage(pages[i].value);
    } else {
      ZerosLoad();
    }
  }

  /** A page saved among others is read back with its header and its counted slots, at any directory that fits. */
  lemma SavedPageIsRead(file: seq<byte>, pages: seq<Option<PageValue>>, p: PageValue)
    requires Holds(file, pages) && Sound(p)
    requires 8 + 4 * |p.slots| <= p.freeSpaceOffset as int && p.tupleCount as int <= |p.slots|
    ensures var i := p.id as nat; var file' := WriteAt(file, i * 4096, Image(p));
            && (i + 1) * 4096 <= |file'|
            && var read := Deserialized(file'[i * 4096..(i + 1) * 4096]);
            && read.Some? && read.value.id == p.id && read.value.tupleCount == p.tupleCount
            && read.value.freeSpaceOffset == p.freeSpaceOffset && read.value.slots == p.slots[..p.tupleCount]
  {
    hide Image, Deserialized;
    WriteKeepsHolds(file, pages, p);
    var i, file' := p.id as nat, WriteAt(file, p.id as nat * PAGE_SIZE, Image(p));
    assert |file'| == |Written(pages, p)| * PAGE_SIZE;
    assert PageBytes(file', i) == BytesOf(Written(pages, p)[i]) == Image(p);
    LoadedPage(p);
    var q := Deserialized(Image(p)).value;
    assert q.slots == p.slots[..p.tupleCount];
  }

  /** Below 2^32 pages a new page gets the number of pages there were; at 2^32 the number wraps to page 0. */
  lemma NewNumberIsFresh(file: seq<byte>, pages: seq<Option<PageValue>>)
    requires Holds(file, pages) && |pages| <= MAX_PAGES
    ensures NumPages(file) == |pages|
    ensures NewID(file) as int == |pages| <==> |pages| < MAX_PAGES
    ensures |pages| == MAX_PAGES ==> NewID(file) == 0
  {
    assert NewID(file) as int == |pages| % MAX_PAGES;
  }

  // ---------- Runs ----------

  datatype Call = Allocate | Save(p: PageValue)

  predicate Allowed(file: seq<byte>, c: Call) {
    match c
    case Allocate => NumPages(file) < MAX_PAGES
    case Save(p) => Savable(p)
  }

  function PageOf(file: seq<byte>, c: Call): PageValue {
    match c
    case Allocate => Empty(NewID(file))
    case Save(p) => p
  }

  function Step(file: seq<byte>, c: Call): seq<byte>
    requires Allowed(file, c)
  {
    var p := PageOf(file, c);
    WriteAt(file, p.id as nat * PAGE_SIZE, Image(p))
  }

  ghost predicate Run(files: seq<seq<byte>>, calls: seq<Call>) {
    && |files| == |calls| + 1 && files[0] == []
    && forall i :: 0 <= i < |calls| ==> Allowed(files[i], calls[i]) && files[i + 1] == Step(files[i], calls[i])
  }

  /** What was last written under each page number in a run. */
  ghost function Contents(files: seq<seq<byte>>, calls: seq<Call>): seq<Option<PageValue>>
    requires |files| == |calls| + 1
  {
    var n := |calls|;
    if n == 0 then [] else Written(Contents(files[..n], calls[..n - 1]), PageOf(files[n - 1], calls[n - 1]))
  }

  /** From an empty file on, the file is at every moment a whole number of pages, and page i the last one written as i. */
  lemma {:induction false} RunsHold(files: seq<seq<byte>>, calls: seq<Call>)
    requires Run(files, calls)
    ensures Holds(files[|calls|], Contents(files, calls)) && |Contents(files, calls)| <= MAX_PAGES
  {
    var n := |calls|;
    if n > 0 {
      hide Image, WriteAt, Holds, Savable;
      RunsHold(files[..n], calls[..n - 1]);
      EmptyIsSavable(NewID(files[n - 1]));
      var p := PageOf(files[n - 1], calls[n - 1]);
      WriteKeepsHolds(files[n - 1], Contents(files[..n], calls[..n - 1]), p);
    }
  }

  /** An allocation in a run: a number no page had, one page more, and the empty page to read there. */
  lemma AllocationInARun(files: seq<seq<byte>>, calls: seq<Call>)
    requires Run(files, calls) && calls != [] && calls[|calls| - 1] == Allocate
    ensures var n := |calls|; var before, file := files[n - 1], files[n]; var i := NumPages(before);
            && NumPages(file) == i + 1 && |file| == (i + 1) * PAGE_SIZE
            && NewID(before) as int == i
            && Deserialized(PageBytes(file, i)) == Some(Empty(NewID(before)))
            && forall j: nat :: j < i ==> (j + 1) * PAGE_SIZE <= |before| && PageBytes(file, j) == PageBytes(before, j)
  {
    hide Image;
    var n := |calls|;
    var before, pages := files[n - 1], Contents(files[..n], calls[..n - 1]);
    RunsHold(files[..n], calls[..n - 1]);
    NewNumberIsFresh(before, pages);
    var i := |pages|;
    var e := Empty(NewID(before));
    EmptyLoadsBack(NewID(before));
    WritePast(before, i, i, Image(e), i);
    forall j: nat | j < i
      ensures (j + 1) * PAGE_SIZE <= |before| && PageBytes(files[n], j) == PageBytes(before, j)
    {
      WritePast(before, i, i, Image(e), j);
    }
  }

  // ---------- The manager object ----------

  datatype ReadStatus = Read | EndOfFile | Panicked

  class PageManager {
    var file: seq<byte>

    constructor (file: seq<byte>)
      ensures this.file == file
    {
      this.file := file;
    }

    method ReadPage(pageID: uint32) returns (r: ReadStatus, p: Page?)
      ensures r == EndOfFile <==> (pageID as nat + 1) * PAGE_SIZE > |file|
      ensures r == Read <==> p != null
      ensures r != EndOfFile ==>
                Deserialized(PageBytes(file, pageID as nat)) == if p == null then None else Some(p.Value())
    {
      var offset := pageID as nat * PAGE_SIZE;
      if offset + PAGE_SIZE > |file| {
        return EndOfFile, null;
      }
      var buf := file[offset..offset + PAGE_SIZE];
      p := Page.DeserializePage(buf);
      r := if p == null then Panicked else Read;
    }

    method WritePage(p: Page) returns (ok: bool)
      requires Sound(p.Value())
      modifies this
      ensures ok <==> Serialized(p.Value()).Some?
      ensures file == if ok then WriteAt(old(file), p.id as nat * PAGE_SIZE, Image(p.Value())) else old(file)
    {
      var offset := p.id as nat * PAGE_SIZE;
      var buf := p.Serialize();
      if buf == null {
        return false;
      }
      file := WriteAt(file, offset, buf[..]);
      return true;
    }

    method AllocateNewPage() returns (p: Page)
      modifies this
      ensures fresh(p) && p.Value() == Empty(NewID(old(file)))
      ensures file == WriteAt(old(file), NewID(old(file)) as nat * PAGE_SIZE, Image(p.Value()))
    {
      var pageID := (|file| / PAGE_SIZE % MAX_PAGES) as uint32;
      p := new Page.New(pageID);
      EmptyIsSavable(pageID);
      var ok := WritePage(p);
    }

    method Stats() returns (numPages: uint32, fileSize: nat)
      ensures fileSize == |file| && numPages == NewID(file)
    {
      fileSize := |file|;
      numPages := (fileSize / PAGE_SIZE % MAX_PAGES) as uint32;
    }
  }
}
