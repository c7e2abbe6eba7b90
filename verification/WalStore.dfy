/** The write-ahead-log store: log first, then apply; recover by replaying the lines of the log. */
module WalStore {
  import opened Sequences
  import opened Lines
  import opened Bytes
  import opened WalCodec

  type Store = map<seq<byte>, seq<byte>>

  // ---------- Operations on the map ----------

  datatype Op = Put(key: seq<byte>, value: seq<byte>) | Delete(key: seq<byte>)

  function Apply(op: Op, m: Store): Store {
    match op
    case Put(k, v) => m[k := v]
    case Delete(k) => m - {k}
  }

  function ApplyAll(ops: seq<Op>, m: Store): Store {
    if ops == [] then m else ApplyAll(ops[1..], Apply(ops[0], m))
  }

  lemma {:induction false} ApplyAllAppend(a: seq<Op>, b: seq<Op>, m: Store)
    ensures ApplyAll(a + b, m) == ApplyAll(b, ApplyAll(a, m))
  {
    if a == [] {
      assert a + b == b;
    } else {
      assert (a + b)[1..] == a[1..] + b;
      ApplyAllAppend(a[1..], b, Apply(a[0], m));
    }
  }

  // ---------- The log ----------

  const PUT: seq<byte> := [0x70, 0x75, 0x74]
  const DELETE: seq<byte> := [0x64, 0x65, 0x6C, 0x65, 0x74, 0x65]

  function EntryOf(op: Op): LogEntry {
    match op
    case Put(k, v) => LogEntry(PUT, k, v)
    case Delete(k) => LogEntry(DELETE, k, [])
  }

  function Json(op: Op): seq<byte> { Marshal(EntryOf(op)) }

  /** What a sequence of operations leaves in the log. */
  function Log(ops: seq<Op>): seq<byte> {
    if ops == [] then [] else Json(ops[0]) + [NEWLINE] + Log(ops[1..])
  }

  lemma {:induction false} LogAppend(a: seq<Op>, b: seq<Op>)
    ensures Log(a + b) == Log(a) + Log(b)
  {
    if a == [] {
      assert a + b == b;
    } else {
      assert (a + b)[1..] == a[1..] + b;
      LogAppend(a[1..], b);
      Associative(Json(a[0]) + [NEWLINE], Log(a[1..]), Log(b));
    }
  }

  // ---------- Recovery ----------

  /** A line and its newline have to fit in the scanner's buffer of 64 KiB. */
  const MAX_TOKEN := 65536

  predicate Fits(line: seq<byte>) { |line| < MAX_TOKEN }

  function DropReturn(line: seq<byte>): seq<byte> {
    if line != [] && line[|line| - 1] == RETURN then line[..|line| - 1] else line
  }

  function ApplyEntry(e: LogEntry, m: Store): Store {
    if e.typ == PUT then m[e.key := e.value] else if e.typ == DELETE then m - {e.key} else m
  }

  function ReplayLine(line: seq<byte>, m: Store): Store {
    match Unmarshal(DropReturn(line))
    case None => m
    case Some(e) => ApplyEntry(e, m)
  }

  function ReplayLines(lines: seq<seq<byte>>, m: Store): Store {
    if lines == [] then m else ReplayLines(lines[1..], ReplayLine(lines[0], m))
  }

  predicate AllFit(lines: seq<seq<byte>>) { forall line :: line in lines ==> Fits(line) }

  /** The store a restart sees, or nothing when a line is too long and opening fails. */
  function Recover(log: seq<byte>): Option<Store> {
    var lines := Split(log, NEWLINE);
    if AllFit(lines) then Some(ReplayLines(lines, map[])) else None
  }

  // ---------- What replaying one logged operation does ----------

  function CleanOp(op: Op): Op {
    match op
    case Put(k, v) => Put(Clean(k), Clean(v))
    case Delete(k) => Delete(Clean(k))
  }

  function CleanOps(ops: seq<Op>): seq<Op> {
    seq(|ops|, i requires 0 <= i < |ops| => CleanOp(ops[i]))
  }

  lemma {:induction false} AsciiIsClean(s: seq<byte>)
    requires forall i :: 0 <= i < |s| ==> s[i] < 0x80
    ensures Clean(s) == s
  {
    if s != [] {
      AsciiIsClean(s[1..]);
      assert s[..1] + s[1..] == s;
    }
  }

  lemma ReplayJson(op: Op, m: Store)
    ensures ReplayLine(Json(op), m) == Apply(CleanOp(op), m)
  {
    hide Clean, Marshal, Unmarshal;
    MarshalShape(EntryOf(op));
    assert DropReturn(Json(op)) == Json(op);
    MarshalRoundTrip(EntryOf(op));
    AsciiIsClean(PUT);
    AsciiIsClean(DELETE);
    assert PUT != DELETE;
  }

  lemma SplitJson(op: Op, rest: seq<byte>)
    ensures Split(Json(op) + [NEWLINE] + rest, NEWLINE) == [Json(op)] + Split(rest, NEWLINE)
  {
    MarshalShape(EntryOf(op));
    SplitFirst(Json(op), rest, NEWLINE);
  }

  /** Replaying a log that starts with the entries of `ops` is applying them and going on with the rest. */
  lemma {:induction false} ReplayLog(ops: seq<Op>, rest: seq<byte>, m: Store)
    ensures ReplayLines(Split(Log(ops) + rest, NEWLINE), m) ==
            ReplayLines(Split(rest, NEWLINE), ApplyAll(CleanOps(ops), m))
    ensures AllFit(Split(Log(ops) + rest, NEWLINE)) <==>
            (forall op :: op in ops ==> Fits(Json(op))) && AllFit(Split(rest, NEWLINE))
  {
    hide Split, ReplayLine, Apply, CleanOp, Json, Fits;
    if ops == [] {
      assert Log(ops) + rest == rest;
      assert CleanOps(ops) == [];
    } else {
      var op, rest' := ops[0], Log(ops[1..]) + rest;
      var lines := Split(rest', NEWLINE);
      assert Log(ops) + rest == Json(op) + [NEWLINE] + rest';
      SplitJson(op, rest');
      ReplayJson(op, m);
      ReplayLog(ops[1..], rest, Apply(CleanOp(op), m));
      assert CleanOps(ops)[0] == CleanOp(op) && CleanOps(ops)[1..] == CleanOps(ops[1..]);
      assert ([Json(op)] + lines)[1..] == lines;
    }
  }

  // ---------- A log cut at any byte ----------

  /** How many entries have their newline before the cut, and the bytes after the last such newline. */
  function Whole(ops: seq<Op>, cut: nat): (w: nat)
    ensures w <= |ops|
  {
    if ops == [] || cut <= |Json(ops[0])| then 0 else 1 + Whole(ops[1..], cut - |Json(ops[0])| - 1)
  }

  function Torn(ops: seq<Op>, cut: nat): seq<byte> {
    if ops == [] then []
    else if cut <= |Json(ops[0])| then Json(ops[0])[..cut]
    else Torn(ops[1..], cut - |Json(ops[0])| - 1)
  }

  /** How many entries have their JSON text wholly before the cut. */
  function Survivors(ops: seq<Op>, cut: nat): (k: nat)
    ensures k <= |ops|
  {
    if ops == [] || cut < |Json(ops[0])| then 0
    else if cut == |Json(ops[0])| then 1
    else 1 + Survivors(ops[1..], cut - |Json(ops[0])| - 1)
  }

  lemma {:induction false} SurvivorsMeaning(ops: seq<Op>, cut: nat, i: nat)
    requires i < |ops|
    ensures i < Survivors(ops, cut) <==> |Log(ops[..i])| + |Json(ops[i])| <= cut
  {
    hide Json;
    if i == 0 {
      assert Log(ops[..0]) == [];
    } else {
      assert ops[..i][0] == ops[0] && ops[..i][1..] == ops[1..][..i - 1];
      assert |Log(ops[..i])| == |Json(ops[0])| + 1 + |Log(ops[1..][..i - 1])|;
      if cut > |Json(ops[0])| {
        SurvivorsMeaning(ops[1..], cut - |Json(ops[0])| - 1, i - 1);
      }
    }
  }

  lemma {:induction false} CutLog(ops: seq<Op>, cut: nat)
    requires cut <= |Log(ops)|
    ensures var w, f := Whole(ops, cut), Torn(ops, cut);
            && Log(ops)[..cut] == Log(ops[..w]) + f
            && (f != [] ==> w < |ops| && f <= Json(ops[w]))
            && Survivors(ops, cut) == (if f != [] && f == Json(ops[w]) then w + 1 else w)
  {
    hide Json;
    if ops != [] {
      var json := Json(ops[0]);
      assert json != [] by {
        MarshalShape(EntryOf(ops[0]));
        JsonIsMarshal(ops[0]);
      }
      if cut > |json| {
        var cut', w := cut - |json| - 1, Whole(ops, cut);
        CutLog(ops[1..], cut');
        assert Log(ops)[..cut] == json + [NEWLINE] + Log(ops[1..])[..cut'];
        assert ops[..w][0] == ops[0] && ops[..w][1..] == ops[1..][..w - 1];
        Associative(json + [NEWLINE], Log(ops[1..][..w - 1]), Torn(ops, cut));
      } else {
        assert Log(ops)[..cut] == json[..cut];
        assert ops[..0] == [];
      }
    }
  }

  lemma JsonIsMarshal(op: Op)
    ensures Json(op) == Marshal(EntryOf(op))
  {
  }

  lemma TornHoldsNoControl(ops: seq<Op>, cut: nat)
    requires cut <= |Log(ops)|
    ensures NEWLINE !in Torn(ops, cut) && RETURN !in Torn(ops, cut)
  {
    CutLog(ops, cut);
    if Torn(ops, cut) != [] {
      MarshalShape(EntryOf(ops[Whole(ops, cut)]));
    }
  }

  predicate OpsFit(ops: seq<Op>) { forall op :: op in ops ==> Fits(Json(op)) }

  /**
   The crash theorem: wherever the log is cut, the first recovery yields exactly the map after the operations
   whose entries lie wholly before the cut; unless one of the lines left, the torn one included, is too long for
   the line scanner, and then recovery fails.
   */
  lemma CrashRecovery(ops: seq<Op>, cut: nat)
    requires cut <= |Log(ops)|
    ensures Recover(Log(ops)[..cut]) ==
            if OpsFit(ops[..Whole(ops, cut)]) && Fits(Torn(ops, cut))
            then Some(ApplyAll(CleanOps(ops[..Survivors(ops, cut)]), map[])) else None
  {
    hide Json, Marshal, Unmarshal, Log, Split, Apply;
    var w, f := Whole(ops, cut), Torn(ops, cut);
    CutLog(ops, cut);
    TornHoldsNoControl(ops, cut);
    ReplayLog(ops[..w], f, map[]);
    SplitLast(f, NEWLINE);
    var m := ApplyAll(CleanOps(ops[..w]), map[]);
    if f != [] {
      var op := ops[w];
      assert DropReturn(f) == f;
      JsonIsMarshal(op);
      if f == Json(op) {
        ReplayJson(op, m);
        assert CleanOps(ops[..w + 1]) == CleanOps(ops[..w]) + [CleanOp(op)];
        ApplyAllAppend(CleanOps(ops[..w]), [CleanOp(op)], map[]);
      } else {
        TornEntryFails(EntryOf(op), f);
      }
      assert [f][1..] == [];
    }
  }

  /** An uncut log of fitting entries replays in full; a single entry that does not fit makes every restart fail. */
  lemma RestartSucceedsIffEntriesFit(ops: seq<Op>)
    ensures Recover(Log(ops)) == if OpsFit(ops) then Some(ApplyAll(CleanOps(ops), map[])) else None
  {
    ReplayLog(ops, [], map[]);
    assert Log(ops) + [] == Log(ops);
  }

  /**
   Writing on after a crash. The first new entry is glued to whatever stands after the last newline; unless
   that is nothing, the glued line is skipped, so the new entry is lost, and so is an old one of which only
   the newline was missing.
   */
  lemma AppendAfterCrash(ops: seq<Op>, cut: nat, op: Op, more: seq<Op>)
    requires cut <= |Log(ops)|
    ensures var w, f := Whole(ops, cut), Torn(ops, cut);
            Recover(Log(ops)[..cut] + Log([op] + more)) ==
            if OpsFit(ops[..w]) && Fits(f + Json(op)) && OpsFit(more)
            then Some(ApplyAll(CleanOps(ops[..w] + if f == [] then [op] + more else more), map[])) else None
  {
    CutLog(ops, cut);
    if Torn(ops, cut) == [] {
      var all := ops[..Whole(ops, cut)] + ([op] + more);
      LogAppend(ops[..Whole(ops, cut)], [op] + more);
      hide Json, Log, Recover;
      assert Torn(ops, cut) + Json(op) == Json(op);
      assert Log(ops[..Whole(ops, cut)]) + [] == Log(ops[..Whole(ops, cut)]);
      RestartSucceedsIffEntriesFit(all);
    } else {
      AppendAfterTear(ops, cut, op, more);
    }
  }

  lemma AppendAfterTear(ops: seq<Op>, cut: nat, op: Op, more: seq<Op>)
    requires cut <= |Log(ops)| && Torn(ops, cut) != []
    ensures var w, f := Whole(ops, cut), Torn(ops, cut);
            Recover(Log(ops)[..cut] + Log([op] + more)) ==
            if OpsFit(ops[..w]) && Fits(f + Json(op)) && OpsFit(more)
            then Some(ApplyAll(CleanOps(ops[..w] + more), map[])) else None
  {
    hide Json, Marshal, Unmarshal, Split, Apply, Whole, Torn;
    var w, f := Whole(ops, cut), Torn(ops, cut);
    CutLog(ops, cut);
    TornHoldsNoControl(ops, cut);
    MarshalShape(EntryOf(op));
    JsonIsMarshal(op);
    JsonIsMarshal(ops[w]);
    var glued := f + Json(op);
    GluedEntryFails(EntryOf(ops[w]), f, EntryOf(op));
    assert ([op] + more)[1..] == more;
    assert Log(ops)[..cut] + Log([op] + more) == Log(ops[..w]) + (glued + [NEWLINE] + Log(more));
    hide Log;
    UndecodableLineIsSkipped(ops[..w], glued, more);
  }

  /** A line that does not decode leaves no trace among the entries around it, if only it is short enough to be read. */
  lemma UndecodableLineIsSkipped(kept: seq<Op>, line: seq<byte>, more: seq<Op>)
    requires NEWLINE !in line && RETURN !in line && Unmarshal(line) == None
    ensures Recover(Log(kept) + (line + [NEWLINE] + Log(more))) ==
            if OpsFit(kept) && Fits(line) && OpsFit(more)
            then Some(ApplyAll(CleanOps(kept + more), map[])) else None
  {
    hide Json, Unmarshal, Split, Apply, ReplayLine, Log;
    var rest := line + [NEWLINE] + Log(more);
    var m := ApplyAll(CleanOps(kept), map[]);
    ReplayLog(kept, rest, map[]);
    SplitFirst(line, Log(more), NEWLINE);
    ReplayStep(line, Split(Log(more), NEWLINE), m);
    SkippedLine(line, m);
    ReplayLog(more, [], m);
    EmptySplit();
    assert Log(more) + [] == Log(more);
    assert CleanOps(kept + more) == CleanOps(kept) + CleanOps(more);
    ApplyAllAppend(CleanOps(kept), CleanOps(more), map[]);
  }

  lemma SkippedLine(line: seq<byte>, m: Store)
    requires RETURN !in line && Unmarshal(line) == None
    ensures ReplayLine(line, m) == m
  {
    assert DropReturn(line) == line;
  }

  lemma EmptySplit()
    ensures Split<byte>([], NEWLINE) == []
  {
  }

  // ---------- In numbers ----------

  /** The line an operation leaves, character for character but for its own texts. */
  lemma EntryText(op: Op)
    ensures Json(op) ==
            Ascii("{\"type\":\"") + (Ascii(if op.Put? then "put" else "delete") + (Ascii("\",\"key\":\"") + (Escape(op.key) +
            (Ascii("\",\"value\":\"") + ((if op.Put? then Escape(op.value) else []) + Ascii("\"}"))))))
  {
    MarshalText(EntryOf(op));
    PutIsPlain();
    DeleteIsPlain();
    hide Escape, Marshal, Ascii;
  }

  lemma PutIsPlain()
    ensures PUT == Ascii("put") && Escape(PUT) == PUT
  {
    hide Escape;
    assert Ascii("\"\\<>&") == [0x22, 0x5C, 0x3C, 0x3E, 0x26];
    PlainTextIsKept(PUT);
  }

  lemma DeleteIsPlain()
    ensures DELETE == Ascii("delete") && Escape(DELETE) == DELETE && Escape([]) == []
  {
    EmptyEscape();
    hide Escape;
    assert Ascii("\"\\<>&") == [0x22, 0x5C, 0x3C, 0x3E, 0x26];
    PlainTextIsKept(DELETE);
  }

  lemma EmptyEscape()
    ensures Escape([]) == []
  {
  }

  /** How long an operation's entry is. */
  lemma EntryLength(op: Op)
    ensures |Json(op)| ==
            match op
            case Put(k, v) => 34 + |Escape(k)| + |Escape(v)|
            case Delete(k) => 37 + |Escape(k)|
  {
    EntryText(op);
    hide Escape, Json;
  }

  /** A restart succeeds, and replays everything, exactly when no entry reaches 65536 bytes. */
  lemma RestartBySize(ops: seq<Op>)
    ensures Recover(Log(ops)) ==
            if forall op :: op in ops ==> (match op
                                           case Put(k, v) => 34 + |Escape(k)| + |Escape(v)|
                                           case Delete(k) => 37 + |Escape(k)|) < 65536
            then Some(ApplyAll(CleanOps(ops), map[])) else None
  {
    RestartSucceedsIffEntriesFit(ops);
    hide Recover, Log, Escape, Json;
    forall op | op in ops
      ensures Fits(Json(op)) <==> (match op
                                   case Put(k, v) => 34 + |Escape(k)| + |Escape(v)|
                                   case Delete(k) => 37 + |Escape(k)|) < 65536
    {
      EntryLength(op);
    }
  }

  /** Each operation adds one line. */
  lemma LogGrowsByALine(ops: seq<Op>, op: Op)
    ensures Log(ops + [op]) == Log(ops) + (Json(op) + Ascii("\n"))
  {
    LogAppend(ops, [op]);
    OneEntry(op);
    JsonIsMarshal(op);
    assert Ascii("\n") == [NEWLINE];
  }

  /** A carriage return before the newline makes no difference. */
  lemma CarriageReturnIsDropped(ops: seq<Op>, op: Op)
    requires |Json(op)| + 1 < 65536
    ensures Recover(Log(ops) + (Json(op) + Ascii("\r\n"))) == Recover(Log(ops) + (Json(op) + Ascii("\n")))
  {
    hide Json, Log, Recover, Ascii;
    LineEnds();
    JsonIsMarshal(op);
    MarshalShape(EntryOf(op));
    ReturnIsDropped(ops, Json(op));
    Associative(Json(op), [RETURN], [NEWLINE]);
  }

  lemma LineEnds()
    ensures Ascii("\r\n") == [RETURN] + [NEWLINE] && Ascii("\n") == [NEWLINE]
  {
  }

  lemma ReturnIsDropped(ops: seq<Op>, line: seq<byte>)
    requires NEWLINE !in line && RETURN !in line && |line| + 1 < 65536
    ensures Recover(Log(ops) + (line + [RETURN] + [NEWLINE])) == Recover(Log(ops) + (line + [NEWLINE]))
  {
    var m := ApplyAll(CleanOps(ops), map[]);
    assert DropReturn(line + [RETURN]) == line == DropReturn(line);
    hide Recover, Log, ApplyAll, CleanOps, DropReturn, OpsFit;
    LastLine(ops, line + [RETURN], m);
    LastLine(ops, line, m);
  }

  lemma LastLine(ops: seq<Op>, line: seq<byte>, m: Store)
    requires NEWLINE !in line && m == ApplyAll(CleanOps(ops), map[])
    ensures Recover(Log(ops) + (line + [NEWLINE])) ==
            if OpsFit(ops) && Fits(line) then Some(ReplayLine(line, m)) else None
  {
    hide Log, ReplayLine, Json;
    ReplayLog(ops, line + [NEWLINE], map[]);
    SplitFirst(line, [], NEWLINE);
    assert line + [NEWLINE] + [] == line + [NEWLINE];
    ReplayStep(line, [], m);
    EmptySplit();
  }

  /** An entry of another type is read, and changes nothing. */
  lemma OtherTypesAreIgnored(e: LogEntry, m: Store)
    requires Clean(e.typ) != Ascii("put") && Clean(e.typ) != Ascii("delete")
    ensures ReplayLine(Marshal(e), m) == m
  {
    hide Clean, Marshal, Unmarshal;
    MarshalShape(e);
    assert DropReturn(Marshal(e)) == Marshal(e);
    MarshalRoundTrip(e);
    PutIsPlain();
    DeleteIsPlain();
  }

  function TextLength(op: Op): nat { if op.Put? then |op.key| + |op.value| else |op.key| }

  /** Short texts always come back, whatever their bytes. */
  lemma ShortTextsRestart(ops: seq<Op>)
    requires forall op :: op in ops ==> 6 * TextLength(op) + 37 < 65536
    ensures Recover(Log(ops)) == Some(ApplyAll(CleanOps(ops), map[]))
  {
    RestartBySize(ops);
    hide Recover, Log, Escape;
    forall op | op in ops
      ensures (match op case Put(k, v) => 34 + |Escape(k)| + |Escape(v)| case Delete(k) => 37 + |Escape(k)|) < 65536
    {
      EscapedLength(op.key);
      if op.Put? { EscapedLength(op.value); }
    }
  }

  /** One long text makes every restart fail. */
  lemma LongTextFails(ops: seq<Op>, op: Op)
    requires op in ops && TextLength(op) >= 65536
    ensures Recover(Log(ops)) == None
  {
    RestartBySize(ops);
    hide Recover, Log, Escape;
    EscapedLength(op.key);
    if op.Put? { EscapedLength(op.value); }
  }

  /** Keys and values made of characters come back as they were. */
  lemma TextsComeBack(ops: seq<Op>)
    requires forall op :: op in ops ==> 6 * TextLength(op) + 37 < 65536
    requires forall op :: op in ops ==> IsText(op.key) && (op.Put? ==> IsText(op.value))
    ensures Recover(Log(ops)) == Some(ApplyAll(ops, map[]))
  {
    ShortTextsRestart(ops);
    hide Recover, Log, ApplyAll, Clean, IsText, ValidUtf8;
    forall i | 0 <= i < |ops|
      ensures CleanOp(ops[i]) == ops[i]
    {
      var op := ops[i];
      assert op in ops;
      ValidIffText(op.key);
      CleanIffValid(op.key);
      if op.Put? {
        ValidIffText(op.value);
        CleanIffValid(op.value);
      }
    }
    assert CleanOps(ops) == ops;
  }

  // ---------- The store object ----------

  class KVStore {
    var store: Store
    var log: seq<byte>  // the bytes of wal.log

    /** An empty store over an existing log; NewKVStore goes on to recover. */
    constructor Over(log: seq<byte>)
      ensures store == map[] && this.log == log
    {
      store := map[];
      this.log := log;
    }

    static method NewKVStore(log: seq<byte>) returns (kv: KVStore?)
      ensures kv == null <==> Recover(log).None?
      ensures kv != null ==> fresh(kv) && kv.log == log && Recover(log) == Some(kv.store)
    {
      var candidate := new KVStore.Over(log);
      var ok := candidate.RecoverFromWAL();
      kv := if ok then candidate else null;
    }

    method RecoverFromWAL() returns (ok: bool)
      modifies this`store
      ensures ok <==> AllFit(Split(log, NEWLINE))
      ensures ok ==> store == ReplayLines(Split(log, NEWLINE), old(store))
    {
      hide Unmarshal, Split, ReplayLines, AllFit;
      ghost var lines0, store0 := Split(log, NEWLINE), store;
      assert log[0..] == log;
      var pos := 0;
      while pos < |log|
        invariant pos <= |log|
        invariant AllFit(lines0) <==> AllFit(Split(log[pos..], NEWLINE))
        invariant ReplayLines(Split(log[pos..], NEWLINE), store) == ReplayLines(lines0, store0)
      {
        var n := LineLength(log[pos..], NEWLINE);
        var line := log[pos..pos + n];
        var next := if pos + n < |log| then pos + n + 1 else pos + n;
        SplitStep(log, pos, NEWLINE);
        ReplayStep(line, Split(log[next..], NEWLINE), store);
        if |line| >= MAX_TOKEN {
          return false;
        }
        var entry := Unmarshal(DropReturn(line));
        if entry.Some? {
          if entry.value.typ == PUT {
            store := store[entry.value.key := entry.value.value];
          } else if entry.value.typ == DELETE {
            store := store - {entry.value.key};
          }
        }
        pos := next;
      }
      assert log[pos..] == [];
      NoLines(store);
      return true;
    }

    method WriteToWAL(entry: LogEntry)
      modifies this`log
      ensures log == old(log) + Marshal(entry) + [NEWLINE]
    {
      var data := Marshal(entry);
      log := log + (data + [NEWLINE]);
    }

    method Put(key: seq<byte>, value: seq<byte>)
      modifies this
      ensures log == old(log) + Log([Op.Put(key, value)])
      ensures store == Apply(Op.Put(key, value), old(store))
    {
      hide Log, Marshal;
      WriteToWAL(LogEntry(PUT, key, value));
      OneEntry(Op.Put(key, value));
      store := store[key := value];
    }

    method Delete(key: seq<byte>)
      modifies this
      ensures log == old(log) + Log([Op.Delete(key)])
      ensures store == Apply(Op.Delete(key), old(store))
    {
      hide Log, Marshal;
      WriteToWAL(LogEntry(DELETE, key, []));
      OneEntry(Op.Delete(key));
      store := store - {key};
    }
  }

  lemma OneEntry(op: Op)
    ensures Log([op]) == Marshal(EntryOf(op)) + [NEWLINE]
  {
    hide Marshal;
    assert [op][1..] == [];
  }

  lemma NoLines(m: Store)
    ensures AllFit(Split([], NEWLINE)) && ReplayLines(Split([], NEWLINE), m) == m
  {
  }

  lemma ReplayStep(line: seq<byte>, lines: seq<seq<byte>>, m: Store)
    ensures ReplayLines([line] + lines, m) == ReplayLines(lines, ReplayLine(line, m))
    ensures AllFit([line] + lines) <==> Fits(line) && AllFit(lines)
  {
    hide ReplayLine;
    assert ([line] + lines)[1..] == lines;
  }
}
