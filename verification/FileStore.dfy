/**
 The file-backed key-value engine: key=value lines, rewritten whole after every change in whatever order the
 hash map yields, read back when the engine is opened; and the in-memory engine it stands for.
 */
module FileStore {
  import opened Sequences
  import opened Lines

  type Store = map<string, string>

  // ---------- Reading ----------

  function ParseLine(line: string, m: Store): Store {
    var pos := LineLength(line, '=');
    if pos < |line| then m[line[..pos] := line[pos + 1..]] else m
  }

  function ParseLines(lines: seq<string>, m: Store): Store {
    if lines == [] then m else ParseLines(lines[1..], ParseLine(lines[0], m))
  }

  function Load(file: string): Store { ParseLines(Split(file, '\n'), map[]) }

  /** Opening without a file starts empty. */
  function LoadIfAny(file: Option<string>): Store { if file.None? then map[] else Load(file.value) }

  /** What loading gives once the text from `at` on is read on top of `m`. */
  function LoadFrom(text: string, at: nat, m: Store): Store
    requires at <= |text|
  {
    ParseLines(Split(text[at..], '\n'), m)
  }

  function LineEnd(text: string, at: nat): (n: nat)
    requires at < |text|
    ensures at <= n <= |text|
  {
    at + LineLength(text[at..], '\n')
  }

  lemma LoadStep(text: string, at: nat, m: Store)
    requires at < |text|
    ensures var n := LineEnd(text, at);
            LoadFrom(text, at, m) == LoadFrom(text, if n < |text| then n + 1 else n, ParseLine(text[at..n], m))
  {
    hide ParseLine, Split;
    SplitStep(text, at, '\n');
    var n := LineEnd(text, at);
    var next := if n < |text| then n + 1 else n;
    assert ([text[at..n]] + Split(text[next..], '\n'))[1..] == Split(text[next..], '\n');
  }

  lemma LoadEnds(text: string, m: Store)
    ensures LoadFrom(text, |text|, m) == m
    ensures LoadFrom(text, 0, map[]) == Load(text)
  {
    assert text[|text|..] == [] && text[0..] == text;
  }

  // ---------- Writing ----------

  function PrintEntry(key: string, value: string): string { key + ['='] + value + ['\n'] }

  function Print(m: Store, order: seq<string>): string
    requires forall k :: k in order ==> k in m
  {
    if order == [] then [] else PrintEntry(order[0], m[order[0]]) + Print(m, order[1..])
  }

  /** An iteration order of the map: every key once. */
  predicate IsOrder(order: seq<string>, m: Store) {
    && (forall i, j :: 0 <= i < j < |order| ==> order[i] != order[j])
    && (forall k :: k in order ==> k in m)
    && (forall k :: k in m ==> k in order)
  }

  /** Such an order names each key of the map exactly once, and nothing else. */
  lemma {:induction false} OrderNamesEachKeyOnce(order: seq<string>, m: Store)
    requires IsOrder(order, m)
    ensures multiset(order) == multiset(m.Keys)
  {
    if order == [] {
      assert m.Keys == {};
    } else {
      var k, rest := order[0], order[1..];
      assert order == [k] + rest;
      forall x
        ensures x in rest <==> x in m - {k}
      {
        assert x in order <==> x == k || x in rest;
      }
      OrderNamesEachKeyOnce(rest, m - {k});
      assert m.Keys == {k} + (m - {k}).Keys;
    }
  }

  // ---------- Reading back ----------

  predicate CleanEntry(k: string, v: string) { '=' !in k && '\n' !in k && '\n' !in v }

  predicate Clean(m: Store) { forall k :: k in m ==> CleanEntry(k, m[k]) }

  lemma {:induction false} ParsedIsClean(lines: seq<string>, m: Store)
    requires Clean(m) && forall line :: line in lines ==> '\n' !in line
    ensures Clean(ParseLines(lines, m))
  {
    if lines != [] {
      var line := lines[0];
      var pos := LineLength(line, '=');
      assert '\n' !in line;
      assert pos < |line| ==> CleanEntry(line[..pos], line[pos + 1..]);
      ParsedIsClean(lines[1..], ParseLine(line, m));
    }
  }

  lemma LoadedIsClean(file: string)
    ensures Clean(Load(file))
  {
    LinesHoldNoSeparator(file, '\n');
    ParsedIsClean(Split(file, '\n'), map[]);
  }

  lemma EntryParses(k: string, v: string, m: Store)
    requires CleanEntry(k, v)
    ensures ParseLine(k + ['='] + v, m) == m[k := v]
  {
    var line := k + ['='] + v;
    LineLengthIs(line, '=', |k|);
    assert line[..|k|] == k && line[|k| + 1..] == v;
  }

  /** The keys of `order`, with their values in `m`, laid over `base`. */
  function Over(base: Store, m: Store, order: seq<string>): Store
    requires forall k :: k in order ==> k in m
    decreases |order|
  {
    if order == [] then base else Over(base[order[0] := m[order[0]]], m, order[1..])
  }

  lemma {:induction false} OverLookup(base: Store, m: Store, order: seq<string>, k: string)
    requires forall x :: x in order ==> x in m
    ensures k in Over(base, m, order) <==> k in order || k in base
    ensures k in order ==> Over(base, m, order)[k] == m[k]
    ensures k !in order && k in base ==> Over(base, m, order)[k] == base[k]
    decreases |order|
  {
    if order != [] {
      OverLookup(base[order[0] := m[order[0]]], m, order[1..], k);
    }
  }

  lemma {:induction false} PrintedParses(m: Store, order: seq<string>, base: Store)
    requires Clean(m) && forall k :: k in order ==> k in m
    ensures ParseLines(Split(Print(m, order), '\n'), base) == Over(base, m, order)
    decreases |order|
  {
    if order != [] {
      hide Split, ParseLine;
      var k, rest := order[0], Print(m, order[1..]);
      var line := k + ['='] + m[k];
      assert '\n' !in line;
      SplitFirst(line, rest, '\n');
      assert Print(m, order) == line + ['\n'] + rest;
      EntryParses(k, m[k], base);
      assert ([line] + Split(rest, '\n'))[1..] == Split(rest, '\n');
      PrintedParses(m, order[1..], base[k := m[k]]);
    }
  }

  /** Saving in any order and loading gives the map back exactly when its keys and values fit the line format. */
  lemma SavedLoadsBackIffClean(m: Store, order: seq<string>)
    requires IsOrder(order, m)
    ensures Load(Print(m, order)) == m <==> Clean(m)
  {
    LoadedIsClean(Print(m, order));
    if Clean(m) {
      PrintedParses(m, order, map[]);
      forall k
        ensures k in Over(map[], m, order) <==> k in m
        ensures k in m ==> Over(map[], m, order)[k] == m[k]
      {
        OverLookup(map[], m, order, k);
      }
      assert Over(map[], m, order) == m;
    }
  }

  /** Whatever the file holds, loading it, saving it in any order and loading again gives the same map. */
  lemma LoadSaveLoad(file: string, order: seq<string>)
    requires IsOrder(order, Load(file))
    ensures Load(Print(Load(file), order)) == Load(file)
  {
    LoadedIsClean(file);
    SavedLoadsBackIffClean(Load(file), order);
  }

  /** A key stands for the text after the first '=' of the last line that carries it. */
  lemma {:induction false} LastLineWins(lines: seq<string>, m: Store, k: string)
    ensures var v := ParseLines(lines, m);
            if exists i :: 0 <= i < |lines| && Carries(lines[i], k)
            then exists i :: 0 <= i < |lines| && Carries(lines[i], k)
                             && (forall j :: i < j < |lines| ==> !Carries(lines[j], k))
                             && k in v && v[k] == lines[i][|k| + 1..]
            else (k in v <==> k in m) && (k in m ==> v[k] == m[k])
  {
    if lines != [] {
      var m' := ParseLine(lines[0], m);
      LastLineWins(lines[1..], m', k);
      assert Carries(lines[0], k) ==> k in m' && m'[k] == lines[0][|k| + 1..];
      assert !Carries(lines[0], k) ==> (k in m' <==> k in m) && (k in m ==> m'[k] == m[k]);
      if i :| 0 <= i < |lines[1..]| && Carries(lines[1..][i], k) && (forall j :: i < j < |lines[1..]| ==> !Carries(lines[1..][j], k))
              && k in ParseLines(lines, m) && ParseLines(lines, m)[k] == lines[1..][i][|k| + 1..] {
        assert lines[i + 1] == lines[1..][i];
        assert forall j :: i + 1 < j < |lines| ==> lines[j] == lines[1..][j - 1];
      } else {
        assert forall j :: 0 < j < |lines| ==> lines[j] == lines[1..][j - 1];
      }
    }
  }

  predicate Carries(line: string, k: string) {
    LineLength(line, '=') == |k| < |line| && line[..|k|] == k
  }

  // ---------- The engines ----------

  datatype Call = Write(key: string, value: string) | Read(key: string) | Erase(key: string) | Reopen

  datatype Answer = Changed(ok: bool) | Found(value: Option<string>) | Opened

  /** The in-memory engine. */
  function StoreAfter(m: Store, c: Call): Store {
    match c
    case Write(k, v) => if k == "" then m else m[k := v]
    case Erase(k) => if k == "" then m else m - {k}
    case _ => m
  }

  function AnswerOf(m: Store, c: Call): Answer {
    match c
    case Write(k, v) => Changed(k != "")
    case Read(k) => Found(if k != "" && k in m then Some(m[k]) else None)
    case Erase(k) => Changed(k != "" && k in m)
    case Reopen => Opened
  }

  datatype Engine = Engine(store: Store, file: Option<string>)

  ghost predicate Saved(file: Option<string>, m: Store) {
    file.Some? && exists order :: IsOrder(order, m) && file.value == Print(m, order)
  }

  /** One call on the file engine; a change rewrites the file in some order of the map. */
  ghost predicate FileStep(s: Engine, c: Call, a: Answer, s': Engine) {
    match c
    case Write(k, v) =>
      if k == "" then a == Changed(false) && s' == s
      else a == Changed(true) && s'.store == s.store[k := v] && Saved(s'.file, s'.store)
    case Read(k) => a == Found(if k != "" && k in s.store then Some(s.store[k]) else None) && s' == s
    case Erase(k) =>
      if k != "" && k in s.store then a == Changed(true) && s'.store == s.store - {k} && Saved(s'.file, s'.store)
      else a == Changed(false) && s' == s
    case Reopen => a == Opened && s'.file == s.file && s'.store == LoadIfAny(s.file)
  }

  class InMemoryStorageEngine {
    var store: Store

    constructor ()
      ensures store == map[]
    {
      store := map[];
    }

    method Write(key: string, value: string) returns (ok: bool)
      modifies this
      ensures store == StoreAfter(old(store), Call.Write(key, value))
      ensures Changed(ok) == AnswerOf(old(store), Call.Write(key, value))
    {
      if key == "" { return false; }
      store := store[key := value];
      return true;
    }

    method Read(key: string) returns (value: Option<string>)
      ensures Found(value) == AnswerOf(store, Call.Read(key))
    {
      if key == "" || key !in store { return None; }
      return Some(store[key]);
    }

    method Erase(key: string) returns (ok: bool)
      modifies this
      ensures store == StoreAfter(old(store), Call.Erase(key))
      ensures Changed(ok) == AnswerOf(old(store), Call.Erase(key))
    {
      if key == "" { return false; }
      ok := key in store;
      store := store - {key};
    }
  }

  /** The engine over the text of its file, `None` while there is no file. */
  class FileBasedStorageEngine {
    var store: Store
    var file: Option<string>

    function State(): Engine
      reads this
    {
      Engine(store, file)
    }

    constructor (onDisk: Option<string>)
      ensures State() == Engine(LoadIfAny(onDisk), onDisk)
      ensures onDisk == None || onDisk == Some("") ==> store == map[]
    {
      store, file := map[], onDisk;
      new;
      LoadFromFile();
    }

    method LoadFromFile()
      modifies this`store
      ensures store == LoadIfAny(file)
    {
      store := map[];
      if file.None? { return; }
      hide LoadFrom, Load, LineEnd;
      var text, at := file.value, 0;
      LoadEnds(text, store);
      while at < |text|
        invariant at <= |text|
        invariant LoadFrom(text, at, store) == Load(text)
        decreases |text| - at
      {
        LoadStep(text, at, store);
        var n := LineEnd(text, at);
        var line := text[at..n];
        at := if n < |text| then n + 1 else n;
        var pos := LineLength(line, '=');
        if pos < |line| {
          store := store[line[..pos] := line[pos + 1..]];
        }
      }
      LoadEnds(text, store);
    }

    method SaveToFile()
      modifies this`file
      ensures Saved(file, store)
    {
      var text, left := [], store.Keys;
      ghost var order: seq<string> := [];
      while left != {}
        invariant left <= store.Keys
        invariant forall k :: k in order <==> k in store && k !in left
        invariant forall i, j :: 0 <= i < j < |order| ==> order[i] != order[j]
        invariant text == Print(store, order)
        decreases |left|
      {
        var key :| key in left;
        PrintAppend(store, order, key);
        text := text + PrintEntry(key, store[key]);
        order := order + [key];
        left := left - {key};
      }
      assert IsOrder(order, store);
      file := Some(text);
    }

    method Write(key: string, value: string) returns (ok: bool)
      modifies this
      ensures FileStep(old(State()), Call.Write(key, value), Changed(ok), State())
    {
      if key == "" { return false; }
      store := store[key := value];
      SaveToFile();
      return true;
    }

    method Read(key: string) returns (value: Option<string>)
      ensures FileStep(State(), Call.Read(key), Found(value), State())
    {
      if key == "" || key !in store { return None; }
      return Some(store[key]);
    }

    method Erase(key: string) returns (ok: bool)
      modifies this
      ensures FileStep(old(State()), Call.Erase(key), Changed(ok), State())
    {
      if key == "" { return false; }
      ok := key in store;
      store := store - {key};
      if ok { SaveToFile(); }
    }

    /** Closing the engine and opening the same file again. */
    method Reopen()
      modifies this
      ensures FileStep(old(State()), Call.Reopen, Opened, State())
    {
      LoadFromFile();
    }
  }

  lemma {:induction false} PrintAppend(m: Store, order: seq<string>, key: string)
    requires key in m && forall k :: k in order ==> k in m
    ensures Print(m, order + [key]) == Print(m, order) + PrintEntry(key, m[key])
  {
    if order != [] {
      PrintAppend(m, order[1..], key);
      assert (order + [key])[1..] == order[1..] + [key];
    }
  }

  // ---------- Histories ----------

  /** What the file holds is what the engine holds. */
  predicate InSync(s: Engine) { LoadIfAny(s.file) == s.store }

  predicate CleanCall(c: Call) { c.Write? ==> CleanEntry(c.key, c.value) }

  lemma InSyncIsClean(s: Engine)
    requires InSync(s)
    ensures Clean(s.store)
  {
    if s.file.Some? { LoadedIsClean(s.file.value); }
  }

  lemma SavedInSyncIffClean(s: Engine)
    requires Saved(s.file, s.store)
    ensures InSync(s) <==> Clean(s.store)
  {
    var order :| IsOrder(order, s.store) && s.file.value == Print(s.store, order);
    SavedLoadsBackIffClean(s.store, order);
  }

  /** A write survives a reopening exactly when its key has no '=' and neither text a newline. */
  lemma WriteLastsIffClean(s: Engine, k: string, v: string, a: Answer, s': Engine)
    requires InSync(s) && k != "" && FileStep(s, Write(k, v), a, s')
    ensures InSync(s') <==> CleanEntry(k, v)
  {
    InSyncIsClean(s);
    SavedInSyncIffClean(s');
    assert Clean(s'.store) ==> CleanEntry(k, s'.store[k]);
  }

  lemma StepRefines(s: Engine, c: Call, a: Answer, s': Engine)
    requires InSync(s) && CleanCall(c) && FileStep(s, c, a, s')
    ensures InSync(s') && s'.store == StoreAfter(s.store, c) && a == AnswerOf(s.store, c)
  {
    hide Load, IsOrder;
    InSyncIsClean(s);
    match c
    case Write(k, v) => if k != "" { WriteLastsIffClean(s, k, v, a, s'); }
    case Erase(k) =>
      if k != "" && k in s.store { SavedInSyncIffClean(s'); }
      else if k != "" { assert s.store - {k} == s.store; }
    case _ =>
  }

  function StoreAfterAll(m: Store, calls: seq<Call>): Store
    decreases |calls|
  {
    if calls == [] then m else StoreAfterAll(StoreAfter(m, calls[0]), calls[1..])
  }

  function Answers(m: Store, calls: seq<Call>): seq<Answer>
    decreases |calls|
  {
    if calls == [] then [] else [AnswerOf(m, calls[0])] + Answers(StoreAfter(m, calls[0]), calls[1..])
  }

  /** `answers` and the end state can come from making `calls` on the file engine. */
  ghost predicate FileRun(s: Engine, calls: seq<Call>, answers: seq<Answer>, s': Engine)
    decreases |calls|
  {
    if calls == [] then answers == [] && s' == s
    else |answers| == |calls|
         && exists t :: FileStep(s, calls[0], answers[0], t) && FileRun(t, calls[1..], answers[1..], s')
  }

  /**
   Whatever text the file engine was opened on, through every run of writes, reads, erasures and reopenings
   it answers as the in-memory engine does, and its file keeps parsing to its map.
   */
  lemma {:induction false} FileEngineRefinesMemory(s: Engine, calls: seq<Call>, answers: seq<Answer>, s': Engine)
    requires InSync(s) && FileRun(s, calls, answers, s')
    requires forall c :: c in calls ==> CleanCall(c)
    ensures answers == Answers(s.store, calls)
    ensures s'.store == StoreAfterAll(s.store, calls) && InSync(s')
    decreases |calls|
  {
    hide LoadIfAny, FileStep;
    if calls != [] {
      var t :| FileStep(s, calls[0], answers[0], t) && FileRun(t, calls[1..], answers[1..], s');
      StepRefines(s, calls[0], answers[0], t);
      FileEngineRefinesMemory(t, calls[1..], answers[1..], s');
      assert answers == [answers[0]] + answers[1..];
    }
  }

  /** Opened without a file, or on an empty one, the engine starts empty and in step with it. */
  lemma NoFileIsEmpty(file: Option<string>)
    requires file == None || file == Some("")
    ensures LoadIfAny(file) == map[] && InSync(Engine(map[], file))
  {
  }

  /** So from there it answers as a new in-memory engine, through every run. */
  lemma NewEngineRefinesNewMemory(file: Option<string>, calls: seq<Call>, answers: seq<Answer>, s': Engine)
    requires file == None || file == Some("")
    requires FileRun(Engine(LoadIfAny(file), file), calls, answers, s')
    requires forall c :: c in calls ==> CleanCall(c)
    ensures answers == Answers(map[], calls)
    ensures s'.store == StoreAfterAll(map[], calls) && InSync(s')
  {
    NoFileIsEmpty(file);
    FileEngineRefinesMemory(Engine(map[], file), calls, answers, s');
  }

  // ---------- What the in-memory engine answers ----------

  /** The last change to `k` among the calls: what was written, or nothing if it was erased or never written. */
  function LastWritten(calls: seq<Call>, k: string): Option<string> {
    if calls == [] then None
    else
      var last := calls[|calls| - 1];
      if last.Write? && last.key == k then Some(last.value)
      else if last.Erase? && last.key == k then None
      else LastWritten(calls[..|calls| - 1], k)
  }

  lemma {:induction false} StoreHoldsLastWritten(calls: seq<Call>, k: string)
    requires k != ""
    ensures var m := StoreAfterAll(map[], calls);
            && (k in m <==> LastWritten(calls, k).Some?)
            && (k in m ==> LastWritten(calls, k) == Some(m[k]))
            && "" !in m
    decreases |calls|
  {
    if calls != [] {
      var front, last := calls[..|calls| - 1], calls[|calls| - 1];
      StoreHoldsLastWritten(front, k);
      assert calls == front + [last];
      StoreAfterLast(map[], front, last);
      hide StoreAfterAll;
    }
  }

  lemma {:induction false} StoreAfterLast(m: Store, front: seq<Call>, last: Call)
    ensures StoreAfterAll(m, front + [last]) == StoreAfter(StoreAfterAll(m, front), last)
    decreases |front|
  {
    if front == [] {
      assert (front + [last])[1..] == [];
    } else {
      assert (front + [last])[1..] == front[1..] + [last];
      StoreAfterLast(StoreAfter(m, front[0]), front[1..], last);
    }
  }

  lemma {:induction false} AnswersAt(m: Store, calls: seq<Call>, i: nat)
    requires i < |calls|
    ensures |Answers(m, calls)| == |calls|
    ensures Answers(m, calls)[i] == AnswerOf(StoreAfterAll(m, calls[..i]), calls[i])
    decreases |calls|
  {
    if i > 0 {
      AnswersAt(StoreAfter(m, calls[0]), calls[1..], i - 1);
      assert calls[..i][1..] == calls[1..][..i - 1];
    } else if |calls| > 1 {
      AnswersAt(StoreAfter(m, calls[0]), calls[1..], 0);
    }
  }

  /** Every answer of a run, told by the calls before it: a read gives the last value written, and an empty key is refused. */
  lemma AnswersTellTheHistory(calls: seq<Call>, i: nat)
    requires i < |calls|
    ensures |Answers(map[], calls)| == |calls|
    ensures Answers(map[], calls)[i] ==
            match calls[i]
            case Write(k, v) => Changed(k != "")
            case Read(k) => Found(if k == "" then None else LastWritten(calls[..i], k))
            case Erase(k) => Changed(k != "" && LastWritten(calls[..i], k).Some?)
            case Reopen => Opened
  {
    AnswersAt(map[], calls, i);
    if !calls[i].Reopen? && calls[i].key != "" {
      StoreHoldsLastWritten(calls[..i], calls[i].key);
    }
  }
}
