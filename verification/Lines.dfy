/** Splitting at a separator the way bufio.ScanLines and std::getline do: a last line needs no separator, an empty one is no line. */
module Lines {
  /** The length of the first line. */
  function LineLength<T(==)>(s: seq<T>, end: T): (n: nat)
    ensures n <= |s|
    ensures forall i :: 0 <= i < n ==> s[i] != end
    ensures n < |s| ==> s[n] == end
  {
    if s == [] || s[0] == end then 0 else 1 + LineLength(s[1..], end)
  }

  lemma {:induction false} LineLengthIs<T>(s: seq<T>, end: T, n: nat)
    requires n <= |s| && forall i :: 0 <= i < n ==> s[i] != end
    requires n < |s| ==> s[n] == end
    ensures LineLength(s, end) == n
  {
    if n > 0 {
      LineLengthIs(s[1..], end, n - 1);
    }
  }

  function Split<T(==)>(s: seq<T>, end: T): seq<seq<T>> {
    if s == [] then []
    else
      var n := LineLength(s, end);
      if n == |s| then [s] else [s[..n]] + Split(s[n + 1..], end)
  }

  lemma SplitFirst<T>(line: seq<T>, rest: seq<T>, end: T)
    requires end !in line
    ensures Split(line + [end] + rest, end) == [line] + Split(rest, end)
  {
    var s := line + [end] + rest;
    LineLengthIs(s, end, |line|);
    assert s[..|line|] == line && s[|line| + 1..] == rest;
  }

  lemma SplitLast<T>(line: seq<T>, end: T)
    requires end !in line
    ensures Split(line, end) == if line == [] then [] else [line]
  {
    LineLengthIs(line, end, |line|);
  }

  /** The line at a position, and the lines after it. */
  lemma SplitStep<T>(s: seq<T>, pos: nat, end: T)
    requires pos < |s|
    ensures var n := LineLength(s[pos..], end);
            var next := if pos + n < |s| then pos + n + 1 else pos + n;
            Split(s[pos..], end) == [s[pos..pos + n]] + Split(s[next..], end)
  {
    var t := s[pos..];
    var n := LineLength(t, end);
    assert t[..n] == s[pos..pos + n];
    if pos + n < |s| {
      assert t[n + 1..] == s[pos + n + 1..];
    } else {
      assert s[pos + n..] == [];
      assert t == s[pos..pos + n];
    }
  }

  lemma {:induction false} LinesHoldNoSeparator<T>(s: seq<T>, end: T)
    ensures forall line :: line in Split(s, end) ==> end !in line
  {
    if s != [] {
      var n := LineLength(s, end);
      if n < |s| {
        LinesHoldNoSeparator(s[n + 1..], end);
      }
    }
  }
}
