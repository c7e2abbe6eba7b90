/** Sequence vocabulary shared by the components: maximal runs, concatenation and counting. */
module Sequences {

  datatype Option<+T> = None | Some(value: T)

  lemma Associative<T>(a: seq<T>, b: seq<T>, c: seq<T>)
    ensures a + (b + c) == a + b + c
  {
  }

  lemma SliceOfSlice<T>(s: seq<T>, from: nat, to: nat, a: nat, b: nat)
    requires from <= to <= |s| && a <= b <= to - from
    ensures s[from..to][a..b] == s[from + a..from + b]
  {
    var t := s[from..to];
    forall i | 0 <= i < b - a
      ensures t[a..b][i] == s[from + a..from + b][i]
    {
      assert t[a + i] == s[from + a + i];
    }
  }

  /** The length of the longest prefix of `s` all of whose elements satisfy `p`. */
  function Span<T>(s: seq<T>, p: T -> bool): (n: nat)
    ensures n <= |s|
    ensures forall i :: 0 <= i < n ==> p(s[i])
    ensures n < |s| ==> !p(s[n])
  {
    if s == [] || !p(s[0]) then 0 else 1 + Span(s[1..], p)
  }

  lemma {:induction false} SpanBound<T>(s: seq<T>, p: T -> bool, m: nat)
    requires m <= |s| && forall i :: 0 <= i < m ==> p(s[i])
    ensures m <= Span(s, p)
  {
    if m > 0 {
      SpanBound(s[1..], p, m - 1);
    }
  }

  lemma SpanStep<T>(s: seq<T>, p: T -> bool)
    requires s != [] && p(s[0])
    ensures Span(s, p) == 1 + Span(s[1..], p)
  {
  }

  lemma {:induction false} SpanIs<T>(s: seq<T>, p: T -> bool, n: nat)
    requires n <= |s| && forall i :: 0 <= i < n ==> p(s[i])
    requires n < |s| ==> !p(s[n])
    ensures Span(s, p) == n
  {
    SpanBound(s, p, n);
  }

  function Concat<T>(parts: seq<seq<T>>): seq<T> {
    if parts == [] then [] else parts[0] + Concat(parts[1..])
  }

  lemma {:induction false} ConcatAppend<T>(a: seq<seq<T>>, b: seq<seq<T>>)
    ensures Concat(a + b) == Concat(a) + Concat(b)
  {
    if a == [] {
      assert a + b == b;
    } else {
      ConcatAppend(a[1..], b);
      assert (a + b)[1..] == a[1..] + b;
      assert a[0] + Concat(a[1..]) + Concat(b) == a[0] + (Concat(a[1..]) + Concat(b));
    }
  }

  function Count<T(==)>(s: seq<T>, x: T): nat {
    if s == [] then 0 else (if s[0] == x then 1 else 0) + Count(s[1..], x)
  }

  lemma {:induction false} CountAppend<T>(a: seq<T>, b: seq<T>, x: T)
    ensures Count(a + b, x) == Count(a, x) + Count(b, x)
  {
    if a == [] {
      assert a + b == b;
    } else {
      CountAppend(a[1..], b, x);
      assert (a + b)[1..] == a[1..] + b;
    }
  }

  lemma CountSnoc<T>(s: seq<T>, from: nat, to: nat, x: T)
    requires from <= to < |s|
    ensures Count(s[from..to + 1], x) == Count(s[from..to], x) + (if s[to] == x then 1 else 0)
  {
    assert s[from..to + 1] == s[from..to] + [s[to]];
    CountAppend(s[from..to], [s[to]], x);
  }

  lemma CountOne<T>(x: T)
    ensures Count([x], x) == 1
  {
    assert [x][1..] == [];
  }

  lemma {:induction false} CountAbsent<T>(s: seq<T>, x: T)
    requires x !in s
    ensures Count(s, x) == 0
  {
    if s != [] {
      CountAbsent(s[1..], x);
    }
  }

  // ---------- Ranges of characters ----------

  lemma UpperCaseAre(c: char)
    ensures 'A' <= c <= 'Z' <==> c in "ABCDEFGHIJKLMNOPQRSTUVWXYZ"
  {
    var upper := "ABCDEFGHIJKLMNOPQRSTUVWXYZ";
    if 'A' <= c <= 'Z' { assert c == upper[c as int - 'A' as int]; }
  }

  lemma LowerCaseAre(c: char)
    ensures 'a' <= c <= 'z' <==> c in "abcdefghijklmnopqrstuvwxyz"
  {
    var lower := "abcdefghijklmnopqrstuvwxyz";
    if 'a' <= c <= 'z' { assert c == lower[c as int - 'a' as int]; }
  }

  lemma DecimalsAre(c: char)
    ensures '0' <= c <= '9' <==> c in "0123456789"
  {
    var digits := "0123456789";
    if '0' <= c <= '9' { assert c == digits[c as int - '0' as int]; }
  }
}
