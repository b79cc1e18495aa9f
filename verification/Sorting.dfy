/** A stable sort by a comparison, and what any sorting must then agree on. */
module Sorting {
  import opened Prelude

  type Comparison<!T> = (T, T) -> bool

  predicate Below<T>(x: T, s: seq<T>, leq: Comparison<T>) {
    forall i :: 0 <= i < |s| ==> leq(x, s[i])
  }

  predicate Sorted<T>(s: seq<T>, leq: Comparison<T>) {
    s == [] || (Below(s[0], s[1..], leq) && Sorted(s[1..], leq))
  }

  /** On these values the comparison is total and transitive. */
  ghost predicate Orders<T>(s: seq<T>, leq: Comparison<T>) {
    && (forall x, y {:trigger leq(x, y)} :: x in s && y in s ==> leq(x, y) || leq(y, x))
    && (forall x, y, z {:trigger leq(x, y), leq(y, z)} ::
          x in s && y in s && z in s && leq(x, y) && leq(y, z) ==> leq(x, z))
  }

  /** Before everything that is not below it. */
  function Insert<T>(x: T, s: seq<T>, leq: Comparison<T>): seq<T> {
    if s == [] || leq(x, s[0]) then [x] + s else [s[0]] + Insert(x, s[1..], leq)
  }

  function Sort<T>(s: seq<T>, leq: Comparison<T>): seq<T> {
    if s == [] then [] else Insert(s[0], Sort(s[1..], leq), leq)
  }

  lemma {:induction false} InsertPermutes<T>(x: T, s: seq<T>, leq: Comparison<T>)
    ensures multiset(Insert(x, s, leq)) == multiset([x] + s)
  {
    if s != [] && !leq(x, s[0]) {
      InsertPermutes(x, s[1..], leq);
      assert s == [s[0]] + s[1..];
    }
  }

  lemma {:induction false} SortPermutes<T>(s: seq<T>, leq: Comparison<T>)
    ensures multiset(Sort(s, leq)) == multiset(s)
  {
    if s != [] {
      SortPermutes(s[1..], leq);
      InsertPermutes(s[0], Sort(s[1..], leq), leq);
      assert s == [s[0]] + s[1..];
    }
  }

  lemma SameMembers<T>(a: seq<T>, b: seq<T>)
    requires multiset(a) == multiset(b)
    ensures |a| == |b| && forall x :: x in a <==> x in b
  {
    assert |a| == |multiset(a)| && |b| == |multiset(b)|;
    forall x ensures x in a <==> x in b { assert x in multiset(a) <==> x in multiset(b); }
  }

  lemma BelowAll<T>(x: T, s: seq<T>, t: seq<T>, leq: Comparison<T>)
    requires Below(x, s, leq) && multiset(s) == multiset(t)
    ensures Below(x, t, leq)
  {
    SameMembers(s, t);
    forall i | 0 <= i < |t| ensures leq(x, t[i]) { assert t[i] in t; }
  }

  lemma {:induction false} InsertSorts<T>(x: T, s: seq<T>, all: seq<T>, leq: Comparison<T>)
    requires Orders(all, leq) && x in all && (forall y :: y in s ==> y in all)
    requires Sorted(s, leq)
    ensures Sorted(Insert(x, s, leq), leq)
  {
    if s != [] && !leq(x, s[0]) {
      InsertSorts(x, s[1..], all, leq);
      InsertPermutes(x, s[1..], leq);
      assert s[0] in s && leq(s[0], x);
      BelowAll(s[0], [x] + s[1..], Insert(x, s[1..], leq), leq);
    } else if s != [] {
      assert s[0] in s;
      forall i | 0 <= i < |s| ensures leq(x, s[i]) {
        assert s[i] in s && (i == 0 || s[i] == s[1..][i - 1]);
      }
    }
  }

  lemma WithinToo<T>(s: seq<T>, t: seq<T>, all: seq<T>)
    requires multiset(s) == multiset(t) && forall y :: y in s ==> y in all
    ensures forall y :: y in t ==> y in all
  {
    SameMembers(s, t);
  }

  lemma {:induction false} SortSortsWithin<T>(s: seq<T>, all: seq<T>, leq: Comparison<T>)
    requires Orders(all, leq) && forall y :: y in s ==> y in all
    ensures Sorted(Sort(s, leq), leq)
  {
    if s != [] {
      var rest := Sort(s[1..], leq);
      forall y | y in s[1..] ensures y in all { assert y in s; }
      SortSortsWithin(s[1..], all, leq);
      SortPermutes(s[1..], leq);
      WithinToo(s[1..], rest, all);
      assert s[0] in s;
      InsertSorts(s[0], rest, all, leq);
    }
  }

  lemma SortSorts<T>(s: seq<T>, leq: Comparison<T>)
    requires Orders(s, leq)
    ensures Sorted(Sort(s, leq), leq)
  {
    SortSortsWithin(s, s, leq);
  }

  lemma {:induction false} SortedPair<T>(s: seq<T>, i: nat, j: nat, leq: Comparison<T>)
    requires Sorted(s, leq) && i < j < |s|
    ensures leq(s[i], s[j])
  {
    if i == 0 {
      assert s[j] == s[1..][j - 1];
    } else {
      SortedPair(s[1..], i - 1, j - 1, leq);
    }
  }

  /** The last of any sorting of `s` is not below anything in it. */
  lemma LastIsGreatest<T>(s: seq<T>, out: seq<T>, leq: Comparison<T>)
    requires s != [] && Orders(s, leq) && multiset(out) == multiset(s) && Sorted(out, leq)
    ensures out != [] && out[|out| - 1] in s
    ensures forall x :: x in s ==> leq(x, out[|out| - 1])
  {
    SameMembers(s, out);
    var last := out[|out| - 1];
    assert last in out;
    forall x | x in s ensures leq(x, last) {
      var i :| 0 <= i < |out| && out[i] == x;
      if i < |out| - 1 { SortedPair(out, i, |out| - 1, leq); }
    }
  }
}
