/** Vocabulary every component shares: optional values, sequences and sorting. */
module Prelude {

  datatype Option<+T> = None | Some(value: T)

  datatype Result<+T, +E> = Ok(value: T) | Err(error: E)

  /** No value occurs twice. */
  predicate Distinct<T(==)>(s: seq<T>) {
    s == [] || (s[0] !in s[1..] && Distinct(s[1..]))
  }

  lemma {:induction false} DistinctPairs<T>(s: seq<T>)
    ensures Distinct(s) <==> forall i, j :: 0 <= i < j < |s| ==> s[i] != s[j]
  {
    if s != [] {
      DistinctPairs(s[1..]);
      var t := s[1..];
      forall j | 1 <= j < |s| ensures s[j] == t[j - 1] {}
      if forall i, j :: 0 <= i < j < |s| ==> s[i] != s[j] {
        forall j | 0 <= j < |t| ensures t[j] != s[0] { assert s[0] != s[j + 1]; }
        forall i, j | 0 <= i < j < |t| ensures t[i] != t[j] { assert s[i + 1] != s[j + 1]; }
      }
    }
  }

  /** A sequence is free of repeats exactly when its multiset is, so order never matters to it. */
  lemma {:induction false} DistinctByCount<T>(s: seq<T>)
    ensures Distinct(s) <==> forall x :: multiset(s)[x] <= 1
  {
    if s != [] {
      assert s == [s[0]] + s[1..];
      DistinctByCount(s[1..]);
      var m, rest := multiset(s), multiset(s[1..]);
      assert m == multiset{s[0]} + rest;
      if forall x :: m[x] <= 1 {
        assert m[s[0]] <= 1;
        forall x ensures rest[x] <= 1 { assert m[x] <= 1; }
      }
    }
  }

  lemma DistinctPermutation<T>(a: seq<T>, b: seq<T>)
    requires multiset(a) == multiset(b)
    ensures Distinct(a) <==> Distinct(b)
  {
    DistinctByCount(a);
    DistinctByCount(b);
  }

  predicate Apart<T(==)>(a: seq<T>, b: seq<T>) {
    a == [] || (a[0] !in b && Apart(a[1..], b))
  }

  lemma {:induction false} ApartMembers<T>(a: seq<T>, b: seq<T>)
    ensures Apart(a, b) <==> forall x :: x in a ==> x !in b
  {
    if a != [] {
      ApartMembers(a[1..], b);
      assert forall x :: x in a <==> x == a[0] || x in a[1..];
    }
  }

  lemma {:induction false} DistinctConcat<T>(a: seq<T>, b: seq<T>)
    ensures Distinct(a + b) <==> Distinct(a) && Distinct(b) && Apart(a, b)
  {
    if a == [] {
      assert a + b == b;
    } else {
      assert (a + b)[1..] == a[1..] + b;
      DistinctConcat(a[1..], b);
    }
  }

  function Map<A, B>(f: A -> B, xs: seq<A>): (r: seq<B>)
    ensures |r| == |xs|
    ensures forall i :: 0 <= i < |xs| ==> r[i] == f(xs[i])
  {
    seq(|xs|, i requires 0 <= i < |xs| => f(xs[i]))
  }

  lemma MapCons<A, B>(f: A -> B, xs: seq<A>)
    requires xs != []
    ensures Map(f, xs) == [f(xs[0])] + Map(f, xs[1..])
  {}

  function FlatMap<A, B>(f: A -> seq<B>, xs: seq<A>): seq<B> {
    if xs == [] then [] else f(xs[0]) + FlatMap(f, xs[1..])
  }

  function Filter<A>(f: A -> bool, xs: seq<A>): (r: seq<A>)
    ensures forall x :: x in r ==> x in xs && f(x)
    ensures forall x :: x in xs && f(x) ==> x in r
  {
    if xs == [] then []
    else
      assert xs == [xs[0]] + xs[1..];
      if f(xs[0]) then [xs[0]] + Filter(f, xs[1..]) else Filter(f, xs[1..])
  }

  /** A loop that appends one element's image at a time computes `FlatMap`. */
  lemma {:induction false} FlatMapSnoc<A, B>(f: A -> seq<B>, xs: seq<A>, x: A)
    ensures FlatMap(f, xs + [x]) == FlatMap(f, xs) + f(x)
  {
    if xs == [] {
      assert [x][1..] == [];
      assert xs + [x] == [x];
    } else {
      assert (xs + [x])[1..] == xs[1..] + [x];
      FlatMapSnoc(f, xs[1..], x);
    }
  }

  lemma {:induction false} FlatMapMember<A, B>(f: A -> seq<B>, xs: seq<A>, y: B)
    ensures y in FlatMap(f, xs) <==> exists i :: 0 <= i < |xs| && y in f(xs[i])
  {
    if xs != [] {
      FlatMapMember(f, xs[1..], y);
      if i :| 0 <= i < |xs[1..]| && y in f(xs[1..][i]) {
        assert y in f(xs[i + 1]);
      }
      forall i | 1 <= i < |xs| ensures xs[1..][i - 1] == xs[i] {}
    }
  }

  lemma {:induction false} FlatMapSplit<A, B>(f: A -> seq<B>, g: A -> seq<B>, h: A -> seq<B>, xs: seq<A>)
    requires forall x :: x in xs ==> multiset(h(x)) == multiset(f(x)) + multiset(g(x))
    ensures multiset(FlatMap(h, xs)) == multiset(FlatMap(f, xs)) + multiset(FlatMap(g, xs))
  {
    if xs != [] {
      FlatMapSplit(f, g, h, xs[1..]);
    }
  }

  lemma {:induction false} FlatMapPermuted<A, B>(f: A -> seq<B>, g: A -> seq<B>, xs: seq<A>)
    requires forall x :: x in xs ==> multiset(f(x)) == multiset(g(x))
    ensures multiset(FlatMap(f, xs)) == multiset(FlatMap(g, xs))
  {
    if xs != [] {
      FlatMapPermuted(f, g, xs[1..]);
    }
  }

  lemma {:induction false} FilterConcat<A>(f: A -> bool, a: seq<A>, b: seq<A>)
    ensures Filter(f, a + b) == Filter(f, a) + Filter(f, b)
  {
    if a == [] {
      assert a + b == b;
    } else {
      assert (a + b)[1..] == a[1..] + b;
      FilterConcat(f, a[1..], b);
    }
  }

  lemma {:induction false} FilterAll<A>(f: A -> bool, xs: seq<A>)
    requires forall x :: x in xs ==> f(x)
    ensures Filter(f, xs) == xs
  {
    if xs != [] { FilterAll(f, xs[1..]); }
  }

  lemma {:induction false} FilterNone<A>(f: A -> bool, xs: seq<A>)
    requires forall x :: x in xs ==> !f(x)
    ensures Filter(f, xs) == []
  {
    if xs != [] { FilterNone(f, xs[1..]); }
  }
}
