/**
 * Snapshots and which of them stay (packages/home/src/btrfs.ts): names are UTC times, the names
 * are sorted as text, and all but the last `keep` are deleted in turn.
 */
module Retention {
  import opened Prelude
  import opened Text
  import opened Sorting

  // ----- names

  datatype Time = Time(year: nat, month: nat, day: nat, hour: nat, minute: nat, second: nat)

  /** What `date` can print in its places; a leap second is a sixty. */
  predicate Printable(t: Time) {
    t.year <= 9999 && t.month <= 12 && t.day <= 31 && t.hour <= 23 && t.minute <= 59 && t.second <= 60
  }

  predicate Earlier(a: Time, b: Time) {
    a.year < b.year || (a.year == b.year &&
      (a.month < b.month || (a.month == b.month &&
        (a.day < b.day || (a.day == b.day &&
          (a.hour < b.hour || (a.hour == b.hour &&
            (a.minute < b.minute || (a.minute == b.minute && a.second < b.second)))))))))
  }

  function Two(n: nat): string
    requires n < 100
  {
    ['0' + (n / 10) as char, '0' + (n % 10) as char]
  }

  function Four(n: nat): string
    requires n < 10000
  {
    Two(n / 100) + Two(n % 100)
  }

  /** `%Y-%m-%dT%H%M%SZ` */
  function Name(t: Time): string
    requires Printable(t)
  {
    Four(t.year) + ("-" + (Two(t.month) + ("-" + (Two(t.day) + ("T" +
      (Two(t.hour) + (Two(t.minute) + (Two(t.second) + "Z"))))))))
  }

  lemma {:induction false} LexJoin(p: string, q: string, x: string, y: string)
    requires |p| == |q|
    ensures LexLess(p + x, q + y) <==> LexLess(p, q) || (p == q && LexLess(x, y))
  {
    if p == [] {
      assert p + x == x && q + y == y;
    } else {
      LexJoin(p[1..], q[1..], x, y);
      assert (p + x)[1..] == p[1..] + x && (q + y)[1..] == q[1..] + y;
      assert p == q <==> p[0] == q[0] && p[1..] == q[1..];
    }
  }

  lemma TwoInOrder(m: nat, n: nat, x: string, y: string)
    requires m < 100 && n < 100
    ensures LexLess(Two(m) + x, Two(n) + y) <==> m < n || (m == n && LexLess(x, y))
  {
    LexJoin(Two(m), Two(n), x, y);
    assert Two(m)[1..] == [Two(m)[1]] && Two(n)[1..] == [Two(n)[1]];
  }

  lemma FourInOrder(m: nat, n: nat, x: string, y: string)
    requires m < 10000 && n < 10000
    ensures LexLess(Four(m) + x, Four(n) + y) <==> m < n || (m == n && LexLess(x, y))
  {
    TwoInOrder(m / 100, n / 100, Two(m % 100) + x, Two(n % 100) + y);
    TwoInOrder(m % 100, n % 100, x, y);
    assert Four(m) + x == Two(m / 100) + (Two(m % 100) + x) && Four(n) + y == Two(n / 100) + (Two(n % 100) + y);
  }

  lemma MarkInOrder(c: char, x: string, y: string)
    ensures LexLess([c] + x, [c] + y) <==> LexLess(x, y)
  {
    LexJoin([c], [c], x, y);
  }

  function ClockText(t: Time): string
    requires Printable(t)
  {
    Two(t.hour) + (Two(t.minute) + (Two(t.second) + "Z"))
  }

  lemma ClockInOrder(a: Time, b: Time)
    requires Printable(a) && Printable(b)
    ensures LexLess(ClockText(a), ClockText(b)) <==>
      a.hour < b.hour || (a.hour == b.hour && (a.minute < b.minute || (a.minute == b.minute && a.second < b.second)))
  {
    TwoInOrder(a.hour, b.hour, Two(a.minute) + (Two(a.second) + "Z"), Two(b.minute) + (Two(b.second) + "Z"));
    TwoInOrder(a.minute, b.minute, Two(a.second) + "Z", Two(b.second) + "Z");
    TwoInOrder(a.second, b.second, "Z", "Z");
    LexNot("Z");
  }

  lemma LexNot(s: string)
    ensures !LexLess(s, s)
  {
    if LexLess(s, s) { LexAsymmetric(s, s); }
  }

  /** The order of the names as text is the order of the times. */
  lemma NamesInOrder(a: Time, b: Time)
    requires Printable(a) && Printable(b)
    ensures LexLess(Name(a), Name(b)) <==> Earlier(a, b)
    ensures Name(a) == Name(b) <==> a == b
  {
    NamesOneWay(a, b);
    NamesOneWay(b, a);
    LexNot(Name(a));
  }

  lemma NamesOneWay(a: Time, b: Time)
    requires Printable(a) && Printable(b)
    ensures LexLess(Name(a), Name(b)) <==> Earlier(a, b)
  {
    var da, db := Two(a.day) + ("T" + ClockText(a)), Two(b.day) + ("T" + ClockText(b));
    var ma, mb := Two(a.month) + ("-" + da), Two(b.month) + ("-" + db);
    FourInOrder(a.year, b.year, "-" + ma, "-" + mb);
    MarkInOrder('-', ma, mb);
    TwoInOrder(a.month, b.month, "-" + da, "-" + db);
    MarkInOrder('-', da, db);
    TwoInOrder(a.day, b.day, "T" + ClockText(a), "T" + ClockText(b));
    MarkInOrder('T', ClockText(a), ClockText(b));
    ClockInOrder(a, b);
  }

  // ----- what a run deletes

  function Newer(names: set<string>, n: string): set<string> {
    set m | m in names && LexLess(n, m)
  }

  /** Not among the last `keep`. */
  predicate IsDoomed(names: set<string>, keep: nat, n: string) {
    n in names && |Newer(names, n)| >= keep
  }

  function Doomed(names: set<string>, keep: nat): set<string> {
    set n | n in names && IsDoomed(names, keep, n)
  }

  /** A name that is no subvolume stops the deletions at it. */
  predicate Blocked(names: set<string>, strays: set<string>, keep: nat, n: string) {
    exists x :: x in strays && IsDoomed(names, keep, x) && !LexLess(n, x)
  }

  function After(names: set<string>, strays: set<string>, keep: nat): set<string> {
    set n | n in names && (!IsDoomed(names, keep, n) || Blocked(names, strays, keep, n))
  }

  predicate Completes(names: set<string>, strays: set<string>, keep: nat) {
    forall x :: x in strays ==> !IsDoomed(names, keep, x)
  }

  function NotAfter(): Comparison<string> {
    (a: string, b: string) => !LexLess(b, a)
  }

  lemma NamesOrdered(s: seq<string>)
    ensures Orders(s, NotAfter())
  {
    forall x, y | x in s && y in s ensures NotAfter()(x, y) || NotAfter()(y, x) {
      if LexLess(x, y) { LexAsymmetric(x, y); }
    }
    forall x, y, z | x in s && y in s && z in s && NotAfter()(x, y) && NotAfter()(y, z) ensures NotAfter()(x, z) {
      LexTotal(x, y);
      LexTotal(y, z);
      if LexLess(z, x) {
        if LexLess(x, y) { LexTransitive(z, x, y); }
      }
    }
  }

  function Members(s: seq<string>): set<string> { set n | n in s }

  lemma {:induction false} DistinctSize(s: seq<string>)
    requires Distinct(s)
    ensures |Members(s)| == |s|
  {
    if s != [] {
      DistinctSize(s[1..]);
      assert Members(s) == {s[0]} + Members(s[1..]);
    }
  }

  /** In sorted order the newer names are the ones that follow. */
  lemma NewerFollow(s: seq<string>, i: nat)
    requires Distinct(s) && Sorted(s, NotAfter()) && i < |s|
    ensures Newer(Members(s), s[i]) == Members(s[i + 1..])
    ensures |Newer(Members(s), s[i])| == |s| - i - 1
  {
    DistinctPairs(s);
    forall j | 0 <= j < |s| ensures s[j] in Newer(Members(s), s[i]) <==> i < j {
      if i < j {
        SortedPair(s, i, j, NotAfter());
        LexTotal(s[i], s[j]);
      } else if j < i {
        SortedPair(s, j, i, NotAfter());
      } else {
        LexNot(s[i]);
      }
    }
    forall n ensures n in Newer(Members(s), s[i]) <==> n in Members(s[i + 1..]) {
      if n in Newer(Members(s), s[i]) {
        var j :| 0 <= j < |s| && s[j] == n;
        assert s[i + 1..][j - i - 1] == n;
      }
      if n in s[i + 1..] {
        var j :| 0 <= j < |s[i + 1..]| && s[i + 1..][j] == n;
        assert s[i + 1 + j] == n;
      }
    }
    DistinctTail(s, i + 1);
    DistinctSize(s[i + 1..]);
  }

  lemma {:induction false} DistinctTail(s: seq<string>, i: nat)
    requires Distinct(s) && i <= |s|
    ensures Distinct(s[i..])
  {
    if i > 0 {
      DistinctTail(s[1..], i - 1);
      assert s[1..][i - 1..] == s[i..];
    }
  }

  lemma DoomedPrefix(s: seq<string>, keep: nat, i: nat)
    requires Distinct(s) && Sorted(s, NotAfter()) && i < |s|
    ensures IsDoomed(Members(s), keep, s[i]) <==> i < |s| - keep
  {
    NewerFollow(s, i);
  }

  function DoomedCount(s: seq<string>, keep: nat): nat {
    if |s| <= keep then 0 else |s| - keep
  }

  lemma CutAt(s: seq<string>, strays: set<string>, keep: nat, i: nat)
    requires Distinct(s) && Sorted(s, NotAfter()) && i <= DoomedCount(s, keep)
    requires forall j :: 0 <= j < i ==> s[j] !in strays
    requires i < DoomedCount(s, keep) ==> s[i] in strays
    ensures After(Members(s), strays, keep) == Members(s[i..])
    ensures Completes(Members(s), strays, keep) <==> i == DoomedCount(s, keep)
  {
    var all := Members(s);
    forall x | x in all ensures exists k :: 0 <= k < |s| && s[k] == x {}
    forall j | 0 <= j < |s| ensures s[j] in After(all, strays, keep) <==> i <= j {
      DoomedPrefix(s, keep, j);
      if i <= j < DoomedCount(s, keep) {
        DoomedPrefix(s, keep, i);
        LexNot(s[i]);
        if i < j { SortedPair(s, i, j, NotAfter()); }
        assert s[i] in strays && IsDoomed(all, keep, s[i]) && !LexLess(s[j], s[i]);
      }
      if j < i && Blocked(all, strays, keep, s[j]) {
        var x :| x in strays && IsDoomed(all, keep, x) && !LexLess(s[j], x);
        var k :| 0 <= k < |s| && s[k] == x;
        if j < k { SortedPair(s, j, k, NotAfter()); LexTotal(x, s[j]); DistinctPairs(s); }
        assert false;
      }
    }
    KeepsTail(s, After(all, strays, keep), i);
    if i < DoomedCount(s, keep) {
      DoomedPrefix(s, keep, i);
    } else {
      forall x | x in strays ensures !IsDoomed(all, keep, x) {
        if x in all {
          var k :| 0 <= k < |s| && s[k] == x;
          DoomedPrefix(s, keep, k);
        }
      }
    }
  }

  lemma KeepsTail(s: seq<string>, kept: set<string>, i: nat)
    requires i <= |s| && kept <= Members(s)
    requires forall j :: 0 <= j < |s| ==> (s[j] in kept <==> i <= j)
    ensures kept == Members(s[i..])
  {
    forall n ensures n in kept <==> n in Members(s[i..]) {
      if n in kept {
        var j :| 0 <= j < |s| && s[j] == n;
        assert s[i..][j - i] == n;
      }
      if n in s[i..] {
        var j :| 0 <= j < |s[i..]| && s[i..][j] == n;
        assert s[i + j] == n;
      }
    }
  }

  /** The snapshot directory: what it holds, and which of that is no subvolume. */
  class Directory {
    var names: set<string>
    const strays: set<string>

    constructor (names: set<string>, strays: set<string>)
      ensures this.names == names && this.strays == strays
    {
      this.names, this.strays := names, strays;
    }

    /** `ls`, in no order that is relied on. */
    method List() returns (listing: seq<string>)
      ensures Distinct(listing) && Members(listing) == names
    {
      listing := [];
      var left := names;
      while left != {}
        invariant left <= names && Distinct(listing) && Members(listing) == names - left
      {
        var n :| n in left;
        DistinctConcat(listing, [n]);
        ApartMembers(listing, [n]);
        assert Members(listing + [n]) == Members(listing) + {n};
        listing, left := listing + [n], left - {n};
      }
    }

    /** One run. It fails when it is told to delete what is no subvolume. */
    method Run(t: Time, keep: nat) returns (ok: bool)
      requires Printable(t) && Name(t) !in names
      modifies this`names
      ensures names == After(old(names) + {Name(t)}, strays, keep)
      ensures ok <==> Completes(old(names) + {Name(t)}, strays, keep)
    {
      names := names + {Name(t)};
      ghost var all := names;
      var listing := List();
      var sorted := Sort(listing, NotAfter());
      SortedListing(listing);
      assert Members(sorted) == all;
      var doomed := sorted[..DoomedCount(sorted, keep)];
      for i := 0 to |doomed|
        invariant forall j :: 0 <= j < i ==> sorted[j] !in strays
        invariant names == Members(sorted[i..])
      {
        if doomed[i] in strays {
          CutAt(sorted, strays, keep, i);
          return false;
        }
        TailShrinks(sorted, i);
        names := names - {doomed[i]};
      }
      CutAt(sorted, strays, keep, |doomed|);
      ok := true;
    }
  }

  lemma SortedListing(s: seq<string>)
    requires Distinct(s)
    ensures var t := Sort(s, NotAfter());
            Distinct(t) && Sorted(t, NotAfter()) && Members(t) == Members(s) && t[..0] == [] && t[0..] == t
  {
    var t := Sort(s, NotAfter());
    SortPermutes(s, NotAfter());
    SameMembers(s, t);
    DistinctPermutation(s, t);
    NamesOrdered(s);
    SortSorts(s, NotAfter());
  }

  lemma TailShrinks(s: seq<string>, i: nat)
    requires Distinct(s) && i < |s|
    ensures Members(s[i..]) - {s[i]} == Members(s[i + 1..])
  {
    DistinctTail(s, i);
    assert s[i..] == [s[i]] + s[i + 1..];
    assert s[i..][0] == s[i] && s[i..][1..] == s[i + 1..];
  }

  // ----- the policy

  /** The newest `keep` names: those with fewer than `keep` newer ones. */
  function Top(names: set<string>, keep: nat): set<string> {
    names - Doomed(names, keep)
  }

  /** A run leaves the newest `keep` exactly when it completes, that is when no stray is too old. */
  lemma PolicyMetIffCompletes(names: set<string>, strays: set<string>, keep: nat)
    ensures After(names, strays, keep) == Top(names, keep) <==> Completes(names, strays, keep)
  {
    if Completes(names, strays, keep) {
      forall n ensures !Blocked(names, strays, keep, n) {}
    } else {
      var x :| x in strays && IsDoomed(names, keep, x);
      LexNot(x);
      assert Blocked(names, strays, keep, x);
      assert x in After(names, strays, keep) && x !in Top(names, keep);
    }
  }

  lemma {:induction false} SomeListing(names: set<string>) returns (s: seq<string>)
    ensures Distinct(s) && Members(s) == names
  {
    s := [];
    if names != {} {
      var n :| n in names;
      s := SomeListing(names - {n});
      assert ([n] + s)[1..] == s;
      assert n !in s by { assert n !in Members(s); }
      assert Members([n] + s) == {n} + Members(s);
      s := [n] + s;
    }
  }

  lemma TopSize(names: set<string>, keep: nat)
    ensures |Top(names, keep)| == if |names| < keep then |names| else keep
  {
    var s := SomeListing(names);
    SortedListing(s);
    var t := Sort(s, NotAfter());
    PolicyMetIffCompletes(names, {}, keep);
    CutAt(t, {}, keep, DoomedCount(t, keep));
    DistinctSize(t);
    DistinctTail(t, DoomedCount(t, keep));
    DistinctSize(t[DoomedCount(t, keep)..]);
  }

  lemma NewerShrinks(names: set<string>, m: string, n: string)
    requires LexLess(m, n)
    ensures Newer(names, n) <= Newer(names, m) && |Newer(names, n)| <= |Newer(names, m)|
  {
    forall x | x in Newer(names, n) ensures x in Newer(names, m) { LexTransitive(m, n, x); }
    SubsetSize(Newer(names, n), Newer(names, m));
  }

  lemma {:induction false} SubsetSize<T>(a: set<T>, b: set<T>)
    requires a <= b
    ensures |a| <= |b|
  {
    if a != {} {
      var x :| x in a;
      SubsetSize(a - {x}, b - {x});
    }
  }

  lemma NewerOfMore(names: set<string>, more: set<string>, m: string)
    requires names <= more
    ensures |Newer(names, m)| <= |Newer(more, m)|
  {
    SubsetSize(Newer(names, m), Newer(more, m));
  }

  /** Everything that stays is newer than anything that goes. */
  lemma TopIsAbove(names: set<string>, keep: nat, m: string, n: string)
    requires m in names && IsDoomed(names, keep, m) && n in Top(names, keep)
    ensures LexLess(m, n)
  {
    LexTotal(m, n);
    if LexLess(n, m) { NewerShrinks(names, n, m); }
  }

  /** Deleting first and adding later comes to the same as adding all and deleting once. */
  lemma TopOfTop(names: set<string>, more: set<string>, keep: nat)
    ensures Top(Top(names, keep) + more, keep) == Top(names + more, keep)
  {
    var some, all := Top(names, keep) + more, names + more;
    forall m ensures m in Top(some, keep) <==> m in Top(all, keep) {
      if m in Top(all, keep) {
        NewerOfMore(some, all, m);
        if m in names { NewerOfMore(names, all, m); }
      }
      if m in Top(some, keep) {
        NotDoomedSooner(names, more, keep, m);
      }
    }
  }

  lemma NotDoomedSooner(names: set<string>, more: set<string>, keep: nat, m: string)
    requires m in Top(Top(names, keep) + more, keep)
    ensures m in Top(names + more, keep)
  {
    var some, all := Top(names, keep) + more, names + more;
    if Newer(all, m) <= some {
      assert Newer(all, m) == Newer(some, m);
    } else {
      var x :| x in Newer(all, m) && x !in some;
      forall y | y in Top(names, keep) ensures y in Newer(some, m) {
        TopIsAbove(names, keep, x, y);
        LexTransitive(m, x, y);
      }
      SubsetSize(Top(names, keep), Newer(some, m));
      TopSize(names, keep);
      NewerOfMore(names, names, x);
      SubsetSize(Newer(names, x), names);
      assert false;
    }
  }

  // ----- any number of runs

  function Runs(names: set<string>, strays: set<string>, taken: seq<string>, keep: nat): set<string>
    decreases |taken|
  {
    if taken == [] then names
    else Runs(After(names + {taken[0]}, strays, keep), strays, taken[1..], keep)
  }

  lemma CompletesSooner(some: set<string>, all: set<string>, strays: set<string>, keep: nat)
    requires some <= all && Completes(all, strays, keep)
    ensures Completes(some, strays, keep)
  {
    forall x | x in strays ensures !IsDoomed(some, keep, x) { NewerOfMore(some, all, x); }
  }

  lemma {:induction false} RunsComplete(names: set<string>, strays: set<string>, taken: seq<string>, keep: nat)
    requires taken != [] && Completes(names + Members(taken), strays, keep)
    ensures Runs(names, strays, taken, keep) == Top(names + Members(taken), keep)
    decreases |taken|
  {
    var found, rest := names + {taken[0]}, Members(taken[1..]);
    var next := After(found, strays, keep);
    assert names + Members(taken) == found + rest;
    CompletesSooner(found, found + rest, strays, keep);
    PolicyMetIffCompletes(found, strays, keep);
    if |taken| == 1 {
      assert taken[1..] == [] && found + rest == found;
      assert Runs(next, strays, [], keep) == next;
    } else {
      CompletesSooner(next + rest, found + rest, strays, keep);
      RunsComplete(next, strays, taken[1..], keep);
      TopOfTop(found, rest, keep);
    }
  }

  /** A stray is never deleted. */
  lemma {:induction false} StrayStays(names: set<string>, strays: set<string>, taken: seq<string>, keep: nat, x: string)
    requires x in strays && x in names + Members(taken)
    ensures x in Runs(names, strays, taken, keep)
    decreases |taken|
  {
    if taken != [] {
      var found := names + {taken[0]};
      LexNot(x);
      assert IsDoomed(found, keep, x) ==> Blocked(found, strays, keep, x);
      assert x in found ==> x in After(found, strays, keep);
      assert Members(taken) == {taken[0]} + Members(taken[1..]);
      StrayStays(After(found, strays, keep), strays, taken[1..], keep, x);
    }
  }

  /**
   * However many runs there were, what is left is the newest `keep` of all there ever was exactly
   * when no stray is too old for that.
   */
  lemma RunsKeepNewest(names: set<string>, strays: set<string>, taken: seq<string>, keep: nat)
    requires taken != []
    ensures var all := names + Members(taken);
            Runs(names, strays, taken, keep) == Top(all, keep) <==> Completes(all, strays, keep)
  {
    var all := names + Members(taken);
    if Completes(all, strays, keep) {
      RunsComplete(names, strays, taken, keep);
    } else {
      var x :| x in strays && IsDoomed(all, keep, x);
      StrayStays(names, strays, taken, keep, x);
      assert x !in Top(all, keep);
    }
  }

  /** The snapshot of the last run is there afterwards if fewer than `keep` of all names are newer. */
  lemma {:induction false} LastStays(names: set<string>, strays: set<string>, taken: seq<string>, keep: nat)
    requires taken != [] && |Newer(names + Members(taken), taken[|taken| - 1])| < keep
    ensures taken[|taken| - 1] in Runs(names, strays, taken, keep)
    decreases |taken|
  {
    var found, rest, last := names + {taken[0]}, Members(taken[1..]), taken[|taken| - 1];
    var next := After(found, strays, keep);
    assert names + Members(taken) == found + rest;
    if |taken| == 1 {
      assert taken[1..] == [] && Runs(next, strays, [], keep) == next;
      NewerOfMore(found, found + rest, last);
    } else {
      NewerOfMore(next + rest, found + rest, last);
      assert taken[1..][|taken| - 2] == last;
      LastStays(next, strays, taken[1..], keep);
    }
  }

  // ----- in terms of time

  function NameOf(t: Time): string { if Printable(t) then Name(t) else "" }

  function Image(f: Time -> string, times: set<Time>): set<string> { set t | t in times :: f(t) }

  function Names(times: set<Time>): set<string> { Image(NameOf, times) }

  function Later(times: set<Time>, t: Time): set<Time> {
    set u | u in times && Earlier(t, u)
  }

  predicate AllPrintable(times: set<Time>) { forall t :: t in times ==> Printable(t) }

  lemma {:induction false} ImageSize(f: Time -> string, times: set<Time>)
    requires forall t, u :: t in times && u in times && f(t) == f(u) ==> t == u
    ensures |Image(f, times)| == |times|
  {
    if times != {} {
      var t :| t in times;
      ImageSize(f, times - {t});
      assert Image(f, times) == Image(f, times - {t}) + {f(t)};
    }
  }

  lemma NamesSize(times: set<Time>)
    requires AllPrintable(times)
    ensures |Names(times)| == |times|
  {
    forall t, u | t in times && u in times && NameOf(t) == NameOf(u) ensures t == u { NamesInOrder(t, u); }
    ImageSize(NameOf, times);
  }

  lemma NewerIsLater(times: set<Time>, t: Time)
    requires AllPrintable(times) && Printable(t)
    ensures Newer(Names(times), NameOf(t)) == Names(Later(times, t))
    ensures |Newer(Names(times), NameOf(t))| == |Later(times, t)|
  {
    forall u | u in times ensures LexLess(NameOf(t), NameOf(u)) <==> Earlier(t, u) { NamesInOrder(t, u); }
    NamesSize(Later(times, t));
  }

  /** How many files have newer names: later snapshots, and strays that sort behind. */
  function NewerFiles(times: set<Time>, strays: set<string>, t: Time): nat {
    |Later(times, t)| + |Newer(strays, NameOf(t))|
  }

  lemma NewerIsLaterOrStray(times: set<Time>, strays: set<string>, t: Time)
    requires AllPrintable(times) && Printable(t) && strays !! Names(times)
    ensures |Newer(Names(times) + strays, NameOf(t))| == NewerFiles(times, strays, t)
  {
    NewerIsLater(times, t);
    NewerOfBoth(Names(times), strays, NameOf(t));
  }

  lemma NewerOfBoth(a: set<string>, b: set<string>, n: string)
    requires a !! b
    ensures |Newer(a + b, n)| == |Newer(a, n)| + |Newer(b, n)|
  {
    assert Newer(a + b, n) == Newer(a, n) + Newer(b, n);
  }

  function NamesInTurn(taken: seq<Time>): seq<string> { Map(NameOf, taken) }

  function Times(taken: seq<Time>): set<Time> { set t | t in taken }

  predicate Advancing(before: set<Time>, taken: seq<Time>) {
    && (forall t, i :: t in before && 0 <= i < |taken| ==> Earlier(t, taken[i]))
    && (forall i, j :: 0 <= i < j < |taken| ==> Earlier(taken[i], taken[j]))
  }

  lemma NamesOfAll(f: Time -> string, before: set<Time>, taken: seq<Time>)
    ensures Image(f, before) + Members(Map(f, taken)) == Image(f, before + Times(taken))
  {
    forall i | 0 <= i < |taken| ensures taken[i] in before + Times(taken) && Map(f, taken)[i] == f(taken[i]) {}
    forall t | t in taken ensures f(t) in Members(Map(f, taken)) {
      var i :| 0 <= i < |taken| && taken[i] == t;
      assert Map(f, taken)[i] == f(t);
    }
  }

  lemma NothingLater(before: set<Time>, taken: seq<Time>)
    requires Advancing(before, taken) && taken != []
    ensures Later(before + Times(taken), taken[|taken| - 1]) == {}
  {
    var last := taken[|taken| - 1];
    forall u | u in before + Times(taken) ensures !Earlier(last, u) {
      if u in taken { var i :| 0 <= i < |taken| && taken[i] == u; }
    }
  }

  /** A directory of snapshots and strays. */
  function Files(times: set<Time>, strays: set<string>): set<string> { Names(times) + strays }

  lemma FilesOfAll(before: set<Time>, taken: seq<Time>, strays: set<string>)
    ensures Files(before, strays) + Members(NamesInTurn(taken)) == Files(before + Times(taken), strays)
  {
    NamesOfAll(NameOf, before, taken);
  }

  /**
   * After any number of runs a directory that began with some snapshots and strays holds the newest
   * `keep` files exactly when no stray is too old. A snapshot is among those if fewer than `keep` are
   * later or strays that sort behind it; and while the clock advances the last one taken is always
   * there, unless `keep` strays sort behind it.
   */
  lemma LatestSnapshotsStay(before: set<Time>, taken: seq<Time>, strays: set<string>, keep: nat)
    requires AllPrintable(before) && AllPrintable(Times(taken)) && taken != []
    requires strays !! Names(before + Times(taken))
    ensures var times := before + Times(taken);
            var left := Runs(Files(before, strays), strays, NamesInTurn(taken), keep);
            && (left == Top(Files(times, strays), keep) <==> Completes(Files(times, strays), strays, keep))
            && (forall t :: t in times ==>
                  (NameOf(t) in Top(Files(times, strays), keep) <==> NewerFiles(times, strays, t) < keep))
            && var last := taken[|taken| - 1];
               Advancing(before, taken) && |Newer(strays, NameOf(last))| < keep ==> NameOf(last) in left
  {
    var times, last := before + Times(taken), taken[|taken| - 1];
    FilesOfAll(before, taken, strays);
    RunsKeepNewest(Files(before, strays), strays, NamesInTurn(taken), keep);
    TopByTime(times, strays, keep);
    if Advancing(before, taken) && |Newer(strays, NameOf(last))| < keep {
      LastSnapshotStays(before, taken, strays, keep);
    }
  }

  lemma TopByTime(times: set<Time>, strays: set<string>, keep: nat)
    requires AllPrintable(times) && strays !! Names(times)
    ensures forall t :: t in times ==>
              (NameOf(t) in Top(Files(times, strays), keep) <==> NewerFiles(times, strays, t) < keep)
  {
    forall t | t in times ensures NameOf(t) in Top(Files(times, strays), keep) <==> NewerFiles(times, strays, t) < keep {
      NewerIsLaterOrStray(times, strays, t);
    }
  }

  lemma LastSnapshotStays(before: set<Time>, taken: seq<Time>, strays: set<string>, keep: nat)
    requires AllPrintable(before) && AllPrintable(Times(taken)) && taken != []
    requires strays !! Names(before + Times(taken)) && Advancing(before, taken)
    requires |Newer(strays, NameOf(taken[|taken| - 1]))| < keep
    ensures NameOf(taken[|taken| - 1]) in Runs(Files(before, strays), strays, NamesInTurn(taken), keep)
  {
    var last, names := taken[|taken| - 1], NamesInTurn(taken);
    FilesOfAll(before, taken, strays);
    NothingLater(before, taken);
    assert last in before + Times(taken);
    NewerIsLaterOrStray(before + Times(taken), strays, last);
    assert names[|names| - 1] == NameOf(last);
    LastStays(Files(before, strays), strays, names, keep);
  }

  // ----- a stray among the old names

  /** A doomed stray, at or behind which all that is doomed lies. */
  predicate Stuck(names: set<string>, strays: set<string>, keep: nat, x: string) {
    x in strays && IsDoomed(names, keep, x) && After(names, strays, keep) == names
  }

  lemma StuckAfter(names: set<string>, strays: set<string>, keep: nat, x: string)
    requires x in strays && IsDoomed(names, keep, x)
    ensures Stuck(After(names, strays, keep), strays, keep, x)
  {
    var left := After(names, strays, keep);
    forall m | m in names && (m == x || LexLess(x, m)) ensures m in left {
      LexNot(x);
      if LexLess(x, m) { LexAsymmetric(x, m); }
      if IsDoomed(names, keep, m) { assert Blocked(names, strays, keep, m); }
    }
    assert Newer(left, x) == Newer(names, x);
    forall m | m in left ensures m in After(left, strays, keep) {
      if IsDoomed(left, keep, m) {
        NewerOfMore(left, names, m);
        var y :| y in strays && IsDoomed(names, keep, y) && !LexLess(m, y);
        BlockerStays(names, strays, keep, y);
        assert Blocked(left, strays, keep, m);
      }
    }
  }

  lemma BlockerStays(names: set<string>, strays: set<string>, keep: nat, y: string)
    requires y in strays && IsDoomed(names, keep, y)
    ensures IsDoomed(After(names, strays, keep), keep, y)
  {
    var left := After(names, strays, keep);
    LexNot(y);
    assert Blocked(names, strays, keep, y);
    forall m | m in Newer(names, y) ensures m in left {
      LexAsymmetric(y, m);
      if IsDoomed(names, keep, m) { assert Blocked(names, strays, keep, m); }
    }
    assert Newer(left, y) == Newer(names, y);
  }

  lemma StuckMore(names: set<string>, strays: set<string>, keep: nat, x: string, n: string)
    requires Stuck(names, strays, keep, x) && LexLess(x, n)
    ensures Stuck(names + {n}, strays, keep, x)
  {
    var more := names + {n};
    NewerOfMore(names, more, x);
    forall m | m in more && IsDoomed(more, keep, m) ensures Blocked(more, strays, keep, m) {
      if m in names && IsDoomed(names, keep, m) {
        assert m in After(names, strays, keep);
        var y :| y in strays && IsDoomed(names, keep, y) && !LexLess(m, y);
        NewerOfMore(names, more, y);
        assert IsDoomed(more, keep, y);
      } else {
        if m in names {
          LexTotal(x, m);
          if LexLess(m, x) { NewerShrinks(names, m, x); }
        }
        assert m == n || LexLess(x, m);
        LexAsymmetric(x, m);
        assert IsDoomed(more, keep, x) && !LexLess(m, x);
      }
    }
  }

  lemma {:induction false} StuckRuns(names: set<string>, strays: set<string>, taken: seq<string>, keep: nat, x: string)
    requires Stuck(names, strays, keep, x) && BelowAll(x, taken)
    ensures Runs(names, strays, taken, keep) == names + Members(taken)
    ensures Stuck(names + Members(taken), strays, keep, x)
    decreases |taken|
  {
    if taken == [] {
      assert names + Members(taken) == names;
    } else {
      StuckMore(names, strays, keep, x, taken[0]);
      StuckRuns(names + {taken[0]}, strays, taken[1..], keep, x);
      assert names + {taken[0]} + Members(taken[1..]) == names + Members(taken);
    }
  }

  predicate BelowAll(x: string, taken: seq<string>) {
    forall i :: 0 <= i < |taken| ==> LexLess(x, taken[i])
  }

  /** A stray that was doomed once is doomed in every later run, and so is deletion at and behind it. */
  lemma {:induction false} DoomedForEver(names: set<string>, strays: set<string>, taken: seq<string>, keep: nat, x: string)
    requires x in strays && IsDoomed(names, keep, x)
    ensures IsDoomed(Runs(names, strays, taken, keep), keep, x)
    ensures forall m :: m in names + Members(taken) && !LexLess(m, x) ==> m in Runs(names, strays, taken, keep)
    decreases |taken|
  {
    if taken != [] {
      var found, rest := names + {taken[0]}, taken[1..];
      NewerOfMore(names, found, x);
      BlockerStays(found, strays, keep, x);
      forall m | m in found && !LexLess(m, x) ensures m in After(found, strays, keep) {
        if IsDoomed(found, keep, m) { assert Blocked(found, strays, keep, m); }
      }
      DoomedForEver(After(found, strays, keep), strays, rest, keep, x);
      assert Members(taken) == {taken[0]} + Members(rest);
    }
  }

  lemma FailsAgain(names: set<string>, strays: set<string>, keep: nat, x: string, n: string)
    requires x in strays && IsDoomed(names, keep, x)
    ensures !Completes(names + {n}, strays, keep)
  {
    NewerOfMore(names, names + {n}, x);
    assert IsDoomed(names + {n}, keep, x);
  }

  /**
   * Once a run has failed on a stray, every later run fails too and nothing at or behind the stray is
   * deleted again; while the snapshots to come sort behind it, that is all of them.
   */
  lemma StrayStopsDeletion(found: set<string>, strays: set<string>, taken: seq<string>, keep: nat)
    requires !Completes(found, strays, keep)
    ensures var left := After(found, strays, keep);
            && (forall k :: 0 <= k < |taken| ==>
                  !Completes(Runs(left, strays, taken[..k], keep) + {taken[k]}, strays, keep))
            && (forall x :: x in strays && IsDoomed(found, keep, x) ==>
                  && (forall m :: m in left + Members(taken) && !LexLess(m, x) ==> m in Runs(left, strays, taken, keep))
                  && (BelowAll(x, taken) ==> Runs(left, strays, taken, keep) == left + Members(taken)))
  {
    var left := After(found, strays, keep);
    var stray :| stray in strays && IsDoomed(found, keep, stray);
    BlockerStays(found, strays, keep, stray);
    forall k | 0 <= k < |taken| ensures !Completes(Runs(left, strays, taken[..k], keep) + {taken[k]}, strays, keep) {
      DoomedForEver(left, strays, taken[..k], keep, stray);
      FailsAgain(Runs(left, strays, taken[..k], keep), strays, keep, stray, taken[k]);
    }
    forall x | x in strays && IsDoomed(found, keep, x)
      ensures forall m :: m in left + Members(taken) && !LexLess(m, x) ==> m in Runs(left, strays, taken, keep)
      ensures BelowAll(x, taken) ==> Runs(left, strays, taken, keep) == left + Members(taken)
    {
      BlockerStays(found, strays, keep, x);
      DoomedForEver(left, strays, taken, keep, x);
      if BelowAll(x, taken) {
        StuckAfter(found, strays, keep, x);
        StuckRuns(left, strays, taken, keep, x);
      }
    }
  }
}
