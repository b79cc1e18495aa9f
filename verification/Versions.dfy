/**
 * The order of releases (scripts/update-apps/versions.ts). How JavaScript's `Number` reads a
 * segment is a parameter; no value stands for NaN.
 */
module Versions {
  import opened Prelude
  import opened Text
  import opened Sorting

  type Numeral = string -> Option<real>

  /** Everything before the first digit goes. */
  function Normalise(tag: string): string {
    if tag == "" || IsDigit(tag[0]) then tag else Normalise(tag[1..])
  }

  const SEPARATORS: set<char> := {'.', '-'}

  function Parts(tag: string): seq<string> { Split(Normalise(tag), SEPARATORS) }

  /** A version that has run out of parts goes on with empty ones. */
  function Part(parts: seq<string>, i: nat): string {
    if i < |parts| then parts[i] else ""
  }

  function CompareParts(x: string, y: string, num: Numeral): real {
    if x != "" && y != "" && num(x).Some? && num(y).Some? then num(x).value - num(y).value
    else if x == y then 0.0
    else if LexLess(x, y) then -1.0
    else 1.0
  }

  function Longer(a: seq<string>, b: seq<string>): nat {
    if |a| < |b| then |b| else |a|
  }

  function CompareFrom(a: seq<string>, b: seq<string>, i: nat, num: Numeral): real
    decreases Longer(a, b) - i
  {
    if i >= Longer(a, b) then 0.0
    else
      var r := CompareParts(Part(a, i), Part(b, i), num);
      if r != 0.0 then r else CompareFrom(a, b, i + 1, num)
  }

  function Compare(a: string, b: string, num: Numeral): real {
    CompareFrom(Parts(a), Parts(b), 0, num)
  }

  method CompareVersions(a: string, b: string, num: Numeral) returns (r: real)
    ensures r == Compare(a, b, num)
  {
    var partsA, partsB := Parts(a), Parts(b);
    var i := 0;
    while i < Longer(partsA, partsB)
      invariant CompareFrom(partsA, partsB, i, num) == Compare(a, b, num)
    {
      var partA, partB := Part(partsA, i), Part(partsB, i);
      var numA, numB := num(partA), num(partB);
      if partA != "" && partB != "" && numA.Some? && numB.Some? {
        if numA.value != numB.value { return numA.value - numB.value; }
      } else if partA != partB {
        return if LexLess(partA, partB) then -1.0 else 1.0;
      }
      i := i + 1;
    }
    return 0.0;
  }

  function NoLater(num: Numeral): Comparison<string> {
    (a: string, b: string) => Compare(a, b, num) <= 0.0
  }

  function Last<T>(s: seq<T>): T
    requires s != []
  {
    s[|s| - 1]
  }

  /** The tags one component may take; an empty prefix is none. */
  function Pool(tags: seq<string>, prefix: Option<string>): seq<string> {
    if prefix.Some? && prefix.value != "" then Filter((t: string) => StartsWith(t, prefix.value), tags) else tags
  }

  function PickLatest(tags: seq<string>, prefix: Option<string>, num: Numeral): Option<string> {
    var sorted := Sort(Pool(tags, prefix), NoLater(num));
    if sorted == [] then None else Some(Last(sorted))
  }

  // ----- the order on parts

  lemma PartsAntisymmetric(x: string, y: string, num: Numeral)
    ensures CompareParts(x, y, num) < 0.0 <==> CompareParts(y, x, num) > 0.0
    ensures CompareParts(x, y, num) == 0.0 <==> CompareParts(y, x, num) == 0.0
  {
    LexTotal(x, y);
    if LexLess(x, y) { LexAsymmetric(x, y); }
  }

  /** A part that is no numeral, with numerals on both sides of it as text. */
  predicate Between(y: string, w: string, x: string, num: Numeral) {
    && w != "" && num(w).None? && y != "" && num(y).Some? && x != "" && num(x).Some?
    && LexLess(y, w) && LexLess(w, x)
  }

  /** That is the only way in which the order of parts can fail to carry over. */
  lemma PartsCarryOver(p: string, q: string, r: string, num: Numeral)
    requires CompareParts(p, q, num) <= 0.0 && CompareParts(q, r, num) <= 0.0
    ensures || Between(p, q, r, num) || Between(r, p, q, num) || Between(q, r, p, num)
            || (CompareParts(p, r, num) <= 0.0
                && (CompareParts(p, r, num) == 0.0 ==> CompareParts(p, q, num) == 0.0 && CompareParts(q, r, num) == 0.0))
  {
    LexTotal(p, q);
    LexTotal(q, r);
    LexTotal(p, r);
    if LexLess(p, q) && LexLess(q, r) { LexTransitive(p, q, r); }
    if LexLess(p, r) { LexAsymmetric(p, r); }
  }

  // ----- the order on versions

  lemma {:induction false} Antisymmetric(a: seq<string>, b: seq<string>, i: nat, num: Numeral)
    ensures CompareFrom(a, b, i, num) < 0.0 <==> CompareFrom(b, a, i, num) > 0.0
    ensures CompareFrom(a, b, i, num) == 0.0 <==> CompareFrom(b, a, i, num) == 0.0
    decreases Longer(a, b) - i
  {
    if i < Longer(a, b) {
      PartsAntisymmetric(Part(a, i), Part(b, i), num);
      Antisymmetric(a, b, i + 1, num);
    }
  }

  /** The loop's step holds past the end too: empty parts are equal. */
  lemma CompareStep(a: seq<string>, b: seq<string>, i: nat, num: Numeral)
    ensures var r := CompareParts(Part(a, i), Part(b, i), num);
            CompareFrom(a, b, i, num) == if r != 0.0 then r else CompareFrom(a, b, i + 1, num)
  {}

  /** The comparison has found no difference before part `i`. */
  predicate Tied(a: seq<string>, b: seq<string>, i: nat, num: Numeral) {
    forall j :: 0 <= j < i ==> CompareParts(Part(a, j), Part(b, j), num) == 0.0
  }

  lemma {:induction false} TiedCompare(a: seq<string>, b: seq<string>, i: nat, num: Numeral)
    requires Tied(a, b, i, num)
    ensures CompareFrom(a, b, 0, num) == CompareFrom(a, b, i, num)
  {
    if i > 0 {
      TiedCompare(a, b, i - 1, num);
      CompareStep(a, b, i - 1, num);
    }
  }

  /**
   * Three tags that first differ in one part, where `b` has a word as text between the numerals of
   * `a` and `c`, and yet `c` counts as no later than `a`.
   */
  predicate Knot(a: string, b: string, c: string, i: nat, num: Numeral) {
    var pa, pb, pc := Parts(a), Parts(b), Parts(c);
    && Tied(pa, pb, i, num) && Tied(pb, pc, i, num) && Tied(pa, pc, i, num)
    && Between(Part(pa, i), Part(pb, i), Part(pc, i), num)
    && Compare(c, a, num) <= 0.0
  }

  predicate KnotFree(tags: seq<string>, num: Numeral) {
    forall a, b, c, i :: a in tags && b in tags && c in tags && 0 <= i < |Parts(b)| ==> !Knot(a, b, c, i, num)
  }

  lemma NoKnot(tags: seq<string>, a: string, b: string, c: string, i: nat, num: Numeral)
    requires KnotFree(tags, num) && a in tags && b in tags && c in tags
    ensures !Knot(a, b, c, i, num)
  {
    if i >= |Parts(b)| { assert Part(Parts(b), i) == ""; }
  }

  /** Of three tags tied so far, the next parts carry the order over. */
  lemma StepCarriesOver(tags: seq<string>, a: string, b: string, c: string, i: nat, num: Numeral)
    requires KnotFree(tags, num) && a in tags && b in tags && c in tags
    requires Tied(Parts(a), Parts(b), i, num) && Tied(Parts(b), Parts(c), i, num) && Tied(Parts(a), Parts(c), i, num)
    requires Compare(a, b, num) <= 0.0 && Compare(b, c, num) <= 0.0 && Compare(c, a, num) < 0.0
    ensures var p, q, r := Part(Parts(a), i), Part(Parts(b), i), Part(Parts(c), i);
            !Between(p, q, r, num) && !Between(r, p, q, num) && !Between(q, r, p, num)
  {
    TiedSwap(Parts(a), Parts(b), i, num);
    TiedSwap(Parts(b), Parts(c), i, num);
    TiedSwap(Parts(a), Parts(c), i, num);
    NoKnot(tags, a, b, c, i, num);
    NoKnot(tags, c, a, b, i, num);
    NoKnot(tags, b, c, a, i, num);
  }

  lemma TiedSwap(a: seq<string>, b: seq<string>, i: nat, num: Numeral)
    requires Tied(a, b, i, num)
    ensures Tied(b, a, i, num)
  {
    forall j | 0 <= j < i ensures CompareParts(Part(b, j), Part(a, j), num) == 0.0 {
      PartsAntisymmetric(Part(a, j), Part(b, j), num);
    }
  }

  lemma TiedFurther(a: seq<string>, b: seq<string>, i: nat, num: Numeral)
    requires Tied(a, b, i, num) && CompareFrom(a, b, 0, num) <= 0.0
    ensures CompareParts(Part(a, i), Part(b, i), num) <= 0.0
    ensures CompareParts(Part(a, i), Part(b, i), num) == 0.0 ==> Tied(a, b, i + 1, num)
  {
    TiedCompare(a, b, i, num);
    CompareStep(a, b, i, num);
  }

  /** Where the order does not carry over at all, three tags stay tied for ever. */
  lemma {:induction false} TiedForEver(tags: seq<string>, a: string, b: string, c: string, i: nat, num: Numeral)
    requires KnotFree(tags, num) && a in tags && b in tags && c in tags
    requires Compare(a, b, num) <= 0.0 && Compare(b, c, num) <= 0.0 && Compare(c, a, num) < 0.0
    ensures Tied(Parts(a), Parts(b), i, num) && Tied(Parts(b), Parts(c), i, num) && Tied(Parts(a), Parts(c), i, num)
  {
    if i > 0 {
      TiedForEver(tags, a, b, c, i - 1, num);
      StepCarriesOver(tags, a, b, c, i - 1, num);
      AllTiedFurther(Parts(a), Parts(b), Parts(c), i - 1, num);
    }
  }

  lemma AllTiedFurther(a: seq<string>, b: seq<string>, c: seq<string>, i: nat, num: Numeral)
    requires Tied(a, b, i, num) && Tied(b, c, i, num) && Tied(a, c, i, num)
    requires CompareFrom(a, b, 0, num) <= 0.0 && CompareFrom(b, c, 0, num) <= 0.0 && CompareFrom(c, a, 0, num) < 0.0
    requires var p, q, r := Part(a, i), Part(b, i), Part(c, i);
             !Between(p, q, r, num) && !Between(r, p, q, num) && !Between(q, r, p, num)
    ensures Tied(a, b, i + 1, num) && Tied(b, c, i + 1, num) && Tied(a, c, i + 1, num)
  {
    var p, q, r := Part(a, i), Part(b, i), Part(c, i);
    TiedFurther(a, b, i, num);
    TiedFurther(b, c, i, num);
    PartsCarryOver(p, q, r, num);
    TiedSwap(a, c, i, num);
    TiedFurther(c, a, i, num);
    PartsAntisymmetric(p, r, num);
    TiedSwap(c, a, i + 1, num);
  }

  lemma Transitive(tags: seq<string>, a: string, b: string, c: string, num: Numeral)
    requires KnotFree(tags, num) && a in tags && b in tags && c in tags
    requires Compare(a, b, num) <= 0.0 && Compare(b, c, num) <= 0.0
    ensures Compare(a, c, num) <= 0.0
  {
    Antisymmetric(Parts(a), Parts(c), 0, num);
    if Compare(a, c, num) > 0.0 {
      var n := Longer(Parts(a), Parts(c));
      TiedForEver(tags, a, b, c, n, num);
      TiedCompare(Parts(a), Parts(c), n, num);
    }
  }

  lemma KnotFreeOrdered(tags: seq<string>, num: Numeral)
    requires KnotFree(tags, num)
    ensures Orders(tags, NoLater(num))
  {
    forall x, y | x in tags && y in tags ensures NoLater(num)(x, y) || NoLater(num)(y, x) {
      Antisymmetric(Parts(x), Parts(y), 0, num);
    }
    forall x, y, z | x in tags && y in tags && z in tags && NoLater(num)(x, y) && NoLater(num)(y, z)
      ensures NoLater(num)(x, z)
    {
      Transitive(tags, x, y, z, num);
    }
  }

  lemma KnotCompares(a: string, b: string, c: string, i: nat, num: Numeral)
    requires Knot(a, b, c, i, num)
    ensures Compare(a, b, num) < 0.0 && Compare(b, c, num) < 0.0 && Compare(c, b, num) > 0.0
  {
    var pa, pb, pc := Parts(a), Parts(b), Parts(c);
    TiedCompare(pa, pb, i, num);
    TiedCompare(pb, pc, i, num);
    CompareStep(pa, pb, i, num);
    CompareStep(pb, pc, i, num);
    LexAsymmetric(Part(pa, i), Part(pb, i));
    LexAsymmetric(Part(pb, i), Part(pc, i));
    Antisymmetric(pb, pc, 0, num);
  }

  /** The comparison is a total preorder on a list of tags exactly when there is no knot among them. */
  lemma TagsOrderedIff(tags: seq<string>, num: Numeral)
    ensures Orders(tags, NoLater(num)) <==> KnotFree(tags, num)
  {
    if KnotFree(tags, num) { KnotFreeOrdered(tags, num); }
    if a, b, c, i :| a in tags && b in tags && c in tags && 0 <= i < |Parts(b)| && Knot(a, b, c, i, num) {
      KnotCompares(a, b, c, i, num);
      assert NoLater(num)(c, a) && NoLater(num)(a, b) && !NoLater(num)(c, b);
    }
  }

  predicate Ties(a: string, b: string, num: Numeral) {
    Compare(a, b, num) == 0.0 && Compare(b, a, num) == 0.0
  }

  lemma LastSorted(pool: seq<string>, out: seq<string>, num: Numeral)
    requires pool != [] && KnotFree(pool, num) && multiset(out) == multiset(pool) && Sorted(out, NoLater(num))
    ensures out != [] && Last(out) in pool
    ensures forall t :: t in pool ==> Compare(t, Last(out), num) <= 0.0
  {
    KnotFreeOrdered(pool, num);
    LastIsGreatest(pool, out, NoLater(num));
    forall t | t in pool ensures Compare(t, Last(out), num) <= 0.0 {
      assert NoLater(num)(t, Last(out));
    }
  }

  lemma PoolSorted(pool: seq<string>, num: Numeral)
    ensures var sorted := Sort(pool, NoLater(num));
            multiset(sorted) == multiset(pool) && (KnotFree(pool, num) ==> Sorted(sorted, NoLater(num)))
  {
    SortPermutes(pool, NoLater(num));
    if KnotFree(pool, num) {
      KnotFreeOrdered(pool, num);
      SortSorts(pool, NoLater(num));
    }
  }

  /**
   * The tag picked is one of the component's, whatever the tags. Where they are ordered no other of
   * them is newer, and any other way of sorting them ends with one that ties with it.
   */
  lemma LatestIsNewest(tags: seq<string>, prefix: Option<string>, num: Numeral, out: seq<string>)
    ensures var pool, latest := Pool(tags, prefix), PickLatest(tags, prefix, num);
            && (latest == None <==> pool == [])
            && (latest.Some? ==> latest.value in pool)
            && (latest.Some? && KnotFree(pool, num) ==>
                  && (forall t :: t in pool ==> Compare(t, latest.value, num) <= 0.0)
                  && (multiset(out) == multiset(pool) && Sorted(out, NoLater(num)) ==>
                        out != [] && Ties(Last(out), latest.value, num)))
  {
    var pool := Pool(tags, prefix);
    var sorted := Sort(pool, NoLater(num));
    PoolSorted(pool, num);
    SameMembers(pool, sorted);
    if pool != [] && KnotFree(pool, num) {
      LastSorted(pool, sorted, num);
      if multiset(out) == multiset(pool) && Sorted(out, NoLater(num)) {
        LastSorted(pool, out, num);
        Antisymmetric(Parts(Last(out)), Parts(Last(sorted)), 0, num);
      }
    }
  }

  lemma {:induction false} FilterCount(f: string -> bool, s: seq<string>, x: string)
    ensures multiset(Filter(f, s))[x] == if f(x) then multiset(s)[x] else 0
  {
    if s != [] {
      assert s == [s[0]] + s[1..];
      FilterCount(f, s[1..], x);
    }
  }

  lemma PoolsPermuted(tags: seq<string>, listing: seq<string>, prefix: string)
    requires prefix != "" && multiset(tags) == multiset(listing)
    ensures var p, q := Pool(tags, Some(prefix)), Pool(listing, Some(prefix));
            multiset(p) == multiset(q) && (forall t :: t in p <==> t in q)
            && forall t :: t in p <==> t in tags && StartsWith(t, prefix)
  {
    var f := (t: string) => StartsWith(t, prefix);
    var p, q := Pool(tags, Some(prefix)), Pool(listing, Some(prefix));
    assert p == Filter(f, tags) && q == Filter(f, listing);
    forall x ensures multiset(p)[x] == multiset(q)[x] {
      FilterCount(f, tags, x);
      FilterCount(f, listing, x);
    }
    assert multiset(p) == multiset(q);
    SameMembers(p, q);
    forall t ensures t in p <==> t in tags && StartsWith(t, prefix) { assert f(t) == StartsWith(t, prefix); }
  }

  /** A component's prefix decides which tags count; the order they are listed in does not, where they are ordered. */
  lemma LatestIgnoresListing(tags: seq<string>, listing: seq<string>, prefix: string, num: Numeral)
    requires prefix != "" && multiset(tags) == multiset(listing)
    ensures var a, b := PickLatest(tags, Some(prefix), num), PickLatest(listing, Some(prefix), num);
            && (a == None <==> forall t :: t in tags ==> !StartsWith(t, prefix))
            && (a.Some? ==> a.value in tags && StartsWith(a.value, prefix))
            && (a == None <==> b == None)
            && (a.Some? && b.Some? && KnotFree(Pool(tags, Some(prefix)), num) ==> Ties(a.value, b.value, num))
  {
    var p, q := Pool(tags, Some(prefix)), Pool(listing, Some(prefix));
    PoolsPermuted(tags, listing, prefix);
    var sorted := Sort(q, NoLater(num));
    LatestIsNewest(tags, Some(prefix), num, sorted);
    LatestIsNewest(listing, Some(prefix), num, sorted);
    if KnotFree(p, num) {
      assert KnotFree(q, num);
      PoolSorted(q, num);
    }
    forall t | p == [] && t in tags ensures !StartsWith(t, prefix) { assert t in p <==> StartsWith(t, prefix); }
  }

  // ----- parts that are not regular

  predicate IsNumeral(x: string) { x != "" && AllDigits(x) }

  /** Strings of digits are read as the numbers they spell. */
  ghost predicate ReadsDigits(num: Numeral) {
    forall x :: IsNumeral(x) ==> num(x) == Some(DecimalValue(x) as real)
  }

  function Run(c: char, n: nat): (r: string)
    ensures |r| == n && forall i :: 0 <= i < n ==> r[i] == c
  {
    seq(n, _ => c)
  }

  /** After its leading `c`s. */
  function After(x: string, c: char): (k: nat)
    ensures k <= |x| && (forall i :: 0 <= i < k ==> x[i] == c) && (k < |x| ==> x[k] != c)
  {
    if x == "" || x[0] != c then 0 else 1 + After(x[1..], c)
  }

  /** On one side of every numeral: it starts below a digit, or leads with nines and goes above them. */
  predicate Aside(w: string)
    requires w != ""
  {
    w[0] < '0' || (After(w, '9') < |w| && w[After(w, '9')] > '9')
  }

  function PartsNoLater(num: Numeral): Comparison<string> {
    (x: string, y: string) => CompareParts(x, y, num) <= 0.0
  }

  /** Beside any two numerals, `w` still leaves the comparison a total preorder. */
  ghost predicate FitsNumerals(w: string, num: Numeral) {
    forall x, y :: IsNumeral(x) && IsNumeral(y) ==> Orders([w, x, y], PartsNoLater(num))
  }

  /** Strings that agree on `k` characters and part at the next. */
  lemma {:induction false} PartAt(a: string, b: string, k: nat)
    requires k <= |a| && k < |b| && a[..k] == b[..k] && (k < |a| ==> a[k] < b[k])
    ensures LexLess(a, b)
  {
    if k > 0 {
      assert a[0] == a[..k][0] == b[..k][0] == b[0];
      assert a[1..][..k - 1] == a[..k][1..] && b[1..][..k - 1] == b[..k][1..];
      PartAt(a[1..], b[1..], k - 1);
    }
  }

  lemma {:induction false} AboveNumerals(w: string, x: string)
    requires AllDigits(x) && After(w, '9') < |w| && w[After(w, '9')] > '9'
    ensures LexLess(x, w)
  {
    if x != "" && w[0] == '9' {
      AboveNumerals(w[1..], x[1..]);
    }
  }

  lemma {:induction false} ValueOfRun(n: nat, c: char)
    requires IsDigit(c)
    ensures AllDigits(Run(c, n))
    ensures c == '0' ==> DecimalValue(Run(c, n)) == 0
    decreases n
  {
    if n > 0 {
      assert Run(c, n)[..n - 1] == Run(c, n - 1);
      ValueOfRun(n - 1, c);
    }
  }

  lemma {:induction false} NinesAreLess(n: nat)
    ensures AllDigits(Run('9', n)) && AllDigits("1" + Run('0', n))
    ensures DecimalValue("1" + Run('0', n)) == DecimalValue(Run('9', n)) + 1
  {
    if n == 0 {
      assert "1" + Run('0', 0) == "1" && "1"[..0] == "";
    } else {
      NinesAreLess(n - 1);
      assert Run('9', n)[..n - 1] == Run('9', n - 1);
      assert ("1" + Run('0', n))[..n] == "1" + Run('0', n - 1);
    }
  }

  lemma {:induction false} LeadingZeros(n: nat, x: string)
    requires AllDigits(x)
    ensures AllDigits(Run('0', n) + x) && DecimalValue(Run('0', n) + x) == DecimalValue(x)
  {
    if x == "" {
      ValueOfRun(n, '0');
      assert Run('0', n) + x == Run('0', n);
    } else {
      LeadingZeros(n, x[..|x| - 1]);
      assert (Run('0', n) + x)[..n + |x| - 1] == Run('0', n) + x[..|x| - 1];
    }
  }

  /** Numerals `y` below `w` below `x` that are out of step: `x` is no greater than `y`. */
  ghost predicate OutOfStep(y: string, w: string, x: string) {
    IsNumeral(x) && IsNumeral(y) && LexLess(y, w) && LexLess(w, x) && DecimalValue(x) <= DecimalValue(y)
  }

  lemma AfterNines(w: string, k: nat)
    requires k == After(w, '9') && 0 < k < |w| && w[k] < '9'
    ensures OutOfStep("1" + Run('0', k + 1), w, Run('9', k + 1))
  {
    NinesAreLess(k + 1);
    PartAt(w, Run('9', k + 1), k);
  }

  lemma BelowNine(w: string, k: nat)
    requires k == After(w, '0') && k < |w| && w[0] < '9' && w[k] > '0'
    ensures OutOfStep(Run('0', k + 1) + "10", w, "9")
  {
    LeadingZeros(k + 1, "10");
    assert DecimalValue("10") == 10 by { assert "10"[..1] == "1" && "1"[..0] == ""; }
    assert DecimalValue("9") == 9 by { assert "9"[..0] == ""; }
    PartAt(Run('0', k + 1) + "10", w, k);
  }

  lemma BetweenZeros(w: string, k: nat)
    requires k == After(w, '0') && 0 < k < |w| && w[k] < '0'
    ensures OutOfStep(Run('0', k), w, Run('0', k + 1))
  {
    ValueOfRun(k, '0');
    ValueOfRun(k + 1, '0');
    PartAt(Run('0', k), w, k);
    PartAt(w, Run('0', k + 1), k);
  }

  lemma SomeOutOfStep(w: string) returns (y: string, x: string)
    requires w != "" && !AllDigits(w) && !Aside(w)
    ensures OutOfStep(y, w, x)
  {
    if w[0] == '9' {
      var k := After(w, '9');
      AfterNines(w, k);
      y, x := "1" + Run('0', k + 1), Run('9', k + 1);
    } else {
      var k := After(w, '0');
      if w[k] > '0' {
        BelowNine(w, k);
        y, x := Run('0', k + 1) + "10", "9";
      } else {
        BetweenZeros(w, k);
        y, x := Run('0', k), Run('0', k + 1);
      }
    }
  }

  lemma AsideOfAll(w: string, x: string)
    requires w != "" && Aside(w) && IsNumeral(x)
    ensures if w[0] < '0' then LexLess(w, x) && !LexLess(x, w) else LexLess(x, w) && !LexLess(w, x)
  {
    if w[0] >= '0' {
      AboveNumerals(w, x);
      LexAsymmetric(x, w);
    }
  }

  lemma AsideFits(w: string, num: Numeral)
    requires ReadsDigits(num) && w != "" && num(w).None? && Aside(w)
    ensures FitsNumerals(w, num)
  {
    forall x, y | IsNumeral(x) && IsNumeral(y) ensures Orders([w, x, y], PartsNoLater(num)) {
      AsideOfAll(w, x);
      AsideOfAll(w, y);
      assert num(x).Some? && num(y).Some?;
    }
  }

  /**
   * A part that is no numeral can stand beside numerals exactly when it lies on one side of all of
   * them: any other, such as `1a`, makes the comparison inconsistent.
   */
  lemma FitsIffAside(w: string, num: Numeral)
    requires ReadsDigits(num) && w != "" && num(w).None?
    ensures FitsNumerals(w, num) <==> Aside(w)
  {
    if Aside(w) {
      AsideFits(w, num);
    } else {
      assert !IsNumeral(w);
      var y, x := SomeOutOfStep(w);
      LexAsymmetric(y, w);
      LexAsymmetric(w, x);
      var leq, s := PartsNoLater(num), [w, x, y];
      assert w == s[0] && x == s[1] && y == s[2];
      assert leq(x, y) && leq(y, w) && !leq(x, w);
      assert !Orders(s, leq);
    }
  }

  // ----- tags without knots

  /** Empty, a string of digits, or no numeral and on one side of them all. */
  predicate Ordinary(x: string, num: Numeral) {
    x == "" || IsNumeral(x) || (num(x).None? && Aside(x))
  }

  /** A numeral, of any spelling, and nothing else starts with a digit or something below one. */
  predicate Regular(x: string, num: Numeral) {
    x == "" || (num(x).Some? <==> x[0] <= '9')
  }

  predicate AllParts(tags: seq<string>, holds: string -> bool) {
    forall t, i :: t in tags && 0 <= i < |Parts(t)| ==> holds(Parts(t)[i])
  }

  lemma PartHolds(tags: seq<string>, holds: string -> bool, t: string, i: nat)
    requires AllParts(tags, holds) && t in tags && Part(Parts(t), i) != ""
    ensures holds(Part(Parts(t), i))
  {}

  lemma OrdinaryNotBetween(y: string, w: string, x: string, num: Numeral)
    requires ReadsDigits(num) && (x == "" || Ordinary(x, num))
    requires (y == "" || Ordinary(y, num)) && (w == "" || Ordinary(w, num))
    ensures !Between(y, w, x, num)
  {
    if w != "" && num(w).None? {
      if IsNumeral(y) { AsideOfAll(w, y); }
      if IsNumeral(x) { AsideOfAll(w, x); }
    }
  }

  lemma RegularNotBetween(y: string, w: string, x: string, num: Numeral)
    requires (y == "" || Regular(y, num)) && (w == "" || Regular(w, num)) && (x == "" || Regular(x, num))
    ensures !Between(y, w, x, num)
  {}

  /** Tags made of digits, and of words that lie on one side of all numerals, are ordered. */
  lemma OrdinaryTagsOrdered(tags: seq<string>, num: Numeral)
    requires ReadsDigits(num) && AllParts(tags, (x: string) => Ordinary(x, num))
    ensures KnotFree(tags, num) && Orders(tags, NoLater(num))
  {
    var holds := (x: string) => Ordinary(x, num);
    forall a, b, c, i | a in tags && b in tags && c in tags && 0 <= i < |Parts(b)| ensures !Knot(a, b, c, i, num) {
      var y, w, x := Part(Parts(a), i), Part(Parts(b), i), Part(Parts(c), i);
      if y != "" { PartHolds(tags, holds, a, i); }
      if w != "" { PartHolds(tags, holds, b, i); }
      if x != "" { PartHolds(tags, holds, c, i); }
      OrdinaryNotBetween(y, w, x, num);
    }
    KnotFreeOrdered(tags, num);
  }

  /** And so are tags whose numerals and words the first character tells apart. */
  lemma RegularTagsOrdered(tags: seq<string>, num: Numeral)
    requires AllParts(tags, (x: string) => Regular(x, num))
    ensures KnotFree(tags, num) && Orders(tags, NoLater(num))
  {
    var holds := (x: string) => Regular(x, num);
    forall a, b, c, i | a in tags && b in tags && c in tags && 0 <= i < |Parts(b)| ensures !Knot(a, b, c, i, num) {
      var y, w, x := Part(Parts(a), i), Part(Parts(b), i), Part(Parts(c), i);
      if y != "" { PartHolds(tags, holds, a, i); }
      if w != "" { PartHolds(tags, holds, b, i); }
      if x != "" { PartHolds(tags, holds, c, i); }
      RegularNotBetween(y, w, x, num);
    }
    KnotFreeOrdered(tags, num);
  }

  lemma AfterOne(x: string, y: string, num: Numeral)
    requires ReadsDigits(num) && (forall c :: c in x || c in y ==> c !in SEPARATORS)
    ensures Compare("1." + x, "1." + y, num) == CompareParts(x, y, num)
  {
    SplitAtFirst("1", '.', x, SEPARATORS);
    SplitAtFirst("1", '.', y, SEPARATORS);
    assert "1" + ['.'] + x == "1." + x && "1" + ['.'] + y == "1." + y;
    SplitWhole(x);
    SplitWhole(y);
    var a, b := Parts("1." + x), Parts("1." + y);
    assert a == ["1", x] && b == ["1", y];
    CompareStep(a, b, 0, num);
    CompareStep(a, b, 1, num);
  }

  lemma SplitWhole(x: string)
    requires forall c :: c in x ==> c !in SEPARATORS
    ensures Split(x, SEPARATORS) == [x]
  {
    forall i | 0 <= i < |x| ensures x[i] !in SEPARATORS { assert x[i] in x; }
  }

  /** Of `1.9`, `1.10` and `1.1a` each is older than another, so none of them is the newest. */
  lemma NoNewest(num: Numeral)
    requires ReadsDigits(num) && num("1a").None?
    ensures Compare("1." + "9", "1." + "10", num) < 0.0
    ensures Compare("1." + "10", "1." + "1a", num) < 0.0
    ensures Compare("1." + "1a", "1." + "9", num) < 0.0
  {
    AfterOne("9", "10", num);
    AfterOne("10", "1a", num);
    AfterOne("1a", "9", num);
    assert "9"[..0] == "" && "10"[..1] == "1" && "1"[..0] == "";
    assert DecimalValue("9") == 9 && DecimalValue("10") == 10;
  }

  // ----- what a version is made of

  /** A full stop or a hyphen, and what stands behind it. */
  datatype Piece = Piece(mark: char, text: string)

  function Rest(pieces: seq<Piece>): string {
    if pieces == [] then "" else [pieces[0].mark] + pieces[0].text + Rest(pieces[1..])
  }

  function Texts(pieces: seq<Piece>): seq<string> { Map((p: Piece) => p.text, pieces) }

  predicate Unmarked(s: string) { '.' !in s && '-' !in s }

  predicate Marked(p: Piece) { (p.mark == '.' || p.mark == '-') && Unmarked(p.text) }

  lemma {:induction false} PiecesApart(first: string, pieces: seq<Piece>)
    requires Unmarked(first) && forall p :: p in pieces ==> Marked(p)
    ensures Split(first + Rest(pieces), SEPARATORS) == [first] + Texts(pieces)
    decreases |pieces|
  {
    if pieces == [] {
      SplitWhole(first);
      assert first + "" == first;
    } else {
      var p, rest := pieces[0], pieces[1..];
      assert Marked(p) && forall q :: q in rest ==> q in pieces;
      PiecesApart(p.text, rest);
      OnePieceApart(first, p, p.text + Rest(rest));
      Regrouped(first, [p.mark], p.text, Rest(rest));
      TextsCons(pieces);
    }
  }

  lemma Regrouped(a: string, b: string, c: string, d: string)
    ensures a + (b + c + d) == a + b + (c + d)
  {}

  lemma OnePieceApart(first: string, p: Piece, rest: string)
    requires Unmarked(first) && (p.mark == '.' || p.mark == '-')
    ensures Split(first + [p.mark] + rest, SEPARATORS) == [first] + Split(rest, SEPARATORS)
  {
    SplitAtFirst(first, p.mark, rest, SEPARATORS);
  }

  lemma TextsCons(pieces: seq<Piece>)
    requires pieces != []
    ensures Texts(pieces) == [pieces[0].text] + Texts(pieces[1..])
  {}

  lemma {:induction false} DropFront(front: string, v: string)
    requires (forall c :: c in front ==> !('0' <= c <= '9')) && v != "" && '0' <= v[0] <= '9'
    ensures Normalise(front + v) == v
  {
    if front == "" {
      assert front + v == v;
    } else {
      assert (front + v)[1..] == front[1..] + v && front[0] in front;
      forall c | c in front[1..] ensures !('0' <= c <= '9') { assert c in front; }
      DropFront(front[1..], v);
    }
  }

  /** A tag's parts are what its full stops and hyphens set apart, from the first digit on. */
  lemma PartsSpelled(front: string, first: string, pieces: seq<Piece>)
    requires (forall c :: c in front ==> !('0' <= c <= '9')) && first != "" && '0' <= first[0] <= '9'
    requires Unmarked(first) && forall p :: p in pieces ==> Marked(p)
    ensures Parts(front + (first + Rest(pieces))) == [first] + Texts(pieces)
  {
    DropFront(front, first + Rest(pieces));
    PiecesApart(first, pieces);
  }

  // ----- what the order means

  /** Parts `i` and on are numerals of equal value, up to `k`. */
  predicate SameNumbers(a: seq<string>, b: seq<string>, i: nat, k: nat) {
    && k <= |a| && k <= |b|
    && forall j :: i <= j < k ==> IsNumeral(a[j]) && IsNumeral(b[j]) && DecimalValue(a[j]) == DecimalValue(b[j])
  }

  /** The first numerals that differ decide, by value; and a version that goes on is above one that does not. */
  lemma {:induction false} FirstDifferenceDecides(a: seq<string>, b: seq<string>, i: nat, k: nat, num: Numeral)
    requires ReadsDigits(num) && i <= k && SameNumbers(a, b, i, k)
    ensures k < |a| && k < |b| && IsNumeral(a[k]) && IsNumeral(b[k]) && DecimalValue(a[k]) != DecimalValue(b[k]) ==>
      CompareFrom(a, b, i, num) == (DecimalValue(a[k]) - DecimalValue(b[k])) as real
    ensures k == |a| == |b| ==> CompareFrom(a, b, i, num) == 0.0
    ensures k == |a| < |b| && b[k] != "" ==> CompareFrom(a, b, i, num) < 0.0
    decreases k - i
  {
    CompareStep(a, b, i, num);
    if i < k { FirstDifferenceDecides(a, b, i + 1, k, num); }
  }

  // ----- what a prefix does to it

  lemma {:induction false} NormaliseGlued(prefix: string, v: string)
    requires v != "" && IsDigit(v[0])
    ensures Normalise(prefix + v) == Normalise(prefix) + v && Normalise(v) == v
  {
    if prefix == "" {
      assert prefix + v == v;
    } else if !IsDigit(prefix[0]) {
      assert (prefix + v)[1..] == prefix[1..] + v;
      NormaliseGlued(prefix[1..], v);
    }
  }

  lemma {:induction false} IndexGlued(a: string, b: string, seps: set<char>)
    ensures IndexOf(a + b, seps) == if IndexOf(a, seps) < |a| then IndexOf(a, seps) else |a| + IndexOf(b, seps)
  {
    if a == "" {
      assert a + b == b;
    } else {
      assert (a + b)[1..] == a[1..] + b;
      if a[0] !in seps { IndexGlued(a[1..], b, seps); }
    }
  }

  /** Gluing two texts glues the last part of one to the first part of the other. */
  function Glued(a: seq<string>, b: seq<string>): seq<string>
    requires a != [] && b != []
  {
    a[..|a| - 1] + ([Last(a) + b[0]] + b[1..])
  }

  lemma GlueCut(a: string, b: string, seps: set<char>)
    requires IndexOf(a, seps) < |a|
    ensures var k := IndexOf(a, seps); Split(a + b, seps) == [a[..k]] + Split(a[k + 1..] + b, seps)
  {
    var k := IndexOf(a, seps);
    IndexGlued(a, b, seps);
    assert (a + b)[..k] == a[..k] && (a + b)[k + 1..] == a[k + 1..] + b;
    SplitAt(a + b, k, a[..k], a[k + 1..] + b, seps);
  }

  lemma GluePlain(a: string, b: string, seps: set<char>)
    requires IndexOf(a, seps) == |a|
    ensures Split(a + b, seps) == [a + Split(b, seps)[0]] + Split(b, seps)[1..]
  {
    var j := IndexOf(b, seps);
    IndexGlued(a, b, seps);
    if j < |b| {
      SliceGlued(a, b, j);
      SplitAt(a + b, |a| + j, a + b[..j], b[j + 1..], seps);
      SplitAt(b, j, b[..j], b[j + 1..], seps);
      FirstAndRest(b[..j], Split(b[j + 1..], seps));
    } else {
      FirstAndRest(b, []);
    }
  }

  lemma FirstAndRest(x: string, rest: seq<string>)
    ensures ([x] + rest)[0] == x && ([x] + rest)[1..] == rest
  {}

  lemma SliceGlued(a: string, b: string, j: nat)
    requires j < |b|
    ensures (a + b)[..|a| + j] == a + b[..j] && (a + b)[|a| + j + 1..] == b[j + 1..]
  {}

  lemma SplitAt(s: string, k: nat, head: string, tail: string, seps: set<char>)
    requires IndexOf(s, seps) == k < |s| && s[..k] == head && s[k + 1..] == tail
    ensures Split(s, seps) == [head] + Split(tail, seps)
  {}

  lemma GluedBehind(x: string, rest: seq<string>, b: seq<string>)
    requires rest != [] && b != []
    ensures [x] + Glued(rest, b) == Glued([x] + rest, b)
  {
    assert ([x] + rest)[..|rest|] == [x] + rest[..|rest| - 1];
  }

  lemma {:induction false} SplitGlued(a: string, b: string, seps: set<char>)
    ensures Split(a + b, seps) == Glued(Split(a, seps), Split(b, seps))
    decreases |a|
  {
    var k := IndexOf(a, seps);
    if k < |a| {
      SplitGlued(a[k + 1..], b, seps);
      GlueCut(a, b, seps);
      GluedBehind(a[..k], Split(a[k + 1..], seps), Split(b, seps));
    } else {
      GluePlain(a, b, seps);
    }
  }

  /** Past fronts of one length only the parts behind them count. */
  lemma {:induction false} CompareBehind(f: seq<string>, g: seq<string>, a: seq<string>, b: seq<string>, i: nat, num: Numeral)
    requires |f| == |g|
    ensures CompareFrom(f + a, g + b, |f| + i, num) == CompareFrom(a, b, i, num)
    decreases Longer(a, b) - i
  {
    CompareStep(f + a, g + b, |f| + i, num);
    CompareStep(a, b, i, num);
    if i < Longer(a, b) { CompareBehind(f, g, a, b, i + 1, num); }
  }

  lemma SameFront(front: seq<string>, a: seq<string>, b: seq<string>, num: Numeral)
    ensures CompareFrom(front + a, front + b, 0, num) == CompareFrom(a, b, 0, num)
  {
    assert Tied(front + a, front + b, |front|, num);
    TiedCompare(front + a, front + b, |front|, num);
    CompareBehind(front, front, a, b, 0, num);
  }

  /** What is left of a prefix behind its last separator, from its first digit on. */
  function Stem(prefix: string): string { Last(Parts(prefix)) }

  /** A version's parts with the stem in front of them. */
  function Stemmed(stem: string, v: string): seq<string> {
    var parts := Split(v, SEPARATORS);
    [stem + parts[0]] + parts[1..]
  }

  lemma StemmedPlain(v: string)
    ensures Stemmed("", v) == Split(v, SEPARATORS)
  {
    var parts := Split(v, SEPARATORS);
    assert "" + parts[0] == parts[0] && [parts[0]] + parts[1..] == parts;
  }

  lemma ComparesStemmed(prefix: string, v: string, w: string, num: Numeral)
    requires v != "" && IsDigit(v[0]) && w != "" && IsDigit(w[0])
    ensures Compare(prefix + v, prefix + w, num) == CompareFrom(Stemmed(Stem(prefix), v), Stemmed(Stem(prefix), w), 0, num)
    ensures Compare(v, w, num) == CompareFrom(Stemmed("", v), Stemmed("", w), 0, num)
  {
    NormaliseGlued(prefix, v);
    NormaliseGlued(prefix, w);
    SplitGlued(Normalise(prefix), v, SEPARATORS);
    SplitGlued(Normalise(prefix), w, SEPARATORS);
    var parts := Parts(prefix);
    SameFront(parts[..|parts| - 1], Stemmed(Stem(prefix), v), Stemmed(Stem(prefix), w), num);
    StemmedPlain(v);
    StemmedPlain(w);
  }

  /** Behind a prefix without a stem, tags compare exactly as whatever starts with a digit behind it. */
  lemma TagsCompareByVersion(prefix: string, v: string, w: string, num: Numeral)
    requires Stem(prefix) == "" && v != "" && IsDigit(v[0]) && w != "" && IsDigit(w[0])
    ensures Compare(prefix + v, prefix + w, num) == Compare(v, w, num)
  {
    ComparesStemmed(prefix, v, w, num);
  }

  predicate Zeros(x: string) { forall i :: 0 <= i < |x| ==> x[i] == '0' }

  /** A version that starts with a number. */
  predicate Numbered(v: string) { IsNumeral(Split(v, SEPARATORS)[0]) }

  lemma NumberedLeads(v: string)
    requires Numbered(v)
    ensures v != "" && IsDigit(v[0])
  {
    assert Split(v, SEPARATORS)[0] == v[..IndexOf(v, SEPARATORS)];
  }

  /** Behind the prefix, versions that start with a number keep their order. */
  ghost predicate KeepsOrder(prefix: string, num: Numeral) {
    forall v, w :: Numbered(v) && Numbered(w) ==>
      (Compare(prefix + v, prefix + w, num) < 0.0 <==> Compare(v, w, num) < 0.0)
  }

  lemma ZerosInFront(x: string, d: string)
    requires Zeros(x) && AllDigits(d)
    ensures AllDigits(x + d) && DecimalValue(x + d) == DecimalValue(d)
  {
    assert x == Run('0', |x|);
    LeadingZeros(|x|, d);
  }

  lemma StemmedStep(stem: string, v: string, w: string, num: Numeral)
    ensures var vs, ws := Split(v, SEPARATORS), Split(w, SEPARATORS);
            var r := CompareParts(stem + vs[0], stem + ws[0], num);
            CompareFrom(Stemmed(stem, v), Stemmed(stem, w), 0, num) ==
              if r != 0.0 then r else CompareFrom(vs[1..], ws[1..], 0, num)
  {
    var vs, ws := Split(v, SEPARATORS), Split(w, SEPARATORS);
    CompareStep(Stemmed(stem, v), Stemmed(stem, w), 0, num);
    CompareBehind([stem + vs[0]], [stem + ws[0]], vs[1..], ws[1..], 0, num);
  }

  lemma ZerosKeepOrder(prefix: string, v: string, w: string, num: Numeral)
    requires ReadsDigits(num) && Zeros(Stem(prefix)) && Numbered(v) && Numbered(w)
    ensures Compare(prefix + v, prefix + w, num) == Compare(v, w, num)
  {
    NumberedLeads(v);
    NumberedLeads(w);
    ComparesStemmed(prefix, v, w, num);
    StemmedStep(Stem(prefix), v, w, num);
    StemmedStep("", v, w, num);
    ZerosInFront(Stem(prefix), Split(v, SEPARATORS)[0]);
    ZerosInFront(Stem(prefix), Split(w, SEPARATORS)[0]);
    ZerosInFront("", Split(v, SEPARATORS)[0]);
    ZerosInFront("", Split(w, SEPARATORS)[0]);
  }

  lemma {:induction false} SomethingCounts(x: string)
    requires AllDigits(x) && !Zeros(x)
    ensures DecimalValue(x) > 0
  {
    if x[|x| - 1] == '0' { SomethingCounts(x[..|x| - 1]); }
  }

  lemma SinglePart(x: string, d: string)
    requires IsNumeral(d)
    ensures Numbered(d) && Stemmed(x, d) == [x + d] && Split(d, SEPARATORS) == [d]
  {
    forall c | c in d ensures c !in SEPARATORS {}
    SplitWhole(d);
  }

  lemma ComparesSingles(prefix: string, d: string, e: string, num: Numeral)
    requires IsNumeral(d) && IsNumeral(e)
    ensures Compare(prefix + d, prefix + e, num) == CompareParts(Stem(prefix) + d, Stem(prefix) + e, num)
    ensures Compare(d, e, num) == CompareParts(d, e, num)
  {
    SinglePart(Stem(prefix), d);
    SinglePart(Stem(prefix), e);
    SinglePart("", d);
    SinglePart("", e);
    ComparesStemmed(prefix, d, e, num);
    CompareStep([Stem(prefix) + d], [Stem(prefix) + e], 0, num);
    CompareStep(["" + d], ["" + e], 0, num);
    assert "" + d == d && "" + e == e;
  }

  /** Digits in front that are not all zeros make `08` the greater of `9` and `08`. */
  lemma DigitsTurn(prefix: string, num: Numeral)
    requires ReadsDigits(num) && AllDigits(Stem(prefix)) && !Zeros(Stem(prefix))
    ensures !KeepsOrder(prefix, num)
  {
    var x := Stem(prefix);
    ComparesSingles(prefix, "9", "08", num);
    SinglePart("", "9");
    SinglePart("", "08");
    DigitsAhead(x);
    DigitsAhead("");
    assert "" + "9" == "9" && "" + "08" == "08";
  }

  lemma DigitsAhead(x: string)
    requires AllDigits(x)
    ensures IsNumeral(x + "9") && DecimalValue(x + "9") == 10 * DecimalValue(x) + 9
    ensures IsNumeral(x + "08") && DecimalValue(x + "08") == 100 * DecimalValue(x) + 8
    ensures !Zeros(x) ==> DecimalValue(x + "9") < DecimalValue(x + "08")
  {
    if !Zeros(x) { SomethingCounts(x); }
    OneMoreDigit(x, '9');
    OneMoreDigit(x, '0');
    OneMoreDigit(x + "0", '8');
    assert x + "0" + ['8'] == x + "08";
  }

  lemma OneMoreDigit(x: string, d: char)
    requires AllDigits(x) && IsDigit(d)
    ensures IsNumeral(x + [d]) && DecimalValue(x + [d]) == 10 * DecimalValue(x) + (d - '0') as nat
  {
    assert (x + [d])[..|x|] == x;
  }

  /** A word in front makes text of the number, and `10` the lesser of `10` and `9`. */
  lemma WordTurns(prefix: string, num: Numeral)
    requires ReadsDigits(num) && num(Stem(prefix) + "10").None? && num(Stem(prefix) + "9").None?
    ensures Compare(prefix + "10", prefix + "9", num) < 0.0 && Compare("10", "9", num) > 0.0
    ensures !KeepsOrder(prefix, num)
  {
    var x := Stem(prefix);
    ComparesSingles(prefix, "10", "9", num);
    SinglePart("", "10");
    SinglePart("", "9");
    assert (x + "10")[..|x|] == (x + "9")[..|x|] == x;
    PartAt(x + "10", x + "9", |x|);
    LexAsymmetric(x + "10", x + "9");
    assert "9"[..0] == "" && "10"[..1] == "1" && "1"[..0] == "";
    assert DecimalValue("9") == 9 && DecimalValue("10") == 10;
  }

  /** With `x` in front every number is still read as one, and in the same order. */
  ghost predicate ReadsInOrder(x: string, num: Numeral) {
    forall d, e :: IsNumeral(d) && IsNumeral(e) ==>
      && num(x + d).Some? && num(x + e).Some?
      && (num(x + d).value < num(x + e).value <==> DecimalValue(d) < DecimalValue(e))
  }

  lemma InOrderCompare(prefix: string, v: string, w: string, num: Numeral)
    requires ReadsDigits(num) && ReadsInOrder(Stem(prefix), num) && Numbered(v) && Numbered(w)
    ensures Compare(prefix + v, prefix + w, num) < 0.0 <==> Compare(v, w, num) < 0.0
  {
    NumberedLeads(v);
    NumberedLeads(w);
    ComparesStemmed(prefix, v, w, num);
    StemmedStep(Stem(prefix), v, w, num);
    StemmedStep("", v, w, num);
    var x, d, e := Stem(prefix), Split(v, SEPARATORS)[0], Split(w, SEPARATORS)[0];
    assert "" + d == d && "" + e == e;
    SameSign(x, d, e, num);
  }

  lemma SameSign(x: string, d: string, e: string, num: Numeral)
    requires ReadsDigits(num) && ReadsInOrder(x, num) && IsNumeral(d) && IsNumeral(e)
    ensures CompareParts(x + d, x + e, num) < 0.0 <==> CompareParts(d, e, num) < 0.0
    ensures CompareParts(x + d, x + e, num) > 0.0 <==> CompareParts(d, e, num) > 0.0
  {
    assert num(x + d).Some? && num(x + e).Some?;
    assert num(x + d).value < num(x + e).value <==> DecimalValue(d) < DecimalValue(e);
    assert num(x + e).value < num(x + d).value <==> DecimalValue(e) < DecimalValue(d);
  }

  /** A number that is not read any more is told apart from itself with a zero in front. */
  lemma StillRead(prefix: string, d: string, num: Numeral)
    requires ReadsDigits(num) && KeepsOrder(prefix, num) && IsNumeral(d)
    ensures num(Stem(prefix) + d).Some?
  {
    var x, z := Stem(prefix), "0" + d;
    ZerosInFront("0", d);
    ComparesSingles(prefix, d, z, num);
    ComparesSingles(prefix, z, d, num);
    SinglePart("", d);
    SinglePart("", z);
    assert |x + d| != |x + z|;
    LexTotal(x + d, x + z);
  }

  /**
   * Behind a prefix versions are ordered as they are without it exactly when what the prefix leaves in
   * front of the number keeps it a number, and numbers in their order.
   */
  lemma PrefixKeepsOrderIff(prefix: string, num: Numeral)
    requires ReadsDigits(num)
    ensures KeepsOrder(prefix, num) <==> ReadsInOrder(Stem(prefix), num)
  {
    if ReadsInOrder(Stem(prefix), num) {
      forall v, w | Numbered(v) && Numbered(w)
        ensures Compare(prefix + v, prefix + w, num) < 0.0 <==> Compare(v, w, num) < 0.0
      {
        InOrderCompare(prefix, v, w, num);
      }
    }
    if KeepsOrder(prefix, num) {
      var x := Stem(prefix);
      forall d, e | IsNumeral(d) && IsNumeral(e)
        ensures num(x + d).Some? && num(x + e).Some?
        ensures num(x + d).value < num(x + e).value <==> DecimalValue(d) < DecimalValue(e)
      {
        StillRead(prefix, d, num);
        StillRead(prefix, e, num);
        ComparesSingles(prefix, d, e, num);
        SinglePart("", d);
        SinglePart("", e);
      }
    }
  }

  /**
   * If the stem is digits, or no number is read behind it, that is when the stem is empty or all
   * zeros: `s3-` does no harm, `s3-v` does.
   */
  lemma OrdinaryPrefixIff(prefix: string, num: Numeral)
    requires ReadsDigits(num)
    requires !AllDigits(Stem(prefix)) ==> forall d :: IsNumeral(d) ==> num(Stem(prefix) + d).None?
    ensures KeepsOrder(prefix, num) <==> Zeros(Stem(prefix))
  {
    if Zeros(Stem(prefix)) {
      forall v, w | Numbered(v) && Numbered(w)
        ensures Compare(prefix + v, prefix + w, num) < 0.0 <==> Compare(v, w, num) < 0.0
      {
        ZerosKeepOrder(prefix, v, w, num);
      }
    } else if AllDigits(Stem(prefix)) {
      DigitsTurn(prefix, num);
    } else {
      assert IsNumeral("10") && IsNumeral("9");
      WordTurns(prefix, num);
    }
  }

  lemma StemOfIt()
    ensures Stem("s3-v") == "v"
  {
    assert Normalise("s3-v") == "3-v" by { assert "s3-v"[1..] == "3-v"; }
    SplitAtFirst("3", '-', "v", SEPARATORS);
    SplitWhole("v");
    assert "3" + ['-'] + "v" == "3-v";
  }

  /** Behind `s3-v`, `10` is older than `9`. */
  lemma DigitInPrefix(num: Numeral)
    requires ReadsDigits(num) && num("v10") == None && num("v9") == None
    ensures Compare("s3-v" + "10", "s3-v" + "9", num) < 0.0
  {
    StemOfIt();
    assert "v" + "10" == "v10" && "v" + "9" == "v9";
    WordTurns("s3-v", num);
  }
}
