/**
 * Global search with a pattern anchored at line starts, whatever the pattern: the first match,
 * every match, and what an edit inside one match does to the search for another pattern.
 */
module Scanner {
  import opened Prelude

  /** A match: where the head is, and the literal from after its opening quote to its closing one. */
  datatype Span = Span(start: nat, open: nat, close: nat)

  predicate InText(s: string, i: nat, m: Span) {
    && i <= m.start < m.open <= m.close < |s|
    && s[m.open - 1] == '"' && s[m.close] == '"'
    && forall j :: m.open <= j < m.close ==> s[j] != '"'
  }

  /** A pattern, as what it matches when tried at a line start. */
  type Matcher = f: (string, nat) -> Option<Span> |
    forall s, i: nat :: i <= |s| && f(s, i).Some? ==> InText(s, i, f(s, i).value)
    witness (s: string, i: nat) => None

  predicate LineStart(s: string, i: nat, nl: set<char>)
    requires i <= |s|
  {
    i == 0 || s[i - 1] in nl
  }

  /** The first match at or after `i`. */
  function FirstMatch(s: string, i: nat, f: Matcher, nl: set<char>): (r: Option<Span>)
    requires i <= |s|
    ensures r.Some? ==> InText(s, i, r.value)
    decreases |s| - i
  {
    if LineStart(s, i, nl) && f(s, i).Some? then f(s, i)
    else if i == |s| then None
    else FirstMatch(s, i + 1, f, nl)
  }

  /** The literals of all matches from `i`, each search going on after the previous match. */
  function Values(s: string, i: nat, f: Matcher, nl: set<char>): seq<string>
    requires i <= |s|
    decreases |s| - i
  {
    match FirstMatch(s, i, f, nl)
    case None => []
    case Some(m) => [s[m.open..m.close]] + Values(s, m.close + 1, f, nl)
  }

  /** The one literal, or nothing when there is none or more. */
  function ReadWith(source: string, f: Matcher, nl: set<char>): Option<string> {
    var all := Values(source, 0, f, nl);
    if |all| == 1 then Some(all[0]) else None
  }

  function Replace(s: string, m: Span, v: string): string
    requires m.open <= m.close <= |s|
  {
    s[..m.open] + v + s[m.close..]
  }

  function WriteWith(source: string, f: Matcher, nl: set<char>, v: string): Option<string> {
    if ReadWith(source, f, nl).None? then None
    else
      var m := FirstMatch(source, 0, f, nl);
      if m.Some? then Some(Replace(source, m.value, v)) else Some(source)
  }

  // ----- the search, step by step

  lemma {:induction false} FirstStart(s: string, i: nat, f: Matcher, nl: set<char>) returns (k: nat)
    requires i <= |s| && FirstMatch(s, i, f, nl).Some?
    ensures i <= k <= |s| && LineStart(s, k, nl) && f(s, k) == FirstMatch(s, i, f, nl)
    ensures forall j :: i <= j < k && LineStart(s, j, nl) ==> f(s, j).None?
    decreases |s| - i
  {
    if LineStart(s, i, nl) && f(s, i).Some? {
      k := i;
    } else {
      k := FirstStart(s, i + 1, f, nl);
    }
  }

  lemma {:induction false} FirstMatchAt(s: string, i: nat, k: nat, f: Matcher, nl: set<char>)
    requires i <= k <= |s| && LineStart(s, k, nl) && f(s, k).Some?
    requires forall j :: i <= j < k && LineStart(s, j, nl) ==> f(s, j).None?
    ensures FirstMatch(s, i, f, nl) == f(s, k)
    decreases k - i
  {
    if i < k { FirstMatchAt(s, i + 1, k, f, nl); }
  }

  lemma ValuesStep(s: string, i: nat, f: Matcher, nl: set<char>)
    requires i < |s| && !(LineStart(s, i, nl) && f(s, i).Some?)
    ensures Values(s, i, f, nl) == Values(s, i + 1, f, nl)
  {}

  lemma ValuesMatch(s: string, i: nat, f: Matcher, nl: set<char>)
    requires i <= |s| && LineStart(s, i, nl) && f(s, i).Some?
    ensures var x := f(s, i).value;
            Values(s, i, f, nl) == [s[x.open..x.close]] + Values(s, x.close + 1, f, nl)
  {}

  /** At the line starts from `i` to before `j` there is nothing to find. */
  predicate Silent(s: string, i: nat, j: nat, f: Matcher, nl: set<char>) {
    forall k :: i <= k < j && k <= |s| && LineStart(s, k, nl) ==> f(s, k).None?
  }

  lemma {:induction false} Skip(s: string, i: nat, j: nat, f: Matcher, nl: set<char>)
    requires i <= j <= |s| && Silent(s, i, j, f, nl)
    ensures Values(s, i, f, nl) == Values(s, j, f, nl)
    decreases j - i
  {
    if i < j {
      ValuesStep(s, i, f, nl);
      Skip(s, i + 1, j, f, nl);
    }
  }

  // ----- two texts

  predicate SameUntil(s: string, t: string, n: nat) {
    n <= |s| && n <= |t| && forall j :: 0 <= j < n ==> s[j] == t[j]
  }

  /** From `c` on, `t` reads as `s` does, `d` characters further along. */
  predicate SameFrom(s: string, t: string, c: nat, d: int) {
    |t| == |s| + d && 0 <= c + d && forall j :: c <= j < |s| ==> s[j] == t[j + d]
  }

  predicate IsShifted(a: Option<Span>, b: Option<Span>, d: int) {
    || (a.None? && b.None?)
    || (a.Some? && b.Some? && b.value.start == a.value.start + d && b.value.open == a.value.open + d
        && b.value.close == a.value.close + d)
  }

  /** The matcher sees only what lies ahead of it. */
  ghost predicate LooksAhead(f: Matcher) {
    forall s, t, c: nat, d: int, i: nat, k: nat {:trigger SameFrom(s, t, c, d), IsShifted(f(s, i), f(t, k), d)} ::
      SameFrom(s, t, c, d) && c <= i <= |s| && k == i + d ==> IsShifted(f(s, i), f(t, k), d)
  }

  lemma AheadAt(f: Matcher, s: string, t: string, c: nat, d: int, i: nat)
    requires LooksAhead(f) && SameFrom(s, t, c, d) && c <= i <= |s|
    ensures IsShifted(f(s, i), f(t, i + d), d)
  {}

  lemma {:induction false} FirstShift(s: string, t: string, c: nat, d: int, i: nat, f: Matcher, nl: set<char>)
    requires LooksAhead(f) && SameFrom(s, t, c, d) && c < i <= |s|
    ensures IsShifted(FirstMatch(s, i, f, nl), FirstMatch(t, i + d, f, nl), d)
    decreases |s| - i
  {
    AheadAt(f, s, t, c, d, i);
    assert s[i - 1] == t[i - 1 + d];
    if !(LineStart(s, i, nl) && f(s, i).Some?) && i < |s| {
      FirstShift(s, t, c, d, i + 1, f, nl);
    }
  }

  lemma {:induction false} ValuesShift(s: string, t: string, c: nat, d: int, i: nat, f: Matcher, nl: set<char>)
    requires LooksAhead(f) && SameFrom(s, t, c, d) && c < i <= |s|
    ensures Values(t, i + d, f, nl) == Values(s, i, f, nl)
    decreases |s| - i
  {
    FirstShift(s, t, c, d, i, f, nl);
    var m := FirstMatch(s, i, f, nl);
    if m.Some? {
      var open, close := m.value.open, m.value.close;
      assert s[open..close] == t[open + d..close + d];
      ValuesShift(s, t, c, d, close + 1, f, nl);
    }
  }

  lemma SliceUntil(s: string, t: string, n: nat, a: nat, b: nat)
    requires SameUntil(s, t, n) && a <= b <= n
    ensures s[a..b] == t[a..b]
  {}

  lemma LineStartSame(s: string, t: string, n: nat, i: nat, nl: set<char>)
    requires SameUntil(s, t, n) && i <= n
    ensures LineStart(s, i, nl) == LineStart(t, i, nl)
  {}

  // ----- an edit

  /** `t` is `source` with the literal of `m` replaced by `v`. */
  predicate Edited(source: string, t: string, m: Span, v: string) {
    && SameUntil(source, t, m.open)
    && SameFrom(source, t, m.close, |v| - (m.close - m.open))
    && m.open + |v| < |t| && t[m.open..m.open + |v|] == v && t[m.open + |v|] == '"'
  }

  lemma ReplaceAround(s: string, m: Span, v: string)
    requires InText(s, 0, m)
    ensures Edited(s, Replace(s, m, v), m, v)
  {
    var t := Replace(s, m, v);
    forall j | 0 <= j < m.open ensures s[j] == t[j] {}
  }

  lemma ReplaceBack(s: string, m: Span, v: string)
    requires m.open <= m.close <= |s|
    ensures var t := Replace(s, m, v);
            Replace(t, Span(m.start, m.open, m.open + |v|), s[m.open..m.close]) == s
  {
    var t := Replace(s, m, v);
    assert t[..m.open] == s[..m.open] && t[m.open + |v|..] == s[m.close..];
  }

  lemma ReadIsFirst(s: string, f: Matcher, nl: set<char>) returns (m: Span)
    requires ReadWith(s, f, nl).Some?
    ensures FirstMatch(s, 0, f, nl) == Some(m) && InText(s, 0, m)
    ensures ReadWith(s, f, nl) == Some(s[m.open..m.close]) && Values(s, m.close + 1, f, nl) == []
    ensures forall v :: WriteWith(s, f, nl, v) == Some(Replace(s, m, v))
  {
    m := FirstMatch(s, 0, f, nl).value;
  }

  lemma EditedTail(source: string, t: string, f: Matcher, nl: set<char>, m: Span, v: string)
    requires LooksAhead(f) && InText(source, 0, m) && Edited(source, t, m, v)
    ensures Values(t, m.open + |v| + 1, f, nl) == Values(source, m.close + 1, f, nl)
  {
    var d, i, k := |v| - (m.close - m.open), m.close + 1, m.open + |v| + 1;
    assert k == i + d && i <= |source| && k <= |t|;
    ValuesShift(source, t, m.close, d, i, f, nl);
  }

  lemma ReadOne(s: string, f: Matcher, nl: set<char>, m: Span)
    requires FirstMatch(s, 0, f, nl) == Some(m) && InText(s, 0, m) && Values(s, m.close + 1, f, nl) == []
    ensures ReadWith(s, f, nl) == Some(s[m.open..m.close])
  {
    assert Values(s, 0, f, nl) == [s[m.open..m.close]] + [];
  }

  lemma ReadReplaced(t: string, f: Matcher, nl: set<char>, n: Span, v: string)
    requires FirstMatch(t, 0, f, nl) == Some(n)
    requires n.open + |v| < |t| && t[n.open..n.open + |v|] == v && n.close <= n.open + |v|
    requires '"' in v <==> n.close < n.open + |v|
    requires '"' !in v ==> Values(t, n.close + 1, f, nl) == []
    ensures ReadWith(t, f, nl) == Some(v) <==> '"' !in v
  {
    var rest := Values(t, n.close + 1, f, nl);
    assert Values(t, 0, f, nl) == [t[n.open..n.close]] + rest;
    assert |t[n.open..n.close]| == n.close - n.open;
  }

  /** An edit of a match within which, before and after, `f` finds nothing to begin. */
  predicate Unseen(s: string, t: string, m: Span, v: string, f: Matcher, nl: set<char>) {
    && InText(s, 0, m) && Edited(s, t, m, v)
    && Silent(s, m.start + 1, m.close + 1, f, nl)
    && Silent(t, m.start + 1, m.open + |v| + 1, f, nl)
  }

  /** Up to the edited match, `f` finds the same in both texts and nothing that reaches the literal. */
  ghost predicate KeepsClear(s: string, t: string, m: Span, f: Matcher) {
    forall i :: 0 <= i <= m.start ==>
      f(t, i) == f(s, i) && (f(s, i).Some? ==> f(s, i).value.close < m.open)
  }

  /** Nothing begins inside the edited match, so the search goes on behind it. */
  lemma SkipTheLiteral(s: string, t: string, i: nat, m: Span, v: string, f: Matcher, nl: set<char>)
    requires Unseen(s, t, m, v, f, nl) && LooksAhead(f) && m.start < i <= m.open
    ensures Values(t, i, f, nl) == Values(s, i, f, nl)
  {
    Skip(s, i, m.close + 1, f, nl);
    Skip(t, i, m.open + |v| + 1, f, nl);
    EditedTail(s, t, f, nl, m, v);
  }

  lemma {:induction false} OthersRead(s: string, t: string, i: nat, m: Span, v: string, f: Matcher, nl: set<char>)
    requires Unseen(s, t, m, v, f, nl) && LooksAhead(f) && KeepsClear(s, t, m, f) && i <= m.start
    ensures Values(t, i, f, nl) == Values(s, i, f, nl)
    decreases m.start - i
  {
    var next := OtherStep(s, t, i, m, f, nl);
    if next <= m.start {
      OthersRead(s, t, next, m, v, f, nl);
    } else {
      SkipTheLiteral(s, t, next, m, v, f, nl);
    }
  }

  /** One step of the search, the same in both texts and not past the literal. */
  lemma OtherStep(s: string, t: string, i: nat, m: Span, f: Matcher, nl: set<char>)
    returns (next: nat)
    requires SameUntil(s, t, m.open) && KeepsClear(s, t, m, f) && i <= m.start < m.open
    ensures i < next <= m.open
    ensures Values(t, next, f, nl) == Values(s, next, f, nl) ==> Values(t, i, f, nl) == Values(s, i, f, nl)
  {
    LineStartSame(s, t, m.open, i, nl);
    if LineStart(s, i, nl) && f(s, i).Some? {
      OverMatch(s, t, i, m, f, nl);
      next := f(s, i).value.close + 1;
    } else {
      OverNone(s, t, i, m, f, nl);
      next := i + 1;
    }
  }

  lemma OverNone(s: string, t: string, i: nat, m: Span, f: Matcher, nl: set<char>)
    requires SameUntil(s, t, m.open) && KeepsClear(s, t, m, f) && i <= m.start < m.open
    requires LineStart(s, i, nl) == LineStart(t, i, nl) && !(LineStart(s, i, nl) && f(s, i).Some?)
    ensures Values(s, i, f, nl) == Values(s, i + 1, f, nl) && Values(t, i, f, nl) == Values(t, i + 1, f, nl)
  {
    ValuesStep(s, i, f, nl);
    ValuesStep(t, i, f, nl);
  }

  lemma OverMatch(s: string, t: string, i: nat, m: Span, f: Matcher, nl: set<char>)
    requires SameUntil(s, t, m.open) && KeepsClear(s, t, m, f) && i <= m.start < m.open
    requires LineStart(s, i, nl) && LineStart(t, i, nl) && f(s, i).Some?
    ensures var next := f(s, i).value.close + 1;
            && i < next <= m.open
            && (Values(t, next, f, nl) == Values(s, next, f, nl) ==> Values(t, i, f, nl) == Values(s, i, f, nl))
  {
    var x := f(s, i).value;
    ValuesMatch(s, i, f, nl);
    ValuesMatch(t, i, f, nl);
    SliceUntil(s, t, m.open, x.open, x.close);
  }

  /** A pattern that keeps clear of the edited match and does not begin within it reads what it read. */
  lemma OthersKept(s: string, t: string, m: Span, v: string, f: Matcher, nl: set<char>)
    requires Unseen(s, t, m, v, f, nl) && LooksAhead(f) && KeepsClear(s, t, m, f)
    ensures ReadWith(t, f, nl) == ReadWith(s, f, nl)
  {
    OthersRead(s, t, 0, m, v, f, nl);
  }
}
