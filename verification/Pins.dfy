/**
 * Reading and rewriting one pin in a source text (scripts/update-apps/versions.ts). The regular
 * expressions are matched character by character: `^` in multi-line mode, greedy `\s*` that
 * crosses lines, and a literal that runs to the next quote, wherever that is.
 */
module Pins {
  import opened Prelude
  import opened Text
  import opened Scanner

  /** An entry of a `versions.ts`, or a dependency in a `package.json`. */
  datatype Pin = Const(key: string) | Dependency(package: string)

  const TERMINATORS: set<char> := {'\n', '\r', '\U{2028}', '\U{2029}'}

  /** What stands between the white space of the line and the literal. */
  function Head(p: Pin): string {
    match p
    case Const(key) => key + ": "
    case Dependency(package) => "\"" + package + "\":"
  }

  predicate Letter(c: char) { 'a' <= c <= 'z' || 'A' <= c <= 'Z' }

  /** A key is an identifier, as its schema has it; a package name stays within one literal. */
  predicate ValidPin(p: Pin) {
    match p
    case Const(key) => key != "" && Letter(key[0]) && forall c :: c in key ==> Letter(c) || IsDigit(c)
    case Dependency(package) => package != "" && forall c :: c in package ==> c != '"' && c !in TERMINATORS
  }

  // ----- matching

  function Spaces(s: string, i: nat, white: set<char>): (k: nat)
    requires i <= |s|
    ensures i <= k <= |s|
    ensures forall j :: i <= j < k ==> s[j] in white
    ensures k < |s| ==> s[k] !in white
    decreases |s| - i
  {
    if i == |s| || s[i] !in white then i else Spaces(s, i + 1, white)
  }

  function ToQuote(s: string, i: nat): (k: nat)
    requires i <= |s|
    ensures i <= k <= |s|
    ensures forall j :: i <= j < k ==> s[j] != '"'
    ensures k < |s| ==> s[k] == '"'
    decreases |s| - i
  {
    if i == |s| || s[i] == '"' then i else ToQuote(s, i + 1)
  }

  predicate HeadAt(s: string, i: nat, head: string) {
    i + |head| <= |s| && forall j :: 0 <= j < |head| ==> s[i + j] == head[j]
  }

  /** Past the white space that may follow the head, when any may. */
  function GapEnd(s: string, h: nat, gap: bool, white: set<char>): (o: nat)
    requires h <= |s|
    ensures h <= o <= |s|
  {
    if gap then Spaces(s, h, white) else h
  }

  /** What a pattern is made of: the head, whether a gap may follow it, and what white space is. */
  datatype Pattern = Pattern(head: string, gap: bool, white: set<char>) {
    /** A head that white space cannot be taken for, and quotes that are not white space. */
    predicate Solid() { head != "" && head[0] !in white && '"' !in white }
  }

  /** The pattern tried at `i`, the start of a line. */
  function MatchAt(s: string, i: nat, p: Pattern): (r: Option<Span>)
    requires i <= |s|
    ensures r.Some? && p.head != "" ==> InText(s, i, r.value)
  {
    var w := Spaces(s, i, p.white);
    if !HeadAt(s, w, p.head) then None
    else
      var o := GapEnd(s, w + |p.head|, p.gap, p.white);
      if o == |s| || s[o] != '"' then None
      else
        var c := ToQuote(s, o + 1);
        if c == |s| then None else Some(Span(w, o + 1, c))
  }

  /** The pattern as the scanner uses it. */
  function Try(p: Pattern): Matcher
    requires p.head != ""
  {
    (s: string, i: nat) => if i <= |s| then MatchAt(s, i, p) else None
  }

  /** Only a manifest may put white space between the colon and the literal. */
  function ForPin(p: Pin): (r: Pattern)
    ensures r.head != ""
  {
    Pattern(Head(p), p.Dependency?, WHITESPACE)
  }

  /** `readConst` and `readDependency`. */
  function Read(source: string, p: Pin): Option<string> {
    ReadWith(source, Try(ForPin(p)), TERMINATORS)
  }

  /** `writeConst` and `writeDependency`. */
  function Write(source: string, p: Pin, v: string): Option<string> {
    WriteWith(source, Try(ForPin(p)), TERMINATORS, v)
  }

  // ----- a match sees no further than its closing quote

  lemma SpacesSame(s: string, t: string, n: nat, i: nat, white: set<char>)
    requires SameUntil(s, t, n) && i < n && s[n - 1] !in white
    ensures Spaces(s, i, white) == Spaces(t, i, white) < n
  {}

  lemma ToQuoteSame(s: string, t: string, n: nat, i: nat)
    requires SameUntil(s, t, n) && i < n && s[n - 1] == '"'
    ensures ToQuote(s, i) == ToQuote(t, i) < n
  {}

  lemma GapSame(s: string, t: string, n: nat, h: nat, gap: bool, white: set<char>)
    requires SameUntil(s, t, n) && h < n && s[n - 1] !in white
    ensures GapEnd(s, h, gap, white) == GapEnd(t, h, gap, white) < n
  {
    SpacesSame(s, t, n, h, white);
  }

  lemma HeadSame(s: string, t: string, n: nat, i: nat, head: string)
    requires SameUntil(s, t, n) && i + |head| <= n
    ensures HeadAt(s, i, head) == HeadAt(t, i, head)
  {
    if HeadAt(t, i, head) {
      forall j | 0 <= j < |head| ensures s[i + j] == head[j] { assert t[i + j] == head[j]; }
    }
  }

  /** The opening quote a match at `i` would have, if `s` has the head there. */
  function OpenAt(s: string, i: nat, p: Pattern): nat
    requires i <= |s| && HeadAt(s, Spaces(s, i, p.white), p.head)
  {
    GapEnd(s, Spaces(s, i, p.white) + |p.head|, p.gap, p.white)
  }

  lemma MatchSame(s: string, t: string, n: nat, i: nat, p: Pattern)
    requires SameUntil(s, t, n) && i < n && s[n - 1] == '"' && '"' !in p.white
    requires Spaces(s, i, p.white) + |p.head| < n
    requires HeadAt(s, Spaces(s, i, p.white), p.head) ==> OpenAt(s, i, p) < n - 1
    ensures MatchAt(s, i, p) == MatchAt(t, i, p)
    ensures MatchAt(s, i, p).Some? ==> MatchAt(s, i, p).value.close < n
  {
    MatchIsSame(s, t, n, i, p);
    if HeadAt(s, Spaces(s, i, p.white), p.head) {
      ToQuoteSame(s, t, n, OpenAt(s, i, p) + 1);
    }
  }

  lemma MatchIsSame(s: string, t: string, n: nat, i: nat, p: Pattern)
    requires SameUntil(s, t, n) && i < n && s[n - 1] == '"' && '"' !in p.white
    requires Spaces(s, i, p.white) + |p.head| < n
    requires HeadAt(s, Spaces(s, i, p.white), p.head) ==> OpenAt(s, i, p) < n - 1
    ensures MatchAt(s, i, p) == MatchAt(t, i, p)
  {
    SpacesSame(s, t, n, i, p.white);
    var w := Spaces(s, i, p.white);
    HeadSame(s, t, n, w, p.head);
    if HeadAt(s, w, p.head) {
      GapSame(s, t, n, w + |p.head|, p.gap, p.white);
      var o := OpenAt(s, i, p);
      ToQuoteSame(s, t, n, o + 1);
      MatchFrom(s, i, p, o);
      MatchFrom(t, i, p, o);
    }
  }

  lemma MatchFrom(s: string, i: nat, p: Pattern, o: nat)
    requires i <= |s| && HeadAt(s, Spaces(s, i, p.white), p.head) && o == OpenAt(s, i, p) < |s|
    requires ToQuote(s, o + 1) < |s|
    ensures MatchAt(s, i, p) ==
            if s[o] == '"' then Some(Span(Spaces(s, i, p.white), o + 1, ToQuote(s, o + 1))) else None
  {}

  // ----- and no further back than where it starts

  lemma {:induction false} SpacesShift(s: string, t: string, c: nat, d: int, i: nat, white: set<char>)
    requires SameFrom(s, t, c, d) && c <= i <= |s|
    ensures Spaces(t, i + d, white) == Spaces(s, i, white) + d
    decreases |s| - i
  {
    if i < |s| {
      assert s[i] == t[i + d];
      if s[i] in white { SpacesShift(s, t, c, d, i + 1, white); }
    }
  }

  lemma {:induction false} ToQuoteShift(s: string, t: string, c: nat, d: int, i: nat)
    requires SameFrom(s, t, c, d) && c <= i <= |s|
    ensures ToQuote(t, i + d) == ToQuote(s, i) + d
    decreases |s| - i
  {
    if i < |s| {
      assert s[i] == t[i + d];
      if s[i] != '"' { ToQuoteShift(s, t, c, d, i + 1); }
    }
  }

  lemma HeadShift(s: string, t: string, c: nat, d: int, i: nat, head: string)
    requires SameFrom(s, t, c, d) && c <= i <= |s|
    ensures HeadAt(t, i + d, head) == HeadAt(s, i, head)
  {
    if HeadAt(s, i, head) {
      forall j | 0 <= j < |head| ensures t[i + d + j] == head[j] {
        assert s[i + j] == head[j] && s[i + j] == t[(i + j) + d];
      }
    }
    if HeadAt(t, i + d, head) {
      forall j | 0 <= j < |head| ensures s[i + j] == head[j] {
        assert t[i + d + j] == head[j] && s[i + j] == t[(i + j) + d];
      }
    }
  }

  lemma GapShift(s: string, t: string, c: nat, d: int, h: nat, gap: bool, white: set<char>)
    requires SameFrom(s, t, c, d) && c <= h <= |s|
    ensures GapEnd(t, h + d, gap, white) == GapEnd(s, h, gap, white) + d
  {
    SpacesShift(s, t, c, d, h, white);
  }

  /** A quoted literal at `o`, as far as its closing quote. */
  predicate Quoted(s: string, o: nat) {
    o < |s| && s[o] == '"' && ToQuote(s, o + 1) < |s|
  }

  lemma QuotedShift(s: string, t: string, c: nat, d: int, o: nat)
    requires SameFrom(s, t, c, d) && c <= o <= |s|
    ensures Quoted(t, o + d) == Quoted(s, o)
    ensures Quoted(s, o) ==> ToQuote(t, o + d + 1) == ToQuote(s, o + 1) + d
  {
    if o < |s| {
      assert s[o] == t[o + d];
      ToQuoteShift(s, t, c, d, o + 1);
    }
  }

  lemma HeadlessShift(s: string, t: string, c: nat, d: int, i: nat, p: Pattern)
    requires SameFrom(s, t, c, d) && c <= i <= |s|
    requires !HeadAt(s, Spaces(s, i, p.white), p.head)
    ensures MatchAt(s, i, p) == None && MatchAt(t, i + d, p) == None
  {
    SpacesShift(s, t, c, d, i, p.white);
    HeadShift(s, t, c, d, Spaces(s, i, p.white), p.head);
  }

  lemma HeadedShift(s: string, t: string, c: nat, d: int, i: nat, p: Pattern)
    requires SameFrom(s, t, c, d) && c <= i <= |s|
    requires HeadAt(s, Spaces(s, i, p.white), p.head)
    ensures HeadAt(t, Spaces(t, i + d, p.white), p.head)
    ensures c <= OpenAt(s, i, p) <= |s| && OpenAt(t, i + d, p) == OpenAt(s, i, p) + d
    ensures Spaces(t, i + d, p.white) == Spaces(s, i, p.white) + d
  {
    SpacesShift(s, t, c, d, i, p.white);
    var w := Spaces(s, i, p.white);
    HeadShift(s, t, c, d, w, p.head);
    GapShift(s, t, c, d, w + |p.head|, p.gap, p.white);
  }

  lemma MatchShift(s: string, t: string, c: nat, d: int, i: nat, p: Pattern)
    requires SameFrom(s, t, c, d) && c <= i <= |s| && p.head != ""
    ensures IsShifted(MatchAt(s, i, p), MatchAt(t, i + d, p), d)
  {
    if HeadAt(s, Spaces(s, i, p.white), p.head) {
      HeadedShift(s, t, c, d, i, p);
      QuotedShift(s, t, c, d, OpenAt(s, i, p));
    } else {
      HeadlessShift(s, t, c, d, i, p);
    }
  }

  lemma TryLooksAhead(p: Pattern)
    requires p.head != ""
    ensures LooksAhead(Try(p))
  {
    forall s, t, c: nat, d: int, i: nat, k: nat | SameFrom(s, t, c, d) && c <= i <= |s| && k == i + d
      ensures IsShifted(Try(p)(s, i), Try(p)(t, k), d)
    {
      MatchShift(s, t, c, d, i, p);
    }
  }

  // ----- the match that is rewritten stays the first one

  /** Two line starts with only white space between them match alike. */
  lemma MatchThrough(s: string, j: nat, k: nat, p: Pattern)
    requires j <= k <= |s| && k <= Spaces(s, j, p.white)
    ensures MatchAt(s, j, p) == MatchAt(s, k, p)
  {
    assert Spaces(s, j, p.white) == Spaces(s, k, p.white);
  }

  /** Only white space between two places, and a match at the second is one at the first. */
  lemma BlankStops(s: string, j: nat, k: nat, p: Pattern)
    requires j <= k <= |s| && MatchAt(s, k, p).Some? && MatchAt(s, j, p).None?
    ensures Spaces(s, j, p.white) < k
  {
    if k <= Spaces(s, j, p.white) { MatchThrough(s, j, k, p); }
  }

  lemma NoEarlier(s: string, t: string, j: nat, k: nat, m: Span, p: Pattern)
    requires p.Solid() && j < k <= |s| && MatchAt(s, k, p) == Some(m) && MatchAt(s, j, p).None?
    requires SameUntil(s, t, m.open)
    ensures MatchAt(t, j, p).None?
  {
    var w := Spaces(s, j, p.white);
    BlankStops(s, j, k, p);
    assert k <= m.start && m.start + |p.head| < m.open;
    if HeadAt(s, w, p.head) {
      GapSame(s, t, m.open, w + |p.head|, p.gap, p.white);
      assert ToQuote(s, m.open) == m.close;
      assert OpenAt(s, j, p) != m.open - 1;
    }
    MatchSame(s, t, m.open, j, p);
  }

  lemma HereReplaced(s: string, t: string, k: nat, m: Span, p: Pattern)
    requires p.Solid() && k <= |s| && MatchAt(s, k, p) == Some(m)
    requires SameUntil(s, t, m.open) && ToQuote(t, m.open) < |t|
    ensures MatchAt(t, k, p) == Some(Span(m.start, m.open, ToQuote(t, m.open)))
  {
    SpacesSame(s, t, m.open, k, p.white);
    HeadSame(s, t, m.open, m.start, p.head);
    GapSame(s, t, m.open, m.start + |p.head|, p.gap, p.white);
  }

  lemma FirstReplaced(s: string, t: string, p: Pattern, nl: set<char>, m: Span)
    requires p.Solid() && FirstMatch(s, 0, Try(p), nl) == Some(m)
    requires SameUntil(s, t, m.open) && ToQuote(t, m.open) < |t|
    ensures FirstMatch(t, 0, Try(p), nl) == Some(Span(m.start, m.open, ToQuote(t, m.open)))
  {
    var k := FirstStart(s, 0, Try(p), nl);
    HereReplaced(s, t, k, m, p);
    forall j | 0 <= j < k && LineStart(t, j, nl) ensures Try(p)(t, j).None? {
      LineStartSame(s, t, m.open, j, nl);
      NoEarlier(s, t, j, k, m, p);
    }
    LineStartSame(s, t, m.open, k, nl);
    FirstMatchAt(t, 0, k, Try(p), nl);
  }

  // ----- reading what was written

  /** The literal now runs to the first quote of what was written, or to the old closing quote. */
  lemma QuoteIn(t: string, open: nat, v: string)
    requires open + |v| < |t| && t[open..open + |v|] == v && t[open + |v|] == '"'
    ensures ToQuote(t, open) <= open + |v|
    ensures '"' in v <==> ToQuote(t, open) < open + |v|
  {
    forall j | 0 <= j < |v| ensures t[open + j] == v[j] { assert t[open..open + |v|][j] == v[j]; }
    if i :| 0 <= i < |v| && v[i] == '"' { assert t[open + i] == '"'; }
    if ToQuote(t, open) < open + |v| { assert v[ToQuote(t, open) - open] == '"'; }
  }

  lemma EditedIsFound(source: string, t: string, p: Pattern, nl: set<char>, m: Span, v: string)
    requires p.Solid() && FirstMatch(source, 0, Try(p), nl) == Some(m) && Edited(source, t, m, v)
    ensures FirstMatch(t, 0, Try(p), nl) == Some(Span(m.start, m.open, ToQuote(t, m.open)))
    ensures m.open <= ToQuote(t, m.open) <= m.open + |v| < |t|
    ensures '"' in v <==> ToQuote(t, m.open) < m.open + |v|
  {
    QuoteIn(t, m.open, v);
    FirstReplaced(source, t, p, nl, m);
  }

  lemma NothingBehind(source: string, t: string, p: Pattern, nl: set<char>, m: Span, v: string)
    requires p.Solid() && InText(source, 0, m) && Edited(source, t, m, v)
    requires Values(source, m.close + 1, Try(p), nl) == []
    ensures Values(t, m.open + |v| + 1, Try(p), nl) == []
  {
    TryLooksAhead(p);
    EditedTail(source, t, Try(p), nl, m, v);
  }

  lemma {:induction false} EditedIsRead(source: string, t: string, p: Pattern, nl: set<char>, m: Span, v: string)
    requires p.Solid() && FirstMatch(source, 0, Try(p), nl) == Some(m)
    requires Values(source, m.close + 1, Try(p), nl) == [] && Edited(source, t, m, v)
    ensures ToQuote(t, m.open) < |t|
    ensures FirstMatch(t, 0, Try(p), nl) == Some(Span(m.start, m.open, ToQuote(t, m.open)))
    ensures ReadWith(t, Try(p), nl) == Some(v) <==> '"' !in v
  {
    EditedIsFound(source, t, p, nl, m, v);
    NothingBehind(source, t, p, nl, m, v);
    ReadReplaced(t, Try(p), nl, Span(m.start, m.open, ToQuote(t, m.open)), v);
  }

  lemma Rewritten(source: string, p: Pattern, nl: set<char>, v: string) returns (m: Span, t: string)
    requires p.Solid() && ReadWith(source, Try(p), nl).Some?
    ensures FirstMatch(source, 0, Try(p), nl) == Some(m) && InText(source, 0, m) && Edited(source, t, m, v)
    ensures t == Replace(source, m, v) && WriteWith(source, Try(p), nl, v) == Some(t) && ToQuote(t, m.open) < |t|
    ensures FirstMatch(t, 0, Try(p), nl) == Some(Span(m.start, m.open, ToQuote(t, m.open)))
    ensures ReadWith(t, Try(p), nl) == Some(v) <==> '"' !in v
  {
    m := ReadIsFirst(source, Try(p), nl);
    t := Replace(source, m, v);
    ReplaceAround(source, m, v);
    EditedIsRead(source, t, p, nl, m, v);
  }

  lemma Undone(source: string, p: Pattern, nl: set<char>, v: string)
    requires p.Solid() && ReadWith(source, Try(p), nl).Some? && '"' !in v
    ensures var t := WriteWith(source, Try(p), nl, v);
            t.Some? && WriteWith(t.value, Try(p), nl, ReadWith(source, Try(p), nl).value) == Some(source)
  {
    var m, t := Rewritten(source, p, nl, v);
    var first := ReadIsFirst(source, Try(p), nl);
    var n := ReadIsFirst(t, Try(p), nl);
    QuoteIn(t, m.open, v);
    ReplaceBack(source, m, v);
  }

  lemma PinSolid(p: Pin)
    requires ValidPin(p)
    ensures ForPin(p).Solid()
  {
    if p.Const? {
      assert Head(p)[0] == p.key[0];
      LettersAreSolid(p.key[0]);
    } else {
      assert Head(p)[0] == '"';
    }
  }

  lemma LettersAreSolid(c: char)
    requires Letter(c) || IsDigit(c) || c == ':' || c == '"'
    ensures c !in WHITESPACE
  {}

  /**
   * A pin that can be read can be written, and reading then gives back what was written exactly
   * when that holds no quote; it may hold anything else, line breaks included.
   */
  lemma WrittenIsRead(source: string, p: Pin, v: string)
    requires ValidPin(p) && Read(source, p).Some?
    ensures Write(source, p, v).Some?
    ensures Read(Write(source, p, v).value, p) == Some(v) <==> '"' !in v
  {
    PinSolid(p);
    var m, t := Rewritten(source, ForPin(p), TERMINATORS, v);
  }

  /** Only the literal changes: the text before it and the text after it are where they were. */
  lemma WriteChangesTheLiteral(source: string, p: Pin, v: string) returns (before: string, after: string)
    requires Read(source, p).Some?
    ensures source == before + Read(source, p).value + after
    ensures Write(source, p, v) == Some(before + v + after)
    ensures before != "" && before[|before| - 1] == '"' && after != "" && after[0] == '"'
  {
    var m := ReadIsFirst(source, Try(ForPin(p)), TERMINATORS);
    before, after := source[..m.open], source[m.close..];
  }

  /** Writing the old value back restores the source, character for character. */
  lemma WriteIsUndone(source: string, p: Pin, v: string)
    requires ValidPin(p) && Read(source, p).Some? && '"' !in v
    ensures Write(source, p, v).Some?
    ensures Write(Write(source, p, v).value, p, Read(source, p).value) == Some(source)
  {
    PinSolid(p);
    Undone(source, ForPin(p), TERMINATORS, v);
  }

  // ----- what reading means

  /** An entry for the pin: at the start of a line the pattern matches there, with this span. */
  ghost predicate Entry(s: string, p: Pattern, nl: set<char>, m: Span) {
    exists k: nat :: k <= |s| && LineStart(s, k, nl) && MatchAt(s, k, p) == Some(m)
  }

  /** Which it does when white space, the head, the gap and a quoted literal stand there. */
  lemma MatchIs(s: string, k: nat, p: Pattern, m: Span)
    requires k <= |s| && p.head != ""
    ensures MatchAt(s, k, p) == Some(m) <==>
      && m.start == Spaces(s, k, p.white) && HeadAt(s, m.start, p.head)
      && m.open == GapEnd(s, m.start + |p.head|, p.gap, p.white) + 1
      && m.open <= |s| && s[m.open - 1] == '"' && m.close == ToQuote(s, m.open) < |s|
  {}

  lemma {:induction false} SomeMatch(s: string, i: nat, k: nat, f: Matcher, nl: set<char>)
    requires i <= k <= |s| && LineStart(s, k, nl) && f(s, k).Some?
    ensures FirstMatch(s, i, f, nl).Some?
    decreases k - i
  {
    if i < k { SomeMatch(s, i + 1, k, f, nl); }
  }

  lemma SpacesUpTo(s: string, j: nat, c: nat, white: set<char>)
    requires j <= c < |s| && s[c] !in white
    ensures j <= Spaces(s, j, white) <= c
  {}

  lemma NoneBehind(s: string, i: nat, j: nat, f: Matcher, nl: set<char>)
    requires i <= |s| && j <= |s| && LineStart(s, j, nl) && f(s, j).Some?
    requires Values(s, i, f, nl) == []
    ensures j < i
  {
    if i <= j { SomeMatch(s, i, j, f, nl); }
  }

  /** An entry behind the one that is read would be a second match, unless it begins within the first. */
  lemma EntryPlace(s: string, k: nat, m: Span, j: nat, x: Span, p: Pattern, nl: set<char>)
    requires p.Solid() && k <= |s| && MatchAt(s, k, p) == Some(m)
    requires k <= j <= m.close && MatchAt(s, j, p) == Some(x)
    ensures m.start <= x.start <= m.close
  {
    MatchIs(s, k, p, m);
    MatchIs(s, j, p, x);
    if j <= m.start {
      MatchThrough(s, k, j, p);
    } else {
      SpacesUpTo(s, j, m.close, p.white);
    }
  }

  lemma EntryWithin(s: string, k: nat, m: Span, x: Span, p: Pattern, nl: set<char>)
    requires p.Solid() && k <= |s| && MatchAt(s, k, p) == Some(m) && Entry(s, p, nl, x)
    requires forall i :: 0 <= i < k && LineStart(s, i, nl) ==> Try(p)(s, i).None?
    requires Values(s, m.close + 1, Try(p), nl) == []
    ensures m.start <= x.start <= m.close
  {
    var j: nat :| j <= |s| && LineStart(s, j, nl) && MatchAt(s, j, p) == Some(x);
    EntryWithinFrom(s, k, m, j, x, p, nl);
  }

  lemma EntryWithinFrom(s: string, k: nat, m: Span, j: nat, x: Span, p: Pattern, nl: set<char>)
    requires p.Solid() && k <= |s| && MatchAt(s, k, p) == Some(m)
    requires j <= |s| && LineStart(s, j, nl) && MatchAt(s, j, p) == Some(x)
    requires forall i :: 0 <= i < k && LineStart(s, i, nl) ==> Try(p)(s, i).None?
    requires Values(s, m.close + 1, Try(p), nl) == []
    ensures m.start <= x.start <= m.close
  {
    assert Try(p)(s, j).Some?;
    NoneBehind(s, m.close + 1, j, Try(p), nl);
    EntryPlace(s, k, m, j, x, p, nl);
  }

  lemma ReadEntry(source: string, p: Pattern, nl: set<char>) returns (m: Span)
    requires p.Solid() && ReadWith(source, Try(p), nl).Some?
    ensures Entry(source, p, nl, m) && InText(source, 0, m)
    ensures ReadWith(source, Try(p), nl) == Some(source[m.open..m.close])
    ensures forall x :: Entry(source, p, nl, x) ==> m.start <= x.start <= m.close
  {
    m := ReadIsFirst(source, Try(p), nl);
    var k := FirstStart(source, 0, Try(p), nl);
    assert MatchAt(source, k, p) == Some(m);
    forall x | Entry(source, p, nl, x) ensures m.start <= x.start <= m.close {
      EntryWithin(source, k, m, x, p, nl);
    }
  }

  lemma MatchIsEntry(s: string, i: nat, p: Pattern, nl: set<char>) returns (m: Span)
    requires p.Solid() && i <= |s| && FirstMatch(s, i, Try(p), nl).Some?
    ensures FirstMatch(s, i, Try(p), nl) == Some(m) && Entry(s, p, nl, m) && InText(s, i, m)
  {
    m := FirstMatch(s, i, Try(p), nl).value;
    var k := FirstStart(s, i, Try(p), nl);
    assert MatchAt(s, k, p) == Some(m);
  }

  lemma NoSecond(s: string, p: Pattern, nl: set<char>, m: Span)
    requires p.Solid() && InText(s, 0, m) && forall x :: Entry(s, p, nl, x) ==> x == m
    ensures Values(s, m.close + 1, Try(p), nl) == []
  {
    if FirstMatch(s, m.close + 1, Try(p), nl).Some? {
      var second := MatchIsEntry(s, m.close + 1, p, nl);
    }
  }

  lemma EntryIsFound(s: string, p: Pattern, nl: set<char>, m: Span)
    requires p.Solid() && Entry(s, p, nl, m)
    ensures FirstMatch(s, 0, Try(p), nl).Some?
  {
    var j: nat :| j <= |s| && LineStart(s, j, nl) && MatchAt(s, j, p) == Some(m);
    SomeMatch(s, 0, j, Try(p), nl);
  }

  lemma OnlyEntry(source: string, p: Pattern, nl: set<char>, m: Span)
    requires p.Solid() && Entry(source, p, nl, m) && forall x :: Entry(source, p, nl, x) ==> x == m
    ensures InText(source, 0, m) && ReadWith(source, Try(p), nl) == Some(source[m.open..m.close])
  {
    EntryIsFound(source, p, nl, m);
    var first := MatchIsEntry(source, 0, p, nl);
    NoSecond(source, p, nl, m);
    ReadOne(source, Try(p), nl, m);
  }

  /**
   * A value that is read is the literal of an entry for the pin, and every other entry for it begins
   * within that one. Where there is one entry and no other, its literal is what is read.
   */
  lemma ReadMeans(source: string, p: Pin)
    requires ValidPin(p)
    ensures Read(source, p).Some? ==>
      exists m :: Entry(source, ForPin(p), TERMINATORS, m) && InText(source, 0, m)
        && Read(source, p) == Some(source[m.open..m.close])
        && forall x :: Entry(source, ForPin(p), TERMINATORS, x) ==> m.start <= x.start <= m.close
    ensures forall m ::
      Entry(source, ForPin(p), TERMINATORS, m) && (forall x :: Entry(source, ForPin(p), TERMINATORS, x) ==> x == m)
      ==> InText(source, 0, m) && Read(source, p) == Some(source[m.open..m.close])
  {
    PinSolid(p);
    if Read(source, p).Some? { var m := ReadEntry(source, ForPin(p), TERMINATORS); }
    forall m | Entry(source, ForPin(p), TERMINATORS, m) && forall x :: Entry(source, ForPin(p), TERMINATORS, x) ==> x == m
      ensures InText(source, 0, m) && Read(source, p) == Some(source[m.open..m.close])
    {
      OnlyEntry(source, ForPin(p), TERMINATORS, m);
    }
  }

  // ----- every other pin

  /** Neither head begins with the other, so no place in a text has both. */
  lemma HeadsApart(p: Pin, q: Pin, s: string, i: nat)
    requires ValidPin(p) && ValidPin(q) && p != q && HeadAt(s, i, Head(p))
    ensures !HeadAt(s, i, Head(q))
  {
    var hp, hq := Head(p), Head(q);
    if HeadAt(s, i, hq) {
      assert s[i] == hp[0] && s[i] == hq[0];
      match (p, q)
      case (Const(a), Const(b)) => KeyAt(a, s, i); KeyAt(b, s, i); NamesApart(a, b, s, i, ':');
      case (Dependency(a), Dependency(b)) => PackageAt(a, s, i); PackageAt(b, s, i); NamesApart(a, b, s, i + 1, '"');
      case (Const(a), Dependency(b)) => LettersAreNotQuotes(a[0]);
      case (Dependency(a), Const(b)) => LettersAreNotQuotes(b[0]);
    }
  }

  lemma LettersAreNotQuotes(c: char)
    requires Letter(c)
    ensures c != '"'
  {}

  /** A name in front of its mark: the mark is not in it, so it ends where the mark first is. */
  predicate NameAt(s: string, i: nat, name: string, mark: char) {
    && i + |name| < |s| && s[i + |name|] == mark
    && forall k :: i <= k < i + |name| ==> s[k] == name[k - i] && s[k] != mark
  }

  lemma NamesApart(a: string, b: string, s: string, i: nat, mark: char)
    requires NameAt(s, i, a, mark) && NameAt(s, i, b, mark)
    ensures a == b
  {
    forall j | 0 <= j < |a| && j < |b| ensures a[j] == b[j] {
      assert s[i + j] == a[(i + j) - i];
    }
  }

  lemma KeyAt(key: string, s: string, i: nat)
    requires ValidPin(Const(key)) && HeadAt(s, i, Head(Const(key)))
    ensures NameAt(s, i, key, ':')
  {
    var h := Head(Const(key));
    assert s[i + |key|] == h[|key|];
    forall k | i <= k < i + |key| ensures s[k] == key[k - i] && s[k] != ':' {
      var j := k - i;
      assert s[i + j] == h[j] && key[j] in key;
    }
  }

  lemma PackageAt(package: string, s: string, i: nat)
    requires ValidPin(Dependency(package)) && HeadAt(s, i, Head(Dependency(package)))
    ensures NameAt(s, i + 1, package, '"')
  {
    var h := Head(Dependency(package));
    assert s[i + (|package| + 1)] == h[|package| + 1];
    forall k | i + 1 <= k < i + 1 + |package| ensures s[k] == package[k - i - 1] && s[k] != '"' {
      var j := k - i - 1;
      assert s[i + (j + 1)] == h[j + 1] && package[j] in package;
    }
  }

  ghost predicate NeverBoth(p: Pattern, q: Pattern) {
    forall s, i: nat :: HeadAt(s, i, p.head) ==> !HeadAt(s, i, q.head)
  }

  /** Two different pins, of one grammar; line ends are white space and in nobody's head. */
  ghost predicate Separate(p: Pattern, q: Pattern, nl: set<char>) {
    && p.Solid() && q.Solid() && p.white == q.white && nl <= p.white
    && NeverBoth(p, q)
    && forall c :: c in q.head ==> c !in nl
  }

  lemma HeadWithin(s: string, i: nat, j: nat, q: Pattern, nl: set<char>)
    requires HeadAt(s, i, q.head) && i <= j < i + |q.head| && forall c :: c in q.head ==> c !in nl
    ensures s[j] !in nl
  {
    assert s[i + (j - i)] == q.head[j - i] && q.head[j - i] in q.head;
  }

  /** Up to the head of the edited match, other pins match as before and end before the literal. */
  lemma OthersSame(s: string, t: string, i: nat, k: nat, m: Span, p: Pattern, q: Pattern,
                   nl: set<char>)
    requires Separate(p, q, nl) && SameUntil(s, t, m.open)
    requires k <= |s| && LineStart(s, k, nl) && MatchAt(s, k, p) == Some(m) && i <= m.start
    ensures MatchAt(t, i, q) == MatchAt(s, i, q)
    ensures MatchAt(s, i, q).Some? ==> MatchAt(s, i, q).value.close < m.open
  {
    var n, w := m.open, Spaces(s, i, q.white);
    assert m.start + |p.head| < n && HeadAt(s, m.start, p.head);
    SpacesSame(s, t, n, i, q.white);
    if w >= m.start {
      HeadSame(s, t, n, m.start, p.head);
      assert w == m.start;
    } else {
      assert w + 1 < k;
      if w + |q.head| >= k {
        if HeadAt(s, w, q.head) { HeadWithin(s, w, k - 1, q, nl); assert false; }
        if HeadAt(t, w, q.head) { HeadWithin(t, w, k - 1, q, nl); assert false; }
      } else {
        MatchSame(s, t, n, i, q);
      }
    }
  }

  lemma OthersClear(s: string, t: string, m: Span, v: string, p: Pattern, q: Pattern, nl: set<char>)
    requires Separate(p, q, nl) && FirstMatch(s, 0, Try(p), nl) == Some(m) && Edited(s, t, m, v)
    ensures KeepsClear(s, t, m, Try(q)) && LooksAhead(Try(q))
  {
    TryLooksAhead(q);
    var k := FirstStart(s, 0, Try(p), nl);
    forall i | 0 <= i <= m.start
      ensures Try(q)(t, i) == Try(q)(s, i) && (Try(q)(s, i).Some? ==> Try(q)(s, i).value.close < m.open)
    {
      OthersSame(s, t, i, k, m, p, q, nl);
    }
  }

  lemma PinsSeparate(p: Pin, q: Pin)
    requires ValidPin(p) && ValidPin(q) && p != q
    ensures Separate(ForPin(p), ForPin(q), TERMINATORS)
  {
    PinSolid(p);
    PinSolid(q);
    forall s, i: nat | HeadAt(s, i, Head(p)) ensures !HeadAt(s, i, Head(q)) { HeadsApart(p, q, s, i); }
    forall c | c in Head(q) ensures c !in TERMINATORS { HeadHoldsNoLineEnd(q, c); }
  }

  lemma HeadHoldsNoLineEnd(q: Pin, c: char)
    requires ValidPin(q) && c in Head(q)
    ensures c !in TERMINATORS
  {}

  /** Where `p` is read in the text, no line within its match opens an entry for `q`. */
  predicate NoneWithin(text: string, p: Pin, q: Pin, end: nat) {
    var m := FirstMatch(text, 0, Try(ForPin(p)), TERMINATORS);
    m.Some? ==> Silent(text, m.value.start + 1, m.value.open + end + 1, Try(ForPin(q)), TERMINATORS)
  }

  /**
   * Rewriting a pin leaves what another reads as it was, unless a line within the old literal or the
   * new one opens an entry for the other.
   */
  lemma OtherPinsKeepTheirValue(source: string, p: Pin, q: Pin, v: string)
    requires ValidPin(p) && ValidPin(q) && p != q && Read(source, p).Some?
    requires NoneWithin(source, p, q, |Read(source, p).value|)
    requires Write(source, p, v).Some? && NoneWithin(Write(source, p, v).value, p, q, |v|)
    ensures Read(Write(source, p, v).value, q) == Read(source, q)
  {
    PinsSeparate(p, q);
    PinSolid(p);
    var m, t := Rewritten(source, ForPin(p), TERMINATORS, v);
    var first := ReadIsFirst(source, Try(ForPin(p)), TERMINATORS);
    assert m.open + |Read(source, p).value| == m.close;
    OthersClear(source, t, m, v, ForPin(p), ForPin(q), TERMINATORS);
    OthersKept(source, t, m, v, Try(ForPin(q)), TERMINATORS);
  }

  // ----- values that open no entry

  /** No line of the value but its first begins with the head, nor is blank if the head begins with a quote. */
  predicate Inert(v: string, q: Pattern, nl: set<char>)
    requires q.head != ""
  {
    forall i :: 0 <= i < |v| && v[i] in nl ==>
      var w := Spaces(v, i + 1, q.white);
      !HeadAt(v, w, q.head) && (q.head[0] == '"' ==> w < |v|)
  }

  /** Standing as `p`'s literal, the value opens no entry for `q`. */
  predicate Harmless(p: Pin, v: string, q: Pin) {
    && '"' !in v && Inert(v, ForPin(q), TERMINATORS)
    && (p.Dependency? && q.Dependency? ==> v != q.package)
  }

  lemma SpacesInLiteral(s: string, open: nat, v: string, j: nat, white: set<char>)
    requires open <= j <= open + |v| < |s| && s[open..open + |v|] == v && s[open + |v|] !in white
    ensures Spaces(s, j, white) == open + Spaces(v, j - open, white)
    decreases |v| - (j - open)
  {
    if j < open + |v| {
      assert s[open..open + |v|][j - open] == s[j];
      if s[j] in white { SpacesInLiteral(s, open, v, j + 1, white); }
    }
  }

  lemma HeadChar(s: string, i: nat, head: string, k: nat)
    requires HeadAt(s, i, head) && k < |head|
    ensures s[i + k] == head[k] && head[k] in head
  {}

  lemma NoQuoteAt(v: string, i: nat)
    requires '"' !in v && i < |v|
    ensures v[i] != '"'
  {}

  lemma HeadInLiteral(s: string, open: nat, v: string, i: nat, head: string)
    requires i <= |v| && open + |v| < |s| && s[open..open + |v|] == v && s[open + |v|] == '"' && '"' !in v
    requires head != "" && (head[0] == '"' || '"' !in head) && HeadAt(s, open + i, head)
    ensures if i == |v| then head[0] == '"' else HeadAt(v, i, head)
  {
    assert s[open + i + 0] == head[0];
    if i < |v| {
      assert s[open..open + |v|][i] == v[i] && v[i] in v;
      if i + |head| > |v| { HeadChar(s, open + i, head, |v| - i); }
      forall j | 0 <= j < |head| ensures v[i + j] == head[j] {
        assert s[open + i + j] == head[j] && s[open..open + |v|][i + j] == s[open + i + j];
      }
    }
  }

  /** A line that starts within an inert literal opens nothing. */
  lemma SilentInLiteral(s: string, open: nat, v: string, j: nat, q: Pattern, nl: set<char>)
    requires q.Solid() && (q.head[0] == '"' || '"' !in q.head) && '"' !in v && Inert(v, q, nl)
    requires open < j <= open + |v| < |s| && s[open..open + |v|] == v && s[open + |v|] == '"' && s[j - 1] in nl
    ensures MatchAt(s, j, q).None?
  {
    var i := j - open;
    assert s[open..open + |v|][i - 1] == s[j - 1];
    SpacesInLiteral(s, open, v, j, q.white);
    var w := Spaces(v, i, q.white);
    assert v[i - 1] in nl && w == Spaces(v, (i - 1) + 1, q.white);
    if HeadAt(s, open + w, q.head) { HeadInLiteral(s, open, v, w, q.head); }
  }

  /** A line that starts in the gap has the literal in front of it, and opens only what that names. */
  lemma SilentInGap(s: string, j: nat, open: nat, v: string, q: Pattern, name: string)
    requires q.Solid() && (q.head[0] == '"' ==> q.head == "\"" + name + "\":" && '"' !in name && name != v)
    requires 0 < j < open <= |s| && s[open - 1] == '"' && Spaces(s, j, q.white) == open - 1
    requires '"' !in v && open + |v| < |s| && s[open..open + |v|] == v && s[open + |v|] == '"'
    ensures MatchAt(s, j, q).None?
  {
    if HeadAt(s, open - 1, q.head) {
      assert s[open - 1 + 0] == q.head[0];
      QuotedName(s, open, v, name);
    }
  }

  lemma QuotedName(s: string, open: nat, v: string, name: string)
    requires 0 < open && '"' !in v && '"' !in name
    requires open + |v| < |s| && s[open..open + |v|] == v && s[open + |v|] == '"'
    requires HeadAt(s, open - 1, "\"" + name + "\":")
    ensures name == v
  {
    var head := "\"" + name + "\":";
    forall j | 0 <= j < |name| ensures s[open + j] == name[j] && name[j] in name {
      assert s[open - 1 + (j + 1)] == head[j + 1];
    }
    assert s[open - 1 + (|name| + 1)] == head[|name| + 1] == '"';
    forall j | 0 <= j < |v| ensures s[open + j] == v[j] && v[j] in v { assert s[open..open + |v|][j] == v[j]; }
    if |name| < |v| { NoQuoteAt(v, |name|); }
    if |v| < |name| { NoQuoteAt(name, |v|); }
  }

  /** Between a head and its literal there is only the gap. */
  lemma GapIsWhite(s: string, m: Span, j: nat, p: Pattern, nl: set<char>)
    requires p.Solid() && m.start + |p.head| <= |s| && HeadAt(s, m.start, p.head)
    requires m.open == GapEnd(s, m.start + |p.head|, p.gap, p.white) + 1 && m.open <= |s| && s[m.open - 1] == '"'
    requires m.start < j < m.open && s[j - 1] in nl && '"' !in nl && forall c :: c in p.head ==> c !in nl
    ensures p.gap && Spaces(s, j, p.white) == m.open - 1
  {
    if j - 1 < m.start + |p.head| { HeadWithin(s, m.start, j - 1, p, nl); }
    SpacesBetween(s, m.start + |p.head|, j, p.white);
  }

  lemma SpacesBetween(s: string, i: nat, j: nat, white: set<char>)
    requires i <= |s| && i <= j <= Spaces(s, i, white)
    ensures Spaces(s, j, white) == Spaces(s, i, white)
  {}

  /** Within the match of a pin whose value is harmless nothing opens an entry for the other. */
  lemma SilentWithin(s: string, k: nat, m: Span, v: string, p: Pattern, q: Pattern, name: string, nl: set<char>)
    requires p.Solid() && q.Solid() && p.white == q.white && '"' !in nl && forall c :: c in p.head ==> c !in nl
    requires k <= |s| && MatchAt(s, k, p) == Some(m) && v == s[m.open..m.close]
    requires '"' !in v && Inert(v, q, nl) && (q.head[0] == '"' || '"' !in q.head)
    requires p.gap && q.head[0] == '"' ==> q.head == "\"" + name + "\":" && '"' !in name && name != v
    ensures Silent(s, m.start + 1, m.close + 1, Try(q), nl)
  {
    forall j | m.start + 1 <= j < m.close + 1 && j <= |s| && LineStart(s, j, nl) ensures Try(q)(s, j).None? {
      SilentFrom(s, k, m, v, j, p, q, name, nl);
    }
  }

  lemma SilentFrom(s: string, k: nat, m: Span, v: string, j: nat, p: Pattern, q: Pattern, name: string, nl: set<char>)
    requires p.Solid() && q.Solid() && p.white == q.white && '"' !in nl && forall c :: c in p.head ==> c !in nl
    requires k <= |s| && MatchAt(s, k, p) == Some(m) && v == s[m.open..m.close]
    requires '"' !in v && Inert(v, q, nl) && (q.head[0] == '"' || '"' !in q.head)
    requires p.gap && q.head[0] == '"' ==> q.head == "\"" + name + "\":" && '"' !in name && name != v
    requires m.start < j <= m.close && j <= |s| && LineStart(s, j, nl)
    ensures MatchAt(s, j, q).None?
  {
    MatchIs(s, k, p, m);
    if j < m.open {
      GapIsWhite(s, m, j, p, nl);
      SilentInGap(s, j, m.open, v, q, name);
    } else {
      assert j != m.open;
      SilentInLiteral(s, m.open, v, j, q, nl);
    }
  }

  lemma HeadQuotes(q: Pin)
    requires ValidPin(q)
    ensures Head(q)[0] == '"' || '"' !in Head(q)
    ensures q.Dependency? <==> Head(q)[0] == '"'
    ensures q.Dependency? ==> Head(q) == "\"" + q.package + "\":" && '"' !in q.package
  {
    if q.Const? {
      forall c | c in q.key ensures c != '"' {}
      assert Head(q)[0] == q.key[0] && q.key[0] in q.key;
    }
  }

  lemma HarmlessIsSilent(text: string, p: Pin, q: Pin)
    requires ValidPin(p) && ValidPin(q) && Read(text, p).Some? && Harmless(p, Read(text, p).value, q)
    ensures NoneWithin(text, p, q, |Read(text, p).value|)
  {
    PinSolid(p);
    PinSolid(q);
    HeadQuotes(q);
    forall c | c in Head(p) ensures c !in TERMINATORS { HeadHoldsNoLineEnd(p, c); }
    var m := ReadIsFirst(text, Try(ForPin(p)), TERMINATORS);
    var k := FirstStart(text, 0, Try(ForPin(p)), TERMINATORS);
    SilentWithin(text, k, m, Read(text, p).value, ForPin(p), ForPin(q), if q.Dependency? then q.package else "", TERMINATORS);
  }

  /** Harmless values, old and new, leave every other pin reading what it read; they may run over several lines. */
  lemma HarmlessWrite(source: string, p: Pin, q: Pin, v: string)
    requires ValidPin(p) && ValidPin(q) && p != q && Read(source, p).Some?
    requires Harmless(p, Read(source, p).value, q) && Harmless(p, v, q)
    ensures Write(source, p, v).Some?
    ensures Read(Write(source, p, v).value, p) == Some(v)
    ensures Read(Write(source, p, v).value, q) == Read(source, q)
  {
    WrittenIsRead(source, p, v);
    HarmlessIsSilent(source, p, q);
    HarmlessIsSilent(Write(source, p, v).value, p, q);
    OtherPinsKeepTheirValue(source, p, q, v);
  }

  predicate PlainValue(v: string) {
    forall c :: c in v ==> c != '"' && c !in TERMINATORS
  }

  /** A value on one line is harmless, unless it is a dependency's and the name of the other. */
  lemma PlainIsHarmless(p: Pin, v: string, q: Pin)
    requires PlainValue(v) && (p.Dependency? && q.Dependency? ==> v != q.package)
    ensures Harmless(p, v, q)
  {
    forall i | 0 <= i < |v| ensures v[i] !in TERMINATORS { assert v[i] in v; }
  }

  // ----- an input for which it fails

  const BROKEN: string := "\nb: "

  lemma EntryHere(s: string, k: nat, p: Pattern, c: nat)
    requires k + |p.head| < |s| && p.head != "" && s[k] !in p.white && HeadAt(s, k, p.head)
    requires !p.gap && s[k + |p.head|] == '"' && k + |p.head| + 1 <= c < |s| && s[c] == '"'
    requires forall j :: k + |p.head| + 1 <= j < c ==> s[j] != '"'
    ensures MatchAt(s, k, p) == Some(Span(k, k + |p.head| + 1, c))
  {}

  lemma HeadFirst(s: string, k: nat, head: string)
    requires head != "" && HeadAt(s, k, head)
    ensures s[k] == head[0]
  {
    assert s[k + 0] == head[0];
  }

  lemma NoHeadHere(s: string, k: nat, p: Pattern)
    requires k < |s| && p.head != "" && s[k] !in p.white && s[k] != p.head[0]
    ensures MatchAt(s, k, p) == None
  {
    if HeadAt(s, k, p.head) { HeadFirst(s, k, p.head); }
  }

  /** With no line that starts but at `i` and `k`, and nothing at `i`, the literal at `k` is what is read. */
  lemma OnlyAt(s: string, k: nat, p: Pattern, nl: set<char>, m: Span)
    requires p.Solid() && k <= |s| && LineStart(s, k, nl) && MatchAt(s, k, p) == Some(m)
    requires Silent(s, 0, k, Try(p), nl) && Silent(s, m.close + 1, |s|, Try(p), nl)
    requires |s| > 0 && s[|s| - 1] !in nl
    ensures ReadWith(s, Try(p), nl) == Some(s[m.open..m.close]) && FirstMatch(s, 0, Try(p), nl) == Some(m)
  {
    Skip(s, 0, k, Try(p), nl);
    FirstMatchAt(s, 0, k, Try(p), nl);
    OnlyFrom(s, k, p, nl, m);
    var first := Values(s, 0, Try(p), nl);
    assert first == [s[m.open..m.close]];
  }

  lemma OnlyFrom(s: string, k: nat, p: Pattern, nl: set<char>, m: Span)
    requires p.Solid() && k <= |s| && LineStart(s, k, nl) && MatchAt(s, k, p) == Some(m)
    requires Silent(s, m.close + 1, |s|, Try(p), nl) && |s| > 0 && s[|s| - 1] !in nl
    ensures Values(s, k, Try(p), nl) == [s[m.open..m.close]]
  {
    ValuesMatch(s, k, Try(p), nl);
    Skip(s, m.close + 1, |s|, Try(p), nl);
    assert Values(s, |s|, Try(p), nl) == [];
  }

  const BEFORE: string := "a: \"1\"\nb: \"2\""
  const AFTER: string := "a: \"\nb: \"\nb: \"2\""

  /** Of what is in the two texts, only the line break ends a line. */
  predicate Ends(nl: set<char>) {
    '\n' in nl && 'a' !in nl && 'b' !in nl && ':' !in nl && ' ' !in nl && '"' !in nl && '1' !in nl && '2' !in nl
  }

  lemma SilentStretch(s: string, i: nat, j: nat, f: Matcher, nl: set<char>)
    requires 0 < i <= j <= |s| && forall x :: i - 1 <= x < j - 1 ==> s[x] !in nl
    ensures Silent(s, i, j, f, nl)
  {
    forall k | i <= k < j ensures !LineStart(s, k, nl) { assert s[k - 1] !in nl; }
  }

  lemma SilentFromStart(s: string, j: nat, f: Matcher, nl: set<char>)
    requires 0 < j <= |s| && f(s, 0).None? && forall x :: 0 <= x < j - 1 ==> s[x] !in nl
    ensures Silent(s, 0, j, f, nl)
  {
    SilentStretch(s, 1, j, f, nl);
  }

  lemma BeforeLines(nl: set<char>)
    requires Ends(nl)
    ensures |BEFORE| == 13 && BEFORE[6] in nl && forall x :: 0 <= x < 13 && x != 6 ==> BEFORE[x] !in nl
  {
    var s := BEFORE;
    assert s[0] == 'a' && s[1] == ':' && s[2] == ' ' && s[3] == '"' && s[4] == '1' && s[5] == '"' && s[6] == '\n';
    assert s[7] == 'b' && s[8] == ':' && s[9] == ' ' && s[10] == '"' && s[11] == '2' && s[12] == '"';
  }

  lemma AfterLines(nl: set<char>)
    requires Ends(nl)
    ensures |AFTER| == 16 && AFTER[4] in nl && AFTER[9] in nl
    ensures forall x :: 0 <= x < 16 && x != 4 && x != 9 ==> AFTER[x] !in nl
  {
    var t := AFTER;
    assert t[0] == 'a' && t[1] == ':' && t[2] == ' ' && t[3] == '"' && t[4] == '\n' && t[5] == 'b' && t[6] == ':';
    assert t[7] == ' ' && t[8] == '"' && t[9] == '\n' && t[10] == 'b' && t[11] == ':' && t[12] == ' ' && t[13] == '"';
    assert t[14] == '2' && t[15] == '"';
  }

  lemma BeforeRead(q: Pattern, nl: set<char>)
    requires q == Pattern("b: ", false, q.white) && 'a' !in q.white && 'b' !in q.white && '"' !in q.white && Ends(nl)
    ensures ReadWith(BEFORE, Try(q), nl) == Some("2")
  {
    BeforeLines(nl);
    NoHeadHere(BEFORE, 0, q);
    EntryHere(BEFORE, 7, q, 12);
    SilentFromStart(BEFORE, 7, Try(q), nl);
    OnlyAt(BEFORE, 7, q, nl, Span(7, 11, 12));
    assert BEFORE[11..12] == "2";
  }

  lemma AfterRead(q: Pattern, nl: set<char>)
    requires q == Pattern("b: ", false, q.white) && 'a' !in q.white && 'b' !in q.white && '"' !in q.white && Ends(nl)
    ensures ReadWith(AFTER, Try(q), nl) == Some(BROKEN)
  {
    AfterLines(nl);
    NoHeadHere(AFTER, 0, q);
    EntryHere(AFTER, 5, q, 13);
    SilentFromStart(AFTER, 5, Try(q), nl);
    SilentStretch(AFTER, 14, 16, Try(q), nl);
    OnlyAt(AFTER, 5, q, nl, Span(5, 9, 13));
    assert AFTER[9..13] == BROKEN;
  }

  lemma BeforeWritten(p: Pattern, nl: set<char>)
    requires p == Pattern("a: ", false, p.white) && 'a' !in p.white && 'b' !in p.white && '"' !in p.white && Ends(nl)
    ensures WriteWith(BEFORE, Try(p), nl, BROKEN) == Some(AFTER)
  {
    BeforeLines(nl);
    EntryHere(BEFORE, 0, p, 5);
    NoHeadHere(BEFORE, 7, p);
    SilentStretch(BEFORE, 6, 7, Try(p), nl);
    SilentStretch(BEFORE, 8, 13, Try(p), nl);
    assert Silent(BEFORE, 6, 13, Try(p), nl);
    OnlyAt(BEFORE, 0, p, nl, Span(0, 4, 5));
    assert Replace(BEFORE, Span(0, 4, 5), BROKEN) == AFTER;
  }

  /**
   * A value without a quote can still bring a line of its own: a line break and `b: `, written into
   * `a`, make the closing quote of `a` open a literal for `b`.
   */
  lemma LineBreakTakesAnother()
    ensures '"' !in BROKEN && Read(BEFORE, Const("b")) == Some("2")
    ensures Write(BEFORE, Const("a"), BROKEN) == Some(AFTER) && Read(AFTER, Const("b")) == Some(BROKEN)
  {
    LettersAreSolid('a');
    LettersAreSolid('b');
    LettersAreSolid('"');
    BeforeRead(ForPin(Const("b")), TERMINATORS);
    BeforeWritten(ForPin(Const("a")), TERMINATORS);
    AfterRead(ForPin(Const("b")), TERMINATORS);
  }
}
