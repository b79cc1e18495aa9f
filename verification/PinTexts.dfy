/** Which texts hold a pin, and what is read of them (scripts/update-apps/versions.ts). */
module PinTexts {
  import opened Prelude
  import opened Text
  import opened Scanner
  import opened Pins

  /** Where a line ends for a regular expression. */
  predicate LineEnd(c: char) { c == '\n' || c == '\r' || c as int == 0x2028 || c as int == 0x2029 }

  /** Nothing, or text up to the end of a line. */
  predicate WholeLines(before: string) { before == "" || LineEnd(before[|before| - 1]) }

  /** At `p`, with only white space between it and the start of a line. */
  predicate Opens(text: string, p: nat, head: string) {
    && p + |head| <= |text| && text[p..p + |head|] == head
    && exists i :: 0 <= i <= p && (i == 0 || LineEnd(text[i - 1])) && AllWhite(text[i..p], WHITESPACE)
  }

  /** Nowhere else does a line open with it. */
  ghost predicate OpensOnce(text: string, here: nat, head: string) {
    forall p: nat :: Opens(text, p, head) ==> p == here
  }

  lemma EndsOfLines(c: char)
    ensures c in TERMINATORS <==> LineEnd(c)
  {}

  lemma SpacesTo(s: string, i: nat, k: nat, white: set<char>)
    requires i <= k <= |s| && AllWhite(s[i..k], white) && (k < |s| ==> s[k] !in white)
    ensures Spaces(s, i, white) == k
  {
    forall j | i <= j < k ensures s[j] in white { assert s[j] == s[i..k][j - i]; }
  }

  lemma QuoteAhead(s: string, i: nat, v: string)
    requires i + |v| < |s| && s[i..i + |v|] == v && s[i + |v|] == '"' && '"' !in v
    ensures ToQuote(s, i) == i + |v|
  {
    forall j | i <= j < i + |v| ensures s[j] != '"' { assert s[j] == s[i..i + |v|][j - i]; }
  }

  lemma HeadSliced(s: string, p: nat, head: string)
    ensures HeadAt(s, p, head) <==> p + |head| <= |s| && s[p..p + |head|] == head
  {
    if p + |head| <= |s| {
      var t := s[p..p + |head|];
      assert forall j :: 0 <= j < |head| ==> t[j] == s[p + j];
    }
  }

  /** An entry of a pattern opens a line. */
  lemma EntryOpens(s: string, pin: Pin, m: Span)
    requires Entry(s, ForPin(pin), TERMINATORS, m)
    ensures Opens(s, m.start, Head(pin))
  {
    var p := ForPin(pin);
    var k: nat :| k <= |s| && LineStart(s, k, TERMINATORS) && MatchAt(s, k, p) == Some(m);
    MatchIs(s, k, p, m);
    HeadSliced(s, m.start, p.head);
    if k > 0 { EndsOfLines(s[k - 1]); }
    forall c | c in s[k..m.start] ensures c in WHITESPACE {}
  }

  /** Where an entry starts says where its literal is. */
  lemma LiteralFollows(s: string, p: Pattern, m: Span)
    requires p.head != "" && Entry(s, p, TERMINATORS, m)
    ensures m.start + |p.head| <= |s| && m.open == GapEnd(s, m.start + |p.head|, p.gap, p.white) + 1
    ensures m.open <= |s| && s[m.open - 1] == '"' && m.close == ToQuote(s, m.open)
  {
    var k: nat :| k <= |s| && LineStart(s, k, TERMINATORS) && MatchAt(s, k, p) == Some(m);
    MatchIs(s, k, p, m);
  }

  /** Two entries that start at one place are one. */
  lemma OneEntryAPlace(s: string, p: Pattern, m: Span, x: Span)
    requires p.head != "" && Entry(s, p, TERMINATORS, m) && Entry(s, p, TERMINATORS, x) && m.start == x.start
    ensures m == x
  {
    LiteralFollows(s, p, m);
    LiteralFollows(s, p, x);
  }

  lemma SoleEntryIsRead(s: string, pin: Pin, m: Span)
    requires ValidPin(pin) && Entry(s, ForPin(pin), TERMINATORS, m) && OpensOnce(s, m.start, Head(pin))
    ensures m.close <= |s| && m.open <= m.close && Read(s, pin) == Some(s[m.open..m.close])
  {
    PinSolid(pin);
    forall x | Entry(s, ForPin(pin), TERMINATORS, x) ensures x == m {
      EntryOpens(s, pin, x);
      OneEntryAPlace(s, ForPin(pin), m, x);
    }
    OnlyEntry(s, ForPin(pin), TERMINATORS, m);
  }

  lemma NoEntryNoValue(s: string, pin: Pin)
    requires ValidPin(pin) && forall x :: !Entry(s, ForPin(pin), TERMINATORS, x)
    ensures Read(s, pin) == None
  {
    PinSolid(pin);
    if FirstMatch(s, 0, Try(ForPin(pin)), TERMINATORS).Some? {
      var m := MatchIsEntry(s, 0, ForPin(pin), TERMINATORS);
    }
  }

  // ----- an entry put together

  /** White space, a head, what stands between it and the literal, and the literal. */
  function EntryText(w1: string, head: string, gap: string, v: string): string {
    w1 + head + gap + "\"" + v + "\""
  }

  /** In `s` these parts stand one behind the other, from `k` on. */
  predicate Stands(s: string, k: nat, w1: string, head: string, gap: string, v: string) {
    var here := k + |w1|;
    var open := here + |head| + |gap| + 1;
    && open + |v| < |s| && s[k..here] == w1 && s[here..here + |head|] == head
    && s[here + |head|..open - 1] == gap && s[open - 1] == '"' && s[open..open + |v|] == v && s[open + |v|] == '"'
  }

  lemma PartsOf(before: string, w1: string, head: string, gap: string, v: string, after: string)
    ensures var s := before + EntryText(w1, head, gap, v) + after;
            Stands(s, |before|, w1, head, gap, v) && s[..|before|] == before
  {
    var s := before + EntryText(w1, head, gap, v) + after;
    assert s == before + (w1 + (head + (gap + ("\"" + (v + ("\"" + after))))));
  }

  lemma WhereItBegins(before: string, rest: string)
    requires WholeLines(before)
    ensures LineStart(before + rest, |before|, TERMINATORS)
  {
    if before != "" { EndsOfLines(before[|before| - 1]); }
  }

  function SpanOf(k: nat, w1: string, head: string, gap: string, v: string): Span {
    var open := k + |w1| + |head| + |gap| + 1;
    Span(k + |w1|, open, open + |v|)
  }

  /** Such an entry is matched by the pattern, if the pattern allows its gap. */
  lemma MatchStands(s: string, k: nat, w1: string, gap: string, v: string, p: Pattern)
    requires p.Solid() && p.white == WHITESPACE && AllWhite(w1, WHITESPACE) && '"' !in v
    requires AllWhite(gap, WHITESPACE) && (!p.gap ==> gap == "")
    requires Stands(s, k, w1, p.head, gap, v)
    ensures MatchAt(s, k, p) == Some(SpanOf(k, w1, p.head, gap, v))
  {
    var here, m := k + |w1|, SpanOf(k, w1, p.head, gap, v);
    assert s[here] == s[here..here + |p.head|][0];
    SpacesTo(s, k, here, WHITESPACE);
    HeadSliced(s, here, p.head);
    if p.gap { SpacesTo(s, here + |p.head|, m.open - 1, WHITESPACE); }
    QuoteAhead(s, m.open, v);
    MatchIs(s, k, p, m);
  }

  lemma LiteralStands(s: string, k: nat, w1: string, head: string, gap: string, v: string)
    requires Stands(s, k, w1, head, gap, v)
    ensures var m := SpanOf(k, w1, head, gap, v); m.open <= m.close <= |s| && s[m.open..m.close] == v
  {}

  lemma StandingIsRead(s: string, k: nat, w1: string, gap: string, v: string, pin: Pin)
    requires ValidPin(pin) && AllWhite(w1, WHITESPACE) && AllWhite(gap, WHITESPACE) && '"' !in v
    requires pin.Const? ==> gap == ""
    requires Stands(s, k, w1, Head(pin), gap, v) && LineStart(s, k, TERMINATORS) && OpensOnce(s, k + |w1|, Head(pin))
    ensures Read(s, pin) == Some(v)
  {
    PinStands(s, k, w1, gap, v, pin);
    LiteralStands(s, k, w1, Head(pin), gap, v);
    SoleEntryIsRead(s, pin, SpanOf(k, w1, Head(pin), gap, v));
  }

  lemma PinStands(s: string, k: nat, w1: string, gap: string, v: string, pin: Pin)
    requires ValidPin(pin) && AllWhite(w1, WHITESPACE) && AllWhite(gap, WHITESPACE) && '"' !in v
    requires pin.Const? ==> gap == ""
    requires Stands(s, k, w1, Head(pin), gap, v) && LineStart(s, k, TERMINATORS)
    ensures Entry(s, ForPin(pin), TERMINATORS, SpanOf(k, w1, Head(pin), gap, v))
  {
    PinSolid(pin);
    MatchStands(s, k, w1, gap, v, ForPin(pin));
    assert k <= |s| && LineStart(s, k, TERMINATORS);
  }

  // ----- a manifest

  /**
   * A dependency is read wherever its line stands, whatever white space is in front of the name and
   * between the colon and the literal, if no other line opens with the name.
   */
  lemma DependencyIsRead(before: string, w1: string, package: string, w2: string, v: string, after: string)
    requires package != "" && forall c :: c in package ==> c != '"' && !LineEnd(c)
    requires WholeLines(before) && AllWhite(w1, WHITESPACE) && AllWhite(w2, WHITESPACE) && '"' !in v
    requires OpensOnce(before + EntryText(w1, "\"" + package + "\":", w2, v) + after, |before| + |w1|,
                       "\"" + package + "\":")
    ensures Read(before + EntryText(w1, "\"" + package + "\":", w2, v) + after, Dependency(package)) == Some(v)
  {
    var entry := EntryText(w1, "\"" + package + "\":", w2, v);
    forall c | c in package ensures c != '"' && c !in TERMINATORS { EndsOfLines(c); }
    PartsOf(before, w1, "\"" + package + "\":", w2, v, after);
    WhereItBegins(before, entry + after);
    assert before + (entry + after) == before + entry + after;
    StandingIsRead(before + entry + after, |before|, w1, w2, v, Dependency(package));
  }

  // ----- an entry of a `versions.ts`

  /** A letter, and letters and digits behind it, by code point. */
  predicate Identifier(key: string) {
    key != "" && AsciiLetter(key[0] as int) && forall c :: c in key ==> AsciiLetter(c as int) || 48 <= c as int <= 57
  }

  predicate AsciiLetter(v: int) { 65 <= v <= 90 || 97 <= v <= 122 }

  lemma ConstIsValid(key: string)
    requires Identifier(key)
    ensures ValidPin(Const(key))
  {}

  lemma ShorterOpens(s: string, p: nat, head: string, more: string)
    requires Opens(s, p, head + more)
    ensures Opens(s, p, head)
  {
    assert s[p..p + |head|] == s[p..p + |head + more|][..|head|];
  }

  /** With the blank counted to the head there is no gap. */
  lemma BlankInHead(s: string, k: nat, w1: string, key: string, v: string)
    requires Stands(s, k, w1, key + ":", " ", v)
    ensures Stands(s, k, w1, key + ": ", "", v)
  {
    var here := k + |w1|;
    var n := |key| + 1;
    assert s[here..here + (n + 1)] == s[here..here + n] + s[here + n..here + n + 1];
    assert key + ": " == key + ":" + " ";
  }

  lemma KeyOpensOnce(s: string, here: nat, key: string)
    requires OpensOnce(s, here, key + ":")
    ensures OpensOnce(s, here, key + ": ")
  {
    assert key + ": " == key + ":" + " ";
    forall p: nat | Opens(s, p, key + ": ") ensures p == here { ShorterOpens(s, p, key + ":", " "); }
  }

  /** Where the literal does not follow one blank, there is no entry. */
  lemma NotBehindThisGap(s: string, k: nat, w1: string, key: string, gap: string, v: string, x: Span)
    requires Identifier(key) && AllWhite(gap, WHITESPACE) && Stands(s, k, w1, key + ":", gap, v)
    requires OpensOnce(s, k + |w1|, key + ":") && Entry(s, ForPin(Const(key)), TERMINATORS, x)
    ensures gap == " "
  {
    EntryOpens(s, Const(key), x);
    KeyOpensOnce(s, k + |w1|, key);
    OneBlank(s, x.start, key, gap);
    LiteralBehind(s, x, key);
  }

  lemma LiteralBehind(s: string, x: Span, key: string)
    requires Entry(s, ForPin(Const(key)), TERMINATORS, x)
    ensures x.start + |key| + 2 < |s| && s[x.start + |key| + 1] == ' ' && s[x.start + |key| + 2] == '"'
  {
    EntryOpens(s, Const(key), x);
    LiteralFollows(s, ForPin(Const(key)), x);
    assert s[x.start..x.start + (|key| + 2)][|key| + 1] == (key + ": ")[|key| + 1];
  }

  /** A gap behind the colon that starts with a blank and goes over to a quote is that blank. */
  lemma OneBlank(s: string, here: nat, key: string, gap: string)
    requires AllWhite(gap, WHITESPACE)
    requires here + |key| + 1 + |gap| < |s| && s[here + |key| + 1..here + |key| + 1 + |gap|] == gap
    requires s[here + |key| + 1 + |gap|] == '"'
    ensures here + |key| + 2 < |s| && s[here + |key| + 1] == ' ' && s[here + |key| + 2] == '"' ==> gap == " "
  {
    var behind := here + |key| + 1;
    if |gap| > 1 { assert gap[1] == s[behind + 1] && gap[1] in gap; }
    if |gap| > 0 { assert gap[0] == s[behind]; }
  }

  /** A key is read exactly when one blank, and nothing else, stands between its colon and the literal. */
  lemma ConstReadIff(before: string, w1: string, key: string, gap: string, v: string, after: string)
    requires Identifier(key) && WholeLines(before) && AllWhite(w1, WHITESPACE) && AllWhite(gap, WHITESPACE) && '"' !in v
    requires OpensOnce(before + EntryText(w1, key + ":", gap, v) + after, |before| + |w1|, key + ":")
    ensures Read(before + EntryText(w1, key + ":", gap, v) + after, Const(key)) == if gap == " " then Some(v) else None
  {
    var entry := EntryText(w1, key + ":", gap, v);
    PartsOf(before, w1, key + ":", gap, v, after);
    WhereItBegins(before, entry + after);
    assert before + (entry + after) == before + entry + after;
    StandingConst(before + entry + after, |before|, w1, key, gap, v);
  }

  lemma StandingConst(s: string, k: nat, w1: string, key: string, gap: string, v: string)
    requires Identifier(key) && AllWhite(w1, WHITESPACE) && AllWhite(gap, WHITESPACE) && '"' !in v
    requires Stands(s, k, w1, key + ":", gap, v) && LineStart(s, k, TERMINATORS) && OpensOnce(s, k + |w1|, key + ":")
    ensures Read(s, Const(key)) == if gap == " " then Some(v) else None
  {
    ConstIsValid(key);
    if gap == " " {
      BlankInHead(s, k, w1, key, v);
      KeyOpensOnce(s, k + |w1|, key);
      StandingIsRead(s, k, w1, "", v, Const(key));
    } else {
      forall x ensures !Entry(s, ForPin(Const(key)), TERMINATORS, x) {
        if Entry(s, ForPin(Const(key)), TERMINATORS, x) { NotBehindThisGap(s, k, w1, key, gap, v, x); }
      }
      NoEntryNoValue(s, Const(key));
    }
  }
}
