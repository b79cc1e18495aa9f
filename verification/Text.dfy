/** Strings as the components build and take them apart. */
module Text {
  import opened Prelude

  predicate StartsWith(s: string, prefix: string) {
    prefix <= s
  }

  predicate EndsWith(s: string, suffix: string) {
    |suffix| <= |s| && s[|s| - |suffix|..] == suffix
  }

  // ----- decimal numerals

  predicate IsDigit(c: char) {
    '0' <= c <= '9'
  }

  predicate AllDigits(s: string) {
    forall i :: 0 <= i < |s| ==> IsDigit(s[i])
  }

  /** `${n}` for a non-negative integer. */
  function Decimal(n: nat): (s: string)
    ensures s != [] && AllDigits(s)
  {
    var digit := ['0' + (n % 10) as char];
    if n < 10 then digit else Decimal(n / 10) + digit
  }

  function DecimalValue(s: string): nat
    requires AllDigits(s)
  {
    if s == [] then 0
    else 10 * DecimalValue(s[..|s| - 1]) + (s[|s| - 1] - '0') as nat
  }

  lemma {:induction false} DecimalRoundTrip(n: nat)
    ensures DecimalValue(Decimal(n)) == n
  {
    if n >= 10 {
      var s := Decimal(n);
      assert s[..|s| - 1] == Decimal(n / 10);
      DecimalRoundTrip(n / 10);
    }
  }

  /** The numeral without a zero in front, except for zero itself. */
  lemma {:induction false} NoZeroInFront(n: nat)
    ensures Decimal(n)[0] == '0' <==> n == 0
    ensures n == 0 ==> Decimal(n) == "0"
  {
    if n >= 10 { NoZeroInFront(n / 10); }
  }

  lemma DecimalInjective(m: nat, n: nat)
    ensures Decimal(m) == Decimal(n) <==> m == n
  {
    DecimalRoundTrip(m);
    DecimalRoundTrip(n);
  }

  // ----- separators

  /** Where the first separator is; the length when there is none. */
  function IndexOf(s: string, seps: set<char>): (k: nat)
    ensures k <= |s|
    ensures forall i :: 0 <= i < k ==> s[i] !in seps
    ensures k < |s| ==> s[k] in seps
  {
    if s == [] || s[0] in seps then 0 else 1 + IndexOf(s[1..], seps)
  }

  /** `s.split(/[seps]/)`: the runs between separators, empty ones included. */
  function Split(s: string, seps: set<char>): (r: seq<string>)
    ensures r != []
    ensures forall i :: 0 <= i < |r| ==> forall c :: c in r[i] ==> c !in seps
  {
    var k := IndexOf(s, seps);
    if k == |s| then [s] else [s[..k]] + Split(s[k + 1..], seps)
  }

  function Join(parts: seq<string>, sep: string): string {
    if parts == [] then ""
    else if |parts| == 1 then parts[0]
    else parts[0] + sep + Join(parts[1..], sep)
  }

  lemma IndexOfAt(head: string, c: char, tail: string, seps: set<char>)
    requires c in seps && forall x :: x in head ==> x !in seps
    ensures IndexOf(head + [c] + tail, seps) == |head|
  {
    var s := head + [c] + tail;
    var k := IndexOf(s, seps);
    forall i | 0 <= i < |head| ensures s[i] !in seps { assert s[i] in head; }
    assert s[|head|] == c;
  }

  lemma SplitAtFirst(head: string, c: char, tail: string, seps: set<char>)
    requires c in seps && forall x :: x in head ==> x !in seps
    ensures Split(head + [c] + tail, seps) == [head] + Split(tail, seps)
  {
    var s := head + [c] + tail;
    IndexOfAt(head, c, tail, seps);
    assert s[..|head|] == head && s[|head| + 1..] == tail;
  }

  /** Joining what was split on one character gives the string back. */
  lemma {:induction false} JoinSplit(s: string, sep: char)
    ensures Join(Split(s, {sep}), [sep]) == s
  {
    var k := IndexOf(s, {sep});
    if k < |s| {
      JoinSplit(s[k + 1..], sep);
      var rest := Split(s[k + 1..], {sep});
      assert ([s[..k]] + rest)[1..] == rest;
      assert s == s[..k] + [sep] + s[k + 1..];
    }
  }

  /** Splitting what was joined gives the parts back, when none holds the separator. */
  lemma {:induction false} SplitJoin(parts: seq<string>, sep: char)
    requires parts != []
    requires forall i :: 0 <= i < |parts| ==> sep !in parts[i]
    ensures Split(Join(parts, [sep]), {sep}) == parts
  {
    if |parts| == 1 {
      forall i | 0 <= i < |parts[0]| ensures parts[0][i] != sep { assert parts[0][i] in parts[0]; }
    } else {
      SplitJoin(parts[1..], sep);
      assert sep !in parts[0];
      SplitAtFirst(parts[0], sep, Join(parts[1..], [sep]), {sep});
      assert Join(parts, [sep]) == parts[0] + [sep] + Join(parts[1..], [sep]);
    }
  }

  /** A separator splits a string in one way when the left part does not hold it. */
  lemma FirstSeparator(a: string, b: string, c: string, d: string, sep: char)
    requires sep !in a && sep !in c
    ensures a + [sep] + b == c + [sep] + d <==> a == c && b == d
  {
    var s, t := a + [sep] + b, c + [sep] + d;
    IndexOfAt(a, sep, b, {sep});
    IndexOfAt(c, sep, d, {sep});
    assert s[..|a|] == a && s[|a| + 1..] == b;
    assert t[..|c|] == c && t[|c| + 1..] == d;
  }

  /** And in one way when the right part does not. */
  lemma LastSeparator(a: string, b: string, c: string, d: string, sep: char)
    requires sep !in b && sep !in d
    ensures a + [sep] + b == c + [sep] + d <==> a == c && b == d
  {
    var s, t := a + [sep] + b, c + [sep] + d;
    forall i | |a| < i < |s| ensures s[i] != sep { assert s[i] == b[i - |a| - 1]; }
    forall i | |c| < i < |t| ensures t[i] != sep { assert t[i] == d[i - |c| - 1]; }
    if s == t {
      assert s[|a|] == sep && t[|c|] == sep;
      assert s[..|a|] == a && s[|a| + 1..] == b;
      assert t[..|c|] == c && t[|c| + 1..] == d;
    }
  }

  // ----- trimming

  /** What JavaScript's `trim` and `\s` count as white space. */
  const WHITESPACE: set<char> :=
    {' ', '\t', '\n', '\r', '\U{0B}', '\U{0C}', '\U{A0}', '\U{1680}', '\U{2000}', '\U{2001}',
     '\U{2002}', '\U{2003}', '\U{2004}', '\U{2005}', '\U{2006}', '\U{2007}', '\U{2008}', '\U{2009}',
     '\U{200A}', '\U{2028}', '\U{2029}', '\U{202F}', '\U{205F}', '\U{3000}', '\U{FEFF}'}

  /** Rust's `trim` differs in two characters. */
  const RUST_WHITESPACE: set<char> := WHITESPACE - {'\U{FEFF}'} + {'\U{85}'}

  function TrimStart(s: string, white: set<char>): (r: string)
    ensures r == [] || r[0] !in white
  {
    if s != [] && s[0] in white then TrimStart(s[1..], white) else s
  }

  function TrimEnd(s: string, white: set<char>): (r: string)
    ensures r == [] || r[|r| - 1] !in white
  {
    if s != [] && s[|s| - 1] in white then TrimEnd(s[..|s| - 1], white) else s
  }

  function Trim(s: string, white: set<char>): string {
    TrimEnd(TrimStart(s, white), white)
  }

  lemma TrimSolid(s: string, white: set<char>)
    requires forall c :: c in s ==> c !in white
    ensures Trim(s, white) == s
  {
    if s != [] {
      assert s[0] in s && s[|s| - 1] in s;
    }
  }

  predicate AllWhite(s: string, white: set<char>) { forall c :: c in s ==> c in white }

  /** White space neither in front nor behind; nothing at all will do. */
  predicate Solid(s: string, white: set<char>) { s == "" || (s[0] !in white && s[|s| - 1] !in white) }

  lemma {:induction false} TrimStartPadded(before: string, rest: string, white: set<char>)
    requires AllWhite(before, white)
    ensures TrimStart(before + rest, white) == TrimStart(rest, white)
  {
    if before == "" {
      assert before + rest == rest;
    } else {
      assert (before + rest)[1..] == before[1..] + rest && before[0] in before;
      TrimStartPadded(before[1..], rest, white);
    }
  }

  lemma {:induction false} TrimEndPadded(rest: string, behind: string, white: set<char>)
    requires AllWhite(behind, white)
    ensures TrimEnd(rest + behind, white) == TrimEnd(rest, white)
  {
    if behind == "" {
      assert rest + behind == rest;
    } else {
      var n := |behind| - 1;
      assert (rest + behind)[..|rest| + n] == rest + behind[..n] && behind[n] in behind;
      TrimEndPadded(rest, behind[..n], white);
    }
  }

  /** White space around a text goes, and nothing of the text. */
  lemma TrimPadded(before: string, core: string, behind: string, white: set<char>)
    requires AllWhite(before, white) && AllWhite(behind, white) && Solid(core, white)
    ensures Trim(before + core + behind, white) == core
  {
    assert before + core + behind == before + (core + behind);
    TrimStartPadded(before, core + behind, white);
    if core == "" {
      TrimStartPadded(behind, "", white);
      assert core + behind == behind && behind + "" == behind;
    } else {
      TrimEndPadded(core, behind, white);
    }
  }

  /** By code point. */
  lemma WhiteByCode(c: char)
    ensures c in WHITESPACE <==> var v := c as int;
              || 9 <= v <= 13 || v == 32 || v == 160 || v == 5760 || 8192 <= v <= 8202
              || v == 8232 || v == 8233 || v == 8239 || v == 8287 || v == 12288 || v == 65279
    ensures c in RUST_WHITESPACE <==> (c in WHITESPACE && c as int != 65279) || c as int == 133
  {}

  // ----- lists of padded items

  datatype Padded = Padded(before: string, core: string, behind: string) {
    function Spelled(): string { before + core + behind }

    predicate Clean(white: set<char>, sep: char) {
      && AllWhite(before, white) && AllWhite(behind, white) && Solid(core, white)
      && sep !in before && sep !in core && sep !in behind
    }
  }

  function Spell(items: seq<Padded>): seq<string> { Map((i: Padded) => i.Spelled(), items) }

  function Cores(items: seq<Padded>): seq<string> { Map((i: Padded) => i.core, items) }

  /** Taken apart at its separators and trimmed, a list gives the cores of its items back. */
  lemma PaddedList(items: seq<Padded>, trim: string -> string, white: set<char>, sep: char)
    requires items != [] && (forall i :: i in items ==> i.Clean(white, sep)) && forall s :: trim(s) == Trim(s, white)
    ensures Map(trim, Split(Join(Spell(items), [sep]), {sep})) == Cores(items)
  {
    var parts := Spell(items);
    forall i | 0 <= i < |parts| ensures sep !in parts[i] && trim(parts[i]) == Cores(items)[i] {
      assert items[i] in items;
      TrimPadded(items[i].before, items[i].core, items[i].behind, white);
    }
    SplitJoin(parts, sep);
  }

  // ----- lexical order

  /** `a < b` on strings. */
  predicate LexLess(a: string, b: string) {
    b != [] && (a == [] || a[0] < b[0] || (a[0] == b[0] && LexLess(a[1..], b[1..])))
  }

  lemma {:induction false} LexTotal(a: string, b: string)
    ensures LexLess(a, b) || a == b || LexLess(b, a)
  {
    if a != [] && b != [] && a[0] == b[0] {
      LexTotal(a[1..], b[1..]);
      assert a == [a[0]] + a[1..] && b == [b[0]] + b[1..];
    }
  }

  lemma {:induction false} LexAsymmetric(a: string, b: string)
    requires LexLess(a, b)
    ensures a != b && !LexLess(b, a)
  {
    if a != [] && a[0] == b[0] {
      LexAsymmetric(a[1..], b[1..]);
    }
  }

  lemma {:induction false} LexTransitive(a: string, b: string, c: string)
    requires LexLess(a, b) && LexLess(b, c)
    ensures LexLess(a, c)
  {
    if a != [] && a[0] == b[0] == c[0] {
      LexTransitive(a[1..], b[1..], c[1..]);
    }
  }
}
