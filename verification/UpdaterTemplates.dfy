/** What a template makes of a version (scripts/update-apps/versions.ts), and the pins that lose their value to it. */
module UpdaterTemplates {
  import opened Prelude
  import opened Text
  import opened Pins
  import opened Updater
  import opened UpdaterPasses
  import Versions
  import Scanner

  // ----- pins that are lost

  predicate HolesOnly(template: string) {
    template == "" || (HOLE <= template && HolesOnly(template[|HOLE|..]))
  }

  /** A replacement that stands for nothing, with nothing before it or nothing after it. */
  predicate Gone(r: string, noneBefore: bool, noneAfter: bool) {
    r == "" || (|r| > 1 && r[0] == '$' && ((r[1] == '`' && noneBefore) || (r[1] == '\'' && noneAfter))
                && Gone(r[2..], noneBefore, noneAfter))
  }

  lemma {:induction false} ExpandsToNothing(r: string, before: string, after: string)
    ensures Expand(r, before, after) == "" <==> Gone(r, before == "", after == "")
    decreases |r|
  {
    if |r| > 1 { ExpandsToNothing(r[2..], before, after); }
  }

  lemma {:induction false} FillsToNothing(before: string, template: string, version: string)
    ensures version == "" ==> (Fill(before, template, version) == "" <==> HolesOnly(template))
    ensures version != "" && before != "" && Fill(before, template, version) == "" ==>
              template == "" || Gone(version, false, true) || Gone(version, false, false)
    decreases |template|
  {
    if HOLE <= template {
      ExpandsToNothing(version, before, template[|HOLE|..]);
      FillsToNothing(before + HOLE, template[|HOLE|..], version);
    }
  }

  /** What a filled template comes to nothing for, whatever the template and the version. */
  lemma TemplateEmptyIff(template: string, version: string)
    ensures ApplyTemplate(template, version) == "" <==>
      || template == "" || (HolesOnly(template) && version == "") || (template == HOLE && Gone(version, true, true))
  {
    FillsToNothing("", template, version);
    if HOLE <= template {
      var rest := template[|HOLE|..];
      assert template == HOLE + rest;
      ExpandsToNothing(version, "", rest);
      FillsToNothing(HOLE, rest, version);
      assert "" + HOLE == HOLE;
    }
  }

  predicate NoDigit(tag: string) { forall c :: c in tag ==> !IsDigit(c) }

  lemma {:induction false} NormaliseEmptyIff(tag: string)
    ensures Versions.Normalise(tag) == "" <==> NoDigit(tag)
    ensures Versions.Normalise(tag) != "" ==> IsDigit(Versions.Normalise(tag)[0])
  {
    if tag != "" && !IsDigit(tag[0]) {
      NormaliseEmptyIff(tag[1..]);
      assert tag == [tag[0]] + tag[1..];
    }
  }

  /**
   * The template is empty, or nothing but holes for a release tag without a digit; or it is one hole
   * for a branch whose head reads as replacement patterns for nothing.
   */
  predicate Empties(e: Entry, tag: string) {
    || e.value == ""
    || (!Given(e.branch) && HolesOnly(e.value) && NoDigit(tag))
    || (Given(e.branch) && e.value == HOLE && Gone(tag, true, true))
  }

  lemma NextEmptyIff(e: Entry, w: World)
    requires Live(e, w)
    ensures Next(e, w) == "" <==> Empties(e, Tag(e, w).value)
  {
    var tag := Tag(e, w).value;
    TemplateEmptyIff(e.value, Version(e, tag));
    NormaliseEmptyIff(tag);
  }

  /**
   * A pass turns the pin of a live entry into one that counts as a moved config exactly when the
   * entry's template and the release's tag come to nothing together.
   */
  lemma PinLostIffEmptied(disk: map<string, string>, entries: seq<Entry>, i: nat, w: World, pins: set<Pin>)
    requires AllWorkable(entries, disk, w, pins) && Distinct(TargetsOf(entries)) && i < |entries|
    requires Given(ValueAt(disk, entries[i].file, entries[i].pin)) && Live(entries[i], w)
    ensures Fails(ProcessAll(Start(disk), entries, w, false).disk, entries[i], w)
            <==> Empties(entries[i], Tag(entries[i], w).value)
  {
    EachPinMovesOrStays(disk, entries, i, w, pins);
    NextEmptyIff(entries[i], w);
  }

  const LOST_TEXT: string := "a: \"1\""
  const LOST_FILE: string := "versions.ts"
  const LOST_ENTRY: Entry := Entry("app", "repo", LOST_FILE, Const("a"), HOLE, None, None, None, None, None)

  /** Upstream has released `v`, and a registry has whatever it is asked for. */
  function LostWorld(num: Versions.Numeral): World {
    World((repo: string, branch: string) => None, (repo: string) => Some("v"), (repo: string) => None, num,
          (ref: string) => true, (index: string, chart: string, version: string) => true)
  }

  lemma LostTextRead(p: Pattern, nl: set<char>)
    requires p == Pattern("a: ", false, p.white) && 'a' !in p.white && '"' !in p.white
    requires 'a' !in nl && ':' !in nl && ' ' !in nl && '"' !in nl && '1' !in nl
    ensures Scanner.ReadWith(LOST_TEXT, Try(p), nl) == Some("1")
  {
    EntryHere(LOST_TEXT, 0, p, 5);
    SilentStretch(LOST_TEXT, 6, 6, Try(p), nl);
    OnlyAt(LOST_TEXT, 0, p, nl, Scanner.Span(0, 4, 5));
    assert LOST_TEXT[4..5] == "1";
  }

  lemma LostIsLive(num: Versions.Numeral)
    ensures Live(LOST_ENTRY, LostWorld(num)) && Next(LOST_ENTRY, LostWorld(num)) == ""
  {
    NormaliseEmptyIff("v");
    assert HolesOnly(HOLE) by { assert HOLE[|HOLE|..] == ""; }
    TemplateEmptyIff(HOLE, "");
  }

  const LOST_TREE: map<string, string> := map[LOST_FILE := LOST_TEXT]

  lemma LostIsRead()
    ensures Read(LOST_TEXT, Const("a")) == Some("1")
  {
    LettersAreSolid('a');
    LettersAreSolid('"');
    LostTextRead(ForPin(Const("a")), TERMINATORS);
  }

  lemma LostIsWorkable(num: Versions.Numeral)
    ensures AllWorkable([LOST_ENTRY], LOST_TREE, LostWorld(num), {Const("a")})
  {
    LostIsRead();
    LostIsLive(num);
    var e, w, pins := LOST_ENTRY, LostWorld(num), {Const("a")};
    assert HarmlessTo(e.pin, "1", pins) && HarmlessTo(e.pin, "", pins);
    assert Workable(e, LOST_TREE, w, pins);
    assert [e][1..] == [];
  }

  /** An input for which a pin is lost: a release `v`, an entry that is nothing but the version, a file with the pin. */
  lemma PinIsLost(num: Versions.Numeral)
    ensures var e, w := LOST_ENTRY, LostWorld(num);
            && AllWorkable([e], LOST_TREE, w, {Const("a")}) && Distinct(TargetsOf([e])) && Live(e, w)
            && ValueAt(LOST_TREE, LOST_FILE, Const("a")) == Some("1")
            && Fails(ProcessAll(Start(LOST_TREE), [e], w, false).disk, e, w)
  {
    LostIsLive(num);
    LostIsRead();
    LostIsWorkable(num);
    NextEmptyIff(LOST_ENTRY, LostWorld(num));
    assert TargetsOf([LOST_ENTRY])[1..] == [];
    PinLostIffEmptied(LOST_TREE, [LOST_ENTRY], 0, LostWorld(num), {Const("a")});
  }

  const TO_TWO: Entry := LOST_ENTRY.(value := "2")
  const TO_ONE: Entry := LOST_ENTRY.(value := "1")

  lemma FixedIsLive(num: Versions.Numeral)
    ensures Live(TO_TWO, LostWorld(num)) && Next(TO_TWO, LostWorld(num)) == "2"
    ensures Live(TO_ONE, LostWorld(num)) && Next(TO_ONE, LostWorld(num)) == "1"
  {
    assert ApplyTemplate("2", "") == "2" && ApplyTemplate("1", "") == "1";
    NormaliseEmptyIff("v");
  }

  const BOTH: seq<Entry> := [TO_TWO, TO_ONE]

  lemma BothWorkable(num: Versions.Numeral)
    ensures AllWorkable(BOTH, LOST_TREE, LostWorld(num), {Const("a")})
  {
    var pins := {Const("a")};
    LostIsRead();
    FixedIsLive(num);
    assert HarmlessTo(Const("a"), "1", pins) && HarmlessTo(Const("a"), "2", pins);
    WorkableEach(BOTH, LOST_TREE, LostWorld(num), pins);
  }

  lemma SecondUnforeseen(num: Versions.Numeral)
    ensures !ForeseenAt(LOST_TREE, BOTH, LostWorld(num), 1)
  {
    var w := LostWorld(num);
    LostIsRead();
    FixedIsLive(num);
    assert BOTH[..1] == [TO_TWO] && [TO_TWO][1..] == [];
    assert Moved(Some("1"), TO_TWO, w) == Some("2");
    assert Settled(Some("2"), [TO_TWO][1..], w, LOST_FILE, Const("a")) == Some("2");
    assert Settled(Some("1"), [TO_TWO], w, LOST_FILE, Const("a")) == Some("2");
    assert InTurn(LOST_TREE, BOTH, w, 1) == Some("2");
  }

  lemma BothDisagree(num: Versions.Numeral)
    ensures !Agree(BOTH, LOST_TREE, LostWorld(num))
  {
    var w := LostWorld(num);
    LostIsRead();
    FixedIsLive(num);
    AgreePairs(BOTH, BOTH, LOST_TREE, w);
    assert BOTH[1..] == [TO_ONE] && [TO_ONE][1..] == [];
    assert !Blanked([TO_ONE][1..], w, LOST_FILE, Const("a"));
    assert !Blanked([TO_ONE], w, LOST_FILE, Const("a"));
    assert !Agrees(BOTH[0], BOTH[1], BOTH, LOST_TREE, w);
  }

  lemma ThirdEmpties(num: Versions.Numeral)
    ensures Agree([LOST_ENTRY] + BOTH, LOST_TREE, LostWorld(num))
  {
    var w, all := LostWorld(num), [LOST_ENTRY] + BOTH;
    LostIsLive(num);
    AgreePairs(all, all, LOST_TREE, w);
    assert Blanks(all[0], w, LOST_FILE, Const("a"));
    forall d, e | d in all && e in all ensures Agrees(d, e, all, LOST_TREE, w) {
      assert d.file == LOST_FILE && d.pin == Const("a");
    }
  }

  /**
   * Two entries that want `2` and `1` for a pin at `1`: the dry run does not foresee what the second
   * does, and no later pass is quiet; unless another entry empties the pin for good.
   */
  lemma TwoOnOnePin(num: Versions.Numeral)
    ensures var w := LostWorld(num);
            && AllWorkable(BOTH, LOST_TREE, w, {Const("a")})
            && !InStep(LOST_TREE, BOTH, w, 2)
            && !Agree(BOTH, LOST_TREE, w) && Agree([LOST_ENTRY] + BOTH, LOST_TREE, w)
  {
    BothWorkable(num);
    SecondUnforeseen(num);
    InStepOnward(LOST_TREE, BOTH, LostWorld(num), {Const("a")}, 1);
    BothDisagree(num);
    ThirdEmpties(num);
  }

  // ----- what may be written

  lemma PlainFrom(s: string, i: nat)
    requires i <= |s| && PlainValue(s)
    ensures PlainValue(s[i..])
  {
    forall c | c in s[i..] ensures c != '"' && c !in TERMINATORS { assert c in s; }
  }

  lemma PlainJoin(a: string, b: string)
    requires PlainValue(a) && PlainValue(b)
    ensures PlainValue(a + b)
  {}

  lemma {:induction false} ExpandPlain(r: string, before: string, after: string)
    requires PlainValue(r) && PlainValue(before) && PlainValue(after)
    ensures PlainValue(Expand(r, before, after))
    decreases |r|
  {
    if r != "" {
      PlainFrom(r, 1);
      ExpandPlain(r[1..], before, after);
      assert r[0] in r && PlainValue([r[0]]) && PlainValue("$") && PlainValue(HOLE);
      PlainJoin([r[0]], Expand(r[1..], before, after));
      if |r| > 1 {
        PlainFrom(r, 2);
        ExpandPlain(r[2..], before, after);
        var rest := Expand(r[2..], before, after);
        PlainJoin("$", rest);
        PlainJoin(HOLE, rest);
        PlainJoin(before, rest);
        PlainJoin(after, rest);
      }
    }
  }

  lemma {:induction false} FillPlain(before: string, template: string, version: string)
    requires PlainValue(before) && PlainValue(template) && PlainValue(version)
    ensures PlainValue(Fill(before, template, version))
    decreases |template|
  {
    if template != "" {
      if HOLE <= template {
        var rest := template[|HOLE|..];
        PlainFrom(template, |HOLE|);
        ExpandPlain(version, before, rest);
        PlainJoin(before, HOLE);
        FillPlain(before + HOLE, rest, version);
        PlainJoin(Expand(version, before, rest), Fill(before + HOLE, rest, version));
      } else {
        assert template[0] in template && PlainValue([template[0]]);
        PlainFrom(template, 1);
        PlainJoin(before, [template[0]]);
        FillPlain(before + [template[0]], template[1..], version);
        PlainJoin([template[0]], Fill(before + [template[0]], template[1..], version));
      }
    }
  }

  lemma {:induction false} NormalisePlain(tag: string)
    requires PlainValue(tag)
    ensures PlainValue(Versions.Normalise(tag))
  {
    if tag != "" {
      PlainFrom(tag, 1);
      NormalisePlain(tag[1..]);
    }
  }

  /** Whatever is written is plain as soon as the entry's template and the release's tag are. */
  lemma NextIsPlain(e: Entry, w: World)
    requires Live(e, w) && PlainValue(e.value) && PlainValue(Tag(e, w).value)
    ensures PlainValue(Next(e, w))
  {
    NormalisePlain(Tag(e, w).value);
    FillPlain("", e.value, Version(e, Tag(e, w).value));
  }

  /** Everything about the entry is on one line and without a quote, and no dependency is set to another's name. */
  predicate Plain(e: Entry, disk: map<string, string>, w: World, pins: set<Pin>) {
    && ValidPin(e.pin) && e.pin in pins && e.file in disk
    && (Read(disk[e.file], e.pin).Some? ==>
          PlainValue(Read(disk[e.file], e.pin).value) && NoNames(e.pin, Read(disk[e.file], e.pin).value, pins))
    && (Live(e, w) ==>
          PlainValue(e.value) && PlainValue(Tag(e, w).value) && NoNames(e.pin, Next(e, w), pins))
  }

  predicate NoNames(p: Pin, v: string, pins: set<Pin>) {
    forall q :: q in pins && q != p && p.Dependency? && q.Dependency? ==> v != q.package
  }

  lemma PlainIsHarmlessTo(p: Pin, v: string, pins: set<Pin>)
    requires PlainValue(v) && NoNames(p, v, pins)
    ensures HarmlessTo(p, v, pins)
  {
    forall q | q in pins && q != p ensures Harmless(p, v, q) { PlainIsHarmless(p, v, q); }
  }

  /** Plain values, templates and tags are all that the passes ask for. */
  lemma PlainIsWorkable(entries: seq<Entry>, disk: map<string, string>, w: World, pins: set<Pin>)
    requires forall e :: e in entries ==> Plain(e, disk, w, pins)
    ensures AllWorkable(entries, disk, w, pins)
  {
    forall e | e in entries ensures Workable(e, disk, w, pins) {
      var now := Read(disk[e.file], e.pin);
      if now.Some? { PlainIsHarmlessTo(e.pin, now.value, pins); }
      if Live(e, w) {
        NextIsPlain(e, w);
        PlainIsHarmlessTo(e.pin, Next(e, w), pins);
      }
    }
    WorkableEach(entries, disk, w, pins);
  }

  /** No `$` in it stands for anything else. */
  predicate Literal(r: string) {
    forall i :: 0 <= i && i + 1 < |r| && r[i] == '$' ==> r[i + 1] != '$' && r[i + 1] != '&' && r[i + 1] != '`' && r[i + 1] != '\''
  }

  lemma {:induction false} ExpandsToItself(r: string, before: string, after: string)
    requires Literal(r)
    ensures Expand(r, before, after) == r
    decreases |r|
  {
    if r != "" {
      forall i | 0 <= i && i + 1 < |r[1..]| && r[1..][i] == '$'
        ensures r[1..][i + 1] != '$' && r[1..][i + 1] != '&' && r[1..][i + 1] != '`' && r[1..][i + 1] != '\''
      {
        assert r[i + 1] == '$' && r[1..][i + 1] == r[(i + 1) + 1];
      }
      ExpandsToItself(r[1..], before, after);
      assert r[0] == '$' && |r| > 1 ==> r[0 + 1] != '$' && r[0 + 1] != '&' && r[0 + 1] != '`' && r[0 + 1] != '\'';
    }
  }

  /** Every `$` twice, as a replacement has to spell it. */
  function Doubled(v: string): string {
    if v == "" then "" else (if v[0] == '$' then "$$" else [v[0]]) + Doubled(v[1..])
  }

  lemma {:induction false} DoubledIsLiteral(v: string, before: string, after: string)
    ensures Expand(Doubled(v), before, after) == v
  {
    if v != "" {
      DoubledIsLiteral(v[1..], before, after);
      if v[0] == '$' {
        ExpandPair(Doubled(v[1..]), before, after);
      } else {
        ExpandChar(v[0], Doubled(v[1..]), before, after);
      }
    }
  }

  lemma ExpandPair(rest: string, before: string, after: string)
    ensures Expand("$$" + rest, before, after) == "$" + Expand(rest, before, after)
  {
    assert ("$$" + rest)[2..] == rest;
  }

  lemma ExpandChar(c: char, rest: string, before: string, after: string)
    requires c != '$'
    ensures Expand([c] + rest, before, after) == [c] + Expand(rest, before, after)
  {
    assert ([c] + rest)[1..] == rest;
  }

  /** `$&` stands for what it replaces, so a template filled with it is itself again. */
  lemma {:induction false} MatchPutsItBack(before: string, template: string)
    ensures Fill(before, template, "$&") == template
    decreases |template|
  {
    if template != "" {
      if HOLE <= template {
        MatchPutsItBack(before + HOLE, template[|HOLE|..]);
        assert "$&"[2..] == "" && Expand("$&", before, template[|HOLE|..]) == HOLE + "";
      } else {
        MatchPutsItBack(before + [template[0]], template[1..]);
      }
    }
  }

  /** `` $` `` stands for the template in front of the hole, and `$'` for what is behind it. */
  lemma SidesOfTheHole(a: string, b: string)
    requires forall k :: 0 <= k <= |b| ==> !("{version}" <= b[k..])
    requires forall k :: 0 <= k < |a| ==> !("{version}" <= (a + "{version}" + b)[k..])
    ensures ApplyTemplate(a + "{version}" + b, "$`") == a + a + b
    ensures ApplyTemplate(a + "{version}" + b, "$'") == a + b + b
  {
    FillSides("", a, b, "$`");
    FillSides("", a, b, "$'");
    assert "$`"[2..] == "" && "$'"[2..] == "" && "" + a == a;
  }

  lemma {:induction false} FillNoHole(before: string, b: string, version: string)
    requires forall k :: 0 <= k <= |b| ==> !("{version}" <= b[k..])
    ensures Fill(before, b, version) == b
    decreases |b|
  {
    if b != "" {
      assert b[0..] == b;
      forall k | 0 <= k <= |b[1..]| ensures !("{version}" <= b[1..][k..]) { assert b[1..][k..] == b[k + 1..]; }
      FillNoHole(before + [b[0]], b[1..], version);
    }
  }

  lemma {:induction false} FillSides(before: string, a: string, b: string, version: string)
    requires forall k :: 0 <= k <= |b| ==> !("{version}" <= b[k..])
    requires forall k :: 0 <= k < |a| ==> !("{version}" <= (a + "{version}" + b)[k..])
    ensures Fill(before, a + "{version}" + b, version) == a + Expand(version, before + a, b) + b
    decreases |a|
  {
    var t := a + "{version}" + b;
    if a == "" {
      assert t == "{version}" + b && "{version}" <= t && t[|"{version}"|..] == b;
      FillNoHole(before + HOLE, b, version);
      assert before + a == before;
    } else {
      assert t[0..] == t && t[1..] == a[1..] + "{version}" + b;
      forall k | 0 <= k < |a[1..]| ensures !("{version}" <= (a[1..] + "{version}" + b)[k..]) {
        assert (a[1..] + "{version}" + b)[k..] == t[k + 1..];
      }
      FillSides(before + [a[0]], a[1..], b, version);
      assert before + [a[0]] + a[1..] == before + a;
    }
  }

  /** A template taken apart at its holes, from the left. */
  function Pieces(template: string): (r: seq<string>)
    ensures r != []
    decreases |template|
  {
    if template == "" then [""]
    else if HOLE <= template then [""] + Pieces(template[|HOLE|..])
    else
      var rest := Pieces(template[1..]);
      [[template[0]] + rest[0]] + rest[1..]
  }

  /** The pieces make up the template, and there is no further hole in any of them. */
  lemma {:induction false} PiecesOf(template: string)
    ensures Join(Pieces(template), HOLE) == template
    ensures forall i, k :: 0 <= i < |Pieces(template)| && 0 <= k <= |Pieces(template)[i]| ==> !(HOLE <= Pieces(template)[i][k..])
    decreases |template|
  {
    if template != "" {
      if HOLE <= template {
        PiecesOf(template[|HOLE|..]);
        JoinFirst("", Pieces(template[|HOLE|..]), HOLE);
      } else {
        PiecesOf(template[1..]);
        PiecesGrow(template);
      }
    }
  }

  lemma JoinFirst(x: string, rest: seq<string>, sep: string)
    requires rest != []
    ensures Join([x] + rest, sep) == x + sep + Join(rest, sep)
  {
    assert ([x] + rest)[1..] == rest;
  }

  lemma JoinLonger(c: char, parts: seq<string>, sep: string)
    requires parts != []
    ensures Join([[c] + parts[0]] + parts[1..], sep) == [c] + Join(parts, sep)
  {
    if |parts| > 1 {
      JoinFirst([c] + parts[0], parts[1..], sep);
      assert [c] + parts[0] + sep + Join(parts[1..], sep) == [c] + (parts[0] + sep + Join(parts[1..], sep));
    }
  }

  lemma PiecesGrow(template: string)
    requires template != "" && !(HOLE <= template) && Join(Pieces(template[1..]), HOLE) == template[1..]
    requires forall i, k :: 0 <= i < |Pieces(template[1..])| && 0 <= k <= |Pieces(template[1..])[i]| ==>
      !(HOLE <= Pieces(template[1..])[i][k..])
    ensures Join(Pieces(template), HOLE) == template
    ensures forall i, k :: 0 <= i < |Pieces(template)| && 0 <= k <= |Pieces(template)[i]| ==> !(HOLE <= Pieces(template)[i][k..])
  {
    var rest, all := Pieces(template[1..]), Pieces(template);
    JoinLonger(template[0], rest, HOLE);
    FirstPieceBegins(template);
    forall i, k | 0 <= i < |all| && 0 <= k <= |all[i]| ensures !(HOLE <= all[i][k..]) {
      if i > 0 {
        assert all[i] == rest[i];
      } else {
        LongerHasNone(template[0], rest[0], template, k);
      }
    }
  }

  lemma LongerHasNone(c: char, piece: string, template: string, k: nat)
    requires k <= |piece| + 1 && !(HOLE <= template) && [c] + piece <= template
    requires forall j :: 0 <= j <= |piece| ==> !(HOLE <= piece[j..])
    ensures !(HOLE <= ([c] + piece)[k..])
  {
    if k > 0 {
      assert ([c] + piece)[k..] == piece[k - 1..];
    } else {
      assert ([c] + piece)[0..] == [c] + piece;
    }
  }

  lemma {:induction false} FirstPieceBegins(template: string)
    ensures Pieces(template)[0] <= template
    decreases |template|
  {
    if template != "" && !(HOLE <= template) { FirstPieceBegins(template[1..]); }
  }

  lemma FillHole(before: string, rest: string, version: string)
    requires Literal(version)
    ensures Fill(before, HOLE + rest, version) == version + Fill(before + HOLE, rest, version)
    ensures Pieces(HOLE + rest) == [""] + Pieces(rest)
  {
    assert HOLE <= HOLE + rest && (HOLE + rest)[|HOLE|..] == rest;
    ExpandsToItself(version, before, rest);
  }

  lemma FillChar(before: string, template: string, version: string)
    requires template != "" && !(HOLE <= template)
    ensures Fill(before, template, version) == [template[0]] + Fill(before + [template[0]], template[1..], version)
    ensures var rest := Pieces(template[1..]); Pieces(template) == [[template[0]] + rest[0]] + rest[1..]
  {}

  lemma {:induction false} FillsPieces(before: string, template: string, version: string)
    requires Literal(version)
    ensures Fill(before, template, version) == Join(Pieces(template), version)
    decreases |template|
  {
    if template != "" {
      if HOLE <= template {
        var rest := template[|HOLE|..];
        assert template == HOLE + rest;
        FillHole(before, rest, version);
        FillsPieces(before + HOLE, rest, version);
        JoinFirst("", Pieces(rest), version);
        assert "" + version == version;
      } else {
        FillChar(before, template, version);
        FillsPieces(before + [template[0]], template[1..], version);
        JoinLonger(template[0], Pieces(template[1..]), version);
      }
    }
  }

  /**
   * Every hole of any template is filled with the version as it is, and the rest stays, when the
   * version holds no replacement pattern.
   */
  lemma TemplateIsFilled(template: string, version: string)
    requires Literal(version)
    ensures Join(Pieces(template), "{version}") == template
    ensures ApplyTemplate(template, version) == Join(Pieces(template), version)
  {
    PiecesOf(template);
    FillsPieces("", template, version);
  }
}
