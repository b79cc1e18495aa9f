/**
 * The kernel's messages about a scrub, in the words the program is written for
 * (packages/home/src/btrfs.test.ts), and what the program reads out of each.
 */
module KernelLog {
  import opened Prelude
  import opened Text
  import opened Damage

  /** A block with a bad checksum is named once per file, and once more with the outcome. */
  datatype Event =
    | Referenced(dev: string, block: string, physical: string, root: string, inode: string, path: string)
    | Lost(dev: string, block: string, physical: string)
    | Repaired(dev: string, block: string, physical: string)

  function UpToBlock(dev: string): string { "BTRFS warning (device " + dev + ("): checksum error " + "at ") }

  function UpToLoss(dev: string): string {
    "BTRFS error (device " + dev + ("): scrub: unable to fixup " + "(regular) error at ")
  }

  const REPAIR_START: string := "BTRFS info (device "
  const REPAIR_WORDS: string := "): scrub: fixed up error at "

  function UpToRepair(dev: string): string { REPAIR_START + dev + REPAIR_WORDS }

  function Place(dev: string): string { " on dev /dev/" + dev }

  function Whereabouts(dev: string, physical: string): string { Place(dev) + " physical " + physical }

  /** The text of a reference in front of its path, field by field. */
  function FieldsOf(e: Event): Fields
    requires e.Referenced?
  {
    Fields(UpToBlock(e.dev), e.block, Place(e.dev) + ", physical " + e.physical + ", ", e.root,
           ", inode " + e.inode + ", offset 0, length 4096, links 1 ")
  }

  function LineOf(e: Event): string {
    match e
    case Referenced(dev, block, physical, root, inode, path) => FieldsOf(e).Front() + Marked(path)
    case Lost(dev, block, physical) => UpToLoss(dev) + (LOGICAL + (block + Whereabouts(dev, physical)))
    case Repaired(dev, block, physical) => UpToRepair(dev) + (LOGICAL + (block + Whereabouts(dev, physical)))
  }

  /** The messages in full. */
  function Message(e: Event): string {
    match e
    case Referenced(dev, block, physical, root, inode, path) =>
      "BTRFS warning (device " + dev + "): checksum error at logical " + block + " on dev /dev/" + dev
      + ", physical " + physical + ", root " + root + ", inode " + inode
      + ", offset 0, length 4096, links 1 (path: " + path + ")"
    case Lost(dev, block, physical) =>
      "BTRFS error (device " + dev + "): scrub: unable to fixup (regular) error at logical " + block
      + " on dev /dev/" + dev + " physical " + physical
    case Repaired(dev, block, physical) =>
      "BTRFS info (device " + dev + "): scrub: fixed up error at logical " + block
      + " on dev /dev/" + dev + " physical " + physical
  }

  lemma Unnested(x: string, a: string, b: string, c: string, d: string, e: string, f: string)
    ensures x + (a + (b + (c + (d + (e + f))))) == x + a + b + c + d + e + f
  {}

  lemma Unnested5(x: string, a: string, b: string, c: string, d: string, e: string)
    ensures x + (a + b + c + d + e) == x + a + b + c + d + e
  {}

  lemma Unnested3(x: string, a: string, b: string, c: string)
    ensures x + (a + b + c) == x + a + b + c
    ensures x + (a + (b + c)) == x + a + b + c
  {}

  lemma Merged(x: string, a: string, b: string)
    ensures x + a + b == x + (a + b)
  {}

  /** What `Front` puts together, up to the block. */
  lemma UpToBlockMerged(dev: string)
    ensures UpToBlock(dev) + "logical " == "BTRFS warning (device " + dev + "): checksum error at logical "
  {
    Merged("BTRFS warning (device " + dev, "): checksum error " + "at ", "logical ");
    assert "): checksum error " + "at " + "logical " == "): checksum error at logical ";
  }

  lemma ReferenceIsMessage(e: Event)
    requires e.Referenced?
    ensures LineOf(e) == Message(e)
  {
    var f := FieldsOf(e);
    var start := "BTRFS warning (device " + e.dev + "): checksum error at logical " + e.block;
    var place := " on dev /dev/" + e.dev;
    var middle := start + " on dev /dev/" + e.dev + ", physical " + e.physical;
    Unnested(f.before, "logical ", f.block, f.between, "root ", f.root, f.behind);
    UpToBlockMerged(e.dev);
    Unnested5(start, " on dev /dev/", e.dev, ", physical ", e.physical, ", ");
    Merged(middle, ", ", "root ");
    assert ", " + "root " == ", root ";
    var rooted := middle + ", root " + e.root;
    Unnested3(rooted, ", inode ", e.inode, ", offset 0, length 4096, links 1 ");
    var front := rooted + ", inode " + e.inode + ", offset 0, length 4096, links 1 ";
    assert f.Front() == front;
    Unnested3(front, "(path: ", e.path, ")");
    Merged(rooted + ", inode " + e.inode, ", offset 0, length 4096, links 1 ", "(path: ");
    assert ", offset 0, length 4096, links 1 " + "(path: " == ", offset 0, length 4096, links 1 (path: ";
  }

  /** A verdict in full: its words, the block, and where it is. */
  lemma VerdictSpelled(x: string, words: string, block: string, dev: string, physical: string)
    ensures x + words + ("logical " + (block + (" on dev /dev/" + dev + " physical " + physical)))
         == x + (words + "logical ") + block + " on dev /dev/" + dev + " physical " + physical
  {
    Unnested3(x + words, "logical ", block, " on dev /dev/" + dev + " physical " + physical);
    Merged(x, words, "logical ");
    Unnested4(x + (words + "logical ") + block, " on dev /dev/", dev, " physical ", physical);
  }

  lemma Unnested4(x: string, a: string, b: string, c: string, d: string)
    ensures x + (a + b + c + d) == x + a + b + c + d
  {}

  lemma LineIsMessage(e: Event)
    ensures LineOf(e) == Message(e)
  {
    match e
    case Referenced(dev, block, physical, root, inode, path) =>
      ReferenceIsMessage(e);
    case Lost(dev, block, physical) => LossIsMessage(e);
    case Repaired(dev, block, physical) => RepairIsMessage(e);
  }

  lemma LossIsMessage(e: Event)
    requires e.Lost?
    ensures LineOf(e) == Message(e)
  {
    VerdictSpelled("BTRFS error (device " + e.dev, "): scrub: unable to fixup " + "(regular) error at ", e.block, e.dev,
                   e.physical);
    assert "): scrub: unable to fixup " + "(regular) error at " + "logical "
        == "): scrub: unable to fixup (regular) error at logical ";
  }

  lemma RepairIsMessage(e: Event)
    requires e.Repaired?
    ensures LineOf(e) == Message(e)
  {
    VerdictSpelled("BTRFS info (device " + e.dev, "): scrub: fixed up error at ", e.block, e.dev, e.physical);
    assert "): scrub: fixed up error at " + "logical " == "): scrub: fixed up error at logical ";
  }

  predicate Figure(s: string) { s != "" && AllDigits(s) }

  /** A device's name holds no blank and no parenthesis; addresses, roots and inodes are numbers. */
  predicate WellFormed(e: Event) {
    && ' ' !in e.dev && '(' !in e.dev && Figure(e.block) && Figure(e.physical)
    && (e.Referenced? ==> Figure(e.root) && Figure(e.inode))
  }

  // ----- texts that lack a pattern

  ghost predicate Lacks(s: string, p: string) { forall i: nat :: !At(s, i, p) }

  lemma LacksNot(s: string, p: string)
    ensures Lacks(s, p) <==> !Occurs(s, p)
  {
    if i: nat :| At(s, i, p) { assert 0 <= i <= |s|; }
  }

  lemma AtChar(s: string, i: nat, p: string, c: char)
    requires At(s, i, p) && c in p
    ensures c in s
  {
    var j :| 0 <= j < |p| && p[j] == c;
    assert s[i + j] == p[j];
  }

  lemma LacksChar(s: string, p: string, c: char)
    requires c in p && c !in s
    ensures Lacks(s, p)
  {
    forall i: nat ensures !At(s, i, p) {
      if At(s, i, p) { AtChar(s, i, p, c); }
    }
  }

  /** Nothing of the pattern can lie across the seam. */
  predicate Seam(a: string, b: string, p: string) {
    a == "" || b == "" || p == "" || a[|a| - 1] !in p[..|p| - 1] || b[0] !in p[1..]
  }

  /** Where a pattern in two texts put together can be. */
  lemma AtJoin(a: string, b: string, i: nat, p: string)
    requires p != "" && At(a + b, i, p)
    ensures At(a, i, p) || (i >= |a| && At(b, i - |a|, p)) || !Seam(a, b, p)
    ensures i < |a| < i + |p| ==> a[|a| - 1] in p[..|p| - 1] && b[0] in p[1..]
  {
    var s := a + b;
    if i + |p| <= |a| {
      forall j | 0 <= j < |p| ensures a[i + j] == p[j] { assert s[i + j] == a[i + j]; }
    } else if i >= |a| {
      forall j | 0 <= j < |p| ensures b[i - |a| + j] == p[j] { assert s[i + j] == b[i + j - |a|]; }
    } else {
      var j := |a| - 1 - i;
      assert s[i + j] == a[|a| - 1] && p[..|p| - 1][j] == p[j];
      assert s[i + (j + 1)] == b[0] && p[1..][j] == p[j + 1];
    }
  }

  lemma LacksJoin(a: string, b: string, p: string)
    requires p != "" && Lacks(a, p) && Lacks(b, p) && Seam(a, b, p)
    ensures Lacks(a + b, p)
  {
    forall i: nat ensures !At(a + b, i, p) {
      if At(a + b, i, p) { AtJoin(a, b, i, p); }
    }
  }

  lemma {:induction false} SkipTo(s: string, i: nat, k: nat, word: string)
    requires i <= k < |s| && forall j :: i <= j < k ==> !NumberAt(s, j, word)
    ensures Number(s, i, word) == Number(s, k, word)
    decreases k - i
  {
    if i < k { SkipTo(s, i + 1, k, word); }
  }

  lemma DigitsEndAt(s: string, i: nat, n: string)
    requires At(s, i, n) && AllDigits(n) && (i + |n| < |s| ==> !IsDigit(s[i + |n|]))
    ensures DigitsEnd(s, i) == i + |n|
    decreases |n|
  {
    if n != "" {
      assert s[i + 0] == n[0];
      forall j | 0 <= j < |n[1..]| ensures s[i + 1 + j] == n[1..][j] { assert s[i + (j + 1)] == n[j + 1]; }
      DigitsEndAt(s, i + 1, n[1..]);
    }
  }

  lemma AtPlace(a: string, p: string, b: string)
    ensures At(a + (p + b), |a|, p)
  {
    forall j | 0 <= j < |p| ensures (a + (p + b))[|a| + j] == p[j] { assert (p + b)[j] == p[j]; }
  }

  lemma NumberHere(s: string, k: nat, word: string, n: string)
    requires At(s, k, word) && At(s, k + |word|, n) && Figure(n)
    requires k + |word| + |n| < |s| ==> !IsDigit(s[k + |word| + |n|])
    ensures Number(s, k, word) == Some(n)
  {
    var d := k + |word|;
    assert s[d + 0] == n[0] && IsDigit(n[0]);
    DigitsEndAt(s, d, n);
    assert s[d..d + |n|] == n;
  }

  lemma NoneBefore(a: string, b: string, word: string)
    requires word != "" && Lacks(a, word) && (a == "" || a[|a| - 1] !in word[..|word| - 1])
    ensures forall i: nat :: i < |a| ==> !NumberAt(a + b, i, word)
  {
    forall i: nat | i < |a| ensures !NumberAt(a + b, i, word) {
      if At(a + b, i, word) { AtJoin(a, b, i, word); }
    }
  }

  lemma Behind(x: string, n: string, b: string)
    requires b == "" || !IsDigit(b[0])
    ensures var s := x + (n + b); |x| + |n| < |s| ==> !IsDigit(s[|x| + |n|])
  {}

  lemma Regroup(a: string, word: string, tail: string)
    ensures (a + word) + tail == a + (word + tail)
  {}

  lemma NumberPlaced(a: string, word: string, n: string, b: string)
    requires Figure(n) && (b == "" || !IsDigit(b[0]))
    ensures Number(a + (word + (n + b)), |a|, word) == Some(n)
  {
    AtPlace(a, word, n + b);
    AtPlace(a + word, n, b);
    Behind(a + word, n, b);
    Regroup(a, word, n + b);
    NumberHere(a + (word + (n + b)), |a|, word, n);
  }

  /** The number behind the first such word. */
  lemma NumberFound(a: string, word: string, n: string, b: string)
    requires word != "" && Figure(n) && (b == "" || !IsDigit(b[0]))
    requires Lacks(a, word) && (a == "" || a[|a| - 1] !in word[..|word| - 1])
    ensures Number(a + (word + (n + b)), 0, word) == Some(n)
  {
    NoneBefore(a, word + (n + b), word);
    NumberPlaced(a, word, n, b);
    SkipTo(a + (word + (n + b)), 0, |a|, word);
  }

  // ----- a reference, whatever stands around its fields

  lemma {:induction false} AfterLastAt(s: string, k: nat, i: nat, p: string)
    requires k <= i <= |s| && At(s, k, p) && forall j :: k < j <= i ==> !At(s, j, p)
    ensures AfterLast(s, i, p) == s[k + |p|..]
    decreases i - k
  {
    if k < i { AfterLastAt(s, k, i - 1, p); }
  }

  /** The last occurrence is no earlier than any. */
  lemma {:induction false} AfterLastShort(s: string, k: nat, i: nat, p: string)
    requires k <= i <= |s| && At(s, k, p)
    ensures |AfterLast(s, i, p)| <= |s| - k - |p| && EndsWith(s, AfterLast(s, i, p))
    decreases i
  {
    if !At(s, i, p) { AfterLastShort(s, k, i - 1, p); }
  }

  /** What follows the fields: the path, marked and in parentheses. */
  function Marked(path: string): string { MARK + (path + ")") }

  lemma MarkedStart(path: string, i: nat)
    requires i < |MARK|
    ensures i < |Marked(path)|
    ensures if i == 0 then Marked(path)[i] == '(' else Marked(path)[i] in MARK[1..]
  {
    assert Marked(path)[i] == MARK[i];
    if i > 0 { assert MARK[1..][i - 1] == MARK[i]; }
  }

  lemma InParens(path: string, k: nat, p: string)
    requires p != "" && At(path + ")", k, p) && ')' !in p
    ensures At(path, k, p)
  {
    var t := path + ")";
    assert t[k + (|p| - 1)] == p[|p| - 1] && p[|p| - 1] in p;
    forall j | 0 <= j < |p| ensures path[k + j] == p[j] { assert t[k + j] == p[j]; }
  }

  lemma MarkedPast(path: string, i: nat, p: string)
    requires p != "" && At(Marked(path), i, p) && p[0] !in MARK[1..] && ')' !in p && (i == 0 ==> p[0] != '(')
    ensures i >= |MARK| && At(path, i - |MARK|, p)
  {
    assert Marked(path)[i + 0] == p[0];
    if i < |MARK| { MarkedStart(path, i); }
    AtJoin(MARK, path + ")", i, p);
    InParens(path, i - |MARK|, p);
  }

  lemma InPath(front: string, path: string, i: nat, p: string)
    requires At(path, i, p)
    ensures At(front + Marked(path), |front| + |MARK| + i, p)
  {
    var s := front + Marked(path);
    forall j | 0 <= j < |p| ensures s[|front| + |MARK| + i + j] == p[j] {
      assert path[i + j] == p[j] && Marked(path)[|MARK| + (i + j)] == path[i + j];
    }
  }

  lemma VerdictPast(front: string, path: string, i: nat)
    requires Lacks(front, VERDICT) && At(front + Marked(path), i, VERDICT)
    ensures i >= |front| + |MARK| && At(path, i - |front| - |MARK|, VERDICT)
  {
    assert Marked(path)[0] == '(';
    AtJoin(front, Marked(path), i, VERDICT);
    MarkedPast(path, i - |front|, VERDICT);
  }

  /** The verdict's words count wherever they stand, so in a path they make the line a verdict. */
  lemma VerdictOnlyInPath(front: string, path: string)
    requires Lacks(front, VERDICT)
    ensures Occurs(front + Marked(path), VERDICT) <==> Occurs(path, VERDICT)
  {
    var s := front + Marked(path);
    if i :| 0 <= i <= |s| && At(s, i, VERDICT) { VerdictPast(front, path, i); }
    if i :| 0 <= i <= |path| && At(path, i, VERDICT) {
      InPath(front, path, i, VERDICT);
    }
  }

  lemma PathWhole(front: string, path: string)
    requires !Occurs(path, MARK)
    ensures AfterLast(front + Marked(path), |front + Marked(path)|, MARK) == path + ")"
  {
    var s := front + Marked(path);
    AtPlace(front, MARK, path + ")");
    forall j | |front| < j <= |s| ensures !At(s, j, MARK) {
      if At(s, j, MARK) {
        AtJoin(front, Marked(path), j, MARK);
        MarkedPast(path, j - |front|, MARK);
      }
    }
    AfterLastAt(s, |front|, |s|, MARK);
    assert s[|front| + |MARK|..] == path + ")";
  }

  lemma PathCut(front: string, path: string)
    requires Occurs(path, MARK)
    ensures DropParen(AfterLast(front + Marked(path), |front + Marked(path)|, MARK)) != path
  {
    var s := front + Marked(path);
    var i :| 0 <= i <= |path| && At(path, i, MARK);
    InPath(front, path, i, MARK);
    AfterLastShort(s, |front| + |MARK| + i, |s|, MARK);
    var rest := AfterLast(s, |s|, MARK);
    if rest != "" {
      assert rest[|rest| - 1] == s[|s| - 1] == ')';
    }
  }

  /** The text in front of the path, field by field. */
  datatype Fields = Fields(before: string, block: string, between: string, root: string, behind: string) {
    function Front(): string { before + (LOGICAL + (block + (between + (ROOT + (root + behind))))) }

    predicate Sound() {
      && Figure(block) && Figure(root)
      && between != "" && !IsDigit(between[0]) && behind != "" && !IsDigit(behind[0])
    }
  }

  lemma BlockRead(f: Fields, tail: string)
    requires f.Sound() && Lacks(f.before, LOGICAL) && (f.before == "" || f.before[|f.before| - 1] !in LOGICAL[..|LOGICAL| - 1])
    ensures Number(f.Front() + tail, 0, LOGICAL) == Some(f.block)
  {
    var b := f.between + (ROOT + (f.root + f.behind)) + tail;
    NumberFound(f.before, LOGICAL, f.block, b);
    assert f.Front() + tail == f.before + (LOGICAL + (f.block + b));
  }

  function UpToRootOf(f: Fields): string { f.before + LOGICAL + f.block + f.between }

  lemma RootRead(f: Fields, tail: string)
    requires f.Sound() && Lacks(UpToRootOf(f), ROOT) && UpToRootOf(f)[|UpToRootOf(f)| - 1] !in ROOT[..|ROOT| - 1]
    ensures Number(f.Front() + tail, 0, ROOT) == Some(f.root)
  {
    var b := f.behind + tail;
    NumberFound(UpToRootOf(f), ROOT, f.root, b);
    assert f.Front() + tail == UpToRootOf(f) + (ROOT + (f.root + b));
  }

  /** The surroundings hold none of the program's patterns where it would look first. */
  ghost predicate Quiet(f: Fields) {
    && f.Sound()
    && Lacks(f.before, LOGICAL) && (f.before == "" || f.before[|f.before| - 1] !in LOGICAL[..|LOGICAL| - 1])
    && Lacks(UpToRootOf(f), ROOT) && UpToRootOf(f)[|UpToRootOf(f)| - 1] !in ROOT[..|ROOT| - 1]
    && Lacks(f.Front(), VERDICT)
  }

  /**
   * A reference is read as what it says exactly when its path holds neither the words of a verdict
   * nor the mark of a path.
   */
  lemma ReferenceRead(f: Fields, path: string)
    requires Quiet(f)
    ensures ReadLine(f.Front() + Marked(path)) == Reference(f.block, f.root, path)
            <==> !Occurs(path, MARK) && !Occurs(path, VERDICT)
  {
    var s := f.Front() + Marked(path);
    VerdictOnlyInPath(f.Front(), path);
    BlockRead(f, Marked(path));
    RootRead(f, Marked(path));
    AtPlace(f.Front(), MARK, path + ")");
    assert Occurs(s, MARK);
    if Occurs(path, MARK) {
      PathCut(f.Front(), path);
    } else {
      PathWhole(f.Front(), path);
    }
  }

  // ----- the kernel's own words

  /** Characters none of the program's patterns has. */
  predicate Firm(c: char) { IsDigit(c) || c == ',' || c == ')' || c == '/' }

  predicate Wordy(p: string) { p != "" && forall i :: 0 <= i < |p| ==> !Firm(p[i]) }

  lemma FirmJoin(a: string, b: string, p: string)
    requires Wordy(p) && Lacks(a, p) && Lacks(b, p)
    requires (a != "" && Firm(a[|a| - 1])) || (b != "" && Firm(b[0]))
    ensures Lacks(a + b, p)
  {
    LacksJoin(a, b, p);
  }

  lemma AtSplit(a: string, b: string, i: nat, p: string, k: nat, l: nat)
    requires k < l < |p| && At(a + b, i, p)
    ensures p[k] in a || p[l] in b
  {
    var s := a + b;
    assert s[i + k] == p[k] && s[i + l] == p[l];
    if i + k < |a| { assert a[i + k] == p[k]; } else { assert b[i + l - |a|] == p[l]; }
  }

  /** The left text has nothing for one character of the pattern, the right nothing for a later one. */
  lemma LacksSplit(a: string, b: string, p: string, k: nat, l: nat)
    requires k < l < |p| && p[k] !in a && p[l] !in b
    ensures Lacks(a + b, p)
  {
    forall i: nat ensures !At(a + b, i, p) {
      if At(a + b, i, p) {
        AtSplit(a, b, i, p, k, l);
      }
    }
  }

  lemma FigureLacks(n: string, p: string)
    requires Figure(n) && Wordy(p)
    ensures Lacks(n, p)
  {
    LacksChar(n, p, p[0]);
  }

  lemma DevLacks(dev: string, p: string)
    requires ' ' !in dev && ' ' in p
    ensures Lacks(dev, p)
  {
    LacksChar(dev, p, ' ');
  }

  /** A text, a number, a text that starts with a blank or a comma. */
  lemma Numbered(a: string, n: string, b: string, p: string)
    requires Wordy(p) && Figure(n) && Lacks(a, p) && Lacks(b, p)
    ensures Lacks(a + n + b, p)
  {
    FigureLacks(n, p);
    FirmJoin(a, n, p);
    assert (a + n)[|a + n| - 1] == n[|n| - 1];
    FirmJoin(a + n, b, p);
  }

  lemma PlaceLacks(dev: string, p: string)
    requires ' ' !in dev && ' ' in p && Wordy(p) && Lacks(" on dev /dev/", p)
    ensures Lacks(Place(dev), p)
  {
    DevLacks(dev, p);
    FirmJoin(" on dev /dev/", dev, p);
  }

  lemma BlockQuiet(dev: string)
    requires ' ' !in dev
    ensures Lacks(UpToBlock(dev), LOGICAL)
  {
    LacksChar("BTRFS warning (device ", LOGICAL, 'l');
    DevLacks(dev, LOGICAL);
    LacksJoin("BTRFS warning (device ", dev, LOGICAL);
    LacksChar("): checksum error " + "at ", LOGICAL, 'l');
    FirmJoin("BTRFS warning (device " + dev, "): checksum error " + "at ", LOGICAL);
  }

  lemma FixupQuiet()
    ensures Lacks("): scrub: unable to fixup " + "(regular) error at ", LOGICAL)
  {
    LacksChar("): scrub: unable to fixup ", LOGICAL, 'g');
    LacksChar("(regular) error at ", LOGICAL, 'c');
    LacksJoin("): scrub: unable to fixup ", "(regular) error at ", LOGICAL);
  }

  lemma LossQuiet(dev: string)
    requires ' ' !in dev
    ensures Lacks(UpToLoss(dev), LOGICAL)
  {
    LacksChar("BTRFS error (device ", LOGICAL, 'l');
    DevLacks(dev, LOGICAL);
    LacksJoin("BTRFS error (device ", dev, LOGICAL);
    FixupQuiet();
    FirmJoin("BTRFS error (device " + dev, "): scrub: unable to fixup " + "(regular) error at ", LOGICAL);
  }

  /** Up to the number of the block, for the other two patterns. */
  lemma StemNoRoot(dev: string)
    requires ' ' !in dev
    ensures Lacks(UpToBlock(dev) + LOGICAL, ROOT)
  {
    var start, rest := "BTRFS warning (device ", "): checksum error " + ("at " + LOGICAL);
    LacksChar(start, ROOT, 'o');
    DevLacks(dev, ROOT);
    LacksJoin(start, dev, ROOT);
    LacksChar("): checksum error ", ROOT, 't');
    LacksChar("at " + LOGICAL, ROOT, 'r');
    LacksJoin("): checksum error ", "at " + LOGICAL, ROOT);
    FirmJoin(start + dev, rest, ROOT);
    assert UpToBlock(dev) + LOGICAL == start + dev + rest;
  }

  lemma StemNoVerdict(dev: string)
    requires ' ' !in dev
    ensures Lacks(UpToBlock(dev) + LOGICAL, VERDICT)
  {
    var start, rest := "BTRFS warning (device ", "): checksum error " + "at " + LOGICAL;
    LacksSplit(start, dev, VERDICT, 0, 6);
    LacksChar(rest, VERDICT, 'f');
    FirmJoin(start + dev, rest, VERDICT);
    assert UpToBlock(dev) + LOGICAL == start + dev + rest;
  }

  lemma BetweenQuiet(e: Event, p: string)
    requires e.Referenced? && WellFormed(e) && (p == ROOT || p == VERDICT)
    ensures Lacks(FieldsOf(e).between, p)
  {
    var c := if p == ROOT then 'r' else 'u';
    LacksChar(" on dev /dev/", p, c);
    PlaceLacks(e.dev, p);
    LacksChar(", physical ", p, if p == ROOT then 'r' else 'u');
    FirmJoin(Place(e.dev), ", physical ", p);
    LacksChar(", ", p, c);
    Numbered(Place(e.dev) + ", physical ", e.physical, ", ", p);
  }

  lemma UpToRootQuiet(e: Event, p: string)
    requires e.Referenced? && WellFormed(e) && (p == ROOT || p == VERDICT)
    ensures Lacks(UpToRootOf(FieldsOf(e)), p)
  {
    if p == ROOT { StemNoRoot(e.dev); } else { StemNoVerdict(e.dev); }
    BetweenQuiet(e, p);
    Numbered(UpToBlock(e.dev) + LOGICAL, e.block, FieldsOf(e).between, p);
  }

  lemma BehindQuiet(e: Event)
    requires e.Referenced? && WellFormed(e)
    ensures Lacks(FieldsOf(e).behind, VERDICT)
  {
    LacksChar(", inode ", VERDICT, 'u');
    LacksChar(", offset 0, length 4096, links 1 ", VERDICT, 'u');
    Numbered(", inode ", e.inode, ", offset 0, length 4096, links 1 ", VERDICT);
  }

  lemma FrontQuiet(e: Event)
    requires e.Referenced? && WellFormed(e)
    ensures Lacks(FieldsOf(e).Front(), VERDICT)
  {
    var f := FieldsOf(e);
    UpToRootQuiet(e, VERDICT);
    LacksChar(ROOT, VERDICT, 'u');
    LacksJoin(UpToRootOf(f), ROOT, VERDICT);
    BehindQuiet(e);
    Numbered(UpToRootOf(f) + ROOT, e.root, f.behind, VERDICT);
    FrontRegrouped(f);
  }

  lemma FrontRegrouped(f: Fields)
    ensures f.Front() == UpToRootOf(f) + ROOT + f.root + f.behind
  {}

  lemma FieldsQuiet(e: Event)
    requires e.Referenced? && WellFormed(e)
    ensures Quiet(FieldsOf(e))
  {
    BlockQuiet(e.dev);
    UpToRootQuiet(e, ROOT);
    FrontQuiet(e);
  }

  predicate Legible(path: string) { !Occurs(path, "(path: ") && !Occurs(path, "unable to fixup") }

  function Meant(e: Event): Line {
    match e
    case Referenced(dev, block, physical, root, inode, path) => Reference(block, root, path)
    case Lost(dev, block, physical) => Fixup(block)
    case Repaired(dev, block, physical) => Other
  }

  lemma LossVerdict(dev: string, tail: string)
    ensures Occurs(UpToLoss(dev) + tail, VERDICT)
  {
    var before := "BTRFS error (device " + dev + "): scrub: ";
    var after := " (regular) error at " + tail;
    AtPlace(before, VERDICT, after);
    assert UpToLoss(dev) + tail == before + (VERDICT + after);
  }

  lemma LossRead(e: Event)
    requires e.Lost? && WellFormed(e)
    ensures ReadLine(LineOf(e)) == Fixup(e.block)
  {
    LossQuiet(e.dev);
    var where := Whereabouts(e.dev, e.physical);
    assert where[0] == ' ' by { assert Place(e.dev)[0] == ' '; }
    NumberFound(UpToLoss(e.dev), LOGICAL, e.block, where);
    LossVerdict(e.dev, LOGICAL + (e.block + where));
  }

  lemma RepairHead(dev: string)
    requires ' ' !in dev
    ensures Lacks(REPAIR_START + dev + (REPAIR_WORDS + LOGICAL), VERDICT)
  {
    LacksSplit(REPAIR_START, dev, VERDICT, 0, 6);
    LacksChar(REPAIR_WORDS + LOGICAL, VERDICT, 'n');
    FirmJoin(REPAIR_START + dev, REPAIR_WORDS + LOGICAL, VERDICT);
  }

  lemma RepairPlace(dev: string)
    requires ' ' !in dev
    ensures Lacks(" on dev /dev/" + (dev + " physical "), VERDICT)
  {
    LacksChar(" on dev /dev/", VERDICT, 'u');
    LacksSplit(dev, " physical ", VERDICT, 6, 7);
    FirmJoin(" on dev /dev/", dev + " physical ", VERDICT);
  }

  lemma RepairRegrouped(e: Event, head: string, place: string)
    requires e.Repaired?
    requires head == REPAIR_START + e.dev + (REPAIR_WORDS + LOGICAL)
    requires place == " on dev /dev/" + (e.dev + " physical ")
    ensures LineOf(e) == head + e.block + place + e.physical
  {
    assert place + e.physical == Place(e.dev) + " physical " + e.physical;
    assert head == UpToRepair(e.dev) + LOGICAL;
    Regroup(UpToRepair(e.dev), LOGICAL, e.block + (place + e.physical));
  }

  lemma RepairNoVerdict(e: Event)
    requires e.Repaired? && WellFormed(e)
    ensures Lacks(LineOf(e), VERDICT)
  {
    var head, place := REPAIR_START + e.dev + (REPAIR_WORDS + LOGICAL), " on dev /dev/" + (e.dev + " physical ");
    RepairHead(e.dev);
    RepairPlace(e.dev);
    Numbered(head, e.block, place, VERDICT);
    FigureLacks(e.physical, VERDICT);
    FirmJoin(head + e.block + place, e.physical, VERDICT);
    RepairRegrouped(e, head, place);
  }

  lemma FigureNotParen(n: string)
    requires Figure(n)
    ensures '(' !in n
  {}

  function RepairTail(e: Event): string
    requires e.Repaired?
  {
    e.dev + (REPAIR_WORDS + LOGICAL) + e.block + (" on dev /dev/" + (e.dev + " physical ")) + e.physical
  }

  lemma RepairTailNoMark(e: Event)
    requires e.Repaired? && WellFormed(e)
    ensures Lacks(RepairTail(e), MARK)
  {
    FigureNotParen(e.block);
    FigureNotParen(e.physical);
    LacksChar(RepairTail(e), MARK, '(');
  }

  lemma RepairNoMark(e: Event)
    requires e.Repaired? && WellFormed(e)
    ensures Lacks(LineOf(e), MARK)
  {
    RepairTailNoMark(e);
    LacksChar(REPAIR_START, MARK, 'p');
    LacksJoin(REPAIR_START, RepairTail(e), MARK);
    RepairRegrouped(e, REPAIR_START + e.dev + (REPAIR_WORDS + LOGICAL), " on dev /dev/" + (e.dev + " physical "));
    Reassociated(REPAIR_START, e.dev, REPAIR_WORDS + LOGICAL, e.block, " on dev /dev/" + (e.dev + " physical "), e.physical);
  }

  lemma Reassociated(a: string, b: string, c: string, d: string, e: string, f: string)
    ensures a + b + c + d + e + f == a + (b + c + d + e + f)
  {}

  /** A line means what the kernel meant by it exactly when it is not a reference to an illegible path. */
  lemma LineRead(e: Event)
    requires WellFormed(e)
    ensures ReadLine(Message(e)) == Meant(e) <==> (e.Referenced? ==> Legible(e.path))
  {
    LineIsMessage(e);
    match e
    case Referenced(_, _, _, _, _, path) =>
      FieldsQuiet(e);
      ReferenceRead(FieldsOf(e), path);
    case Lost(_, _, _) => LossRead(e);
    case Repaired(_, _, _) =>
      RepairNoVerdict(e);
      RepairNoMark(e);
      LacksNot(LineOf(e), VERDICT);
      LacksNot(LineOf(e), MARK);
  }

  /** The files in blocks the kernel gave up on, as it named them. */
  function LostFiles(events: seq<Event>): seq<Record> {
    TwoPass(Map(Meant, events), LostBlocks(events))
  }

  function LostBlocks(events: seq<Event>): set<string> {
    set e | e in events && e.Lost? :: e.block
  }

  /** From the kernel's events to the rows of the report: the lost files, each as often as named. */
  lemma ReportNamesLostFiles(events: seq<Event>, order: seq<string>)
    requires forall e :: e in events ==> WellFormed(e) && (e.Referenced? ==> Legible(e.path))
    requires forall e :: e in events ==> '\n' !in Message(e)
    requires Distinct(order)
    requires forall b :: b in order <==> exists e :: e in events && e.Lost? && e.block == b
    ensures multiset(ReadOutput(FlatMap(PrintedOf(Lines(Map(Message, events))), order))) == multiset(LostFiles(events))
  {
    var log, meant := Map(Message, events), Map(Meant, events);
    LinesMeant(events);
    FixupsMeant(events);
    forall line | line in log ensures '\n' !in line {
      var i :| 0 <= i < |events| && log[i] == line;
      assert events[i] in events;
    }
    OutputNamesTheDamage(log, order);
  }

  lemma LinesMeant(events: seq<Event>)
    requires forall e :: e in events ==> WellFormed(e) && (e.Referenced? ==> Legible(e.path))
    ensures Lines(Map(Message, events)) == Map(Meant, events)
  {
    forall i | 0 <= i < |events| ensures ReadLine(Map(Message, events)[i]) == Map(Meant, events)[i] {
      assert events[i] in events;
      LineRead(events[i]);
    }
  }

  lemma FixupsMeant(events: seq<Event>)
    ensures Fixups(Map(Meant, events)) == LostBlocks(events)
  {
    var meant := Map(Meant, events);
    forall b | b in LostBlocks(events) ensures b in Fixups(meant) {
      var i :| 0 <= i < |events| && events[i].Lost? && events[i].block == b;
      assert meant[i] == Fixup(b) && meant[i] in meant;
    }
    forall b | b in Fixups(meant) ensures b in LostBlocks(events) {
      var i :| 0 <= i < |meant| && meant[i] == Fixup(b);
      assert events[i] in events && events[i].Lost? && events[i].block == b;
    }
  }
}
