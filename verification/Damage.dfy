/**
 * Which files a scrub could not repair (packages/home/src/btrfs.ts): one pass over the kernel's
 * messages that joins the references of a block to the verdict on it.
 */
module Damage {
  import opened Prelude
  import opened Text

  // ----- the patterns of the program

  predicate At(s: string, i: nat, p: string) {
    i + |p| <= |s| && forall j :: 0 <= j < |p| ==> s[i + j] == p[j]
  }

  predicate Occurs(s: string, p: string) { exists i :: 0 <= i <= |s| && At(s, i, p) }

  function DigitsEnd(s: string, i: nat): (k: nat)
    requires i <= |s|
    ensures i <= k <= |s|
    ensures forall j :: i <= j < k ==> IsDigit(s[j])
    ensures k < |s| ==> !IsDigit(s[k])
    decreases |s| - i
  {
    if i == |s| || !IsDigit(s[i]) then i else DigitsEnd(s, i + 1)
  }

  /** A word with a digit behind it. */
  predicate NumberAt(s: string, i: nat, word: string) {
    At(s, i, word) && i + |word| < |s| && IsDigit(s[i + |word|])
  }

  /** The number behind the first such word, from `i` on. */
  function Number(s: string, i: nat, word: string): (r: Option<string>)
    ensures r.Some? ==> r.value != "" && AllDigits(r.value)
    decreases |s| - i
  {
    if i >= |s| then None
    else if NumberAt(s, i, word) then Some(s[i + |word|..DigitsEnd(s, i + |word|)])
    else Number(s, i + 1, word)
  }

  /** What is behind the last occurrence of `p`, looked for from `i` down; all of it if there is none. */
  function AfterLast(s: string, i: nat, p: string): string
    requires i <= |s|
  {
    if At(s, i, p) then s[i + |p|..]
    else if i == 0 then s
    else AfterLast(s, i - 1, p)
  }

  function DropParen(s: string): string {
    if s != "" && s[|s| - 1] == ')' then s[..|s| - 1] else s
  }

  const VERDICT: string := "unable to fixup"
  const MARK: string := "(path: "
  const LOGICAL: string := "logical "
  const ROOT: string := "root "

  datatype Line = Fixup(block: string) | Reference(block: string, root: string, path: string) | Other

  function ReadLine(s: string): Line {
    var block := Number(s, 0, LOGICAL);
    if Occurs(s, VERDICT) then if block.Some? then Fixup(block.value) else Other
    else if Occurs(s, MARK) then
      var root := Number(s, 0, ROOT);
      if block.Some? && root.Some? then Reference(block.value, root.value, DropParen(AfterLast(s, |s|, MARK)))
      else Other
    else Other
  }

  // ----- the program, on lines that are read

  datatype Record = Record(root: string, path: string)

  function Shown(r: Record): string { r.root + " " + r.path + "\n" }

  function Printed(records: seq<Record>): string { FlatMap(Shown, records) }

  function Lines(log: seq<string>): seq<Line> { Map(ReadLine, log) }

  /** The references of one block, in the order they are logged. */
  function RecordsOf(lines: seq<Line>, block: string): seq<Record> {
    FlatMap(OfBlock(block), lines)
  }

  function OfBlock(block: string): Line -> seq<Record> {
    (l: Line) => if l.Reference? && l.block == block then [Record(l.root, l.path)] else []
  }

  function Fixups(lines: seq<Line>): set<string> {
    set l | l in lines && l.Fixup? :: l.block
  }

  function PrintedOf(lines: seq<Line>): string -> string {
    (block: string) => Printed(RecordsOf(lines, block))
  }

  function Refs(refs: map<string, string>, block: string): string {
    if block in refs then refs[block] else ""
  }

  /** The array of references is up to date with the lines. */
  ghost predicate Holds(refs: map<string, string>, lines: seq<Line>) {
    forall b :: Refs(refs, b) == PrintedOf(lines)(b)
  }

  lemma {:induction false} FlatMapConcat<A, B>(f: A -> seq<B>, xs: seq<A>, ys: seq<A>)
    ensures FlatMap(f, xs + ys) == FlatMap(f, xs) + FlatMap(f, ys)
  {
    if xs == [] {
      assert xs + ys == ys;
    } else {
      assert (xs + ys)[1..] == xs[1..] + ys;
      FlatMapConcat(f, xs[1..], ys);
    }
  }

  lemma OneShown(r: Record)
    ensures Printed([r]) == Shown(r)
  {
    assert [r][1..] == [] && Printed([]) == "";
    assert FlatMap(Shown, [r]) == Shown(r) + FlatMap(Shown, [r][1..]);
  }

  lemma RecordsSnoc(lines: seq<Line>, l: Line, block: string)
    ensures PrintedOf(lines + [l])(block) == PrintedOf(lines)(block) + Printed(OfBlock(block)(l))
  {
    FlatMapSnoc(OfBlock(block), lines, l);
    FlatMapConcat(Shown, RecordsOf(lines, block), OfBlock(block)(l));
  }

  lemma NotReferred(refs: map<string, string>, lines: seq<Line>, l: Line)
    requires Holds(refs, lines) && !l.Reference?
    ensures Holds(refs, lines + [l])
  {
    forall b ensures Refs(refs, b) == PrintedOf(lines + [l])(b) {
      RecordsSnoc(lines, l, b);
      assert Printed([]) == "";
    }
  }

  lemma Added(text: string, r: Record)
    ensures text + r.root + " " + r.path + "\n" == text + Printed([r])
  {
    OneShown(r);
    assert text + r.root + " " + r.path + "\n" == text + (r.root + " " + r.path + "\n");
  }

  lemma Referred(refs: map<string, string>, lines: seq<Line>, l: Line, text: string)
    requires Holds(refs, lines) && l.Reference?
    requires text == Refs(refs, l.block) + Printed([Record(l.root, l.path)])
    ensures Holds(refs[l.block := text], lines + [l])
  {
    forall b ensures Refs(refs[l.block := text], b) == PrintedOf(lines + [l])(b) {
      RecordsSnoc(lines, l, b);
      assert Refs(refs, b) == PrintedOf(lines)(b);
      assert Printed([]) == "";
    }
  }

  lemma FixupsSnoc(lines: seq<Line>, l: Line)
    ensures Fixups(lines + [l]) == Fixups(lines) + (if l.Fixup? then {l.block} else {})
  {}

  /** The program's arrays after the whole log: the blocks not repaired, and the references of every block. */
  method Join(log: seq<string>) returns (bad: set<string>, refs: map<string, string>)
    ensures bad == Fixups(Lines(log)) && Holds(refs, Lines(log))
  {
    bad, refs := {}, map[];
    ghost var lines: seq<Line> := [];
    for i := 0 to |log|
      invariant lines == Lines(log)[..i]
      invariant bad == Fixups(lines) && Holds(refs, lines)
    {
      var l := ReadLine(log[i]);
      FixupsSnoc(lines, l);
      if l.Fixup? {
        bad := bad + {l.block};
        NotReferred(refs, lines, l);
      } else if l.Reference? {
        var text := Refs(refs, l.block) + l.root + " " + l.path + "\n";
        Added(Refs(refs, l.block), Record(l.root, l.path));
        Referred(refs, lines, l, text);
        refs := refs[l.block := text];
      } else {
        NotReferred(refs, lines, l);
      }
      assert Lines(log)[..i + 1] == Lines(log)[..i] + [l];
      lines := lines + [l];
    }
    assert lines == Lines(log);
  }

  lemma VisitNext(order: seq<string>, b: string, left: set<string>, lines: seq<Line>)
    requires Visited(order, left, lines) && b in left
    ensures Visited(order + [b], left - {b}, lines)
    ensures FlatMap(PrintedOf(lines), order + [b]) == FlatMap(PrintedOf(lines), order) + PrintedOf(lines)(b)
  {
    DistinctConcat(order, [b]);
    ApartMembers(order, [b]);
    FlatMapSnoc(PrintedOf(lines), order, b);
  }

  ghost predicate Visited(order: seq<string>, left: set<string>, lines: seq<Line>) {
    && left <= Fixups(lines) && Distinct(order)
    && forall b :: b in order <==> (b in Fixups(lines) && b !in left)
  }

  /** The whole program; `order` is the order in which it happens to visit the blocks at the end. */
  method Damaged(log: seq<string>) returns (order: seq<string>, output: string)
    ensures Distinct(order) && forall b :: b in order <==> b in Fixups(Lines(log))
    ensures output == FlatMap(PrintedOf(Lines(log)), order)
  {
    var bad, refs := Join(log);
    order, output := [], "";
    ghost var lines := Lines(log);
    while bad != {}
      invariant Visited(order, bad, lines)
      invariant output == FlatMap(PrintedOf(lines), order)
    {
      var b :| b in bad;
      VisitNext(order, b, bad, lines);
      order, output, bad := order + [b], output + Refs(refs, b), bad - {b};
    }
  }

  // ----- what the program prints

  function BlocksRecords(lines: seq<Line>): string -> seq<Record> {
    (block: string) => RecordsOf(lines, block)
  }

  /** What a second pass that knows the verdicts would keep of each line. */
  function Kept(bad: set<string>): Line -> seq<Record> {
    (l: Line) => if l.Reference? && l.block in bad then [Record(l.root, l.path)] else []
  }

  function TwoPass(lines: seq<Line>, bad: set<string>): seq<Record> { FlatMap(Kept(bad), lines) }

  function LineOver(l: Line): string -> seq<Record> {
    (block: string) => OfBlock(block)(l)
  }

  /** One line contributes once, to its own block if that is visited. */
  lemma {:induction false} OneLineOnce(order: seq<string>, l: Line, bad: set<string>)
    requires Distinct(order)
    requires forall b :: b in order <==> b in bad
    ensures FlatMap(LineOver(l), order) == Kept(bad)(l)
  {
    if order != [] {
      var b, rest := order[0], order[1..];
      assert b in order && forall x :: x in order <==> x == b || x in rest;
      OneLineOnce(rest, l, bad - {b});
      if l.Reference? && l.block == b {
        assert Kept(bad - {b})(l) == [] && Kept(bad)(l) == [Record(l.root, l.path)];
        assert LineOver(l)(b) == OfBlock(b)(l) == [Record(l.root, l.path)];
      } else {
        assert Kept(bad - {b})(l) == Kept(bad)(l);
        assert LineOver(l)(b) == OfBlock(b)(l) == [];
      }
    }
  }

  lemma {:induction false} GroupedIsTwoPass(lines: seq<Line>, order: seq<string>, bad: set<string>)
    requires Distinct(order) && forall b :: b in order <==> b in bad
    ensures multiset(FlatMap(BlocksRecords(lines), order)) == multiset(TwoPass(lines, bad))
  {
    if lines == [] {
      NothingLogged(order);
    } else {
      GroupedIsTwoPass(lines[1..], order, bad);
      OneLineOnce(order, lines[0], bad);
      forall b ensures BlocksRecords(lines)(b) == LineOver(lines[0])(b) + BlocksRecords(lines[1..])(b) {}
      FlatMapSplit(LineOver(lines[0]), BlocksRecords(lines[1..]), BlocksRecords(lines), order);
    }
  }

  lemma {:induction false} NothingLogged(order: seq<string>)
    ensures FlatMap(BlocksRecords([]), order) == []
  {
    if order != [] { NothingLogged(order[1..]); }
  }

  lemma {:induction false} PrintedInOrder(lines: seq<Line>, order: seq<string>)
    ensures FlatMap(PrintedOf(lines), order) == Printed(FlatMap(BlocksRecords(lines), order))
  {
    if order != [] {
      PrintedInOrder(lines, order[1..]);
      FlatMapConcat(Shown, RecordsOf(lines, order[0]), FlatMap(BlocksRecords(lines), order[1..]));
    }
  }

  /**
   * Joining in one pass loses and repeats nothing: in whatever order the blocks are visited, the
   * output is the references a second pass would keep, each as often, and grouped by block.
   */
  lemma OnePassIsEnough(lines: seq<Line>, order: seq<string>) returns (records: seq<Record>)
    requires Distinct(order) && forall b :: b in order <==> b in Fixups(lines)
    ensures FlatMap(PrintedOf(lines), order) == Printed(records)
    ensures multiset(records) == multiset(TwoPass(lines, Fixups(lines)))
    ensures records == FlatMap(BlocksRecords(lines), order)
  {
    records := FlatMap(BlocksRecords(lines), order);
    PrintedInOrder(lines, order);
    GroupedIsTwoPass(lines, order, Fixups(lines));
  }

  function References(lines: seq<Line>): seq<Line> { Filter((l: Line) => l.Reference?, lines) }

  lemma {:induction false} OnlyReferences(lines: seq<Line>, block: string)
    ensures RecordsOf(References(lines), block) == RecordsOf(lines, block)
  {
    if lines != [] {
      OnlyReferences(lines[1..], block);
      if lines[0].Reference? {
        assert References(lines)[0] == lines[0] && References(lines)[1..] == References(lines[1..]);
      }
    }
  }

  /** Verdicts may come before, among or after the references: only their own order counts. */
  lemma VerdictsMayComeAnywhere(lines: seq<Line>, other: seq<Line>, order: seq<string>)
    requires References(lines) == References(other) && Fixups(lines) == Fixups(other)
    ensures FlatMap(PrintedOf(lines), order) == FlatMap(PrintedOf(other), order)
  {
    forall b ensures PrintedOf(lines)(b) == PrintedOf(other)(b) {
      OnlyReferences(lines, b);
      OnlyReferences(other, b);
    }
    SameOver(PrintedOf(lines), PrintedOf(other), order);
  }

  lemma {:induction false} SameOver<A, B>(f: A -> seq<B>, g: A -> seq<B>, xs: seq<A>)
    requires forall x :: x in xs ==> f(x) == g(x)
    ensures FlatMap(f, xs) == FlatMap(g, xs)
  {
    if xs != [] { SameOver(f, g, xs[1..]); }
  }

  // ----- reading the output back

  function ReadRecord(s: string): Record {
    var k := IndexOf(s, {' '});
    if k < |s| then Record(s[..k], s[k + 1..]) else Record(s, "")
  }

  /** One record a line, the root up to the first blank. */
  function ReadOutput(output: string): seq<Record> {
    var rows := Split(output, {'\n'});
    Map(ReadRecord, rows[..|rows| - 1])
  }

  predicate Printable(r: Record) { ' ' !in r.root && '\n' !in r.root && '\n' !in r.path }

  lemma {:induction false} OutputReadsBack(records: seq<Record>)
    requires forall r :: r in records ==> Printable(r)
    ensures ReadOutput(Printed(records)) == records
  {
    if records == [] {
      assert Split("", {'\n'}) == [""];
    } else {
      var r, rest := records[0], records[1..];
      assert r in records;
      var row := r.root + " " + r.path;
      OutputReadsBack(rest);
      SplitAtFirst(row, '\n', Printed(rest), {'\n'});
      assert Printed(records) == row + ['\n'] + Printed(rest);
      var rows := Split(Printed(rest), {'\n'});
      assert ([row] + rows)[..|rows|] == [row] + rows[..|rows| - 1];
      IndexOfAt(r.root, ' ', r.path, {' '});
      assert row == r.root + [' '] + r.path;
      assert row[..|r.root|] == r.root && row[|r.root| + 1..] == r.path;
      MapCons(ReadRecord, [row] + rows[..|rows| - 1]);
      assert ([row] + rows[..|rows| - 1])[1..] == rows[..|rows| - 1];
    }
  }

  lemma {:induction false} AfterLastWithin(s: string, i: nat, p: string, c: char)
    requires i <= |s| && c !in s
    ensures c !in AfterLast(s, i, p)
    decreases i
  {
    if !At(s, i, p) && i > 0 { AfterLastWithin(s, i - 1, p, c); }
  }

  lemma PathWithin(s: string, c: char)
    requires c !in s && ReadLine(s).Reference?
    ensures c !in ReadLine(s).path
  {
    AfterLastWithin(s, |s|, MARK, c);
  }

  lemma DigitsOnly(s: string, c: char)
    requires AllDigits(s) && !IsDigit(c)
    ensures c !in s
  {}

  lemma RootDigits(s: string)
    requires ReadLine(s).Reference?
    ensures AllDigits(ReadLine(s).root)
  {}

  lemma {:induction false} RecordsPrintable(log: seq<string>, block: string)
    requires forall s :: s in log ==> '\n' !in s
    ensures forall r :: r in RecordsOf(Lines(log), block) ==> Printable(r)
  {
    if log != [] {
      assert log[0] in log && forall s :: s in log[1..] ==> s in log;
      MapCons(ReadLine, log);
      assert Lines(log)[1..] == Lines(log[1..]);
      RecordsPrintable(log[1..], block);
      var l := ReadLine(log[0]);
      if l.Reference? {
        RootDigits(log[0]);
        DigitsOnly(l.root, ' ');
        DigitsOnly(l.root, '\n');
        PathWithin(log[0], '\n');
      }
    }
  }

  lemma {:induction false} BlocksPrintable(log: seq<string>, order: seq<string>)
    requires forall s :: s in log ==> '\n' !in s
    ensures forall r :: r in FlatMap(BlocksRecords(Lines(log)), order) ==> Printable(r)
  {
    if order != [] {
      RecordsPrintable(log, order[0]);
      BlocksPrintable(log, order[1..]);
    }
  }

  /**
   * Read back row by row, the output names exactly the references of the blocks that could not be
   * repaired, as often as they are logged, wherever in the log the verdicts stand.
   */
  lemma OutputNamesTheDamage(log: seq<string>, order: seq<string>)
    requires Distinct(order) && forall b :: b in order <==> b in Fixups(Lines(log))
    requires forall s :: s in log ==> '\n' !in s
    ensures multiset(ReadOutput(FlatMap(PrintedOf(Lines(log)), order)))
         == multiset(TwoPass(Lines(log), Fixups(Lines(log))))
  {
    var records := OnePassIsEnough(Lines(log), order);
    BlocksPrintable(log, order);
    OutputReadsBack(records);
  }
}
