/** What passes over the tracked components leave in their pins (scripts/update-apps/update-apps.ts). */
module UpdaterPasses {
  import opened Prelude
  import opened Pins
  import opened Updater

  predicate Present(entries: seq<Entry>, disk: map<string, string>) {
    forall e :: e in entries ==> ValidPin(e.pin) && e.file in disk
  }

  predicate HarmlessTo(p: Pin, v: string, pins: set<Pin>) {
    forall q :: q in pins && q != p ==> Harmless(p, v, q)
  }

  /**
   * The file is there, and neither the value in the pin nor what may be written into it holds a quote
   * or a line that opens an entry for one of the other pins.
   */
  predicate Workable(e: Entry, disk: map<string, string>, w: World, pins: set<Pin>) {
    && ValidPin(e.pin) && e.pin in pins
    && e.file in disk
    && (Read(disk[e.file], e.pin).Some? ==> HarmlessTo(e.pin, Read(disk[e.file], e.pin).value, pins))
    && (Live(e, w) ==> '"' !in Next(e, w) && HarmlessTo(e.pin, Next(e, w), pins))
  }

  predicate AllWorkable(entries: seq<Entry>, disk: map<string, string>, w: World, pins: set<Pin>)
    decreases |entries|
  {
    entries == [] || (Workable(entries[0], disk, w, pins) && AllWorkable(entries[1..], disk, w, pins))
  }

  lemma {:induction false} WorkableIn(entries: seq<Entry>, disk: map<string, string>, w: World, pins: set<Pin>, e: Entry)
    requires AllWorkable(entries, disk, w, pins) && e in entries
    ensures Workable(e, disk, w, pins)
    decreases |entries|
  {
    if e != entries[0] { WorkableIn(entries[1..], disk, w, pins, e); }
  }

  lemma {:induction false} WorkableEach(entries: seq<Entry>, disk: map<string, string>, w: World, pins: set<Pin>)
    requires forall e :: e in entries ==> Workable(e, disk, w, pins)
    ensures AllWorkable(entries, disk, w, pins)
    decreases |entries|
  {
    if entries != [] {
      assert entries[0] in entries && forall e :: e in entries[1..] ==> e in entries;
      WorkableEach(entries[1..], disk, w, pins);
    }
  }

  /** What an entry makes of its own pin's value. */
  function Moved(v: Option<string>, e: Entry, w: World): Option<string> {
    if Given(v) && Live(e, w) then Some(Next(e, w)) else v
  }

  predicate Targets(e: Entry, file: string, pin: Pin) { e.file == file && e.pin == pin }

  /** What all entries in turn make of one pin's value. */
  function Settled(v: Option<string>, entries: seq<Entry>, w: World, file: string, pin: Pin): Option<string>
    decreases |entries|
  {
    if entries == [] then v
    else Settled(if Targets(entries[0], file, pin) then Moved(v, entries[0], w) else v, entries[1..], w, file, pin)
  }

  /** The entry's pin is there, and its next value is published and another one. */
  predicate Moves(disk: map<string, string>, e: Entry, w: World) {
    var v := ValueAt(disk, e.file, e.pin);
    Given(v) && Live(e, w) && v.value != Next(e, w)
  }

  lemma MovingEdit(s: Pass, e: Entry, w: World)
    requires Coherent(s) && !s.threw && ValidPin(e.pin) && e.file in s.disk && Moves(s.disk, e, w)
    ensures var t := Process(s, e, w, false);
            && !t.threw && Coherent(t)
            && t.disk == s.disk[e.file := Write(s.disk[e.file], e.pin, Next(e, w)).value]
            && t.titles == s.titles + [e.app + " " + Version(e, Tag(e, w).value)]
            && t.commits == s.commits + [Commit(e.app, Next(e, w))]
            && t.failed == s.failed
  {
    WrittenIsRead(s.disk[e.file], e.pin, Next(e, w));
  }

  /** One entry, seen from the text of its file. */
  lemma EditOf(s: Pass, e: Entry, w: World)
    requires Coherent(s) && !s.threw && ValidPin(e.pin) && e.file in s.disk
    ensures var t := Process(s, e, w, false);
            && !t.threw && Coherent(t)
            && (if Moves(s.disk, e, w) then
                  && t.disk == s.disk[e.file := Write(s.disk[e.file], e.pin, Next(e, w)).value]
                  && t.titles == s.titles + [e.app + " " + Version(e, Tag(e, w).value)]
                  && t.commits == s.commits + [Commit(e.app, Next(e, w))]
                  && t.failed == s.failed
                else t.disk == s.disk && t.titles == s.titles && t.commits == s.commits)
  {
    if Moves(s.disk, e, w) { MovingEdit(s, e, w); } else { StayReports(s, e, w, false); }
  }

  /** A bump is there afterwards exactly when its value holds no quote. */
  lemma BumpHoldsIff(s: Pass, e: Entry, w: World)
    requires Coherent(s) && !s.threw && ValidPin(e.pin) && e.file in s.disk && Moves(s.disk, e, w)
    ensures ValueAt(Process(s, e, w, false).disk, e.file, e.pin) == Some(Next(e, w)) <==> '"' !in Next(e, w)
  {
    MovingEdit(s, e, w);
    WrittenIsRead(s.disk[e.file], e.pin, Next(e, w));
  }

  lemma StepValue(s: Pass, e: Entry, w: World, pins: set<Pin>, file: string, q: Pin)
    requires Coherent(s) && !s.threw && Workable(e, s.disk, w, pins) && ValidPin(q) && q in pins
    ensures var t := Process(s, e, w, false);
            var v := ValueAt(s.disk, file, q);
            && ValueAt(t.disk, file, q) == (if Targets(e, file, q) then Moved(v, e, w) else v)
            && (file in s.disk ==> file in t.disk)
  {
    EditOf(s, e, w);
    if Moves(s.disk, e, w) && file == e.file {
      if q == e.pin {
        WrittenIsRead(s.disk[e.file], e.pin, Next(e, w));
      } else {
        HarmlessWrite(s.disk[e.file], e.pin, q, Next(e, w));
      }
    }
  }

  lemma StepWorkable(s: Pass, e: Entry, w: World, pins: set<Pin>, other: Entry)
    requires Coherent(s) && !s.threw && Workable(e, s.disk, w, pins) && Workable(other, s.disk, w, pins)
    ensures Workable(other, Process(s, e, w, false).disk, w, pins)
  {
    StepValue(s, e, w, pins, other.file, other.pin);
  }

  lemma StepAllWorkable(s: Pass, e: Entry, w: World, pins: set<Pin>, all: seq<Entry>)
    requires Coherent(s) && !s.threw && AllWorkable(all, s.disk, w, pins) && e in all
    ensures AllWorkable(all, Process(s, e, w, false).disk, w, pins)
  {
    WorkableIn(all, s.disk, w, pins, e);
    forall other | other in all ensures Workable(other, Process(s, e, w, false).disk, w, pins) {
      WorkableIn(all, s.disk, w, pins, other);
      StepWorkable(s, e, w, pins, other);
    }
    WorkableEach(all, Process(s, e, w, false).disk, w, pins);
  }

  lemma {:induction false} PassSettlesWithin(s: Pass, entries: seq<Entry>, all: seq<Entry>, w: World, pins: set<Pin>,
                                             file: string, q: Pin)
    requires Coherent(s) && !s.threw && AllWorkable(all, s.disk, w, pins) && ValidPin(q) && q in pins
    requires forall e :: e in entries ==> e in all
    ensures var t := ProcessAll(s, entries, w, false);
            && !t.threw && Coherent(t) && AllWorkable(all, t.disk, w, pins)
            && ValueAt(t.disk, file, q) == Settled(ValueAt(s.disk, file, q), entries, w, file, q)
    decreases |entries|
  {
    if entries != [] {
      var e := entries[0];
      assert e in entries;
      WorkableIn(all, s.disk, w, pins, e);
      EditOf(s, e, w);
      StepAllWorkable(s, e, w, pins, all);
      StepValue(s, e, w, pins, file, q);
      PassSettlesWithin(Process(s, e, w, false), entries[1..], all, w, pins, file, q);
    }
  }

  /**
   * What the files hold for a pin after a whole pass is what the entries in turn make of its value
   * alone: the texts, the cache and the edits of other pins never come into it.
   */
  lemma PassSettles(disk: map<string, string>, entries: seq<Entry>, w: World, pins: set<Pin>, file: string, q: Pin)
    requires AllWorkable(entries, disk, w, pins) && ValidPin(q) && q in pins
    ensures var t := ProcessAll(Start(disk), entries, w, false);
            && !t.threw && Coherent(t) && AllWorkable(entries, t.disk, w, pins)
            && ValueAt(t.disk, file, q) == Settled(ValueAt(disk, file, q), entries, w, file, q)
  {
    PassSettlesWithin(Start(disk), entries, entries, w, pins, file, q);
  }

  // ----- distinct targets

  datatype Target = Target(file: string, pin: Pin)

  function TargetOf(e: Entry): Target { Target(e.file, e.pin) }

  function TargetsOf(entries: seq<Entry>): seq<Target> { Map(TargetOf, entries) }

  lemma {:induction false} SettledElsewhere(v: Option<string>, entries: seq<Entry>, w: World, file: string, q: Pin)
    requires Target(file, q) !in TargetsOf(entries)
    ensures Settled(v, entries, w, file, q) == v
    decreases |entries|
  {
    if entries != [] {
      MapCons(TargetOf, entries);
      assert !Targets(entries[0], file, q) by { assert TargetsOf(entries)[0] == TargetOf(entries[0]); }
      forall i | 0 <= i < |TargetsOf(entries[1..])| ensures TargetsOf(entries[1..])[i] != Target(file, q) {
        assert TargetsOf(entries)[i + 1] == TargetsOf(entries[1..])[i];
      }
      SettledElsewhere(v, entries[1..], w, file, q);
    }
  }

  lemma {:induction false} SettledOnce(v: Option<string>, entries: seq<Entry>, i: nat, w: World)
    requires Distinct(TargetsOf(entries)) && i < |entries|
    ensures Settled(v, entries, w, entries[i].file, entries[i].pin) == Moved(v, entries[i], w)
    decreases |entries|
  {
    MapCons(TargetOf, entries);
    assert TargetsOf(entries)[1..] == TargetsOf(entries[1..]);
    if i == 0 {
      SettledElsewhere(Moved(v, entries[0], w), entries[1..], w, entries[0].file, entries[0].pin);
    } else {
      assert TargetsOf(entries[1..])[i - 1] == TargetOf(entries[i]);
      assert TargetOf(entries[0]) != TargetOf(entries[i]);
      SettledOnce(v, entries[1..], i - 1, w);
    }
  }

  /** With no two entries on one pin, each pin ends at its own next value or where it was. */
  lemma EachPinMovesOrStays(disk: map<string, string>, entries: seq<Entry>, i: nat, w: World, pins: set<Pin>)
    requires AllWorkable(entries, disk, w, pins) && Distinct(TargetsOf(entries)) && i < |entries|
    ensures var e := entries[i];
            var v := ValueAt(disk, e.file, e.pin);
            ValueAt(ProcessAll(Start(disk), entries, w, false).disk, e.file, e.pin)
              == if Given(v) && Live(e, w) then Some(Next(e, w)) else v
  {
    var e := entries[i];
    WorkableIn(entries, disk, w, pins, e);
    PassSettles(disk, entries, w, pins, e.file, e.pin);
    SettledOnce(ValueAt(disk, e.file, e.pin), entries, i, w);
  }

  /** And a pin no entry names keeps its value, in whatever file it is. */
  lemma OtherPinsStay(disk: map<string, string>, entries: seq<Entry>, w: World, pins: set<Pin>, file: string, q: Pin)
    requires AllWorkable(entries, disk, w, pins) && ValidPin(q) && q in pins && Target(file, q) !in TargetsOf(entries)
    ensures ValueAt(ProcessAll(Start(disk), entries, w, false).disk, file, q) == ValueAt(disk, file, q)
  {
    PassSettles(disk, entries, w, pins, file, q);
    SettledElsewhere(ValueAt(disk, file, q), entries, w, file, q);
  }

  // ----- the next pass

  /** There is nothing for this entry to move. */
  predicate AtRest(disk: map<string, string>, e: Entry, w: World) { !Moves(disk, e, w) }

  lemma {:induction false} ReportsGrow(s: Pass, entries: seq<Entry>, w: World, dry: bool)
    ensures var t := ProcessAll(s, entries, w, dry); |t.titles| >= |s.titles| && |t.commits| >= |s.commits|
    decreases |entries|
  {
    if entries != [] && !s.threw {
      ReportsGrow(Process(s, entries[0], w, dry), entries[1..], w, dry);
    }
  }

  predicate AllAtRest(disk: map<string, string>, entries: seq<Entry>, w: World) {
    forall e :: e in entries ==> AtRest(disk, e, w)
  }

  lemma {:induction false} QuietWhenAtRest(s: Pass, entries: seq<Entry>, all: seq<Entry>, w: World)
    requires Coherent(s) && !s.threw && Present(all, s.disk) && forall e :: e in entries ==> e in all
    ensures var t := ProcessAll(s, entries, w, false);
            && (t.titles == s.titles <==> AllAtRest(s.disk, entries, w))
            && (t.commits == s.commits <==> AllAtRest(s.disk, entries, w))
            && (AllAtRest(s.disk, entries, w) ==> t.disk == s.disk)
    decreases |entries|
  {
    if entries != [] {
      var e := entries[0];
      var t := Process(s, e, w, false);
      EditOf(s, e, w);
      if AtRest(s.disk, e, w) {
        QuietWhenAtRest(t, entries[1..], all, w);
        assert forall x :: x in entries <==> x == e || x in entries[1..];
      } else {
        ReportsGrow(t, entries[1..], w, false);
        assert e in entries;
      }
    }
  }

  // ----- entries that share a pin

  /** Some live entry on the pin writes nothing into it. */
  predicate Blanked(entries: seq<Entry>, w: World, file: string, q: Pin)
    decreases |entries|
  {
    entries != [] && (Blanks(entries[0], w, file, q) || Blanked(entries[1..], w, file, q))
  }

  predicate Blanks(e: Entry, w: World, file: string, q: Pin) {
    Targets(e, file, q) && Live(e, w) && Next(e, w) == ""
  }

  lemma {:induction false} SettledNothing(v: Option<string>, entries: seq<Entry>, w: World, file: string, q: Pin)
    requires !Given(v)
    ensures Settled(v, entries, w, file, q) == v
    decreases |entries|
  {
    if entries != [] { SettledNothing(v, entries[1..], w, file, q); }
  }

  /** A value that is emptied stays empty, whatever other entries want. */
  lemma {:induction false} SettledBlank(v: Option<string>, entries: seq<Entry>, w: World, file: string, q: Pin)
    requires Given(v) && Blanked(entries, w, file, q)
    ensures Settled(v, entries, w, file, q) == Some("")
    decreases |entries|
  {
    var first, rest := entries[0], entries[1..];
    var now := if Targets(first, file, q) then Moved(v, first, w) else v;
    if Given(now) {
      SettledBlank(now, rest, w, file, q);
    } else {
      SettledNothing(now, rest, w, file, q);
    }
  }

  /** A value there ends as the next of the last live entry on the pin, if none empties it. */
  lemma {:induction false} SettledLast(v: Option<string>, entries: seq<Entry>, w: World, file: string, q: Pin)
    returns (last: Option<Entry>)
    requires Given(v) && !Blanked(entries, w, file, q)
    ensures Given(Settled(v, entries, w, file, q))
    ensures last == None ==> forall e :: e in entries && Targets(e, file, q) ==> !Live(e, w)
    ensures last.Some? ==>
              && last.value in entries && Targets(last.value, file, q) && Live(last.value, w)
              && Settled(v, entries, w, file, q) == Some(Next(last.value, w))
    ensures last == None ==> Settled(v, entries, w, file, q) == v
    decreases |entries|
  {
    if entries == [] {
      last := None;
    } else {
      var e := entries[0];
      assert e in entries && forall x :: x in entries <==> x == e || x in entries[1..];
      var mine := Targets(e, file, q) && Live(e, w);
      last := SettledLast(if Targets(e, file, q) then Moved(v, e, w) else v, entries[1..], w, file, q);
      if last == None && mine { last := Some(e); }
    }
  }

  /** Two entries on one readable pin, both live, want one value, unless some entry empties the pin. */
  predicate Agrees(d: Entry, e: Entry, entries: seq<Entry>, disk: map<string, string>, w: World) {
    (TargetOf(d) == TargetOf(e) && Live(d, w) && Live(e, w)
     && Given(ValueAt(disk, d.file, d.pin)) && !Blanked(entries, w, d.file, d.pin)) ==> Next(d, w) == Next(e, w)
  }

  predicate Agree(entries: seq<Entry>, disk: map<string, string>, w: World) {
    AgreeFrom(entries, entries, disk, w)
  }

  predicate AgreeFrom(some: seq<Entry>, entries: seq<Entry>, disk: map<string, string>, w: World)
    decreases |some|
  {
    some == [] || (AgreesWith(some[0], entries, entries, disk, w) && AgreeFrom(some[1..], entries, disk, w))
  }

  predicate AgreesWith(d: Entry, some: seq<Entry>, entries: seq<Entry>, disk: map<string, string>, w: World)
    decreases |some|
  {
    some == [] || (Agrees(d, some[0], entries, disk, w) && AgreesWith(d, some[1..], entries, disk, w))
  }

  lemma {:induction false} AgreesWithEach(d: Entry, some: seq<Entry>, entries: seq<Entry>, disk: map<string, string>,
                                          w: World)
    ensures AgreesWith(d, some, entries, disk, w) <==> forall e :: e in some ==> Agrees(d, e, entries, disk, w)
    decreases |some|
  {
    if some != [] {
      AgreesWithEach(d, some[1..], entries, disk, w);
      assert forall e :: e in some <==> e == some[0] || e in some[1..];
    }
  }

  /** Agreement is of every two entries. */
  lemma {:induction false} AgreePairs(some: seq<Entry>, entries: seq<Entry>, disk: map<string, string>, w: World)
    ensures AgreeFrom(some, entries, disk, w) <==>
      forall d, e :: d in some && e in entries ==> Agrees(d, e, entries, disk, w)
    decreases |some|
  {
    if some != [] {
      AgreesWithEach(some[0], entries, entries, disk, w);
      AgreePairs(some[1..], entries, disk, w);
      assert forall d :: d in some <==> d == some[0] || d in some[1..];
    }
  }

  /** What a pass makes of the pin of a live entry. */
  lemma AfterPass(disk: map<string, string>, entries: seq<Entry>, w: World, pins: set<Pin>, e: Entry) returns (last: Entry)
    requires AllWorkable(entries, disk, w, pins) && e in entries && Live(e, w)
    ensures var v := ValueAt(disk, e.file, e.pin);
            var now := ValueAt(ProcessAll(Start(disk), entries, w, false).disk, e.file, e.pin);
            if !Given(v) then now == v
            else if Blanked(entries, w, e.file, e.pin) then now == Some("")
            else
              && last in entries && TargetOf(last) == TargetOf(e) && Live(last, w)
              && now == Some(Next(last, w)) && Given(now)
  {
    last := e;
    var v := ValueAt(disk, e.file, e.pin);
    WorkableIn(entries, disk, w, pins, e);
    PassSettles(disk, entries, w, pins, e.file, e.pin);
    if !Given(v) {
      SettledNothing(v, entries, w, e.file, e.pin);
    } else if Blanked(entries, w, e.file, e.pin) {
      SettledBlank(v, entries, w, e.file, e.pin);
    } else {
      var some := SettledLast(v, entries, w, e.file, e.pin);
      assert Targets(e, e.file, e.pin);
      last := some.value;
    }
  }

  lemma AtRestIffAgreed(disk: map<string, string>, entries: seq<Entry>, w: World, pins: set<Pin>)
    requires AllWorkable(entries, disk, w, pins)
    ensures AllAtRest(ProcessAll(Start(disk), entries, w, false).disk, entries, w) <==> Agree(entries, disk, w)
  {
    var after := ProcessAll(Start(disk), entries, w, false).disk;
    AgreePairs(entries, entries, disk, w);
    if Agree(entries, disk, w) {
      forall e | e in entries ensures AtRest(after, e, w) {
        if Live(e, w) {
          var last := AfterPass(disk, entries, w, pins, e);
          assert last in entries ==> Agrees(e, last, entries, disk, w);
        }
      }
    }
    if AllAtRest(after, entries, w) {
      forall d, e | d in entries && e in entries ensures Agrees(d, e, entries, disk, w) {
        if Live(d, w) {
          var last := AfterPass(disk, entries, w, pins, d);
          assert AtRest(after, d, w) && AtRest(after, e, w);
        }
      }
    }
  }

  /** The working tree after so many passes over the same answers. */
  function TreeAfter(disk: map<string, string>, entries: seq<Entry>, w: World, n: nat): map<string, string>
    decreases n
  {
    if n == 0 then disk else ProcessAll(Start(TreeAfter(disk, entries, w, n - 1)), entries, w, false).disk
  }

  lemma PassKeepsWorkable(disk: map<string, string>, entries: seq<Entry>, w: World, pins: set<Pin>)
    requires AllWorkable(entries, disk, w, pins)
    ensures AllWorkable(entries, ProcessAll(Start(disk), entries, w, false).disk, w, pins)
  {
    if entries != [] {
      WorkableIn(entries, disk, w, pins, entries[0]);
      PassSettles(disk, entries, w, pins, entries[0].file, entries[0].pin);
    }
  }

  lemma PassKeepsAgreement(disk: map<string, string>, entries: seq<Entry>, w: World, pins: set<Pin>)
    requires AllWorkable(entries, disk, w, pins)
    ensures var after := ProcessAll(Start(disk), entries, w, false).disk;
            AllWorkable(entries, after, w, pins) && Agree(entries, after, w) == Agree(entries, disk, w)
  {
    var after := ProcessAll(Start(disk), entries, w, false).disk;
    PassKeepsWorkable(disk, entries, w, pins);
    forall d, e | d in entries && e in entries
      ensures Agrees(d, e, entries, after, w) == Agrees(d, e, entries, disk, w)
    {
      if Live(d, w) { var last := AfterPass(disk, entries, w, pins, d); }
    }
    AgreePairs(entries, entries, disk, w);
    AgreePairs(entries, entries, after, w);
  }

  /** The entries can be worked on, and agree or not as is said. */
  predicate AgreeAs(disk: map<string, string>, entries: seq<Entry>, w: World, pins: set<Pin>, agreed: bool) {
    AllWorkable(entries, disk, w, pins) && Agree(entries, disk, w) == agreed
  }

  /** Each pass keeps what holds of a tree. */
  ghost predicate Keeps(holds: map<string, string> -> bool, entries: seq<Entry>, w: World) {
    forall t :: holds(t) ==> holds(ProcessAll(Start(t), entries, w, false).disk)
  }

  lemma {:induction false} PassesKeep(disk: map<string, string>, entries: seq<Entry>, w: World,
                                      holds: map<string, string> -> bool, n: nat)
    requires holds(disk) && Keeps(holds, entries, w)
    ensures holds(TreeAfter(disk, entries, w, n))
    decreases n
  {
    if n > 0 {
      var t := TreeAfter(disk, entries, w, n - 1);
      PassesKeep(disk, entries, w, holds, n - 1);
      assert holds(t) && holds(ProcessAll(Start(t), entries, w, false).disk);
    }
  }

  function AgreesAs(entries: seq<Entry>, w: World, pins: set<Pin>, agreed: bool): map<string, string> -> bool {
    (disk: map<string, string>) => AgreeAs(disk, entries, w, pins, agreed)
  }

  lemma PassKeepsAgreesAs(entries: seq<Entry>, w: World, pins: set<Pin>, agreed: bool)
    ensures Keeps(AgreesAs(entries, w, pins, agreed), entries, w)
  {
    var holds := AgreesAs(entries, w, pins, agreed);
    forall t | holds(t) ensures holds(ProcessAll(Start(t), entries, w, false).disk) {
      PassKeepsAgreement(t, entries, w, pins);
    }
  }

  lemma PassesKeepAgreement(disk: map<string, string>, entries: seq<Entry>, w: World, pins: set<Pin>, agreed: bool,
                            n: nat)
    requires AgreeAs(disk, entries, w, pins, agreed)
    ensures AgreeAs(TreeAfter(disk, entries, w, n), entries, w, pins, agreed)
  {
    PassKeepsAgreesAs(entries, w, pins, agreed);
    PassesKeep(disk, entries, w, AgreesAs(entries, w, pins, agreed), n);
  }

  lemma SecondPassQuietIff(disk: map<string, string>, entries: seq<Entry>, w: World, pins: set<Pin>)
    requires AllWorkable(entries, disk, w, pins)
    ensures var tree := ProcessAll(Start(disk), entries, w, false).disk;
            var again := ProcessAll(Start(tree), entries, w, false);
            && (again.titles == [] <==> Agree(entries, disk, w))
            && (again.commits == [] <==> Agree(entries, disk, w))
            && (Agree(entries, disk, w) ==> again.disk == tree)
  {
    var tree := ProcessAll(Start(disk), entries, w, false).disk;
    AtRestIffAgreed(disk, entries, w, pins);
    PassKeepsWorkable(disk, entries, w, pins);
    WorkableIsPresent(entries, tree, w, pins);
    QuietWhenAtRest(Start(tree), entries, entries, w);
  }

  /**
   * Every pass but the first changes nothing exactly when the entries that share a readable pin want
   * one value for it, or one of them empties it; otherwise each of them moves something and commits it.
   */
  lemma QuietIffAgreed(disk: map<string, string>, entries: seq<Entry>, w: World, pins: set<Pin>, n: nat)
    requires AllWorkable(entries, disk, w, pins)
    ensures var tree := TreeAfter(disk, entries, w, n + 1);
            var again := ProcessAll(Start(tree), entries, w, false);
            && (again.titles == [] <==> Agree(entries, disk, w))
            && (again.commits == [] <==> Agree(entries, disk, w))
            && (Agree(entries, disk, w) ==> again.disk == tree)
  {
    PassesKeepAgreement(disk, entries, w, pins, Agree(entries, disk, w), n);
    SecondPassQuietIff(TreeAfter(disk, entries, w, n), entries, w, pins);
  }

  lemma WorkableIsPresent(entries: seq<Entry>, disk: map<string, string>, w: World, pins: set<Pin>)
    requires AllWorkable(entries, disk, w, pins)
    ensures Present(entries, disk)
  {
    forall e | e in entries ensures ValidPin(e.pin) && e.file in disk { WorkableIn(entries, disk, w, pins, e); }
  }

  // ----- a dry run

  predicate Fails(disk: map<string, string>, e: Entry, w: World) {
    var tag := Tag(e, w);
    !Given(tag) || Decide(ValueAt(disk, e.file, e.pin), PlanFor(e, tag.value, w)).Problem?
  }

  /**
   * No entry both fails and moves. One with a release does neither when it is where it should be and
   * still published, or when what it should move to is not published yet.
   */
  lemma FailsOrMovesOrWaits(disk: map<string, string>, e: Entry, w: World)
    ensures !(Fails(disk, e, w) && Moves(disk, e, w))
    ensures Given(Tag(e, w)) ==>
      (!Fails(disk, e, w) && !Moves(disk, e, w) <==>
        var v := ValueAt(disk, e.file, e.pin);
        Given(v) && (v.value == PlanFor(e, Tag(e, w).value, w).next <==> Live(e, w)))
  {}

  function TitleOf(disk: map<string, string>, e: Entry, w: World): seq<string> {
    if Moves(disk, e, w) then [e.app + " " + Version(e, Tag(e, w).value)] else []
  }

  function FailureOf(disk: map<string, string>, e: Entry, w: World): seq<string> {
    if Fails(disk, e, w) then [e.app] else []
  }

  /** What there is to report, going by the files as they are before anything is written. */
  datatype Report = Report(titles: seq<string>, failed: seq<string>)

  function Forecast(disk: map<string, string>, entries: seq<Entry>, w: World): Report
    decreases |entries|
  {
    if entries == [] then Report([], [])
    else
      var rest := Forecast(disk, entries[1..], w);
      Report(TitleOf(disk, entries[0], w) + rest.titles, FailureOf(disk, entries[0], w) + rest.failed)
  }

  predicate Reported(s: Pass, t: Pass, r: Report) {
    t.titles == s.titles + r.titles && t.failed == s.failed + r.failed
  }

  lemma DryMove(s: Pass, e: Entry, w: World)
    requires Coherent(s) && !s.threw && e.file in s.disk && Moves(s.disk, e, w)
    ensures var t := Process(s, e, w, true);
            && !t.threw && Coherent(t) && t.disk == s.disk && t.commits == s.commits && t.failed == s.failed
            && t.titles == s.titles + TitleOf(s.disk, e, w)
  {}

  lemma StayReports(s: Pass, e: Entry, w: World, dry: bool)
    requires Coherent(s) && !s.threw && e.file in s.disk && !Moves(s.disk, e, w)
    ensures var t := Process(s, e, w, dry);
            && !t.threw && Coherent(t) && t.disk == s.disk && t.commits == s.commits
            && t.titles == s.titles && t.failed == s.failed + FailureOf(s.disk, e, w)
  {
    if Given(Tag(e, w)) {
      LoadSame(s, e.file);
      DecisionOf(s.disk, e, w);
    }
  }

  lemma LoadSame(s: Pass, file: string)
    requires Coherent(s) && !s.threw && file in s.disk
    ensures var t := Load(s, file);
            t == s.(sources := t.sources) && Coherent(t) && file in t.sources && t.sources[file] == s.disk[file]
  {}

  lemma DecisionOf(disk: map<string, string>, e: Entry, w: World)
    requires Given(Tag(e, w)) && e.file in disk
    ensures var d := Decide(Read(disk[e.file], e.pin), PlanFor(e, Tag(e, w).value, w));
            (d.Update? <==> Moves(disk, e, w)) && (d.Problem? <==> Fails(disk, e, w))
  {}

  lemma ProcessReports(s: Pass, e: Entry, w: World, dry: bool)
    requires Coherent(s) && !s.threw && ValidPin(e.pin) && e.file in s.disk
    ensures var t := Process(s, e, w, dry);
            && !t.threw && Coherent(t) && (dry ==> t.disk == s.disk && t.commits == s.commits)
            && Reported(s, t, Report(TitleOf(s.disk, e, w), FailureOf(s.disk, e, w)))
  {
    if !Moves(s.disk, e, w) {
      StayReports(s, e, w, dry);
    } else {
      FailsOrMovesOrWaits(s.disk, e, w);
      if dry { DryMove(s, e, w); } else { MovingEdit(s, e, w); }
    }
  }

  lemma {:induction false} ForecastOf(disk: map<string, string>, other: map<string, string>, entries: seq<Entry>,
                                      w: World)
    requires forall e :: e in entries ==> ValueAt(disk, e.file, e.pin) == ValueAt(other, e.file, e.pin)
    ensures Forecast(disk, entries, w) == Forecast(other, entries, w)
    decreases |entries|
  {
    if entries != [] {
      assert entries[0] in entries && forall x :: x in entries[1..] ==> x in entries;
      ForecastOf(disk, other, entries[1..], w);
    }
  }

  lemma ReportedOnward(s: Pass, t: Pass, u: Pass, disk: map<string, string>, entries: seq<Entry>, w: World)
    requires entries != [] && Reported(s, t, Report(TitleOf(disk, entries[0], w), FailureOf(disk, entries[0], w)))
    requires Reported(t, u, Forecast(disk, entries[1..], w))
    ensures Reported(s, u, Forecast(disk, entries, w))
  {
    Chained(s, t, u, Report(TitleOf(disk, entries[0], w), FailureOf(disk, entries[0], w)),
            Forecast(disk, entries[1..], w));
  }

  lemma Chained(s: Pass, t: Pass, u: Pass, a: Report, b: Report)
    requires Reported(s, t, a) && Reported(t, u, b)
    ensures Reported(s, u, Report(a.titles + b.titles, a.failed + b.failed))
  {}

  /** An entry leaves alone the values of the others' pins. */
  lemma RestUntouched(s: Pass, entries: seq<Entry>, w: World, pins: set<Pin>)
    requires Coherent(s) && !s.threw && AllWorkable(entries, s.disk, w, pins)
    requires entries != [] && Distinct(TargetsOf(entries))
    ensures var t := Process(s, entries[0], w, false);
            && Forecast(s.disk, entries[1..], w) == Forecast(t.disk, entries[1..], w)
            && Distinct(TargetsOf(entries[1..])) && AllWorkable(entries[1..], t.disk, w, pins)
  {
    var e, rest := entries[0], entries[1..];
    var t := Process(s, e, w, false);
    assert e in entries;
    StepAllWorkable(s, e, w, pins, entries);
    MapCons(TargetOf, entries);
    assert TargetsOf(entries)[1..] == TargetsOf(rest);
    forall x | x in rest ensures ValueAt(s.disk, x.file, x.pin) == ValueAt(t.disk, x.file, x.pin) {
      var i :| 0 <= i < |rest| && rest[i] == x;
      assert x in entries && TargetsOf(rest)[i] == TargetOf(x) && TargetOf(x) != TargetOf(e);
      WorkableIn(entries, s.disk, w, pins, x);
      StepValue(s, e, w, pins, x.file, x.pin);
    }
    ForecastOf(s.disk, t.disk, rest, w);
  }

  lemma {:induction false} RealReports(s: Pass, entries: seq<Entry>, w: World, pins: set<Pin>)
    requires Coherent(s) && !s.threw && AllWorkable(entries, s.disk, w, pins) && Distinct(TargetsOf(entries))
    ensures Reported(s, ProcessAll(s, entries, w, false), Forecast(s.disk, entries, w))
    decreases |entries|
  {
    if entries != [] {
      assert entries[0] in entries;
      var t := Process(s, entries[0], w, false);
      ProcessReports(s, entries[0], w, false);
      RestUntouched(s, entries, w, pins);
      RealReports(t, entries[1..], w, pins);
      ReportedOnward(s, t, ProcessAll(t, entries[1..], w, false), s.disk, entries, w);
    }
  }

  // ----- a dry run, with entries that share a pin

  /** Where the entry would have its pin. */
  function Wanted(e: Entry, w: World): string
    requires Given(Tag(e, w))
  {
    PlanFor(e, Tag(e, w).value, w).next
  }

  /**
   * What the earlier entries make of its pin decides nothing for this one: the pin is where the entry
   * wants it exactly if it was, and it is not emptied. (An unpublished value fails in place as an
   * empty pin does.)
   */
  predicate Foreseen(e: Entry, v: Option<string>, now: Option<string>, w: World) {
    Given(Tag(e, w)) && Given(v) ==>
      if Live(e, w) then Given(now) && (v.value == Wanted(e, w) <==> now.value == Wanted(e, w))
      else (v.value == Wanted(e, w) <==> !Given(now) || now.value == Wanted(e, w))
  }

  /** Where the pin of entry `k` is when its turn comes. */
  function InTurn(disk: map<string, string>, entries: seq<Entry>, w: World, k: nat): Option<string>
    requires k < |entries|
  {
    Settled(ValueAt(disk, entries[k].file, entries[k].pin), entries[..k], w, entries[k].file, entries[k].pin)
  }

  /** A pass that stops after `k` entries. */
  function SoFar(disk: map<string, string>, entries: seq<Entry>, w: World, dry: bool, k: nat): Pass
    requires k <= |entries|
  {
    ProcessAll(Start(disk), entries[..k], w, dry)
  }

  predicate SaysTheSame(s: Pass, t: Pass) { s.titles == t.titles && s.failed == t.failed }

  lemma {:induction false} ProcessSnoc(s: Pass, some: seq<Entry>, e: Entry, w: World, dry: bool)
    ensures var t := ProcessAll(s, some, w, dry);
            ProcessAll(s, some + [e], w, dry) == if t.threw then t else Process(t, e, w, dry)
    decreases |some|
  {
    if some == [] {
      assert ([] + [e])[0] == e && ([] + [e])[1..] == [];
    } else if !s.threw {
      assert (some + [e])[1..] == some[1..] + [e];
      ProcessSnoc(Process(s, some[0], w, dry), some[1..], e, w, dry);
    }
  }

  lemma NextSoFar(disk: map<string, string>, entries: seq<Entry>, w: World, dry: bool, k: nat)
    requires k < |entries| && !SoFar(disk, entries, w, dry, k).threw
    ensures SoFar(disk, entries, w, dry, k + 1) == Process(SoFar(disk, entries, w, dry, k), entries[k], w, dry)
  {
    assert entries[..k + 1] == entries[..k] + [entries[k]];
    ProcessSnoc(Start(disk), entries[..k], entries[k], w, dry);
  }

  lemma {:induction false} DryKeeps(disk: map<string, string>, entries: seq<Entry>, w: World, k: nat)
    requires Present(entries, disk) && k <= |entries|
    ensures var t := SoFar(disk, entries, w, true, k); Coherent(t) && !t.threw && t.disk == disk && t.commits == []
    decreases k
  {
    if k > 0 {
      DryKeeps(disk, entries, w, k - 1);
      NextSoFar(disk, entries, w, true, k - 1);
      assert entries[k - 1] in entries;
      ProcessReports(SoFar(disk, entries, w, true, k - 1), entries[k - 1], w, true);
    }
  }

  lemma WetKeeps(disk: map<string, string>, entries: seq<Entry>, w: World, pins: set<Pin>, k: nat)
    requires AllWorkable(entries, disk, w, pins) && k < |entries|
    ensures var t := SoFar(disk, entries, w, false, k);
            && Coherent(t) && !t.threw && AllWorkable(entries, t.disk, w, pins)
            && ValueAt(t.disk, entries[k].file, entries[k].pin) == InTurn(disk, entries, w, k)
  {
    WorkableIn(entries, disk, w, pins, entries[k]);
    PassSettlesWithin(Start(disk), entries[..k], entries, w, pins, entries[k].file, entries[k].pin);
  }

  /** An entry reports the same of two trees exactly when its pin is at, or off, its place in both. */
  lemma SameReportIff(disk: map<string, string>, tree: map<string, string>, e: Entry, w: World)
    requires !Given(ValueAt(disk, e.file, e.pin)) ==> ValueAt(tree, e.file, e.pin) == ValueAt(disk, e.file, e.pin)
    ensures TitleOf(disk, e, w) == TitleOf(tree, e, w) && FailureOf(disk, e, w) == FailureOf(tree, e, w)
            <==> Foreseen(e, ValueAt(disk, e.file, e.pin), ValueAt(tree, e.file, e.pin), w)
  {}

  /** Two runs that have said the same go on saying the same exactly if the next entry is foreseen. */
  lemma NextSaysTheSame(disk: map<string, string>, entries: seq<Entry>, w: World, pins: set<Pin>, k: nat)
    requires AllWorkable(entries, disk, w, pins) && k < |entries|
    requires SaysTheSame(SoFar(disk, entries, w, true, k), SoFar(disk, entries, w, false, k))
    ensures SaysTheSame(SoFar(disk, entries, w, true, k + 1), SoFar(disk, entries, w, false, k + 1))
      <==> ForeseenAt(disk, entries, w, k)
  {
    var e, dry, wet := entries[k], SoFar(disk, entries, w, true, k), SoFar(disk, entries, w, false, k);
    WorkableIsPresent(entries, disk, w, pins);
    WorkableIn(entries, disk, w, pins, e);
    DryKeeps(disk, entries, w, k);
    WetKeeps(disk, entries, w, pins, k);
    WorkableIn(entries, wet.disk, w, pins, e);
    NextSoFar(disk, entries, w, true, k);
    NextSoFar(disk, entries, w, false, k);
    ProcessReports(dry, e, w, true);
    ProcessReports(wet, e, w, false);
    if !Given(ValueAt(disk, e.file, e.pin)) {
      SettledNothing(ValueAt(disk, e.file, e.pin), entries[..k], w, e.file, e.pin);
    }
    SameReportIff(disk, wet.disk, e, w);
  }

  /** Each of the first `k` entries is foreseen. */
  predicate AllForeseen(disk: map<string, string>, entries: seq<Entry>, w: World, k: nat)
    requires k <= |entries|
    decreases k
  {
    k == 0 || (AllForeseen(disk, entries, w, k - 1) && ForeseenAt(disk, entries, w, k - 1))
  }

  predicate ForeseenAt(disk: map<string, string>, entries: seq<Entry>, w: World, k: nat)
    requires k < |entries|
  {
    Foreseen(entries[k], ValueAt(disk, entries[k].file, entries[k].pin), InTurn(disk, entries, w, k), w)
  }

  /** After each of the first `k` entries the dry run and the real one have said the same. */
  predicate InStep(disk: map<string, string>, entries: seq<Entry>, w: World, k: nat)
    requires k <= |entries|
    decreases k
  {
    SaysTheSame(SoFar(disk, entries, w, true, k), SoFar(disk, entries, w, false, k))
    && (k > 0 ==> InStep(disk, entries, w, k - 1))
  }

  lemma {:induction false} BothAlong(p: nat -> bool, q: nat -> bool, r: nat -> bool, n: nat, k: nat)
    requires p(0) && q(0) && k <= n
    requires forall j: nat :: j < n ==> (p(j + 1) <==> p(j) && r(j)) && (q(j + 1) <==> q(j) && r(j))
    ensures p(k) <==> q(k)
    decreases k
  {
    if k > 0 {
      BothAlong(p, q, r, n, k - 1);
      assert p(k - 1 + 1) <==> p(k - 1) && r(k - 1);
    }
  }

  /**
   * Entry by entry the dry run has named the bumps and failures of the real run exactly as long as no
   * entry finds its pin moved, by another on it, to where it decides otherwise.
   */
  lemma DryRunForetellsIff(disk: map<string, string>, entries: seq<Entry>, w: World, pins: set<Pin>, k: nat)
    requires AllWorkable(entries, disk, w, pins) && k <= |entries|
    ensures InStep(disk, entries, w, k) <==> AllForeseen(disk, entries, w, k)
  {
    var p := (j: nat) => j <= |entries| && InStep(disk, entries, w, j);
    var q := (j: nat) => j <= |entries| && AllForeseen(disk, entries, w, j);
    var r := (j: nat) => j < |entries| && ForeseenAt(disk, entries, w, j);
    InStepAtStart(disk, entries, w);
    forall j: nat | j < |entries| ensures (p(j + 1) <==> p(j) && r(j)) && (q(j + 1) <==> q(j) && r(j)) {
      InStepOnward(disk, entries, w, pins, j);
    }
    BothAlong(p, q, r, |entries|, k);
  }

  lemma InStepAtStart(disk: map<string, string>, entries: seq<Entry>, w: World)
    ensures InStep(disk, entries, w, 0) && AllForeseen(disk, entries, w, 0)
  {
    assert SoFar(disk, entries, w, true, 0) == Start(disk) == SoFar(disk, entries, w, false, 0);
  }

  lemma InStepOnward(disk: map<string, string>, entries: seq<Entry>, w: World, pins: set<Pin>, k: nat)
    requires AllWorkable(entries, disk, w, pins) && k < |entries|
    ensures InStep(disk, entries, w, k + 1) <==> InStep(disk, entries, w, k) && ForeseenAt(disk, entries, w, k)
    ensures AllForeseen(disk, entries, w, k + 1) <==> AllForeseen(disk, entries, w, k) && ForeseenAt(disk, entries, w, k)
  {
    if InStep(disk, entries, w, k) { NextSaysTheSame(disk, entries, w, pins, k); }
  }

  /** So it is with no two entries on one pin. */
  lemma {:induction false} DistinctForeseen(disk: map<string, string>, entries: seq<Entry>, w: World, k: nat)
    requires Distinct(TargetsOf(entries)) && k <= |entries|
    ensures AllForeseen(disk, entries, w, k)
    decreases k
  {
    if k > 0 {
      var e := entries[k - 1];
      DistinctForeseen(disk, entries, w, k - 1);
      DistinctPairs(TargetsOf(entries));
      var before := TargetsOf(entries[..k - 1]);
      forall i | 0 <= i < k - 1 ensures before[i] != TargetOf(e) {
        assert TargetsOf(entries)[i] == TargetOf(entries[i]) && TargetsOf(entries)[k - 1] == TargetOf(e);
      }
      SettledElsewhere(ValueAt(disk, e.file, e.pin), entries[..k - 1], w, e.file, e.pin);
    }
  }

  /** A dry run writes nothing, and where all is foreseen it names the real run's bumps and failures. */
  lemma DryRunForetells(disk: map<string, string>, entries: seq<Entry>, w: World, pins: set<Pin>)
    requires AllWorkable(entries, disk, w, pins)
    ensures var dry, wet := ProcessAll(Start(disk), entries, w, true), ProcessAll(Start(disk), entries, w, false);
            && dry.disk == disk && dry.commits == []
            && (AllForeseen(disk, entries, w, |entries|) ==> dry.titles == wet.titles && dry.failed == wet.failed)
  {
    assert entries[..|entries|] == entries;
    WorkableIsPresent(entries, disk, w, pins);
    DryKeeps(disk, entries, w, |entries|);
    DryRunForetellsIff(disk, entries, w, pins, |entries|);
  }

  // ----- the second pass, with no two entries on one pin

  /** The entry empties its pin. */
  predicate Emptied(disk: map<string, string>, e: Entry, w: World) {
    Moves(disk, e, w) && Next(e, w) == ""
  }

  /** What fails a second time: what failed, and what the first pass emptied. */
  function FailsNext(disk: map<string, string>, entries: seq<Entry>, w: World): seq<string>
    decreases |entries|
  {
    if entries == [] then []
    else (if Fails(disk, entries[0], w) || Emptied(disk, entries[0], w) then [entries[0].app] else [])
         + FailsNext(disk, entries[1..], w)
  }

  lemma FailsAfter(disk: map<string, string>, after: map<string, string>, e: Entry, w: World)
    requires ValueAt(after, e.file, e.pin) == Moved(ValueAt(disk, e.file, e.pin), e, w)
    ensures Fails(after, e, w) <==> Fails(disk, e, w) || Emptied(disk, e, w)
    ensures AtRest(after, e, w)
  {}

  lemma {:induction false} FailsAfterAll(disk: map<string, string>, after: map<string, string>, entries: seq<Entry>,
                                         w: World)
    requires forall e :: e in entries ==> ValueAt(after, e.file, e.pin) == Moved(ValueAt(disk, e.file, e.pin), e, w)
    ensures Forecast(after, entries, w).failed == FailsNext(disk, entries, w)
    decreases |entries|
  {
    if entries != [] {
      assert entries[0] in entries && forall e :: e in entries[1..] ==> e in entries;
      FailsAfter(disk, after, entries[0], w);
      FailsAfterAll(disk, after, entries[1..], w);
    }
  }

  /**
   * With no two entries on one pin, a second pass over the same answers writes, commits and names
   * nothing; it fails where the first did and on the pins that the first emptied.
   */
  lemma SecondPassIsQuiet(disk: map<string, string>, entries: seq<Entry>, w: World, pins: set<Pin>)
    requires AllWorkable(entries, disk, w, pins) && Distinct(TargetsOf(entries))
    ensures var after := ProcessAll(Start(disk), entries, w, false).disk;
            var again := ProcessAll(Start(after), entries, w, false);
            && again.disk == after && again.titles == [] && again.commits == []
            && again.failed == FailsNext(disk, entries, w)
  {
    var after := ProcessAll(Start(disk), entries, w, false).disk;
    forall e | e in entries
      ensures ValueAt(after, e.file, e.pin) == Moved(ValueAt(disk, e.file, e.pin), e, w) && AtRest(after, e, w)
    {
      var i :| 0 <= i < |entries| && entries[i] == e;
      EachPinMovesOrStays(disk, entries, i, w, pins);
      FailsAfter(disk, after, e, w);
    }
    PassKeepsWorkable(disk, entries, w, pins);
    WorkableIsPresent(entries, after, w, pins);
    QuietWhenAtRest(Start(after), entries, entries, w);
    RealReports(Start(after), entries, w, pins);
    FailsAfterAll(disk, after, entries, w);
  }
}
