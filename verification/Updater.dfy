/**
 * One pass over the tracked components (scripts/update-apps/update-apps.ts): which release each
 * should be on, whether its pin moves, and the files the moves are written into. What upstreams
 * and registries answer is fixed for a pass and is a parameter.
 */
module Updater {
  import opened Prelude
  import opened Text
  import opened Pins
  import Versions

  datatype Entry = Entry(
    app: string, repo: string, file: string, pin: Pin, value: string, image: Option<string>,
    tagPrefix: Option<string>, helmIndex: Option<string>, chart: Option<string>, branch: Option<string>)

  /** What the outside answers; no answer stands for one that could not be had. */
  datatype World = World(
    head: (string, string) -> Option<string>,
    latest: string -> Option<string>,
    releases: string -> Option<seq<string>>,
    numeral: Versions.Numeral,
    imageExists: string -> bool,
    chartListed: (string, string, string) -> bool)

  /** JavaScript's truth of a string that may be missing. */
  predicate Given(o: Option<string>) { o.Some? && o.value != "" }

  // ----- which value a component should have

  function Tag(e: Entry, w: World): Option<string> {
    if Given(e.branch) then w.head(e.repo, e.branch.value)
    else if !Given(e.tagPrefix) then w.latest(e.repo)
    else
      match w.releases(e.repo)
      case None => None
      case Some(tags) => Versions.PickLatest(tags, e.tagPrefix, w.numeral)
  }

  /** A branch head is the version; a release tag is spelled in some way of its own. */
  function Version(e: Entry, tag: string): string {
    if Given(e.branch) then tag else Versions.Normalise(tag)
  }

  const HOLE: string := "{version}"

  /** `$$`, `$&`, `` $` `` and `$'` in a replacement stand for something else. */
  function Expand(r: string, before: string, after: string): string {
    if r == "" then ""
    else if r[0] == '$' && |r| > 1 && r[1] == '$' then "$" + Expand(r[2..], before, after)
    else if r[0] == '$' && |r| > 1 && r[1] == '&' then HOLE + Expand(r[2..], before, after)
    else if r[0] == '$' && |r| > 1 && r[1] == '`' then before + Expand(r[2..], before, after)
    else if r[0] == '$' && |r| > 1 && r[1] == '\'' then after + Expand(r[2..], before, after)
    else [r[0]] + Expand(r[1..], before, after)
  }

  /** `template.replaceAll("{version}", version)`, with `before` already behind. */
  function Fill(before: string, template: string, version: string): string
    decreases |template|
  {
    if template == "" then ""
    else if HOLE <= template then
      var rest := template[|HOLE|..];
      Expand(version, before, rest) + Fill(before + HOLE, rest, version)
    else [template[0]] + Fill(before + [template[0]], template[1..], version)
  }

  function ApplyTemplate(template: string, version: string): string { Fill("", template, version) }

  /** `/\/.*:/`: a slash and, later on that line, a colon. */
  predicate IsReference(s: string) {
    exists i :: 0 <= i < |s| && s[i] == '/' && ColonAhead(s, i + 1)
  }

  predicate ColonAhead(s: string, i: nat)
    decreases |s| - i
  {
    i < |s| && s[i] !in TERMINATORS && (s[i] == ':' || ColonAhead(s, i + 1))
  }

  function VerifyRef(e: Entry, version: string): Option<string> {
    if Given(e.image) then Some(ApplyTemplate(e.image.value, version))
    else
      var next := ApplyTemplate(e.value, version);
      if IsReference(next) then Some(next) else None
  }

  datatype Plan = Plan(version: string, next: string, ref: Option<string>, listed: bool)

  function PlanFor(e: Entry, tag: string, w: World): Plan {
    var version := Version(e, tag);
    var charted := Given(e.helmIndex) && Given(e.chart);
    var ref := if charted then Some(e.chart.value + " " + version) else VerifyRef(e, version);
    Plan(version, ApplyTemplate(e.value, version), ref,
         if charted then w.chartListed(e.helmIndex.value, e.chart.value, version)
         else if Given(ref) then w.imageExists(ref.value)
         else true)
  }

  datatype Decision = UpToDate(current: string) | Update(was: string, to: string) | Lagging | Problem

  function Decide(current: Option<string>, p: Plan): Decision {
    if !Given(current) then Problem
    else if Given(p.ref) && !p.listed then
      if current.value == p.next then Problem else Lagging
    else if current.value == p.next then UpToDate(current.value)
    else Update(current.value, p.next)
  }

  // ----- a pass

  datatype Commit = Commit(app: string, to: string)

  datatype Pass = Pass(
    disk: map<string, string>, sources: map<string, string>,
    failed: seq<string>, titles: seq<string>, commits: seq<Commit>, threw: bool)

  function Start(disk: map<string, string>): Pass { Pass(disk, map[], [], [], [], false) }

  /** `source`: a file is read from disk once; one that is not there ends the run. */
  function Load(s: Pass, file: string): Pass {
    if file in s.sources then s
    else if file in s.disk then s.(sources := s.sources[file := s.disk[file]])
    else s.(threw := true)
  }

  function Process(s: Pass, e: Entry, w: World, dry: bool): Pass {
    var tag := Tag(e, w);
    if !Given(tag) then s.(failed := s.failed + [e.app])
    else
      var p := PlanFor(e, tag.value, w);
      var s := Load(s, e.file);
      if s.threw || e.file !in s.sources then s
      else
        match Decide(Read(s.sources[e.file], e.pin), p)
        case Problem => s.(failed := s.failed + [e.app])
        case Lagging => s
        case UpToDate(_) => s
        case Update(_, to) =>
          var title := e.app + " " + p.version;
          if dry then s.(titles := s.titles + [title])
          else
            match Write(s.sources[e.file], e.pin, to)
            case None => s.(failed := s.failed + [e.app])
            case Some(text) =>
              s.(sources := s.sources[e.file := text], disk := s.disk[e.file := text],
                 titles := s.titles + [title], commits := s.commits + [Commit(e.app, to)])
  }

  function ProcessAll(s: Pass, entries: seq<Entry>, w: World, dry: bool): Pass
    decreases |entries|
  {
    if entries == [] || s.threw then s else ProcessAll(Process(s, entries[0], w, dry), entries[1..], w, dry)
  }

  /** The script's own variables, and the working tree it writes into. */
  class Updater {
    var disk: map<string, string>
    var sources: map<string, string>
    var failed: seq<string>
    var titles: seq<string>
    var commits: seq<Commit>
    var threw: bool

    function State(): Pass reads this { Pass(disk, sources, failed, titles, commits, threw) }

    constructor (tree: map<string, string>)
      ensures State() == Start(tree)
    {
      disk, sources, failed, titles, commits, threw := tree, map[], [], [], [], false;
    }

    method Source(file: string) returns (text: string)
      requires !threw
      modifies this`sources, this`threw
      ensures State() == Load(old(State()), file)
      ensures threw <==> file !in old(sources) && file !in disk
      ensures !threw ==> file in sources && text == sources[file]
    {
      text := "";
      if file in sources {
        text := sources[file];
      } else if file in disk {
        text := disk[file];
        sources := sources[file := text];
      } else {
        threw := true;
      }
    }

    method Handle(e: Entry, w: World, dry: bool)
      requires !threw
      modifies this
      ensures State() == Process(old(State()), e, w, dry)
    {
      var tag := Tag(e, w);
      if !Given(tag) {
        failed := failed + [e.app];
        return;
      }
      var p := PlanFor(e, tag.value, w);
      var text := Source(e.file);
      if threw { return; }
      var decision := Decide(Read(text, e.pin), p);
      match decision
      case Problem => failed := failed + [e.app];
      case Lagging =>
      case UpToDate(_) =>
      case Update(_, to) =>
        if !dry {
          var rewritten := Write(text, e.pin, to);
          // The script reports a pin it cannot rewrite; this one was read in the same text, so it can.
          if rewritten.None? { assert false; }
          sources := sources[e.file := rewritten.value];
          disk := disk[e.file := rewritten.value];
          commits := commits + [Commit(e.app, to)];
        }
        titles := titles + [e.app + " " + p.version];
    }

    method Go(entries: seq<Entry>, w: World, dry: bool)
      requires !threw
      modifies this
      ensures State() == ProcessAll(old(State()), entries, w, dry)
    {
      for i := 0 to |entries|
        invariant !threw
        invariant ProcessAll(State(), entries[i..], w, dry) == ProcessAll(old(State()), entries, w, dry)
      {
        Handle(entries[i], w, dry);
        assert entries[i..][1..] == entries[i + 1..];
        if threw { return; }
      }
    }
  }

  // ----- what a pass keeps

  /** A cached file is the file on disk. */
  predicate Coherent(s: Pass) {
    forall f :: f in s.sources ==> f in s.disk && s.sources[f] == s.disk[f]
  }

  lemma LoadCoherent(s: Pass, file: string)
    requires Coherent(s)
    ensures Coherent(Load(s, file)) && Load(s, file).disk == s.disk
  {}

  lemma MoveCoherent(s: Pass, e: Entry, w: World, dry: bool)
    requires Coherent(s) && e.file in s.sources && Given(Tag(e, w))
    ensures Coherent(Process(s, e, w, dry))
  {}

  lemma ProcessCoherent(s: Pass, e: Entry, w: World, dry: bool)
    requires Coherent(s)
    ensures Coherent(Process(s, e, w, dry))
  {
    if Given(Tag(e, w)) {
      LoadCoherent(s, e.file);
      var loaded := Load(s, e.file);
      if !loaded.threw && e.file in loaded.sources {
        assert Process(s, e, w, dry) == Process(loaded, e, w, dry);
        MoveCoherent(loaded, e, w, dry);
      }
    }
  }

  lemma {:induction false} CacheIsDisk(s: Pass, entries: seq<Entry>, w: World, dry: bool)
    requires Coherent(s)
    ensures Coherent(ProcessAll(s, entries, w, dry))
    decreases |entries|
  {
    if entries != [] && !s.threw {
      ProcessCoherent(s, entries[0], w, dry);
      CacheIsDisk(Process(s, entries[0], w, dry), entries[1..], w, dry);
    }
  }

  function ValueAt(disk: map<string, string>, file: string, pin: Pin): Option<string> {
    if file in disk then Read(disk[file], pin) else None
  }

  /** A release is known and what it would be pinned to is published, or cannot be checked. */
  predicate Live(e: Entry, w: World) {
    var tag := Tag(e, w);
    Given(tag) && var p := PlanFor(e, tag.value, w); Given(p.ref) ==> p.listed
  }

  function Next(e: Entry, w: World): string
    requires Live(e, w)
  {
    PlanFor(e, Tag(e, w).value, w).next
  }
}
