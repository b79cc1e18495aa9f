/**
 * Which release each entry takes, whether it counts as published, and what that leaves in the pin,
 * told from what upstreams and registries answer (scripts/update-apps/update-apps.ts).
 */
module UpdaterReleases {
  import opened Prelude
  import opened Text
  import opened Pins
  import opened Updater
  import opened UpdaterPasses
  import opened UpdaterTemplates
  import Versions

  /** Given at all, and not as an empty text. */
  predicate Named(o: Option<string>) { o.Some? && o.value != "" }

  /** The prefixed tags, in any order. */
  ghost predicate Prefixed(mine: seq<string>, tags: seq<string>, prefix: string) {
    forall t :: t in mine <==> t in tags && prefix <= t
  }

  /** A branch's head; or the latest release; or, where a prefix is given, a newest of the tags that start with it. */
  ghost predicate ReleaseOf(e: Entry, w: World, tag: string) {
    && tag != ""
    && if Named(e.branch) then w.head(e.repo, e.branch.value) == Some(tag)
       else if !Named(e.tagPrefix) then w.latest(e.repo) == Some(tag)
       else
         var tags := w.releases(e.repo);
         && tags.Some? && tag in tags.value && e.tagPrefix.value <= tag
         && NoneNewer(tag, tags.value, e.tagPrefix.value, w.numeral)
  }

  /** With no knot among the prefixed tags, none of them is newer. */
  ghost predicate NoneNewer(tag: string, tags: seq<string>, prefix: string, num: Versions.Numeral) {
    forall mine, t :: Prefixed(mine, tags, prefix) && Versions.KnotFree(mine, num) && t in mine ==>
      Versions.Compare(t, tag, num) <= 0.0
  }

  /** Nothing was answered, or nothing with the prefix. */
  predicate NoRelease(e: Entry, w: World) {
    if Named(e.branch) then !Named(w.head(e.repo, e.branch.value))
    else if !Named(e.tagPrefix) then !Named(w.latest(e.repo))
    else w.releases(e.repo).None? || forall t :: t in w.releases(e.repo).value ==> !(e.tagPrefix.value <= t)
  }

  lemma KnotFreeAmong(mine: seq<string>, pool: seq<string>, num: Versions.Numeral)
    requires Versions.KnotFree(mine, num) && forall t :: t in pool ==> t in mine
    ensures Versions.KnotFree(pool, num)
  {}

  lemma PickIsRelease(tags: seq<string>, prefix: string, num: Versions.Numeral)
    requires prefix != ""
    ensures var tag := Versions.PickLatest(tags, Some(prefix), num);
            && (tag.None? <==> forall t :: t in tags ==> !(prefix <= t))
            && (tag.Some? ==> tag.value in tags && prefix <= tag.value && NoneNewer(tag.value, tags, prefix, num))
  {
    Versions.LatestIgnoresListing(tags, tags, prefix, num);
    var tag := Versions.PickLatest(tags, Some(prefix), num);
    if tag.Some? {
      forall mine, t | Prefixed(mine, tags, prefix) && Versions.KnotFree(mine, num) && t in mine
        ensures Versions.Compare(t, tag.value, num) <= 0.0
      {
        KnotFreeAmong(mine, Versions.Pool(tags, Some(prefix)), num);
        Versions.LatestIsNewest(tags, Some(prefix), num, []);
        assert t in Versions.Pool(tags, Some(prefix));
      }
    }
  }

  /** The tag an entry takes is such a release, and there is none exactly when there is none to take. */
  lemma TagIsRelease(e: Entry, w: World)
    ensures Given(Tag(e, w)) <==> !NoRelease(e, w)
    ensures Given(Tag(e, w)) ==> ReleaseOf(e, w, Tag(e, w).value)
  {
    if !Named(e.branch) && Named(e.tagPrefix) && w.releases(e.repo).Some? {
      PickIsRelease(w.releases(e.repo).value, e.tagPrefix.value, w.numeral);
    }
  }

  // ----- the version

  /** What a tag says from its first digit on; a branch's head is its own version. */
  predicate VersionOf(e: Entry, tag: string, version: string) {
    if Named(e.branch) then version == tag
    else exists k :: 0 <= k <= |tag| && version == tag[k..] && (k < |tag| ==> '0' <= tag[k] <= '9')
                     && forall j :: 0 <= j < k ==> !('0' <= tag[j] <= '9')
  }

  lemma {:induction false} FromFirstDigit(tag: string) returns (k: nat)
    ensures k <= |tag| && Versions.Normalise(tag) == tag[k..] && (k < |tag| ==> '0' <= tag[k] <= '9')
    ensures forall j :: 0 <= j < k ==> !('0' <= tag[j] <= '9')
  {
    if tag == "" || IsDigit(tag[0]) {
      k := 0;
    } else {
      var n := FromFirstDigit(tag[1..]);
      k := n + 1;
      forall j | 0 <= j < k ensures !('0' <= tag[j] <= '9') { if j > 0 { assert tag[1..][j - 1] == tag[j]; } }
    }
  }

  lemma VersionSpelled(e: Entry, tag: string)
    ensures VersionOf(e, tag, Version(e, tag))
  {
    if !Named(e.branch) {
      var k := FromFirstDigit(tag);
    }
  }

  // ----- what is asked of a registry

  /** A slash and, further on in the same line, a colon. */
  predicate LooksLikeImage(s: string) {
    exists i, j :: 0 <= i < j < |s| && s[i] == '/' && s[j] == ':' && OneLine(s, i, j)
  }

  predicate OneLine(s: string, i: nat, j: nat)
    requires i < j < |s|
  {
    forall k :: i < k < j ==> s[k] != '\n' && s[k] != '\r' && s[k] as int != 0x2028 && s[k] as int != 0x2029
  }

  lemma {:induction false} ColonIsAhead(s: string, i: nat)
    ensures ColonAhead(s, i) <==>
      exists j :: i <= j < |s| && s[j] == ':' && forall k :: i <= k < j ==> s[k] !in TERMINATORS
    decreases |s| - i
  {
    if i < |s| {
      ColonIsAhead(s, i + 1);
      if ColonAhead(s, i) {
        if s[i] != ':' {
          var j :| i + 1 <= j < |s| && s[j] == ':' && forall k :: i + 1 <= k < j ==> s[k] !in TERMINATORS;
        }
      }
    }
  }

  lemma ImageIff(s: string)
    ensures IsReference(s) <==> LooksLikeImage(s)
  {
    if IsReference(s) {
      var i :| 0 <= i < |s| && s[i] == '/' && ColonAhead(s, i + 1);
      ColonIsAhead(s, i + 1);
      var j :| i + 1 <= j < |s| && s[j] == ':' && forall k :: i + 1 <= k < j ==> s[k] !in TERMINATORS;
      assert OneLine(s, i, j);
    }
    if LooksLikeImage(s) {
      var i, j :| 0 <= i < j < |s| && s[i] == '/' && s[j] == ':' && OneLine(s, i, j);
      ColonIsAhead(s, i + 1);
      assert ColonAhead(s, i + 1);
    }
  }

  /**
   * A chart is looked up in its index; otherwise the image the entry names, or else the next value if
   * it looks like an image, is looked up in its registry; and nothing else is asked.
   */
  predicate Published(e: Entry, w: World, version: string) {
    if Named(e.helmIndex) && Named(e.chart) then w.chartListed(e.helmIndex.value, e.chart.value, version)
    else if Named(e.image) then
      var ref := ApplyTemplate(e.image.value, version); ref == "" || w.imageExists(ref)
    else
      var next := ApplyTemplate(e.value, version); LooksLikeImage(next) ==> w.imageExists(next)
  }

  lemma LiveIffPublished(e: Entry, w: World)
    ensures Live(e, w) <==> !NoRelease(e, w) && Published(e, w, Version(e, Tag(e, w).value))
  {
    TagIsRelease(e, w);
    if Given(Tag(e, w)) {
      var version := Version(e, Tag(e, w).value);
      ImageIff(ApplyTemplate(e.value, version));
      if LooksLikeImage(ApplyTemplate(e.value, version)) { assert ApplyTemplate(e.value, version) != ""; }
    }
  }

  // ----- what a pass leaves in a pin

  /** The release this entry takes, its version, and what the two make of a value that is there. */
  ghost predicate Takes(e: Entry, w: World, tag: string, version: string, v: Option<string>, now: Option<string>) {
    && ReleaseOf(e, w, tag) && VersionOf(e, tag, version)
    && now == (if Published(e, w, version) then Some(ApplyTemplate(e.value, version)) else v)
    && (Literal(version) ==> ApplyTemplate(e.value, version) == Join(Pieces(e.value), version))
  }

  /**
   * After a pass a pin that can be read holds the entry's template filled with the version of the
   * release the entry takes, if that is published; or what it held.
   */
  lemma PinHoldsRelease(disk: map<string, string>, entries: seq<Entry>, i: nat, w: World, pins: set<Pin>)
    requires AllWorkable(entries, disk, w, pins) && Distinct(TargetsOf(entries)) && i < |entries|
    requires Given(ValueAt(disk, entries[i].file, entries[i].pin))
    ensures var e := entries[i];
            var v := ValueAt(disk, e.file, e.pin);
            var now := ValueAt(ProcessAll(Start(disk), entries, w, false).disk, e.file, e.pin);
            if NoRelease(e, w) then now == v else exists tag, version :: Takes(e, w, tag, version, v, now)
  {
    var e := entries[i];
    EachPinMovesOrStays(disk, entries, i, w, pins);
    TagIsRelease(e, w);
    if !NoRelease(e, w) {
      var tag := Tag(e, w).value;
      VersionSpelled(e, tag);
      LiveIffPublished(e, w);
      if Literal(Version(e, tag)) { TemplateIsFilled(e.value, Version(e, tag)); }
      assert Takes(e, w, tag, Version(e, tag), ValueAt(disk, e.file, e.pin),
                   ValueAt(ProcessAll(Start(disk), entries, w, false).disk, e.file, e.pin));
    }
  }
}
