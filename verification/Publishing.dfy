/**
 * Which zone a hostname belongs to, the name of its record there (packages/dns/src/dns.ts), and what
 * a list of routes publishes (packages/infra/src/services.ts).
 */
module Publishing {
  import opened Prelude
  import opened Text

  datatype Zone = Zone(name: string, id: string)

  function Labels(hostname: string): seq<string> { Split(hostname, {'.'}) }

  /** `slice(-2)` */
  function LastTwo(labels: seq<string>): seq<string> {
    if |labels| < 2 then labels else labels[|labels| - 2..]
  }

  /** `slice(0, -2)` */
  function AllButTwo(labels: seq<string>): seq<string> {
    if |labels| < 2 then [] else labels[..|labels| - 2]
  }

  /** The name of the zone a hostname is taken to be in. */
  function ZoneName(hostname: string): string { Join(LastTwo(Labels(hostname)), ".") }

  function ZoneFor(zones: seq<Zone>, hostname: string): Option<Zone> {
    if zones == [] then None
    else if zones[0].name == ZoneName(hostname) then Some(zones[0])
    else ZoneFor(zones[1..], hostname)
  }

  /** The record's name within its zone; `@` is the zone itself. */
  function RecordName(hostname: string): string {
    var parts := Labels(hostname);
    if |parts| == 2 then "@" else Join(AllButTwo(parts), ".")
  }

  // ----- what is created

  datatype Record = Record(resource: string, name: string, zone: Zone)

  datatype Route = Route(service: string, hostname: string, paths: seq<string>)

  datatype Published = Published(hostname: string, service: string)

  function ServiceRecord(zone: Zone, hostname: string): Record {
    Record(hostname + "-a-record", RecordName(hostname), zone)
  }

  /** The hostnames given a record so far, and the records. */
  datatype Made = Made(hosts: seq<string>, records: seq<Record>)

  function Next(zones: seq<Zone>, made: Made, host: string): Made {
    match ZoneFor(zones, host)
    case None => made
    case Some(zone) =>
      if host in made.hosts then made else Made(made.hosts + [host], made.records + [ServiceRecord(zone, host)])
  }

  function Publish(zones: seq<Zone>, routes: seq<Route>): Made {
    if routes == [] then Made([], [])
    else Next(zones, Publish(zones, routes[..|routes| - 1]), routes[|routes| - 1].hostname)
  }

  function LastFor(routes: seq<Route>, service: string): Option<Published> {
    if routes == [] then None
    else
      var r := routes[|routes| - 1];
      if r.service == service then Some(Published(r.hostname, service + "-service"))
      else LastFor(routes[..|routes| - 1], service)
  }

  lemma OneMore(zones: seq<Zone>, routes: seq<Route>, i: nat)
    requires i < |routes|
    ensures Publish(zones, routes[..i + 1]) == Next(zones, Publish(zones, routes[..i]), routes[i].hostname)
  {
    assert routes[..i + 1][..i] == routes[..i];
  }

  lemma OneMorePublished(published: map<string, Published>, routes: seq<Route>, i: nat)
    requires i < |routes| && Reports(published, routes[..i])
    ensures var r := routes[i];
            Reports(published[r.service := Published(r.hostname, r.service + "-service")], routes[..i + 1])
  {
    var r := routes[i];
    assert routes[..i + 1][..i] == routes[..i];
    var now := published[r.service := Published(r.hostname, r.service + "-service")];
    forall s ensures Get(now, s) == LastFor(routes[..i + 1], s) {
      assert Get(published, s) == LastFor(routes[..i], s);
    }
  }

  /** Each service is reported with its last route. */
  ghost predicate Reports(published: map<string, Published>, routes: seq<Route>) {
    forall s :: Get(published, s) == LastFor(routes, s)
  }

  /** The set of names kept beside the records is theirs. */
  ghost predicate SameHosts(recorded: set<string>, made: Made) {
    forall h :: h in recorded <==> h in made.hosts
  }

  class Estate {
    const zones: seq<Zone>
    var records: seq<Record>
    var ingresses: seq<Route>

    constructor (zones: seq<Zone>)
      ensures this.zones == zones && records == [] && ingresses == []
    {
      this.zones, records, ingresses := zones, [], [];
    }

    /** A record for a hostname that has none, if it lies under a zone. */
    method RecordOnce(recorded: set<string>, host: string, ghost base: seq<Record>, ghost made: Made)
      returns (now: set<string>)
      requires SameHosts(recorded, made) && records == base + made.records
      modifies this`records
      ensures SameHosts(now, Next(zones, made, host)) && records == base + Next(zones, made, host).records
    {
      now := recorded;
      var zone := ZoneFor(zones, host);
      if zone.Some? && host !in recorded {
        now := recorded + {host};
        records := records + [ServiceRecord(zone.value, host)];
      }
    }

    /** What each route adds is created as it is met; a service published twice reports its last route. */
    method PublishRoutes(routes: seq<Route>) returns (published: map<string, Published>)
      modifies this`records, this`ingresses
      ensures records == old(records) + Publish(zones, routes).records
      ensures ingresses == old(ingresses) + routes
      ensures Reports(published, routes)
    {
      published := map[];
      var recorded: set<string> := {};
      ghost var made := Publish(zones, []);
      for i := 0 to |routes|
        invariant made == Publish(zones, routes[..i])
        invariant SameHosts(recorded, made)
        invariant records == old(records) + made.records
        invariant ingresses == old(ingresses) + routes[..i]
        invariant Reports(published, routes[..i])
      {
        var route := routes[i];
        OneMore(zones, routes, i);
        OneMorePublished(published, routes, i);
        assert routes[..i + 1] == routes[..i] + [route];
        recorded := RecordOnce(recorded, route.hostname, old(records), made);
        made := Next(zones, made, route.hostname);
        ingresses := ingresses + [route];
        published := published[route.service := Published(route.hostname, route.service + "-service")];
      }
      assert routes[..|routes|] == routes;
    }
  }

  function Get<K, V>(m: map<K, V>, k: K): Option<V> {
    if k in m then Some(m[k]) else None
  }

  // ----- one record a hostname

  /** The records stand for the hostnames, in step. */
  predicate InStep(zones: seq<Zone>, made: Made) {
    && |made.records| == |made.hosts|
    && forall k :: 0 <= k < |made.hosts| ==>
         ZoneFor(zones, made.hosts[k]).Some?
         && made.records[k] == ServiceRecord(ZoneFor(zones, made.hosts[k]).value, made.hosts[k])
  }

  lemma NextInStep(zones: seq<Zone>, made: Made, host: string)
    requires InStep(zones, made) && Distinct(made.hosts)
    ensures var next := Next(zones, made, host);
            && InStep(zones, next) && Distinct(next.hosts)
            && forall h :: h in next.hosts <==> h in made.hosts || (h == host && ZoneFor(zones, h).Some?)
  {
    DistinctConcat(made.hosts, [host]);
    ApartMembers(made.hosts, [host]);
  }

  lemma {:induction false} OneRecordEach(zones: seq<Zone>, routes: seq<Route>)
    ensures var made := Publish(zones, routes);
            && Distinct(made.hosts) && InStep(zones, made)
            && (forall h :: h in made.hosts <==> h in Map(HostOf, routes) && ZoneFor(zones, h).Some?)
  {
    if routes != [] {
      var n := |routes| - 1;
      var host := routes[n].hostname;
      OneRecordEach(zones, routes[..n]);
      NextInStep(zones, Publish(zones, routes[..n]), host);
      assert Map(HostOf, routes) == Map(HostOf, routes[..n]) + [host];
    }
  }

  function HostOf(r: Route): string { r.hostname }

  // ----- labels

  lemma SplitHead(x: string, k: nat, tail: string, seps: set<char>)
    requires k == IndexOf(x, seps) < |x|
    ensures Split(x + tail, seps) == [x[..k]] + Split(x[k + 1..] + tail, seps)
  {
    forall y | y in x[..k] ensures y !in seps {}
    SplitAtFirst(x[..k], x[k], x[k + 1..] + tail, seps);
    CutAt(x, k, tail);
  }

  lemma Associated(a: seq<string>, b: seq<string>, c: seq<string>)
    ensures a + (b + c) == a + b + c
  {}

  lemma {:induction false} SplitPlain(x: string, tail: string, seps: set<char>)
    requires tail != "" && tail[0] in seps && IndexOf(x, seps) == |x|
    ensures Split(x + tail, seps) == [x] + Split(tail[1..], seps)
  {
    forall y | y in x ensures y !in seps {}
    SplitAtFirst(x, tail[0], tail[1..], seps);
    assert x + [tail[0]] + tail[1..] == x + tail;
  }

  lemma CutAt(x: string, k: nat, tail: string)
    requires k < |x|
    ensures x == x[..k] + [x[k]] + x[k + 1..]
    ensures x + tail == x[..k] + [x[k]] + (x[k + 1..] + tail)
  {}

  /** Splitting takes a text apart at a separator wherever it stands. */
  lemma {:induction false} SplitJoined(x: string, tail: string, seps: set<char>)
    requires tail != "" && tail[0] in seps
    ensures Split(x + tail, seps) == Split(x, seps) + Split(tail[1..], seps)
    decreases |x|
  {
    var k := IndexOf(x, seps);
    if k == |x| {
      SplitPlain(x, tail, seps);
    } else {
      SplitJoined(x[k + 1..], tail, seps);
      SplitHead(x, k, tail, seps);
      Associated([x[..k]], Split(x[k + 1..], seps), Split(tail[1..], seps));
    }
  }

  lemma LabelsJoined(x: string, zone: string)
    ensures Labels(x + "." + zone) == Labels(x) + Labels(zone)
  {
    SplitJoined(x, "." + zone, {'.'});
    assert x + ("." + zone) == x + "." + zone && ("." + zone)[1..] == zone;
  }

  lemma {:induction false} JoinParts(a: seq<string>, b: seq<string>)
    requires a != [] && b != []
    ensures Join(a + b, ".") == Join(a, ".") + "." + Join(b, ".")
  {
    if |a| == 1 {
      assert (a + b)[1..] == b;
    } else {
      assert (a + b)[1..] == a[1..] + b;
      JoinParts(a[1..], b);
    }
  }

  /** A hostname of three labels or more is the labels in front, a full stop, and its zone's name. */
  lemma HostnameSplit(h: string)
    requires |Labels(h)| > 2
    ensures h == Join(AllButTwo(Labels(h)), ".") + "." + ZoneName(h)
  {
    var l := Labels(h);
    assert l == AllButTwo(l) + LastTwo(l);
    JoinParts(AllButTwo(l), LastTwo(l));
    JoinSplit(h, '.');
  }

  lemma ShortHostname(h: string)
    requires |Labels(h)| <= 2
    ensures ZoneName(h) == h
  {
    assert LastTwo(Labels(h)) == Labels(h);
    JoinSplit(h, '.');
  }

  /** The zone itself, or anything below it. */
  predicate Under(h: string, zone: string) {
    h == zone || EndsWith(h, "." + zone)
  }

  lemma ZoneNameUnder(h: string)
    ensures Under(h, ZoneName(h))
  {
    if |Labels(h)| > 2 {
      HostnameSplit(h);
      var x, z := Join(AllButTwo(Labels(h)), "."), ZoneName(h);
      assert h == x + ("." + z);
    } else {
      ShortHostname(h);
    }
  }

  lemma UnderTwoLabels(h: string, zone: string)
    requires Under(h, zone) && |Labels(zone)| == 2
    ensures ZoneName(h) == zone
  {
    if h == zone {
      ShortHostname(h);
    } else {
      var x := h[..|h| - |zone| - 1];
      assert h == x + ("." + zone) && h == x + "." + zone;
      LabelsJoined(x, zone);
      assert LastTwo(Labels(h)) == Labels(zone);
      JoinSplit(zone, '.');
    }
  }

  lemma {:induction false} ZoneForFinds(zones: seq<Zone>, h: string)
    ensures ZoneFor(zones, h).Some? ==> ZoneFor(zones, h).value in zones && ZoneFor(zones, h).value.name == ZoneName(h)
    ensures ZoneFor(zones, h).None? <==> forall z :: z in zones ==> z.name != ZoneName(h)
  {
    if zones != [] { ZoneForFinds(zones[1..], h); }
  }

  lemma OneZone(z: Zone, h: string)
    ensures ZoneFor([z], h) == if z.name == ZoneName(h) then Some(z) else None
  {
    assert [z][1..] == [] && ZoneFor([], h) == None;
  }

  /**
   * A zone is found for every hostname under it exactly when its name has two labels; and a zone that
   * is found always holds the hostname.
   */
  lemma ServesIffTwoLabels(z: Zone)
    ensures (forall h :: Under(h, z.name) ==> ZoneFor([z], h) == Some(z)) <==> |Labels(z.name)| == 2
    ensures forall h :: ZoneFor([z], h).Some? ==> Under(h, z.name)
  {
    forall h | ZoneFor([z], h).Some? ensures Under(h, z.name) {
      OneZone(z, h);
      ZoneNameUnder(h);
    }
    if |Labels(z.name)| == 2 {
      forall h | Under(h, z.name) ensures ZoneFor([z], h) == Some(z) {
        OneZone(z, h);
        UnderTwoLabels(h, z.name);
      }
    } else {
      var h := Missed(z.name);
      NotServed(z.name);
      OneZone(z, h);
      assert Under(h, z.name) && ZoneFor([z], h) != Some(z);
    }
  }

  /** A hostname under a zone of other than two labels that is looked up elsewhere. */
  function Missed(zone: string): string {
    if |Labels(zone)| == 1 then "a" + ("." + zone) else zone
  }

  lemma NotServed(zone: string)
    requires |Labels(zone)| != 2
    ensures ZoneName(Missed(zone)) != zone && Under(Missed(zone), zone)
  {
    if |Labels(zone)| == 1 {
      LabelsJoined("a", zone);
      assert Labels("a") == ["a"];
      assert "a" + ("." + zone) == "a" + "." + zone;
      ShortHostname(Missed(zone));
      assert |Missed(zone)| == |zone| + 2;
    } else {
      HostnameSplit(zone);
      assert |ZoneName(zone)| < |zone|;
    }
  }

  /** A record's name in its zone, spelled out. */
  function FullName(name: string, zone: string): string {
    if name == "@" then zone else name + "." + zone
  }

  lemma SeveralLabels(labels: seq<string>)
    requires |labels| > 1
    ensures '.' in Join(labels, ".")
  {
    assert Join(labels, ".")[|labels[0]|] == '.';
  }

  /**
   * A record spelled out is its hostname again exactly when the hostname has two labels at least and
   * is not `@` in front of its zone.
   */
  lemma RecordNamesItsHost(zones: seq<Zone>, h: string)
    requires ZoneFor(zones, h).Some?
    ensures FullName(RecordName(h), ZoneFor(zones, h).value.name) == h
            <==> |Labels(h)| >= 2 && AllButTwo(Labels(h)) != ["@"]
  {
    ZoneForFinds(zones, h);
    var l := Labels(h);
    if |l| > 2 {
      HostnameSplit(h);
      if |AllButTwo(l)| > 1 { SeveralLabels(AllButTwo(l)); }
      assert RecordName(h) == "@" <==> AllButTwo(l) == ["@"];
    } else {
      ShortHostname(h);
    }
  }

  /**
   * With zones of two labels, the records are one for each distinct hostname that lies in a zone, and
   * none for any other.
   */
  lemma RecordsCoverTheZones(zones: seq<Zone>, routes: seq<Route>, h: string)
    requires forall z :: z in zones ==> |Labels(z.name)| == 2
    ensures Distinct(Publish(zones, routes).hosts)
    ensures h in Publish(zones, routes).hosts <==>
      h in Map(HostOf, routes) && exists z :: z in zones && Under(h, z.name)
  {
    OneRecordEach(zones, routes);
    ZoneForFinds(zones, h);
    if z :| z in zones && Under(h, z.name) { UnderTwoLabels(h, z.name); }
    if ZoneFor(zones, h).Some? { ZoneNameUnder(h); }
  }

  // ----- what the records say

  /** One of the zones, and the first of its name. */
  predicate FirstOfName(z: Zone, zones: seq<Zone>) {
    exists i :: 0 <= i < |zones| && zones[i] == z && forall j :: 0 <= j < i ==> zones[j].name != z.name
  }

  lemma {:induction false} FirstIsFound(zones: seq<Zone>, h: string)
    requires ZoneFor(zones, h).Some?
    ensures FirstOfName(ZoneFor(zones, h).value, zones)
  {
    ZoneForFinds(zones, h);
    if zones[0].name != ZoneName(h) {
      FirstIsFound(zones[1..], h);
      var z := ZoneFor(zones, h).value;
      var i :| 0 <= i < |zones[1..]| && zones[1..][i] == z && forall j :: 0 <= j < i ==> zones[1..][j].name != z.name;
      forall j | 0 <= j < i + 1 ensures zones[j].name != z.name { if j > 0 { assert zones[1..][j - 1] == zones[j]; } }
      assert zones[i + 1] == z;
    } else {
      assert zones[0] == ZoneFor(zones, h).value;
    }
  }

  /** The record is for this hostname, in the first zone of a name that holds it. */
  predicate RecordFor(r: Record, zones: seq<Zone>, h: string) {
    && FirstOfName(r.zone, zones) && (h == r.zone.name || EndsWith(h, "." + r.zone.name))
    && r.resource == h + "-a-record"
    && ('.' in h && h != "@." + r.zone.name ==>
          (r.name == "@" && h == r.zone.name) || (r.name != "@" && h == r.name + "." + r.zone.name))
  }

  lemma DottedIsSeveral(h: string)
    ensures '.' in h <==> |Labels(h)| >= 2
  {
    var k := IndexOf(h, {'.'});
    if k == |h| {
      assert '.' !in h;
    } else {
      assert h[k] == '.';
    }
  }

  lemma RecordIsFor(zones: seq<Zone>, h: string)
    requires ZoneFor(zones, h).Some?
    ensures RecordFor(ServiceRecord(ZoneFor(zones, h).value, h), zones, h)
  {
    ZoneForFinds(zones, h);
    FirstIsFound(zones, h);
    ZoneNameUnder(h);
    if '.' in h && h != "@." + ZoneName(h) {
      DottedIsSeveral(h);
      if AllButTwo(Labels(h)) == ["@"] { AtInFront(h); }
      RecordNamesItsHost(zones, h);
    }
  }

  lemma AtInFront(h: string)
    requires |Labels(h)| >= 2 && AllButTwo(Labels(h)) == ["@"]
    ensures h == "@." + ZoneName(h)
  {
    HostnameSplit(h);
  }

  /** Each record spells its hostname, and the resources have names of their own. */
  lemma RecordsSpellTheirHosts(zones: seq<Zone>, routes: seq<Route>)
    ensures var made := Publish(zones, routes);
            && |made.records| == |made.hosts|
            && (forall k :: 0 <= k < |made.hosts| ==> RecordFor(made.records[k], zones, made.hosts[k]))
            && (forall j, k :: 0 <= j < k < |made.records| ==> made.records[j].resource != made.records[k].resource)
  {
    var made := Publish(zones, routes);
    OneRecordEach(zones, routes);
    forall k | 0 <= k < |made.hosts| ensures RecordFor(made.records[k], zones, made.hosts[k]) {
      RecordIsFor(zones, made.hosts[k]);
    }
    DistinctPairs(made.hosts);
    forall j, k | 0 <= j < k < |made.records| ensures made.records[j].resource != made.records[k].resource {
      SuffixCut(made.hosts[j], made.hosts[k], "-a-record");
    }
  }

  lemma SuffixCut(a: string, b: string, suffix: string)
    ensures a + suffix == b + suffix <==> a == b
  {
    if a + suffix == b + suffix {
      assert |a| == |b|;
      assert (a + suffix)[..|a|] == a && (b + suffix)[..|b|] == b;
    }
  }
}
