/** How the profiles of one configuration relate: dialect to dialect, role to role, user to user. */
module ProfileDialects {
  import opened Prelude
  import opened Text
  import opened Roster
  import opened Profile
  import opened ProfileTags
  import opened ProfileGraph
  import opened ProfilePaths

  // ----- what a profile does not depend on

  /** `g` changes nothing this user's profile in this dialect is made from. */
  ghost predicate Unseen(u: User, client: Client, g: Node -> Node) {
    forall n ::
      && g(n).name == n.name
      && NodeLeaves(u, client)(g(n)) == NodeLeaves(u, client)(n)
      && Candidates(u, client)(g(n)) == Candidates(u, client)(n)
      && (client.Sbr? ==> g(n).xhttp.Some? == n.xhttp.Some?)
  }

  lemma {:induction false} FlatMapUnseen<B>(f: Node -> seq<B>, g: Node -> Node, nodes: seq<Node>)
    requires forall n :: f(g(n)) == f(n)
    ensures FlatMap(f, Map(g, nodes)) == FlatMap(f, nodes)
  {
    if nodes != [] {
      MapCons(g, nodes);
      assert Map(g, nodes)[1..] == Map(g, nodes[1..]);
      FlatMapUnseen(f, g, nodes[1..]);
    }
  }

  lemma UnseenChangesNothing(u: User, nodes: seq<Node>, suffix: string, exits: seq<Exit>,
                             client: Client, g: Node -> Node)
    requires Unseen(u, client, g)
    ensures Compile(u, Map(g, nodes), suffix, exits, client) == Compile(u, nodes, suffix, exits, client)
  {
    var seen := Map(g, nodes);
    FlatMapUnseen(NodeLeaves(u, client), g, nodes);
    FlatMapUnseen(Candidates(u, client), g, nodes);
    FlatMapUnseen(NodeGroups(u, client), g, nodes);
    SameNamesUnseen(u, client, g, nodes);
    SameXhttpUnseen(u, client, g, nodes);
    assert EntryGroups(u, seen, client) == EntryGroups(u, nodes, client);
  }

  lemma SameNamesUnseen(u: User, client: Client, g: Node -> Node, nodes: seq<Node>)
    requires Unseen(u, client, g)
    ensures Map((n: Node) => n.name, Map(g, nodes)) == Map((n: Node) => n.name, nodes)
  {}

  lemma SameXhttpUnseen(u: User, client: Client, g: Node -> Node, nodes: seq<Node>)
    requires Unseen(u, client, g)
    ensures HasXhttp(Map(g, nodes), client) == HasXhttp(nodes, client)
  {
    if client.Sbr? {
      forall i | 0 <= i < |nodes| ensures Map(g, nodes)[i].xhttp.Some? == nodes[i].xhttp.Some? {}
    }
  }

  function DropXhttp(n: Node): Node { n.(xhttp := None) }

  /** The `sing-box` dialect is blind to the CDN entry of every node. */
  lemma SingBoxIgnoresXhttp(u: User, nodes: seq<Node>, suffix: string, exits: seq<Exit>)
    ensures Compile(u, Map(DropXhttp, nodes), suffix, exits, SingBox) == Compile(u, nodes, suffix, exits, SingBox)
  {
    forall n ensures NodeLeaves(u, SingBox)(DropXhttp(n)) == NodeLeaves(u, SingBox)(n)
                     && Candidates(u, SingBox)(DropXhttp(n)) == Candidates(u, SingBox)(n) {
      SameLeaves(u, SingBox, n, DropXhttp(n));
    }
    UnseenChangesNothing(u, nodes, suffix, exits, SingBox, DropXhttp);
  }

  /** Two nodes whose leaves of each kind agree have the same leaves and candidates. */
  lemma SameLeaves(u: User, client: Client, m: Node, n: Node)
    requires Map(RealityLeaf(u, m), m.reality.serverNames) == Map(RealityLeaf(u, n), n.reality.serverNames)
    requires XhttpLeaves(u, m, client) == XhttpLeaves(u, n, client)
    requires Hy2Leaves(u, m) == Hy2Leaves(u, n)
    ensures NodeLeaves(u, client)(n) == NodeLeaves(u, client)(m)
    ensures Candidates(u, client)(n) == Candidates(u, client)(m)
  {}

  /** A node as a guest may know it: nothing of its hy2 server. */
  function DropHysteria(n: Node): Node {
    n.(hysteria := Hysteria(0, [], "", "", "", map[]))
  }

  /** No hy2 secret and nothing about any exit, its shared key included, reaches a guest's profile. */
  lemma GuestSeesNoHy2AndNoExit(u: User, nodes: seq<Node>, suffix: string, exits: seq<Exit>, client: Client)
    requires u.role.Guest?
    ensures Compile(u, Map(DropHysteria, nodes), suffix, [], client) == Compile(u, nodes, suffix, exits, client)
  {
    forall n ensures NodeLeaves(u, client)(DropHysteria(n)) == NodeLeaves(u, client)(n)
                     && Candidates(u, client)(DropHysteria(n)) == Candidates(u, client)(n) {
      assert Map(RealityLeaf(u, n), n.reality.serverNames)
             == Map(RealityLeaf(u, DropHysteria(n)), n.reality.serverNames);
      SameLeaves(u, client, n, DropHysteria(n));
    }
    UnseenChangesNothing(u, nodes, suffix, exits, client, DropHysteria);
  }

  function Only(name: string, m: map<string, string>): map<string, string> {
    map k | k in m && k == name :: m[k]
  }

  /** A node with the credentials of one user and nobody else's. */
  function OnlyUser(name: string): Node -> Node {
    (n: Node) => n.(hysteria := n.hysteria.(passwords := Only(name, n.hysteria.passwords)),
                     reality := n.reality.(uuids := Only(name, n.reality.uuids)))
  }

  /** A profile carries no credential but its own user's. */
  lemma ProfileIsPerUser(u: User, nodes: seq<Node>, suffix: string, exits: seq<Exit>, client: Client)
    ensures Compile(u, Map(OnlyUser(u.name), nodes), suffix, exits, client) == Compile(u, nodes, suffix, exits, client)
  {
    var g := OnlyUser(u.name);
    forall n ensures NodeLeaves(u, client)(g(n)) == NodeLeaves(u, client)(n)
                     && Candidates(u, client)(g(n)) == Candidates(u, client)(n) {
      assert Map(RealityLeaf(u, n), n.reality.serverNames) == Map(RealityLeaf(u, g(n)), n.reality.serverNames);
      assert Map(Hy2Leaf(u, n), Hy2Ports(n)) == Map(Hy2Leaf(u, g(n)), Hy2Ports(n));
      SameLeaves(u, client, n, g(n));
    }
    UnseenChangesNothing(u, nodes, suffix, exits, client, g);
  }

  // ----- from sbr back to sing-box

  function XhttpTagSet(outs: seq<Outbound>): set<string> {
    set o | o in outs && o.Xhttp? :: o.tag
  }

  function Keep(tags: set<string>, members: seq<string>): seq<string> {
    if members == [] then []
    else (if members[0] in tags then [] else [members[0]]) + Keep(tags, members[1..])
  }

  function EraseOne(tags: set<string>, o: Outbound): seq<Outbound> {
    if o.Xhttp? then []
    else if o.Group() then [o.(members := Keep(tags, o.members))]
    else [o]
  }

  function EraseOutbounds(tags: set<string>, outs: seq<Outbound>): seq<Outbound> {
    if outs == [] then [] else EraseOne(tags, outs[0]) + EraseOutbounds(tags, outs[1..])
  }

  /** A profile without its XHTTP leaves, their tags and the resolver only they use. */
  function Erase(p: Profile): Profile {
    p.(outbounds := EraseOutbounds(XhttpTagSet(p.outbounds), p.outbounds),
       dnsServers := Filter((s: DnsServer) => s.tag != LOCAL, p.dnsServers))
  }

  lemma {:induction false} KeepConcat(tags: set<string>, a: seq<string>, b: seq<string>)
    ensures Keep(tags, a + b) == Keep(tags, a) + Keep(tags, b)
  {
    if a == [] {
      assert a + b == b;
    } else {
      assert (a + b)[1..] == a[1..] + b;
      KeepConcat(tags, a[1..], b);
    }
  }

  lemma {:induction false} KeepAll(tags: set<string>, members: seq<string>)
    requires forall t :: t in members ==> t !in tags
    ensures Keep(tags, members) == members
  {
    if members != [] { KeepAll(tags, members[1..]); }
  }

  lemma {:induction false} EraseConcat(tags: set<string>, a: seq<Outbound>, b: seq<Outbound>)
    ensures EraseOutbounds(tags, a + b) == EraseOutbounds(tags, a) + EraseOutbounds(tags, b)
  {
    if a == [] {
      assert a + b == b;
    } else {
      assert (a + b)[1..] == a[1..] + b;
      EraseConcat(tags, a[1..], b);
    }
  }

  lemma {:induction false} EraseNothing(tags: set<string>, outs: seq<Outbound>)
    requires forall o :: o in outs ==> !o.Xhttp? && !o.Group()
    ensures EraseOutbounds(tags, outs) == outs
  {
    if outs != [] { EraseNothing(tags, outs[1..]); }
  }

  lemma ErasePair(tags: set<string>, a: Outbound, b: Outbound)
    ensures EraseOutbounds(tags, [a, b]) == EraseOne(tags, a) + EraseOne(tags, b)
  {
    assert [a, b][1..] == [b] && [b][1..] == [];
    assert EraseOutbounds(tags, [b]) == EraseOne(tags, b) + EraseOutbounds(tags, []);
  }

  lemma {:induction false} EraseFlatMap(tags: set<string>, f: Node -> seq<Outbound>, g: Node -> seq<Outbound>,
                                        nodes: seq<Node>)
    requires forall n :: n in nodes ==> EraseOutbounds(tags, f(n)) == g(n)
    ensures EraseOutbounds(tags, FlatMap(f, nodes)) == FlatMap(g, nodes)
  {
    if nodes != [] {
      EraseFlatMap(tags, f, g, nodes[1..]);
      EraseConcat(tags, f(nodes[0]), FlatMap(f, nodes[1..]));
    }
  }

  /** Every tag to erase is an XHTTP tag, and nothing else is spelt like one. */
  predicate XhttpKinds(tags: set<string>) {
    forall t :: t in tags ==> Kind(t) == "xh"
  }

  predicate Covers(tags: set<string>, nodes: seq<Node>) {
    forall n :: n in nodes && n.xhttp.Some? ==> XhttpTag(n) in tags
  }

  lemma KeepOther(tags: set<string>, tag: string)
    requires XhttpKinds(tags) && Kind(tag) != "xh"
    ensures Keep(tags, [tag]) == [tag]
  {
    KeepAll(tags, [tag]);
  }

  lemma PlainKinds()
    ensures Kind(AUTO) == "au" && Kind(AUTO_ALL) == "au" && Kind(ENTRY) == "en" && Kind(DIRECT) == "ex"
  {}

  /** Leaves that are not XHTTP survive; the XHTTP ones go. */
  lemma EraseNodeLeaves(tags: set<string>, u: User, n: Node)
    ensures EraseOutbounds(tags, NodeLeaves(u, Sbr)(n)) == NodeLeaves(u, SingBox)(n)
  {
    var r, x, h := Map(RealityLeaf(u, n), n.reality.serverNames), XhttpLeaves(u, n, Sbr), Hy2Leaves(u, n);
    EraseNothing(tags, r);
    EraseNothing(tags, h);
    assert EraseOutbounds(tags, x) == [];
    EraseMiddle(tags, r, x, h);
    assert NodeLeaves(u, SingBox)(n) == r + [] + h;
  }

  lemma EraseMiddle(tags: set<string>, a: seq<Outbound>, b: seq<Outbound>, c: seq<Outbound>)
    requires EraseOutbounds(tags, a) == a && EraseOutbounds(tags, b) == [] && EraseOutbounds(tags, c) == c
    ensures EraseOutbounds(tags, a + b + c) == a + [] + c
  {
    EraseConcat(tags, a, b);
    EraseConcat(tags, a + b, c);
  }

  lemma Hy2Kind(tags: set<string>, u: User, n: Node)
    requires XhttpKinds(tags)
    ensures Keep(tags, Hy2Tags(u)(n)) == Hy2Tags(u)(n)
  {
    forall t | t in Hy2Tags(u)(n) ensures t !in tags {
      var i :| 0 <= i < |Hy2Ports(n)| && t == Hy2Tag(n, Hy2Ports(n)[i]);
      assert Kind(t) == "hy";
    }
    KeepAll(tags, Hy2Tags(u)(n));
  }

  lemma RealityKind(tags: set<string>, u: User, n: Node)
    requires XhttpKinds(tags)
    ensures Keep(tags, RealityTags(u)(n)) == RealityTags(u)(n)
  {
    FamilyOfKind("reality-", "re", Identities()(n), RealityTags(u)(n));
    KindKept(tags, RealityTags(u)(n), "re");
  }

  lemma KindKept(tags: set<string>, own: seq<string>, kind: string)
    requires XhttpKinds(tags) && AllOfKinds(own, {kind}) && kind != "xh"
    ensures Keep(tags, own) == own
  {
    forall t | t in own ensures t !in tags { KindOfMember(own, {kind}, t); }
    KeepAll(tags, own);
  }

  lemma EraseCandidates(tags: set<string>, u: User, n: Node)
    requires XhttpKinds(tags) && Covers(tags, [n])
    ensures Keep(tags, Candidates(u, Sbr)(n)) == Candidates(u, SingBox)(n)
    ensures |Candidates(u, Sbr)(n)| == |Candidates(u, SingBox)(n)| + if n.xhttp.Some? then 1 else 0
  {
    var h, r, x := Hy2Tags(u)(n), RealityTags(u)(n), XhttpTags(u, Sbr)(n);
    Hy2Kind(tags, u, n);
    RealityKind(tags, u, n);
    KeepConcat(tags, h, r);
    KeepConcat(tags, h + r, x);
    assert n in [n] && Keep(tags, x) == [];
    assert Candidates(u, SingBox)(n) == h + r + [];
  }

  lemma EraseNodeGroups(tags: set<string>, u: User, n: Node)
    requires XhttpKinds(tags) && Covers(tags, [n])
    ensures EraseOutbounds(tags, NodeGroups(u, Sbr)(n)) == NodeGroups(u, SingBox)(n)
  {
    EraseCandidates(tags, u, n);
    KeepConcat(tags, [AutoTag(n)], Candidates(u, Sbr)(n));
    assert Kind(AutoTag(n)) == "au";
    KeepOther(tags, AutoTag(n));
    ErasePair(tags, NodeGroups(u, Sbr)(n)[0], NodeGroups(u, Sbr)(n)[1]);
  }

  lemma {:induction false} EraseAllCandidates(tags: set<string>, u: User, nodes: seq<Node>)
    requires XhttpKinds(tags) && Covers(tags, nodes)
    ensures Keep(tags, FlatMap(Candidates(u, Sbr), nodes)) == FlatMap(Candidates(u, SingBox), nodes)
  {
    if nodes != [] {
      EraseCandidates(tags, u, nodes[0]);
      EraseAllCandidates(tags, u, nodes[1..]);
      KeepConcat(tags, Candidates(u, Sbr)(nodes[0]), FlatMap(Candidates(u, Sbr), nodes[1..]));
    }
  }

  function SeveralPickers(u: User, nodes: seq<Node>, client: Client): seq<Outbound> {
    [UrlTest(AUTO_ALL, FlatMap(Candidates(u, client), nodes)), Selector(ENTRY, [AUTO_ALL] + Names(nodes), Some(AUTO_ALL))]
  }

  lemma ErasePickers(tags: set<string>, u: User, nodes: seq<Node>)
    requires XhttpKinds(tags) && Covers(tags, nodes)
    requires forall t :: t in Names(nodes) ==> t !in tags
    ensures EraseOutbounds(tags, SeveralPickers(u, nodes, Sbr)) == SeveralPickers(u, nodes, SingBox)
  {
    EraseAllCandidates(tags, u, nodes);
    KeepConcat(tags, [AUTO_ALL], Names(nodes));
    KeepAll(tags, Names(nodes));
    PlainKinds();
    KeepOther(tags, AUTO_ALL);
    ErasePair(tags, SeveralPickers(u, nodes, Sbr)[0], SeveralPickers(u, nodes, Sbr)[1]);
  }

  lemma EraseSeveralEntries(tags: set<string>, u: User, nodes: seq<Node>)
    requires |nodes| != 1
    requires XhttpKinds(tags) && Covers(tags, nodes)
    requires forall t :: t in Names(nodes) ==> t !in tags
    ensures EraseOutbounds(tags, EntryGroups(u, nodes, Sbr)) == EntryGroups(u, nodes, SingBox)
  {
    forall n | n in nodes ensures EraseOutbounds(tags, NodeGroups(u, Sbr)(n)) == NodeGroups(u, SingBox)(n) {
      EraseNodeGroups(tags, u, n);
    }
    EraseFlatMap(tags, NodeGroups(u, Sbr), NodeGroups(u, SingBox), nodes);
    ErasePickers(tags, u, nodes);
    EraseConcat(tags, FlatMap(NodeGroups(u, Sbr), nodes), SeveralPickers(u, nodes, Sbr));
  }

  /** With one node, the picker is rebuilt only where the sing-box profile has one to rebuild. */
  lemma EraseOneEntry(tags: set<string>, u: User, nodes: seq<Node>)
    requires |nodes| == 1
    requires XhttpKinds(tags) && Covers(tags, [nodes[0]])
    ensures var erased := EraseOutbounds(tags, EntryGroups(u, nodes, Sbr));
            if nodes[0].xhttp.None? || |Candidates(u, SingBox)(nodes[0])| > 1 then
              erased == EntryGroups(u, nodes, SingBox)
            else
              |erased| == 2 || (|erased| == 1 && erased[0].Selector? && erased[0].members == [] && erased[0].default.Some?)
  {
    var n, sbr := nodes[0], Candidates(u, Sbr)(nodes[0]);
    EraseCandidates(tags, u, n);
    if |sbr| > 1 {
      EraseProbed(tags, sbr);
    } else {
      ErasePick(tags, Selector(ENTRY, sbr, First(sbr)));
    }
  }

  lemma EraseProbed(tags: set<string>, members: seq<string>)
    requires XhttpKinds(tags)
    ensures EraseOutbounds(tags, [UrlTest(AUTO, members), Selector(ENTRY, [AUTO] + members, Some(AUTO))])
         == [UrlTest(AUTO, Keep(tags, members)), Selector(ENTRY, [AUTO] + Keep(tags, members), Some(AUTO))]
  {
    KeepConcat(tags, [AUTO], members);
    PlainKinds();
    KeepOther(tags, AUTO);
    ErasePair(tags, UrlTest(AUTO, members), Selector(ENTRY, [AUTO] + members, Some(AUTO)));
  }

  lemma ErasePick(tags: set<string>, pick: Outbound)
    requires pick.Selector?
    ensures EraseOutbounds(tags, [pick]) == [pick.(members := Keep(tags, pick.members))]
  {
    assert [pick][1..] == [];
  }

  lemma EraseExitPickers(tags: set<string>, exits: seq<Exit>)
    requires XhttpKinds(tags)
    ensures var pickers := [Selector(DIRECT, [ENTRY], Some(ENTRY)),
                            Selector(EXIT, [DIRECT] + Map(ExitTag, exits), Some(DIRECT))];
            EraseOutbounds(tags, pickers) == pickers
  {
    var direct, pick := Selector(DIRECT, [ENTRY], Some(ENTRY)),
                        Selector(EXIT, [DIRECT] + Map(ExitTag, exits), Some(DIRECT));
    PlainKinds();
    KeepOther(tags, ENTRY);
    forall t | t in pick.members ensures t !in tags {
      if t != DIRECT {
        var i :| 0 <= i < |exits| && Map(ExitTag, exits)[i] == t;
        assert Kind(t) == "ex";
      }
    }
    KeepAll(tags, pick.members);
    ErasePair(tags, direct, pick);
  }

  lemma EraseExits(tags: set<string>, exits: seq<Exit>)
    requires XhttpKinds(tags)
    ensures EraseOutbounds(tags, ExitGroups(exits)) == ExitGroups(exits)
  {
    if exits != [] {
      var leaves, pickers := Map(ExitLeaf, exits), ExitGroups(exits)[|exits|..];
      EraseNothing(tags, leaves);
      EraseExitPickers(tags, exits);
      EraseConcat(tags, leaves, pickers);
      assert ExitGroups(exits) == leaves + pickers;
    }
  }

  // ----- the tags to erase

  lemma XhttpLeafTag(u: User, nodes: seq<Node>, exits: seq<Exit>, o: Outbound)
    requires o in Outbounds(u, nodes, exits, Sbr) && o.Xhttp?
    ensures Kind(o.tag) == "xh" && o.tag in LeafTags(u, nodes, Sbr)
  {
    Classify(u, nodes, exits, Sbr, o);
    var n := LeavesAreLeaves(u, nodes, Sbr, o);
    XhttpLeafKind(u, nodes, o);
    FlatMapMember(Candidates(u, Sbr), nodes, o.tag);
  }

  lemma XhttpLeafKind(u: User, nodes: seq<Node>, o: Outbound)
    requires o in FlatMap(NodeLeaves(u, Sbr), nodes) && o.Xhttp?
    ensures Kind(o.tag) == "xh"
  {
    var n := NodeLeafOf(u, nodes, Sbr, o);
    XhttpLeafOf(u, Sbr, n, o);
  }

  lemma XhttpCovered(u: User, nodes: seq<Node>, exits: seq<Exit>)
    ensures Covers(XhttpTagSet(Outbounds(u, nodes, exits, Sbr)), nodes)
  {
    forall n | n in nodes && n.xhttp.Some? ensures XhttpTag(n) in XhttpTagSet(Outbounds(u, nodes, exits, Sbr)) {
      var o := XhttpLeaves(u, n, Sbr)[0];
      assert o in NodeLeaves(u, Sbr)(n);
      FlatMapMember(NodeLeaves(u, Sbr), nodes, o);
      assert o in Outbounds(u, nodes, exits, Sbr) && o.Xhttp?;
    }
  }

  lemma NamesUntouched(u: User, nodes: seq<Node>, exits: seq<Exit>)
    requires CleanNames(u, nodes, exits, Sbr) && |nodes| != 1
    ensures forall t :: t in Names(nodes) ==> t !in XhttpTagSet(Outbounds(u, nodes, exits, Sbr))
  {
    CleanNotReserved(u, nodes, exits, Sbr);
    forall t | t in Names(nodes) ensures t !in XhttpTagSet(Outbounds(u, nodes, exits, Sbr)) {
      var i :| 0 <= i < |nodes| && Names(nodes)[i] == t;
      assert nodes[i] in nodes && nodes[i].name !in ReservedTags(u, nodes, exits, Sbr);
      forall o | o in Outbounds(u, nodes, exits, Sbr) && o.Xhttp? ensures o.tag != t {
        XhttpLeafTag(u, nodes, exits, o);
      }
    }
  }

  lemma EraseServers(nodes: seq<Node>)
    ensures Filter((s: DnsServer) => s.tag != LOCAL, DnsServers(nodes, Sbr)) == DnsServers(nodes, SingBox)
  {
    var f := (s: DnsServer) => s.tag != LOCAL;
    var servers := DnsServers(nodes, SingBox);
    var extra := if HasXhttp(nodes, Sbr) then [DnsServer(LOCAL, None, None)] else [];
    assert |LOCAL| == 5 && |"gw-cache"| == 8 && |"cf-doh"| == 6 && |"ts-dns"| == 6;
    forall s | s in servers ensures f(s) {
      assert s == servers[0] || s == servers[1] || s == servers[2];
    }
    FilterAll(f, servers);
    FilterConcat(f, servers, extra);
    assert servers + extra == DnsServers(nodes, Sbr);
    assert extra != [] ==> extra[1..] == [];
  }

  /** Whether the sing-box profile offers a choice of entries, or there is nothing to erase. */
  predicate Choosable(u: User, nodes: seq<Node>) {
    |nodes| == 1 && nodes[0].xhttp.Some? ==> |Candidates(u, SingBox)(nodes[0])| > 1
  }

  lemma ErasedOutbounds(u: User, nodes: seq<Node>, exits: seq<Exit>)
    requires CleanNames(u, nodes, exits, Sbr)
    ensures var outs := Outbounds(u, nodes, exits, Sbr);
            EraseOutbounds(XhttpTagSet(outs), outs) == Outbounds(u, nodes, exits, SingBox) <==> Choosable(u, nodes)
  {
    var outs := Outbounds(u, nodes, exits, Sbr);
    var tags := XhttpTagSet(outs);
    forall t | t in tags ensures Kind(t) == "xh" {
      var o :| o in outs && o.Xhttp? && o.tag == t;
      XhttpLeafTag(u, nodes, exits, o);
    }
    XhttpCovered(u, nodes, exits);
    if |nodes| != 1 { NamesUntouched(u, nodes, exits); }
    ErasedParts(tags, u, nodes, exits);
  }

  lemma ErasedParts(tags: set<string>, u: User, nodes: seq<Node>, exits: seq<Exit>)
    requires XhttpKinds(tags) && Covers(tags, nodes)
    requires |nodes| != 1 ==> forall t :: t in Names(nodes) ==> t !in tags
    ensures EraseOutbounds(tags, Outbounds(u, nodes, exits, Sbr)) == Outbounds(u, nodes, exits, SingBox)
            <==> Choosable(u, nodes)
  {
    var leaves, plain := FlatMap(NodeLeaves(u, Sbr), nodes), FlatMap(NodeLeaves(u, SingBox), nodes);
    var entry, bare := EntryGroups(u, nodes, Sbr), EntryGroups(u, nodes, SingBox);
    var outs := ExitGroups(UsableExits(u, exits));
    EraseConcat(tags, leaves, entry);
    EraseConcat(tags, leaves + entry, outs);
    forall n | n in nodes ensures EraseOutbounds(tags, NodeLeaves(u, Sbr)(n)) == NodeLeaves(u, SingBox)(n) {
      EraseNodeLeaves(tags, u, n);
    }
    EraseFlatMap(tags, NodeLeaves(u, Sbr), NodeLeaves(u, SingBox), nodes);
    EraseExits(tags, UsableExits(u, exits));
    var erased := EraseOutbounds(tags, entry);
    MiddleEqual(plain, erased, bare, outs);
    if |nodes| == 1 {
      EraseOneEntry(tags, u, nodes);
      assert |erased| == 2 ==> |bare| != 2 || |Candidates(u, SingBox)(nodes[0])| > 1;
    } else {
      EraseSeveralEntries(tags, u, nodes);
    }
  }

  lemma MiddleEqual(a: seq<Outbound>, x: seq<Outbound>, y: seq<Outbound>, b: seq<Outbound>)
    ensures a + x + b == a + y + b <==> x == y
  {
    if a + x + b == a + y + b {
      assert |x| == |y|;
      assert (a + x + b)[|a|..|a| + |x|] == x && (a + y + b)[|a|..|a| + |y|] == y;
    }
  }

  /**
   * Taking XHTTP out of an `sbr` profile gives the `sing-box` profile exactly when the latter has
   * a choice of entries (or there was no XHTTP entry): for one node with one identity there is
   * no urltest to go back to.
   */
  lemma ErasureIffChoosable(u: User, nodes: seq<Node>, suffix: string, exits: seq<Exit>)
    requires CleanNames(u, nodes, exits, Sbr)
    ensures Erase(Compile(u, nodes, suffix, exits, Sbr)) == Compile(u, nodes, suffix, exits, SingBox)
            <==> Choosable(u, nodes)
  {
    ErasedOutbounds(u, nodes, exits);
    EraseServers(nodes);
  }
}
