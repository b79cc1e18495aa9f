/** When a profile's outbound tags are pairwise distinct, which sing-box requires of them. */
module ProfileTags {
  import opened Prelude
  import opened Text
  import opened Roster
  import opened Profile

  function Names(nodes: seq<Node>): seq<string> {
    Map((n: Node) => n.name, nodes)
  }

  function Identities(): Node -> seq<string> {
    n => Map((sni: string) => Identity(n, sni), n.reality.serverNames)
  }

  function ExitNames(exits: seq<Exit>): seq<string> {
    Map((e: Exit) => e.name, exits)
  }

  function LeafTags(u: User, nodes: seq<Node>, client: Client): seq<string> {
    FlatMap(Candidates(u, client), nodes)
  }

  /** Every tag of a profile of several nodes but the ones that are bare node names. */
  function ReservedTags(u: User, nodes: seq<Node>, exits: seq<Exit>, client: Client): seq<string> {
    LeafTags(u, nodes, client) + (Map(AutoTag, nodes) + [AUTO_ALL, ENTRY])
    + Tags(ExitGroups(UsableExits(u, exits)))
  }

  /** `reality-<node>-<label>`, for an admin `hy2-<node>-<port>`, and for sbr `xhttp-<node>` where there is one. */
  predicate NamesLeaf(u: User, n: Node, client: Client, name: string) {
    || (exists sni :: sni in n.reality.serverNames && name == "reality-" + (n.name + "-" + SniLabel(sni)))
    || (u.role.Admin? && exists port :: port in Hy2Ports(n) && name == "hy2-" + (n.name + "-" + Decimal(port)))
    || (client.Sbr? && n.xhttp.Some? && name == "xhttp-" + n.name)
  }

  /** `exit-direct`, `exit-select` and `exit-<exit>`, where the user has any exit. */
  predicate NamesExit(usable: seq<Exit>, name: string) {
    usable != [] && (name == "exit-direct" || name == "exit-select" || exists e :: e in usable && name == "exit-" + e.name)
  }

  /** A name the profile gives to something else. */
  predicate TakenName(u: User, nodes: seq<Node>, exits: seq<Exit>, client: Client, name: string) {
    || name == "auto-all" || name == "entry-select"
    || (exists n :: n in nodes && name == "auto-" + n.name)
    || (exists n :: n in nodes && NamesLeaf(u, n, client, name))
    || NamesExit(UsableExits(u, exits), name)
  }

  /**
   * What the configuration must satisfy. Only a profile of several nodes constrains the node
   * names themselves, because only that one has a group named after each node.
   */
  predicate CleanNames(u: User, nodes: seq<Node>, exits: seq<Exit>, client: Client) {
    && Distinct(FlatMap(Identities(), nodes))
    && PortsDistinct(u, nodes)
    && (|nodes| != 1 ==>
          && Distinct(Names(nodes))
          && "all" !in Names(nodes)
          && forall n :: n in nodes ==> !TakenName(u, nodes, exits, client, n.name))
    && var names := ExitNames(UsableExits(u, exits));
      Distinct(names) && "direct" !in names && "select" !in names
  }

  // ----- families of tags

  /** The first two characters tell the families apart: re, xh, hy, au, en, ex. */
  function Kind(tag: string): string {
    if |tag| >= 2 then tag[..2] else ""
  }

  predicate AllOfKinds(tags: seq<string>, kinds: set<string>) {
    tags == [] || (Kind(tags[0]) in kinds && AllOfKinds(tags[1..], kinds))
  }

  lemma {:induction false} KindOfMember(tags: seq<string>, kinds: set<string>, tag: string)
    requires AllOfKinds(tags, kinds) && tag in tags
    ensures Kind(tag) in kinds
  {
    if tag != tags[0] { KindOfMember(tags[1..], kinds, tag); }
  }

  lemma {:induction false} KindsByMember(tags: seq<string>, kinds: set<string>)
    requires forall x :: x in tags ==> Kind(x) in kinds
    ensures AllOfKinds(tags, kinds)
  {
    if tags != [] { KindsByMember(tags[1..], kinds); }
  }

  lemma {:induction false} KindsConcat(a: seq<string>, b: seq<string>, kinds: set<string>)
    requires AllOfKinds(a, kinds) && AllOfKinds(b, kinds)
    ensures AllOfKinds(a + b, kinds)
  {
    if a == [] {
      assert a + b == b;
    } else {
      assert (a + b)[1..] == a[1..] + b;
      KindsConcat(a[1..], b, kinds);
    }
  }

  lemma KindsWider(tags: seq<string>, kinds: set<string>, more: set<string>)
    requires AllOfKinds(tags, kinds) && kinds <= more
    ensures AllOfKinds(tags, more)
  {
    forall x | x in tags ensures Kind(x) in more { KindOfMember(tags, kinds, x); }
    KindsByMember(tags, more);
  }

  lemma KindsApart(a: seq<string>, ka: set<string>, b: seq<string>, kb: set<string>)
    requires AllOfKinds(a, ka) && AllOfKinds(b, kb) && ka !! kb
    ensures Distinct(a + b) <==> Distinct(a) && Distinct(b)
    ensures AllOfKinds(a + b, ka + kb)
  {
    DistinctConcat(a, b);
    ApartMembers(a, b);
    forall x | x in a ensures x !in b {
      KindOfMember(a, ka, x);
      if x in b { KindOfMember(b, kb, x); assert false; }
    }
    KindsWider(a, ka, ka + kb);
    KindsWider(b, kb, ka + kb);
    KindsConcat(a, b, ka + kb);
  }

  function Prefixed(prefix: string): string -> string {
    x => prefix + x
  }

  lemma {:induction false} PrefixedMember(prefix: string, xs: seq<string>, x: string)
    ensures prefix + x in Map(Prefixed(prefix), xs) <==> x in xs
  {
    if xs != [] {
      MapCons(Prefixed(prefix), xs);
      PrefixedMember(prefix, xs[1..], x);
      assert (prefix + x)[|prefix|..] == x && (prefix + xs[0])[|prefix|..] == xs[0];
    }
  }

  /** Prefixing loses nothing, and the prefix decides the kind. */
  lemma {:induction false} PrefixedFamily(prefix: string, xs: seq<string>)
    requires |prefix| >= 2
    ensures Distinct(Map(Prefixed(prefix), xs)) <==> Distinct(xs)
    ensures AllOfKinds(Map(Prefixed(prefix), xs), {prefix[..2]})
  {
    if xs != [] {
      PrefixedFamily(prefix, xs[1..]);
      MapCons(Prefixed(prefix), xs);
      PrefixedMember(prefix, xs[1..], xs[0]);
      assert (prefix + xs[0])[..2] == prefix[..2];
    }
  }

  lemma TagsConcat(a: seq<Outbound>, b: seq<Outbound>)
    ensures Tags(a + b) == Tags(a) + Tags(b)
  {}

  function TagsOf(f: Node -> seq<Outbound>): Node -> seq<string> {
    n => Tags(f(n))
  }

  lemma {:induction false} TagsFlatMap(f: Node -> seq<Outbound>, nodes: seq<Node>)
    ensures Tags(FlatMap(f, nodes)) == FlatMap(TagsOf(f), nodes)
  {
    if nodes != [] {
      TagsFlatMap(f, nodes[1..]);
      TagsConcat(f(nodes[0]), FlatMap(f, nodes[1..]));
    }
  }

  function RealityTags(u: User): Node -> seq<string> {
    n => Tags(Map(RealityLeaf(u, n), n.reality.serverNames))
  }

  function XhttpTags(u: User, client: Client): Node -> seq<string> {
    n => Tags(XhttpLeaves(u, n, client))
  }

  function Hy2Tags(u: User): Node -> seq<string> {
    n => Tags(Hy2Leaves(u, n))
  }

  /** The leaves as pushed and the leaves as picked are the same tags in another order. */
  lemma LeafTagsPushed(u: User, nodes: seq<Node>, client: Client)
    ensures multiset(Tags(FlatMap(NodeLeaves(u, client), nodes))) == multiset(LeafTags(u, nodes, client))
  {
    TagsFlatMap(NodeLeaves(u, client), nodes);
    forall n | n in nodes
      ensures multiset(TagsOf(NodeLeaves(u, client))(n)) == multiset(Candidates(u, client)(n))
    {
      var r, x, h := Map(RealityLeaf(u, n), n.reality.serverNames), XhttpLeaves(u, n, client), Hy2Leaves(u, n);
      TagsConcat(r, x);
      TagsConcat(r + x, h);
    }
    FlatMapPermuted(TagsOf(NodeLeaves(u, client)), Candidates(u, client), nodes);
  }

  // ----- the tags by the names they are made of

  lemma MappedBy<A>(f: A -> string, xs: seq<A>, y: string)
    ensures y in Map(f, xs) <==> exists x :: x in xs && y == f(x)
  {
    if y in Map(f, xs) {
      var i :| 0 <= i < |xs| && Map(f, xs)[i] == y;
      assert xs[i] in xs;
    }
    if x :| x in xs && y == f(x) {
      var i :| 0 <= i < |xs| && xs[i] == x;
      assert Map(f, xs)[i] == y;
    }
  }

  function RealityTagOf(n: Node): string -> string { (sni: string) => RealityTag(n, sni) }

  function Hy2TagOf(n: Node): nat -> string { (port: nat) => Hy2Tag(n, port) }

  lemma RealityByName(u: User, n: Node, name: string)
    ensures name in RealityTags(u)(n) <==> exists sni :: sni in n.reality.serverNames && name == RealityTag(n, sni)
  {
    assert RealityTags(u)(n) == Map(RealityTagOf(n), n.reality.serverNames);
    MappedBy(RealityTagOf(n), n.reality.serverNames, name);
  }

  lemma Hy2ByName(u: User, n: Node, name: string)
    ensures name in Hy2Tags(u)(n) <==> u.role.Admin? && exists port :: port in Hy2Ports(n) && name == Hy2Tag(n, port)
  {
    if u.role.Admin? {
      assert Hy2Tags(u)(n) == Map(Hy2TagOf(n), Hy2Ports(n));
      MappedBy(Hy2TagOf(n), Hy2Ports(n), name);
    }
  }

  lemma CandidatesByName(u: User, n: Node, client: Client, name: string)
    ensures name in Candidates(u, client)(n) <==> NamesLeaf(u, n, client, name)
  {
    RealityByName(u, n, name);
    Hy2ByName(u, n, name);
    var h, r, x := Hy2Tags(u)(n), RealityTags(u)(n), XhttpTags(u, client)(n);
    assert Candidates(u, client)(n) == h + r + x;
    assert x == if client.Sbr? && n.xhttp.Some? then [XhttpTag(n)] else [];
  }

  lemma ExitTagsByName(usable: seq<Exit>, name: string)
    ensures name in Tags(ExitGroups(usable)) <==> NamesExit(usable, name)
  {
    var tags := Tags(ExitGroups(usable));
    if usable != [] {
      assert tags[|usable|] == DIRECT && tags[|usable| + 1] == EXIT;
      if name in tags {
        var i :| 0 <= i < |tags| && tags[i] == name;
        if i < |usable| { assert usable[i] in usable && name == ExitTag(usable[i]); }
      }
      if e :| e in usable && name == "exit-" + e.name {
        var i :| 0 <= i < |usable| && usable[i] == e;
        assert tags[i] == name;
      }
    }
  }

  lemma LeafTagsByName(u: User, nodes: seq<Node>, client: Client, name: string)
    ensures name in LeafTags(u, nodes, client) <==> exists n :: n in nodes && NamesLeaf(u, n, client, name)
  {
    FlatMapMember(Candidates(u, client), nodes, name);
    forall i | 0 <= i < |nodes| ensures name in Candidates(u, client)(nodes[i]) <==> NamesLeaf(u, nodes[i], client, name) {
      CandidatesByName(u, nodes[i], client, name);
    }
    if n :| n in nodes && NamesLeaf(u, n, client, name) {
      var i :| 0 <= i < |nodes| && nodes[i] == n;
      assert name in Candidates(u, client)(nodes[i]);
    }
  }

  lemma InFive(a: seq<string>, b: seq<string>, x: string, y: string, c: seq<string>, name: string)
    ensures name in a + (b + [x, y]) + c <==> name in a || name in b || name == x || name == y || name in c
  {}

  lemma TakenIffReserved(u: User, nodes: seq<Node>, exits: seq<Exit>, client: Client, name: string)
    ensures TakenName(u, nodes, exits, client, name) <==> name in ReservedTags(u, nodes, exits, client)
  {
    ExitTagsByName(UsableExits(u, exits), name);
    LeafTagsByName(u, nodes, client, name);
    MappedBy(AutoTag, nodes, name);
    InFive(LeafTags(u, nodes, client), Map(AutoTag, nodes), AUTO_ALL, ENTRY, Tags(ExitGroups(UsableExits(u, exits))), name);
  }

  /** Clean names are none of the profile's other tags. */
  lemma CleanNotReserved(u: User, nodes: seq<Node>, exits: seq<Exit>, client: Client)
    ensures (forall n :: n in nodes ==> !TakenName(u, nodes, exits, client, n.name))
            <==> forall n :: n in nodes ==> n.name !in ReservedTags(u, nodes, exits, client)
  {
    forall n | n in nodes
      ensures TakenName(u, nodes, exits, client, n.name) <==> n.name in ReservedTags(u, nodes, exits, client)
    {
      TakenIffReserved(u, nodes, exits, client, n.name);
    }
  }

  // ----- each family is a prefix on a list of names

  lemma MapConcat(f: string -> string, a: seq<string>, b: seq<string>)
    ensures Map(f, a + b) == Map(f, a) + Map(f, b)
  {}

  lemma {:induction false} RealityFamily(u: User, nodes: seq<Node>)
    ensures FlatMap(RealityTags(u), nodes) == Map(Prefixed("reality-"), FlatMap(Identities(), nodes))
  {
    if nodes != [] {
      RealityFamily(u, nodes[1..]);
      assert RealityTags(u)(nodes[0]) == Map(Prefixed("reality-"), Identities()(nodes[0]));
      MapConcat(Prefixed("reality-"), Identities()(nodes[0]), FlatMap(Identities(), nodes[1..]));
    }
  }

  function XhttpNames(client: Client): Node -> seq<string> {
    (n: Node) => if client.Sbr? && n.xhttp.Some? then [n.name] else []
  }

  lemma {:induction false} XhttpFamily(u: User, nodes: seq<Node>, client: Client)
    ensures FlatMap(XhttpTags(u, client), nodes) == Map(Prefixed("xhttp-"), FlatMap(XhttpNames(client), nodes))
  {
    if nodes != [] {
      XhttpFamily(u, nodes[1..], client);
      MapConcat(Prefixed("xhttp-"), XhttpNames(client)(nodes[0]), FlatMap(XhttpNames(client), nodes[1..]));
    }
  }

  lemma {:induction false} XhttpNamesDistinct(nodes: seq<Node>, client: Client)
    requires Distinct(Names(nodes))
    ensures Distinct(FlatMap(XhttpNames(client), nodes))
    ensures forall x :: x in FlatMap(XhttpNames(client), nodes) ==> x in Names(nodes)
  {
    if nodes != [] {
      assert Names(nodes)[1..] == Names(nodes[1..]);
      XhttpNamesDistinct(nodes[1..], client);
      var here, rest := XhttpNames(client)(nodes[0]), FlatMap(XhttpNames(client), nodes[1..]);
      if here != [] {
        assert (here + rest)[1..] == rest;
      } else {
        assert here + rest == rest;
      }
      assert forall x :: x in Names(nodes[1..]) ==> x in Names(nodes);
      assert Names(nodes)[0] in Names(nodes);
    }
  }

  function PortId(n: Node): nat -> string {
    (p: nat) => n.name + "-" + Decimal(p)
  }

  function PortIds(u: User): Node -> seq<string> {
    (n: Node) => if u.role.Admin? then Map(PortId(n), Hy2Ports(n)) else []
  }

  lemma FamilyOfKind(prefix: string, kind: string, xs: seq<string>, tags: seq<string>)
    requires |prefix| >= 2 && prefix[..2] == kind && tags == Map(Prefixed(prefix), xs)
    ensures Distinct(tags) <==> Distinct(xs)
    ensures AllOfKinds(tags, {kind})
  {
    PrefixedFamily(prefix, xs);
  }

  lemma {:induction false} Hy2Family(u: User, nodes: seq<Node>)
    ensures FlatMap(Hy2Tags(u), nodes) == Map(Prefixed("hy2-"), FlatMap(PortIds(u), nodes))
  {
    if nodes != [] {
      Hy2Family(u, nodes[1..]);
      assert Hy2Tags(u)(nodes[0]) == Map(Prefixed("hy2-"), PortIds(u)(nodes[0]));
      MapConcat(Prefixed("hy2-"), PortIds(u)(nodes[0]), FlatMap(PortIds(u), nodes[1..]));
    }
  }

  lemma PortIdParts(m: Node, n: Node, p: nat, q: nat)
    ensures PortId(m)(p) == PortId(n)(q) <==> m.name == n.name && p == q
  {
    LastSeparator(m.name, Decimal(p), n.name, Decimal(q), '-');
    DecimalInjective(p, q);
  }

  lemma {:induction false} NodePortsDistinct(n: Node, ports: seq<nat>)
    ensures Distinct(Map(PortId(n), ports)) <==> Distinct(ports)
    ensures forall x :: x in Map(PortId(n), ports) ==> exists p: nat :: x == PortId(n)(p)
  {
    if ports != [] {
      var ids := Map(PortId(n), ports);
      NodePortsDistinct(n, ports[1..]);
      assert ids[1..] == Map(PortId(n), ports[1..]);
      forall i | 0 <= i < |ports[1..]| ensures ids[1..][i] == ids[0] <==> ports[1..][i] == ports[0] {
        PortIdParts(n, n, ports[1..][i], ports[0]);
      }
    }
  }

  lemma {:induction false} PortIdOwner(u: User, nodes: seq<Node>, n: Node, p: nat)
    requires PortId(n)(p) in FlatMap(PortIds(u), nodes)
    ensures n.name in Names(nodes)
  {
    var names := Names(nodes);
    if PortId(n)(p) in PortIds(u)(nodes[0]) {
      var i :| 0 <= i < |Hy2Ports(nodes[0])| && PortId(n)(p) == PortId(nodes[0])(Hy2Ports(nodes[0])[i]);
      PortIdParts(n, nodes[0], p, Hy2Ports(nodes[0])[i]);
      assert names[0] == n.name;
    } else {
      PortIdOwner(u, nodes[1..], n, p);
      assert names[1..] == Names(nodes[1..]);
    }
  }

  predicate PortsDistinct(u: User, nodes: seq<Node>) {
    u.role.Admin? ==> forall n :: n in nodes ==> Distinct(Hy2Ports(n))
  }

  lemma {:induction false} PortIdsDistinct(u: User, nodes: seq<Node>)
    requires Distinct(Names(nodes))
    ensures Distinct(FlatMap(PortIds(u), nodes)) <==> PortsDistinct(u, nodes)
  {
    if nodes != [] {
      var n, rest := nodes[0], nodes[1..];
      assert Names(nodes)[1..] == Names(rest);
      PortIdsDistinct(u, rest);
      var here, others := PortIds(u)(n), FlatMap(PortIds(u), rest);
      DistinctConcat(here, others);
      NodePortsDistinct(n, Hy2Ports(n));
      ApartMembers(here, others);
      forall x | x in here ensures x !in others {
        var p: nat :| x == PortId(n)(p);
        if x in others { PortIdOwner(u, rest, n, p); assert false; }
      }
      assert forall m :: m in nodes <==> m == n || m in rest;
    }
  }

  lemma RealityDistinct(u: User, nodes: seq<Node>)
    ensures Distinct(FlatMap(RealityTags(u), nodes)) <==> Distinct(FlatMap(Identities(), nodes))
    ensures AllOfKinds(FlatMap(RealityTags(u), nodes), {"re"})
  {
    RealityFamily(u, nodes);
    PrefixedFamily("reality-", FlatMap(Identities(), nodes));
    assert "reality-"[..2] == "re";
  }

  lemma XhttpDistinct(u: User, nodes: seq<Node>, client: Client)
    requires Distinct(Names(nodes))
    ensures Distinct(FlatMap(XhttpTags(u, client), nodes))
    ensures AllOfKinds(FlatMap(XhttpTags(u, client), nodes), {"xh"})
  {
    XhttpFamily(u, nodes, client);
    XhttpNamesDistinct(nodes, client);
    FamilyOfKind("xhttp-", "xh", FlatMap(XhttpNames(client), nodes), FlatMap(XhttpTags(u, client), nodes));
  }

  lemma Hy2Kinds(u: User, nodes: seq<Node>)
    ensures Distinct(FlatMap(Hy2Tags(u), nodes)) <==> Distinct(FlatMap(PortIds(u), nodes))
    ensures AllOfKinds(FlatMap(Hy2Tags(u), nodes), {"hy"})
  {
    Hy2Family(u, nodes);
    FamilyOfKind("hy2-", "hy", FlatMap(PortIds(u), nodes), FlatMap(Hy2Tags(u), nodes));
  }

  lemma Hy2Distinct(u: User, nodes: seq<Node>)
    requires Distinct(Names(nodes))
    ensures Distinct(FlatMap(Hy2Tags(u), nodes)) <==> PortsDistinct(u, nodes)
    ensures AllOfKinds(FlatMap(Hy2Tags(u), nodes), {"hy"})
  {
    PortIdsDistinct(u, nodes);
    Hy2Kinds(u, nodes);
  }

  lemma LeafTagsByFamily(u: User, nodes: seq<Node>, client: Client)
    ensures multiset(LeafTags(u, nodes, client)) ==
            multiset(FlatMap(Hy2Tags(u), nodes) + FlatMap(RealityTags(u), nodes) + FlatMap(XhttpTags(u, client), nodes))
  {
    var hr := (n: Node) => Hy2Tags(u)(n) + RealityTags(u)(n);
    FlatMapSplit(Hy2Tags(u), RealityTags(u), hr, nodes);
    FlatMapSplit(hr, XhttpTags(u, client), Candidates(u, client), nodes);
  }

  lemma LeafTagsDistinct(u: User, nodes: seq<Node>, client: Client)
    requires Distinct(Names(nodes))
    ensures Distinct(LeafTags(u, nodes, client)) <==>
            Distinct(FlatMap(Identities(), nodes)) && PortsDistinct(u, nodes)
    ensures AllOfKinds(LeafTags(u, nodes, client), {"re", "xh", "hy"})
  {
    var r, x, h := FlatMap(RealityTags(u), nodes), FlatMap(XhttpTags(u, client), nodes), FlatMap(Hy2Tags(u), nodes);
    RealityDistinct(u, nodes);
    XhttpDistinct(u, nodes, client);
    Hy2Distinct(u, nodes);
    KindsApart(h, {"hy"}, r, {"re"});
    KindsApart(h + r, {"hy"} + {"re"}, x, {"xh"});
    LeafTagsByFamily(u, nodes, client);
    DistinctPermutation(h + r + x, LeafTags(u, nodes, client));
    assert {"hy"} + {"re"} + {"xh"} == {"re", "xh", "hy"};
    SameMembersKinds(h + r + x, LeafTags(u, nodes, client), {"re", "xh", "hy"});
  }

  lemma SameMembersKinds(a: seq<string>, b: seq<string>, kinds: set<string>)
    requires multiset(a) == multiset(b) && AllOfKinds(a, kinds)
    ensures AllOfKinds(b, kinds)
  {
    forall x | x in b ensures Kind(x) in kinds {
      assert x in multiset(b);
      KindOfMember(a, kinds, x);
    }
    KindsByMember(b, kinds);
  }

  lemma ExitTagsDistinct(exits: seq<Exit>)
    ensures Distinct(Tags(ExitGroups(exits))) <==>
            Distinct(ExitNames(exits)) && "direct" !in ExitNames(exits) && "select" !in ExitNames(exits)
    ensures AllOfKinds(Tags(ExitGroups(exits)), {"ex"})
  {
    if exits != [] {
      var all := ExitNames(exits) + ["direct", "select"];
      assert "exit-" + "direct" == DIRECT && "exit-" + "select" == EXIT && "exit-"[..2] == "ex";
      assert Tags(ExitGroups(exits)) == Map(Prefixed("exit-"), all);
      PrefixedFamily("exit-", all);
      DistinctConcat(ExitNames(exits), ["direct", "select"]);
      ApartMembers(ExitNames(exits), ["direct", "select"]);
    }
  }

  lemma AutoTagsDistinct(nodes: seq<Node>)
    requires Distinct(Names(nodes))
    ensures Distinct(Map(AutoTag, nodes) + [AUTO_ALL]) <==> "all" !in Names(nodes)
    ensures AllOfKinds(Map(AutoTag, nodes) + [AUTO_ALL], {"au"})
  {
    var all := Names(nodes) + ["all"];
    assert "auto-" + "all" == AUTO_ALL && "auto-"[..2] == "au";
    assert Map(AutoTag, nodes) + [AUTO_ALL] == Map(Prefixed("auto-"), all);
    PrefixedFamily("auto-", all);
    DistinctConcat(Names(nodes), ["all"]);
    ApartMembers(Names(nodes), ["all"]);
  }

  // ----- the theorem

  lemma {:induction false} GroupTagsPushed(u: User, nodes: seq<Node>, client: Client)
    ensures multiset(Tags(FlatMap(NodeGroups(u, client), nodes)))
            == multiset(Map(AutoTag, nodes)) + multiset(Names(nodes))
  {
    if nodes != [] {
      GroupTagsPushed(u, nodes[1..], client);
      TagsConcat(NodeGroups(u, client)(nodes[0]), FlatMap(NodeGroups(u, client), nodes[1..]));
      assert Tags(NodeGroups(u, client)(nodes[0])) == [AutoTag(nodes[0]), nodes[0].name];
      MapCons(AutoTag, nodes);
      MapCons((n: Node) => n.name, nodes);
    }
  }

  lemma SeveralNodesTags(u: User, nodes: seq<Node>, exits: seq<Exit>, client: Client)
    requires |nodes| != 1
    ensures multiset(Tags(Outbounds(u, nodes, exits, client)))
            == multiset(ReservedTags(u, nodes, exits, client) + Names(nodes))
  {
    var leaves, groups, outs := FlatMap(NodeLeaves(u, client), nodes), FlatMap(NodeGroups(u, client), nodes),
                                ExitGroups(UsableExits(u, exits));
    var entry := EntryGroups(u, nodes, client)[|groups|..];
    assert EntryGroups(u, nodes, client) == groups + entry;
    assert Tags(entry) == [AUTO_ALL, ENTRY];
    LeafTagsPushed(u, nodes, client);
    GroupTagsPushed(u, nodes, client);
    TagsConcat(groups, entry);
    TagsConcat(leaves, EntryGroups(u, nodes, client));
    TagsConcat(leaves + EntryGroups(u, nodes, client), outs);
  }

  lemma EntryKind()
    ensures AllOfKinds([ENTRY], {"en"}) && Distinct([ENTRY])
    ensures AllOfKinds([AUTO, ENTRY], {"au", "en"}) && Distinct([AUTO, ENTRY])
  {
    assert ENTRY[..2] == "en" && AUTO[..2] == "au";
    assert [AUTO, ENTRY][1..] == [ENTRY] && [ENTRY][1..] == [];
  }

  /** Leaves, then entry groups, then the exit axis: three lists no tag can be in two of. */
  lemma ThreeFamilies(leaves: seq<string>, groups: seq<string>, outs: seq<string>)
    requires AllOfKinds(leaves, {"re", "xh", "hy"}) && AllOfKinds(groups, {"au", "en"}) && AllOfKinds(outs, {"ex"})
    ensures Distinct(leaves + groups + outs) <==> Distinct(leaves) && Distinct(groups) && Distinct(outs)
  {
    KindsApart(leaves, {"re", "xh", "hy"}, groups, {"au", "en"});
    KindsApart(leaves + groups, {"re", "xh", "hy"} + {"au", "en"}, outs, {"ex"});
  }

  lemma ReservedDistinct(u: User, nodes: seq<Node>, exits: seq<Exit>, client: Client)
    requires Distinct(Names(nodes))
    ensures Distinct(ReservedTags(u, nodes, exits, client)) <==>
            && Distinct(LeafTags(u, nodes, client))
            && "all" !in Names(nodes)
            && Distinct(Tags(ExitGroups(UsableExits(u, exits))))
  {
    var autos := Map(AutoTag, nodes);
    LeafTagsDistinct(u, nodes, client);
    AutoTagsDistinct(nodes);
    ExitTagsDistinct(UsableExits(u, exits));
    EntryKind();
    KindsApart(autos + [AUTO_ALL], {"au"}, [ENTRY], {"en"});
    assert autos + [AUTO_ALL] + [ENTRY] == autos + [AUTO_ALL, ENTRY] && {"au"} + {"en"} == {"au", "en"};
    ThreeFamilies(LeafTags(u, nodes, client), autos + [AUTO_ALL, ENTRY], Tags(ExitGroups(UsableExits(u, exits))));
  }

  lemma OneNodeTags(u: User, nodes: seq<Node>, exits: seq<Exit>, client: Client)
    requires |nodes| == 1
    ensures Distinct(Tags(Outbounds(u, nodes, exits, client))) <==>
            && Distinct(LeafTags(u, nodes, client))
            && Distinct(Tags(ExitGroups(UsableExits(u, exits))))
  {
    var leaves, entry, outs := FlatMap(NodeLeaves(u, client), nodes), EntryGroups(u, nodes, client),
                               ExitGroups(UsableExits(u, exits));
    TagsConcat(leaves, entry);
    TagsConcat(leaves + entry, outs);
    PushedLeaves(u, nodes, client);
    ExitTagsDistinct(UsableExits(u, exits));
    OneEntryTags(u, nodes, client);
    ThreeFamilies(Tags(leaves), Tags(entry), Tags(outs));
  }

  lemma PushedLeaves(u: User, nodes: seq<Node>, client: Client)
    requires |nodes| == 1
    ensures var pushed := Tags(FlatMap(NodeLeaves(u, client), nodes));
            && (Distinct(pushed) <==> Distinct(LeafTags(u, nodes, client)))
            && AllOfKinds(pushed, {"re", "xh", "hy"})
  {
    var pushed := Tags(FlatMap(NodeLeaves(u, client), nodes));
    LeafTagsPushed(u, nodes, client);
    SingleName(nodes);
    LeafTagsDistinct(u, nodes, client);
    DistinctPermutation(pushed, LeafTags(u, nodes, client));
    SameMembersKinds(LeafTags(u, nodes, client), pushed, {"re", "xh", "hy"});
  }

  lemma OneEntryTags(u: User, nodes: seq<Node>, client: Client)
    requires |nodes| == 1
    ensures var tags := Tags(EntryGroups(u, nodes, client)); Distinct(tags) && AllOfKinds(tags, {"au", "en"})
  {
    EntryKind();
    var tags := Tags(EntryGroups(u, nodes, client));
    assert tags == [AUTO, ENTRY] || tags == [ENTRY];
    KindsWider([ENTRY], {"en"}, {"au", "en"});
  }

  lemma SingleName(nodes: seq<Node>)
    requires |nodes| == 1
    ensures Distinct(Names(nodes))
  {
    assert Names(nodes)[1..] == [];
  }

  lemma NamesMembers(nodes: seq<Node>, tags: seq<string>)
    ensures Apart(tags, Names(nodes)) <==> forall n :: n in nodes ==> n.name !in tags
  {
    var names := Names(nodes);
    ApartMembers(tags, names);
    forall n | n in nodes ensures n.name in names {
      var i :| 0 <= i < |nodes| && nodes[i] == n;
      assert names[i] == n.name;
    }
    if forall n :: n in nodes ==> n.name !in tags {
      forall x | x in tags ensures x !in names {}
    }
  }

  /** The tags of a compiled profile are pairwise distinct exactly when the names are clean. */
  lemma TagsDistinctIffCleanNames(u: User, nodes: seq<Node>, suffix: string, exits: seq<Exit>,
                                  client: Client)
    ensures Distinct(Tags(Compile(u, nodes, suffix, exits, client).outbounds))
            <==> CleanNames(u, nodes, exits, client)
  {
    ExitTagsDistinct(UsableExits(u, exits));
    if |nodes| == 1 {
      SingleName(nodes);
      OneNodeTags(u, nodes, exits, client);
      LeafTagsDistinct(u, nodes, client);
    } else {
      var reserved := ReservedTags(u, nodes, exits, client);
      CleanNotReserved(u, nodes, exits, client);
      SeveralNodesTags(u, nodes, exits, client);
      DistinctPermutation(Tags(Outbounds(u, nodes, exits, client)), reserved + Names(nodes));
      DistinctConcat(reserved, Names(nodes));
      NamesMembers(nodes, reserved);
      if Distinct(Names(nodes)) {
        ReservedDistinct(u, nodes, exits, client);
        LeafTagsDistinct(u, nodes, client);
      }
    }
  }

  // ----- the label of an SNI

  /** `a` is a name without a full stop, alone or before one, and a `www.` in front of it does not count. */
  predicate NamedBy(sni: string, a: string) {
    '.' !in a && (sni == a || (a != "www" && a + "." <= sni) || sni == "www." + a || "www." + a + "." <= sni)
  }

  lemma FirstPiece(s: string, a: string)
    ensures Split(s, {'.'})[0] == a <==> '.' !in a && (s == a || a + "." <= s)
  {
    FirstPieceIs(s);
    if '.' !in a && (s == a || a + "." <= s) { PieceInFront(s, a); }
  }

  lemma FirstPieceIs(s: string)
    ensures var a := Split(s, {'.'})[0]; '.' !in a && (s == a || a + "." <= s)
  {
    var k := IndexOf(s, {'.'});
    if k < |s| { assert s[..k] + "." <= s; }
  }

  lemma PieceInFront(s: string, a: string)
    requires '.' !in a && (s == a || a + "." <= s)
    ensures Split(s, {'.'})[0] == a
  {
    if s == a {
      forall i | 0 <= i < |s| ensures s[i] != '.' { assert s[i] in s; }
    } else {
      SplitAtFirst(a, '.', s[|a| + 1..], {'.'});
      assert a + ['.'] + s[|a| + 1..] == s;
    }
  }

  lemma PrefixOfPrefix(p: string, q: string, s: string)
    ensures p + q <= s ==> p <= s
    ensures p <= s ==> (p + q <= s <==> q <= s[|p|..])
    ensures p <= s ==> (p + q == s <==> q == s[|p|..])
  {
    if p + q <= s { assert s[..|p|] == (p + q)[..|p|]; }
    if p <= s { assert s == p + s[|p|..]; }
  }

  lemma WwwStops(sni: string, a: string)
    requires "www." <= sni && '.' !in a && a + "." <= sni
    ensures a == "www"
  {
    FirstSeparator(a, sni[|a| + 1..], "www", sni[4..], '.');
    assert a + ['.'] + sni[|a| + 1..] == sni && "www" + ['.'] + sni[4..] == sni;
  }

  /** The label of an SNI is the one name it goes by. */
  lemma SniLabelIff(sni: string, a: string)
    ensures SniLabel(sni) == a <==> NamedBy(sni, a)
  {
    PrefixOfPrefix("www.", a, sni);
    PrefixOfPrefix("www.", a + ".", sni);
    assert "www." + (a + ".") == "www." + a + ".";
    if "www." <= sni {
      FirstPiece(sni[4..], a);
      if '.' !in a && a + "." <= sni { WwwStops(sni, a); }
      assert sni[3] == '.';
    } else {
      FirstPiece(sni, a);
    }
  }

  /** No name stands for two SNIs of a node. */
  ghost predicate LabelsApart(n: Node) {
    var snis := n.reality.serverNames;
    forall i, j, a :: 0 <= i < j < |snis| && NamedBy(snis[i], a) ==> !NamedBy(snis[j], a)
  }

  lemma LabelsApartIff(n: Node)
    ensures Distinct(Labels(n)) <==> LabelsApart(n)
  {
    var snis, labels := n.reality.serverNames, Labels(n);
    DistinctPairs(labels);
    if LabelsApart(n) {
      forall i, j | 0 <= i < j < |labels| ensures labels[i] != labels[j] {
        SniLabelIff(snis[i], labels[i]);
        SniLabelIff(snis[j], labels[i]);
        assert NamedBy(snis[i], labels[i]) && !NamedBy(snis[j], labels[i]);
      }
    }
    if Distinct(labels) {
      forall i, j, a | 0 <= i < j < |snis| && NamedBy(snis[i], a) ensures !NamedBy(snis[j], a) {
        SniLabelIff(snis[i], a);
        SniLabelIff(snis[j], a);
        assert labels[i] != labels[j];
      }
    }
  }

  // ----- names that are clean, and names that are not

  /** What the configuration is expected to look like: no hyphen in a node's name. */
  ghost predicate PlainNames(u: User, nodes: seq<Node>, exits: seq<Exit>) {
    && Distinct(Names(nodes)) && "all" !in Names(nodes)
    && (forall n :: n in nodes ==> '-' !in n.name && LabelsApart(n))
    && PortsDistinct(u, nodes)
    && Distinct(ExitNames(exits)) && "direct" !in ExitNames(exits) && "select" !in ExitNames(exits)
  }

  function Labels(n: Node): seq<string> {
    Map(SniLabel, n.reality.serverNames)
  }

  function Hyphenated(name: string): string -> string {
    lab => name + "-" + lab
  }

  lemma {:induction false} HyphenatedDistinct(name: string, labels: seq<string>)
    requires Distinct(labels)
    ensures Distinct(Map(Hyphenated(name), labels))
    ensures forall x :: x in Map(Hyphenated(name), labels) ==> exists l :: x == Hyphenated(name)(l)
  {
    if labels != [] {
      var f := Hyphenated(name);
      HyphenatedDistinct(name, labels[1..]);
      MapCons(f, labels);
      forall i | 0 <= i < |labels[1..]| ensures f(labels[1..][i]) != f(labels[0]) {
        assert f(labels[1..][i])[|name| + 1..] == labels[1..][i] && f(labels[0])[|name| + 1..] == labels[0];
      }
    }
  }

  lemma {:induction false} IdentityOwner(nodes: seq<Node>, name: string, lab: string)
    requires '-' !in name && forall n :: n in nodes ==> '-' !in n.name
    requires Hyphenated(name)(lab) in FlatMap(Identities(), nodes)
    ensures name in Names(nodes)
  {
    MapCons((n: Node) => n.name, nodes);
    var snis := nodes[0].reality.serverNames;
    if Hyphenated(name)(lab) in Identities()(nodes[0]) {
      var i :| 0 <= i < |snis| && Hyphenated(name)(lab) == Identity(nodes[0], snis[i]);
      FirstSeparator(name, lab, nodes[0].name, SniLabel(snis[i]), '-');
    } else {
      IdentityOwner(nodes[1..], name, lab);
    }
  }

  lemma {:induction false} PlainIdentities(nodes: seq<Node>)
    requires Distinct(Names(nodes))
    requires forall n :: n in nodes ==> '-' !in n.name && Distinct(Labels(n))
    ensures Distinct(FlatMap(Identities(), nodes))
  {
    if nodes != [] {
      var n, rest := nodes[0], nodes[1..];
      MapCons((n: Node) => n.name, nodes);
      PlainIdentities(rest);
      var here, others := Identities()(n), FlatMap(Identities(), rest);
      assert here == Map(Hyphenated(n.name), Labels(n));
      HyphenatedDistinct(n.name, Labels(n));
      DistinctConcat(here, others);
      ApartMembers(here, others);
      forall x | x in here ensures x !in others {
        var lab :| x == Hyphenated(n.name)(lab);
        if x in others { IdentityOwner(rest, n.name, lab); assert false; }
      }
    }
  }

  predicate AllHyphenated(tags: seq<string>) {
    tags == [] || ('-' in tags[0] && AllHyphenated(tags[1..]))
  }

  lemma {:induction false} HyphenOfMember(tags: seq<string>, tag: string)
    requires AllHyphenated(tags) && tag in tags
    ensures '-' in tag
  {
    if tag != tags[0] { HyphenOfMember(tags[1..], tag); }
  }

  lemma {:induction false} HyphenConcat(a: seq<string>, b: seq<string>)
    requires AllHyphenated(a) && AllHyphenated(b)
    ensures AllHyphenated(a + b)
  {
    if a == [] {
      assert a + b == b;
    } else {
      assert (a + b)[1..] == a[1..] + b;
      HyphenConcat(a[1..], b);
    }
  }

  lemma {:induction false} PrefixedHyphen(prefix: string, xs: seq<string>)
    requires '-' in prefix
    ensures AllHyphenated(Map(Prefixed(prefix), xs))
  {
    if xs != [] {
      MapCons(Prefixed(prefix), xs);
      PrefixedHyphen(prefix, xs[1..]);
    }
  }

  lemma {:induction false} LeafTagsHyphenated(u: User, nodes: seq<Node>, client: Client)
    ensures AllHyphenated(LeafTags(u, nodes, client))
  {
    if nodes != [] {
      var n := nodes[0];
      LeafTagsHyphenated(u, nodes[1..], client);
      assert Hy2Tags(u)(n) == Map(Prefixed("hy2-"), PortIds(u)(n));
      PrefixedHyphen("hy2-", PortIds(u)(n));
      assert RealityTags(u)(n) == Map(Prefixed("reality-"), Identities()(n));
      PrefixedHyphen("reality-", Identities()(n));
      assert XhttpTags(u, client)(n) == Map(Prefixed("xhttp-"), XhttpNames(client)(n));
      PrefixedHyphen("xhttp-", XhttpNames(client)(n));
      HyphenConcat(Hy2Tags(u)(n), RealityTags(u)(n));
      HyphenConcat(Hy2Tags(u)(n) + RealityTags(u)(n), XhttpTags(u, client)(n));
      HyphenConcat(Candidates(u, client)(n), LeafTags(u, nodes[1..], client));
    }
  }

  lemma ReservedHyphenated(u: User, nodes: seq<Node>, exits: seq<Exit>, client: Client)
    ensures AllHyphenated(ReservedTags(u, nodes, exits, client))
  {
    var usable := UsableExits(u, exits);
    LeafTagsHyphenated(u, nodes, client);
    assert Map(AutoTag, nodes) == Map(Prefixed("auto-"), Names(nodes));
    PrefixedHyphen("auto-", Names(nodes));
    assert AUTO_ALL[4] == '-' && ENTRY[5] == '-' && [AUTO_ALL, ENTRY][1..] == [ENTRY] && [ENTRY][1..] == [];
    HyphenConcat(Map(AutoTag, nodes), [AUTO_ALL, ENTRY]);
    if usable != [] {
      var all := ExitNames(usable) + ["direct", "select"];
      assert "exit-" + "direct" == DIRECT && "exit-" + "select" == EXIT;
      assert Tags(ExitGroups(usable)) == Map(Prefixed("exit-"), all);
      PrefixedHyphen("exit-", all);
    }
    HyphenConcat(LeafTags(u, nodes, client), Map(AutoTag, nodes) + [AUTO_ALL, ENTRY]);
    HyphenConcat(LeafTags(u, nodes, client) + (Map(AutoTag, nodes) + [AUTO_ALL, ENTRY]), Tags(ExitGroups(usable)));
  }

  lemma PlainNamesAreClean(u: User, nodes: seq<Node>, suffix: string, exits: seq<Exit>, client: Client)
    requires PlainNames(u, nodes, exits)
    ensures CleanNames(u, nodes, exits, client)
    ensures Distinct(Tags(Compile(u, nodes, suffix, exits, client).outbounds))
  {
    TagsDistinctIffCleanNames(u, nodes, suffix, exits, client);
    forall n | n in nodes ensures Distinct(Labels(n)) { LabelsApartIff(n); }
    PlainIdentities(nodes);
    ReservedHyphenated(u, nodes, exits, client);
    CleanNotReserved(u, nodes, exits, client);
    forall n | n in nodes ensures n.name !in ReservedTags(u, nodes, exits, client) {
      if n.name in ReservedTags(u, nodes, exits, client) {
        HyphenOfMember(ReservedTags(u, nodes, exits, client), n.name);
        assert false;
      }
    }
  }

  function NodeNamed(name: string, sni: string): Node {
    Node(name, "192.0.2.1", Hysteria(443, [], "sni.example", "", "", map[]), RealityKeys("", [sni], "", map[]), None)
  }

  lemma LabelOfHost(host: string)
    requires '.' !in host && host != [] && host[0] != 'w'
    ensures SniLabel(host + ".example") == host
  {
    var sni := host + ['.'] + "example";
    assert sni == host + ".example" && sni[0] != "www."[0];
    SplitAtFirst(host, '.', "example", {'.'});
  }

  lemma OneIdentity(n: Node, sni: string)
    requires n.reality.serverNames == [sni]
    ensures Identities()(n) == [Identity(n, sni)] && Distinct(Labels(n))
  {
    assert Labels(n)[1..] == [];
  }

  lemma TwiceIsNotDistinct<T>(x: T)
    ensures !Distinct([x, x])
  {
    assert [x, x][1..] == [x];
  }

  lemma FlatMapPair<A, B>(f: A -> seq<B>, x: A, y: A)
    ensures FlatMap(f, [x, y]) == f(x) + f(y)
  {
    assert [x, y][1..] == [y] && [y][1..] == [];
    assert FlatMap(f, [y]) == f(y) + FlatMap(f, []);
  }

  const HYPHENATED_NODE := NodeNamed("a-b", "c" + ".example")
  const PLAIN_NODE := NodeNamed("a", "b-c" + ".example")
  const CLASH := [HYPHENATED_NODE, PLAIN_NODE]

  lemma ClashIdentities()
    ensures FlatMap(Identities(), CLASH) == ["a-b-c", "a-b-c"]
    ensures Distinct(Labels(HYPHENATED_NODE)) && Distinct(Labels(PLAIN_NODE))
  {
    LabelOfHost("c");
    LabelOfHost("b-c");
    OneIdentity(HYPHENATED_NODE, "c" + ".example");
    OneIdentity(PLAIN_NODE, "b-c" + ".example");
    assert "a-b" + "-" + "c" == "a-b-c" && "a" + "-" + "b-c" == "a-b-c";
    FlatMapPair(Identities(), HYPHENATED_NODE, PLAIN_NODE);
  }

  /**
   * A hyphen in a name is enough to break a profile: `a-b` serving `c.example` and `a` serving
   * `b-c.example` are different nodes with different labels, and one tag.
   */
  lemma HyphenClash(u: User, suffix: string, exits: seq<Exit>, client: Client)
    ensures Distinct(Names(CLASH)) && Distinct(Labels(HYPHENATED_NODE)) && Distinct(Labels(PLAIN_NODE))
    ensures !Distinct(Tags(Compile(u, CLASH, suffix, exits, client).outbounds))
  {
    ClashIdentities();
    TwiceIsNotDistinct("a-b-c");
    TagsDistinctIffCleanNames(u, CLASH, suffix, exits, client);
    assert Names(CLASH)[1..] == ["a"] && ["a"][1..] == [] && |"a-b"| == 3;
  }
}
