/** The paths a compiled profile offers: every entry, with every egress, and nothing else. */
module ProfilePaths {
  import opened Prelude
  import opened Text
  import opened Roster
  import opened Profile
  import opened ProfileTags
  import opened ProfileGraph

  predicate IsEntry(u: User, nodes: seq<Node>, client: Client, o: Outbound) {
    o in FlatMap(NodeLeaves(u, client), nodes)
  }

  predicate IsExit(u: User, exits: seq<Exit>, o: Outbound) {
    o in Map(ExitLeaf, UsableExits(u, exits))
  }

  /** One entry leaf, with at most one exit in front of it. */
  predicate IsPath(u: User, nodes: seq<Node>, exits: seq<Exit>, client: Client, path: seq<Outbound>) {
    || (|path| == 1 && IsEntry(u, nodes, client, path[0]))
    || (|path| == 2 && IsExit(u, exits, path[0]) && IsEntry(u, nodes, client, path[1]))
  }

  lemma EntryGroupShape(u: User, nodes: seq<Node>, client: Client, o: Outbound)
    requires o in EntryGroups(u, nodes, client)
    ensures o.Group()
  {
    if |nodes| != 1 && o in FlatMap(NodeGroups(u, client), nodes) {
      var n := NodeGroupOf(u, nodes, client, o);
    }
  }

  lemma ExitGroupShape(exits: seq<Exit>, o: Outbound)
    requires o in ExitGroups(exits)
    ensures !o.Leaf() && (o.Shadowsocks? <==> o in Map(ExitLeaf, exits))
    ensures o.Shadowsocks? ==> o.detour == ENTRY
  {
    if o in Map(ExitLeaf, exits) {
      var i :| 0 <= i < |exits| && Map(ExitLeaf, exits)[i] == o;
    }
  }

  lemma Classify(u: User, nodes: seq<Node>, exits: seq<Exit>, client: Client, o: Outbound)
    requires o in Outbounds(u, nodes, exits, client)
    ensures o.Leaf() ==> IsEntry(u, nodes, client, o)
    ensures o.Shadowsocks? ==> IsExit(u, exits, o) && o.detour == ENTRY
    ensures o.Group() ==> o in EntryGroups(u, nodes, client) || o in ExitGroups(UsableExits(u, exits))
  {
    if o in FlatMap(NodeLeaves(u, client), nodes) {
      var n := LeavesAreLeaves(u, nodes, client, o);
    } else if o in EntryGroups(u, nodes, client) {
      EntryGroupShape(u, nodes, client, o);
    } else {
      ExitGroupShape(UsableExits(u, exits), o);
    }
  }

  lemma CleanIsSound(u: User, nodes: seq<Node>, exits: seq<Exit>, client: Client)
    requires CleanNames(u, nodes, exits, client)
    ensures Distinct(Tags(Outbounds(u, nodes, exits, client))) && Ranked(Outbounds(u, nodes, exits, client))
  {
    TagsDistinctIffCleanNames(u, nodes, "", exits, client);
    OutboundsRanked(u, nodes, exits, client);
  }

  // ----- termination

  lemma EntryResolves(u: User, nodes: seq<Node>, exits: seq<Exit>, client: Client, c: Choice, fuel: nat)
    requires CleanNames(u, nodes, exits, client)
    requires ValidChoice(Outbounds(u, nodes, exits, client), c) && fuel >= 4
    ensures var r := Resolve(Outbounds(u, nodes, exits, client), c, ENTRY, fuel);
            r.Some? && |r.value| == 1 && IsEntry(u, nodes, client, r.value[0])
  {
    var outs := Outbounds(u, nodes, exits, client);
    CleanIsSound(u, nodes, exits, client);
    var entry := EntryPickerIn(u, nodes, client);
    EntrySide(outs, c, entry, fuel);
    Classify(u, nodes, exits, client, Resolve(outs, c, ENTRY, fuel).value[0]);
  }

  lemma FinalIn(u: User, nodes: seq<Node>, exits: seq<Exit>, client: Client) returns (o: Outbound)
    ensures o in Outbounds(u, nodes, exits, client) && o.tag == Final(u, exits) && Rank(o) <= 5
  {
    var groups := ExitGroups(UsableExits(u, exits));
    if groups == [] {
      o := EntryPickerIn(u, nodes, client);
    } else {
      o := groups[|groups| - 1];
    }
  }

  /** However the groups are set, a flow from `route.final` reaches one entry within six steps. */
  lemma FinalResolves(u: User, nodes: seq<Node>, suffix: string, exits: seq<Exit>, client: Client,
                      c: Choice, fuel: nat)
    requires CleanNames(u, nodes, exits, client)
    requires ValidChoice(Compile(u, nodes, suffix, exits, client).outbounds, c) && fuel >= 6
    ensures var p := Compile(u, nodes, suffix, exits, client);
            var r := Resolve(p.outbounds, c, p.final, fuel);
            r.Some? && IsPath(u, nodes, exits, client, r.value)
  {
    var outs := Outbounds(u, nodes, exits, client);
    CleanIsSound(u, nodes, exits, client);
    var final := FinalIn(u, nodes, exits, client);
    forall s | s in outs && s.Shadowsocks? ensures s.detour == ENTRY { Classify(u, nodes, exits, client, s); }
    AnySide(outs, c, final, fuel);
    var path := Resolve(outs, c, final.tag, fuel).value;
    Classify(u, nodes, exits, client, path[0]);
    if |path| == 2 { Classify(u, nodes, exits, client, path[1]); }
  }

  // ----- the two axes

  /** What the exit picker shows: the gateway itself, or one exit. */
  function EgressTag(egress: Option<Exit>): string {
    if egress.Some? then ExitTag(egress.value) else DIRECT
  }

  function Hop(egress: Option<Exit>): seq<Outbound> {
    if egress.Some? then [ExitLeaf(egress.value)] else []
  }

  lemma ExitPickerIn(u: User, nodes: seq<Node>, exits: seq<Exit>, client: Client) returns (o: Outbound)
    requires UsableExits(u, exits) != []
    ensures o == Selector(EXIT, [DIRECT] + Map(ExitTag, UsableExits(u, exits)), Some(DIRECT))
    ensures o in Outbounds(u, nodes, exits, client) && Rank(o) == 5
  {
    o := LastExitGroup(UsableExits(u, exits));
    assert o.members[0] == DIRECT;
  }

  lemma LastExitGroup(exits: seq<Exit>) returns (o: Outbound)
    requires exits != []
    ensures o == Selector(EXIT, [DIRECT] + Map(ExitTag, exits), Some(DIRECT)) && o in ExitGroups(exits)
  {
    var groups := ExitGroups(exits);
    o := groups[|groups| - 1];
  }

  lemma EgressIn(u: User, nodes: seq<Node>, exits: seq<Exit>, client: Client, egress: Option<Exit>) returns (o: Outbound)
    requires UsableExits(u, exits) != []
    requires egress.Some? ==> egress.value in UsableExits(u, exits)
    ensures o in Outbounds(u, nodes, exits, client) && o.tag == EgressTag(egress)
    ensures o == if egress.Some? then ExitLeaf(egress.value) else Selector(DIRECT, [ENTRY], Some(ENTRY))
    ensures EgressTag(egress) in [DIRECT] + Map(ExitTag, UsableExits(u, exits))
  {
    var usable, groups := UsableExits(u, exits), ExitGroups(UsableExits(u, exits));
    if egress.Some? {
      var i :| 0 <= i < |usable| && usable[i] == egress.value;
      o := groups[i];
      assert Map(ExitTag, usable)[i] == o.tag;
    } else {
      o := groups[|usable|];
    }
  }

  /**
   * Entry and egress compose freely: setting the exit picker leaves the entry the flow would
   * take untouched, and puts exactly the chosen exit in front of it.
   */
  lemma AxesIndependent(u: User, nodes: seq<Node>, exits: seq<Exit>, client: Client, c: Choice, egress: Option<Exit>,
                        fuel: nat)
    requires fuel >= 4
    requires CleanNames(u, nodes, exits, client) && UsableExits(u, exits) != []
    requires ValidChoice(Outbounds(u, nodes, exits, client), c)
    requires egress.Some? ==> egress.value in UsableExits(u, exits)
    ensures var outs := Outbounds(u, nodes, exits, client);
            var d := c[EXIT := EgressTag(egress)];
            && ValidChoice(outs, d)
            && Resolve(outs, d, ENTRY, fuel) == Resolve(outs, c, ENTRY, fuel)
            && Resolve(outs, c, ENTRY, fuel).Some?
            && Resolve(outs, d, EXIT, fuel + 2) == Some(Hop(egress) + Resolve(outs, c, ENTRY, fuel).value)
  {
    var outs := Outbounds(u, nodes, exits, client);
    CleanIsSound(u, nodes, exits, client);
    var picker := ExitPickerIn(u, nodes, exits, client);
    var hop := EgressIn(u, nodes, exits, client, egress);
    var entry := EntryPickerIn(u, nodes, client);
    Compose(outs, c, egress, picker, hop, entry, fuel);
  }

  /** The same over any graph with the two pickers in it. */
  lemma Compose(outs: seq<Outbound>, c: Choice, egress: Option<Exit>, picker: Outbound, hop: Outbound,
                entry: Outbound, fuel: nat)
    requires fuel >= 4
    requires Distinct(Tags(outs)) && Ranked(outs) && ValidChoice(outs, c)
    requires picker in outs && hop in outs && entry in outs
    requires picker.Selector? && picker.tag == EXIT && Rank(picker) == 5 && EgressTag(egress) in picker.members
    requires hop.tag == EgressTag(egress)
    requires hop == if egress.Some? then ExitLeaf(egress.value) else Selector(DIRECT, [ENTRY], Some(ENTRY))
    requires entry.Selector? && entry.tag == ENTRY && Rank(entry) == 3
    ensures var d := c[EXIT := EgressTag(egress)];
            && ValidChoice(outs, d)
            && Resolve(outs, d, ENTRY, fuel) == Resolve(outs, c, ENTRY, fuel)
            && Resolve(outs, c, ENTRY, fuel).Some?
            && Resolve(outs, d, EXIT, fuel + 2) == Some(Hop(egress) + Resolve(outs, c, ENTRY, fuel).value)
  {
    var d := c[EXIT := EgressTag(egress)];
    FindOnly(outs, picker);
    FindOnly(outs, hop);
    forall o | o in outs && o.Group() ensures o.tag in d && d[o.tag] in o.members { FindOnly(outs, o); }
    forall o | o in outs && o.tag == EXIT ensures Rank(o) == 5 { FindOnly(outs, o); }
    EntryIgnoresExit(outs, c, d, entry, fuel);
    EntrySide(outs, d, entry, fuel);
    EgressSteps(outs, d, egress, picker, hop, fuel);
  }

  lemma EgressSteps(outs: seq<Outbound>, d: Choice, egress: Option<Exit>, picker: Outbound, hop: Outbound, fuel: nat)
    requires fuel >= 4
    requires Find(outs, EXIT) == Some(picker) && picker.Selector? && EXIT in d
    requires d[EXIT] == EgressTag(egress) && EgressTag(egress) in picker.members
    requires Find(outs, EgressTag(egress)) == Some(hop)
    requires hop == if egress.Some? then ExitLeaf(egress.value) else Selector(DIRECT, [ENTRY], Some(ENTRY))
    requires egress.None? ==> DIRECT in d && d[DIRECT] == ENTRY
    requires Resolve(outs, d, ENTRY, fuel).Some?
    ensures Resolve(outs, d, EXIT, fuel + 2) == Some(Hop(egress) + Resolve(outs, d, ENTRY, fuel).value)
  {
    assert Resolve(outs, d, EXIT, fuel + 2) == Resolve(outs, d, EgressTag(egress), fuel + 1);
    if egress.None? {
      assert Resolve(outs, d, DIRECT, fuel + 1) == Resolve(outs, d, ENTRY, fuel);
      assert Hop(egress) + Resolve(outs, d, ENTRY, fuel).value == Resolve(outs, d, ENTRY, fuel).value;
    } else {
      assert Resolve(outs, d, ExitTag(egress.value), fuel + 1)
             == match Resolve(outs, d, ENTRY, fuel) case None => None case Some(rest) => Some([hop] + rest);
    }
  }

  // ----- reachability

  predicate IsGroup(outs: seq<Outbound>, tag: string) {
    var o := Find(outs, tag);
    o.Some? && o.value.Group()
  }

  /** Every group set as wished where that is possible, and to its first member elsewhere. */
  function Settle(outs: seq<Outbound>, wish: Choice): Choice {
    map t | t in Tags(outs) && IsGroup(outs, t) ::
      var m := Find(outs, t).value.members;
      if t in wish && wish[t] in m then wish[t] else if m != [] then m[0] else ""
  }

  predicate NoEmptyGroup(outs: seq<Outbound>) {
    forall o :: o in outs && o.Group() ==> o.members != []
  }

  lemma SettleValid(outs: seq<Outbound>, wish: Choice)
    requires Distinct(Tags(outs)) && NoEmptyGroup(outs)
    ensures ValidChoice(outs, Settle(outs, wish))
    ensures forall o :: o in outs && o.Group() && o.tag in wish && wish[o.tag] in o.members
                        ==> Settle(outs, wish)[o.tag] == wish[o.tag]
  {
    forall o | o in outs && o.Group()
      ensures o.tag in Settle(outs, wish) && Settle(outs, wish)[o.tag] in o.members
      ensures o.tag in wish && wish[o.tag] in o.members ==> Settle(outs, wish)[o.tag] == wish[o.tag]
    {
      FindOnly(outs, o);
      TagMember(outs, o);
    }
  }

  predicate AllServe(nodes: seq<Node>) {
    nodes != [] && forall n :: n in nodes ==> n.reality.serverNames != []
  }

  lemma ServingCandidates(u: User, client: Client, n: Node)
    requires n.reality.serverNames != []
    ensures Candidates(u, client)(n) != []
  {
    assert |Tags(Map(RealityLeaf(u, n), n.reality.serverNames))| > 0;
  }

  lemma GroupsNonEmpty(u: User, nodes: seq<Node>, exits: seq<Exit>, client: Client)
    requires AllServe(nodes)
    ensures NoEmptyGroup(Outbounds(u, nodes, exits, client))
  {
    forall o | o in Outbounds(u, nodes, exits, client) && o.Group() ensures o.members != [] {
      Classify(u, nodes, exits, client, o);
      if o in EntryGroups(u, nodes, client) {
        EntryGroupMembers(u, nodes, client, o);
      } else {
        ExitGroupMembers(UsableExits(u, exits), o);
      }
    }
  }

  lemma ExitGroupMembers(exits: seq<Exit>, o: Outbound)
    requires o in ExitGroups(exits) && o.Group()
    ensures o.members != []
  {}

  lemma EntryGroupMembers(u: User, nodes: seq<Node>, client: Client, o: Outbound)
    requires AllServe(nodes) && o in EntryGroups(u, nodes, client)
    ensures o.Group() && o.members != []
  {
    ServingCandidates(u, client, nodes[0]);
    if |nodes| != 1 && o in FlatMap(NodeGroups(u, client), nodes) {
      var n := NodeGroupOf(u, nodes, client, o);
      ServingCandidates(u, client, n);
      NodeGroupIs(u, client, n, o);
    }
  }

  /** Any entry leaf can be reached by setting the entry pickers. */
  lemma EntryReachable(u: User, nodes: seq<Node>, exits: seq<Exit>, client: Client,
                       leaf: Outbound, fuel: nat) returns (c: Choice)
    requires fuel >= 4
    requires CleanNames(u, nodes, exits, client) && AllServe(nodes) && IsEntry(u, nodes, client, leaf)
    ensures ValidChoice(Outbounds(u, nodes, exits, client), c)
    ensures Resolve(Outbounds(u, nodes, exits, client), c, ENTRY, fuel) == Some([leaf])
  {
    CleanIsSound(u, nodes, exits, client);
    GroupsNonEmpty(u, nodes, exits, client);
    var n := LeavesAreLeaves(u, nodes, client, leaf);
    if |nodes| == 1 {
      c := LeafOfOnlyNode(u, nodes, exits, client, leaf, fuel);
    } else {
      PickersReserved(u, nodes, exits, client);
      c := LeafOfNode(u, nodes, exits, client, n, leaf, fuel);
    }
  }

  lemma LeafOfOnlyNode(u: User, nodes: seq<Node>, exits: seq<Exit>, client: Client,
                       leaf: Outbound, fuel: nat) returns (c: Choice)
    requires fuel >= 4
    requires var outs := Outbounds(u, nodes, exits, client); Distinct(Tags(outs)) && NoEmptyGroup(outs)
    requires |nodes| == 1 && leaf in Outbounds(u, nodes, exits, client)
    requires leaf.Leaf() && leaf.tag in Candidates(u, client)(nodes[0])
    ensures ValidChoice(Outbounds(u, nodes, exits, client), c)
    ensures Resolve(Outbounds(u, nodes, exits, client), c, ENTRY, fuel) == Some([leaf])
  {
    var outs := Outbounds(u, nodes, exits, client);
    var entry := EntryPickerIn(u, nodes, client);
    var wish := map[ENTRY := leaf.tag];
    assert entry in outs && leaf.tag in entry.members;
    c := Settle(outs, wish);
    SettleValid(outs, wish);
    FindOnly(outs, entry);
    FindOnly(outs, leaf);
    OneHop(outs, c, leaf, fuel);
  }

  lemma LeafOfNode(u: User, nodes: seq<Node>, exits: seq<Exit>, client: Client, n: Node,
                   leaf: Outbound, fuel: nat) returns (c: Choice)
    requires fuel >= 4
    requires var outs := Outbounds(u, nodes, exits, client); Distinct(Tags(outs)) && NoEmptyGroup(outs)
    requires |nodes| != 1 && n in nodes && n.name != ENTRY && leaf in Outbounds(u, nodes, exits, client)
    requires leaf.Leaf() && leaf.tag in Candidates(u, client)(n)
    ensures ValidChoice(Outbounds(u, nodes, exits, client), c)
    ensures Resolve(Outbounds(u, nodes, exits, client), c, ENTRY, fuel) == Some([leaf])
  {
    var outs := Outbounds(u, nodes, exits, client);
    var entry := EntryPickerIn(u, nodes, client);
    var group := NodeGroups(u, client)(n)[1];
    NodeGroupIn(u, nodes, client, n);
    assert group in EntryGroups(u, nodes, client);
    NameIn(nodes, n);
    c := Drill(outs, entry, group, leaf, fuel);
  }

  lemma NameIn(nodes: seq<Node>, n: Node)
    requires n in nodes
    ensures n.name in Names(nodes)
  {
    var i :| 0 <= i < |nodes| && nodes[i] == n;
    assert Names(nodes)[i] == n.name;
  }

  lemma Drill(outs: seq<Outbound>, entry: Outbound, group: Outbound, leaf: Outbound, fuel: nat) returns (c: Choice)
    requires fuel >= 4
    requires Distinct(Tags(outs)) && NoEmptyGroup(outs)
    requires entry in outs && group in outs && leaf in outs
    requires entry.Group() && group.Group() && leaf.Leaf() && entry.tag != group.tag
    requires group.tag in entry.members && leaf.tag in group.members
    ensures ValidChoice(outs, c)
    ensures Resolve(outs, c, entry.tag, fuel) == Some([leaf])
  {
    var wish := map[entry.tag := group.tag, group.tag := leaf.tag];
    c := Settle(outs, wish);
    SettleValid(outs, wish);
    FindOnly(outs, entry);
    FindOnly(outs, group);
    FindOnly(outs, leaf);
    TwoHops(outs, c, entry, group, leaf, fuel);
  }

  lemma OneHop(outs: seq<Outbound>, c: Choice, leaf: Outbound, fuel: nat)
    requires fuel >= 2 && leaf.Leaf() && Find(outs, leaf.tag) == Some(leaf)
    requires IsGroup(outs, ENTRY) && ENTRY in c && c[ENTRY] == leaf.tag && leaf.tag in Find(outs, ENTRY).value.members
    ensures Resolve(outs, c, ENTRY, fuel) == Some([leaf])
  {
    assert Resolve(outs, c, ENTRY, fuel) == Resolve(outs, c, leaf.tag, fuel - 1);
  }

  lemma TwoHops(outs: seq<Outbound>, c: Choice, entry: Outbound, group: Outbound, leaf: Outbound, fuel: nat)
    requires fuel >= 4
    requires entry.Group() && group.Group() && leaf.Leaf()
    requires Find(outs, entry.tag) == Some(entry) && Find(outs, group.tag) == Some(group)
    requires Find(outs, leaf.tag) == Some(leaf)
    requires entry.tag in c && c[entry.tag] == group.tag && group.tag in entry.members
    requires group.tag in c && c[group.tag] == leaf.tag && leaf.tag in group.members
    ensures Resolve(outs, c, entry.tag, fuel) == Some([leaf])
  {
    assert Resolve(outs, c, entry.tag, fuel) == Resolve(outs, c, group.tag, fuel - 1);
    assert Resolve(outs, c, group.tag, fuel - 1) == Resolve(outs, c, leaf.tag, fuel - 2);
  }

  /** Some setting of the groups sends a flow that no rule claims along `path`. */
  ghost predicate Reachable(p: Profile, path: seq<Outbound>, fuel: nat) {
    exists c: Choice :: ValidChoice(p.outbounds, c) && Resolve(p.outbounds, c, p.final, fuel) == Some(path)
  }

  lemma ReachableWitness(p: Profile, c: Choice, path: seq<Outbound>, fuel: nat)
    requires ValidChoice(p.outbounds, c) && Resolve(p.outbounds, c, p.final, fuel) == Some(path)
    ensures Reachable(p, path, fuel)
  {}

  lemma ReachableChoice(p: Profile, path: seq<Outbound>, fuel: nat) returns (c: Choice)
    requires Reachable(p, path, fuel)
    ensures ValidChoice(p.outbounds, c) && Resolve(p.outbounds, c, p.final, fuel) == Some(path)
  {
    c :| ValidChoice(p.outbounds, c) && Resolve(p.outbounds, c, p.final, fuel) == Some(path);
  }

  /** The paths some setting of the groups reaches are exactly entry × (direct or exit). */
  lemma ReachableIffPath(u: User, nodes: seq<Node>, suffix: string, exits: seq<Exit>, client: Client,
                         path: seq<Outbound>, fuel: nat)
    requires fuel >= 6
    requires CleanNames(u, nodes, exits, client) && AllServe(nodes)
    ensures Reachable(Compile(u, nodes, suffix, exits, client), path, fuel) <==> IsPath(u, nodes, exits, client, path)
  {
    var p := Compile(u, nodes, suffix, exits, client);
    if Reachable(p, path, fuel) {
      var c := ReachableChoice(p, path, fuel);
      FinalResolves(u, nodes, suffix, exits, client, c, fuel);
    } else if IsPath(u, nodes, exits, client, path) {
      var c := PathReachable(u, nodes, exits, client, path, fuel - 2);
      ReachableWitness(p, c, path, fuel);
      assert false;
    }
  }

  lemma FinalIs(u: User, nodes: seq<Node>, exits: seq<Exit>, client: Client, c: Choice, final: string,
                path: seq<Outbound>, fuel: nat)
    requires final == if UsableExits(u, exits) != [] then EXIT else ENTRY
    requires Resolve(Outbounds(u, nodes, exits, client), c, final, fuel + 2) == Some(path)
    ensures Resolve(Outbounds(u, nodes, exits, client), c, Final(u, exits), fuel + 2) == Some(path)
  {}

  /** The leaf a path ends in, and the exit in front of it if there is one. */
  lemma PathParts(u: User, nodes: seq<Node>, exits: seq<Exit>, client: Client, path: seq<Outbound>)
    returns (egress: Option<Exit>, leaf: Outbound)
    requires IsPath(u, nodes, exits, client, path)
    ensures IsEntry(u, nodes, client, leaf) && path == Hop(egress) + [leaf]
    ensures egress.Some? ==> egress.value in UsableExits(u, exits)
    ensures UsableExits(u, exits) == [] ==> path == [leaf]
  {
    leaf := path[|path| - 1];
    egress := EgressOf(UsableExits(u, exits), path);
  }

  lemma PathReachable(u: User, nodes: seq<Node>, exits: seq<Exit>, client: Client,
                      path: seq<Outbound>, fuel: nat) returns (c: Choice)
    requires fuel >= 4
    requires CleanNames(u, nodes, exits, client) && AllServe(nodes) && IsPath(u, nodes, exits, client, path)
    ensures ValidChoice(Outbounds(u, nodes, exits, client), c)
    ensures Resolve(Outbounds(u, nodes, exits, client), c, Final(u, exits), fuel + 2) == Some(path)
  {
    var egress, leaf := PathParts(u, nodes, exits, client, path);
    var entry := EntryReachable(u, nodes, exits, client, leaf, fuel);
    if UsableExits(u, exits) == [] {
      PathAtGateway(u, nodes, exits, client, entry, fuel);
      FinalIs(u, nodes, exits, client, entry, ENTRY, path, fuel);
      c := entry;
    } else {
      c := PathBeyond(u, nodes, exits, client, entry, egress, leaf, fuel);
      FinalIs(u, nodes, exits, client, c, EXIT, path, fuel);
    }
  }

  lemma PathBeyond(u: User, nodes: seq<Node>, exits: seq<Exit>, client: Client, c: Choice, egress: Option<Exit>,
                   leaf: Outbound, fuel: nat) returns (d: Choice)
    requires fuel >= 4
    requires CleanNames(u, nodes, exits, client) && ValidChoice(Outbounds(u, nodes, exits, client), c)
    requires UsableExits(u, exits) != [] && (egress.Some? ==> egress.value in UsableExits(u, exits))
    requires Resolve(Outbounds(u, nodes, exits, client), c, ENTRY, fuel) == Some([leaf])
    ensures ValidChoice(Outbounds(u, nodes, exits, client), d)
    ensures Resolve(Outbounds(u, nodes, exits, client), d, EXIT, fuel + 2) == Some(Hop(egress) + [leaf])
  {
    AxesIndependent(u, nodes, exits, client, c, egress, fuel);
    d := c[EXIT := EgressTag(egress)];
  }

  lemma PathAtGateway(u: User, nodes: seq<Node>, exits: seq<Exit>, client: Client, c: Choice, fuel: nat)
    requires fuel >= 4
    requires CleanNames(u, nodes, exits, client) && ValidChoice(Outbounds(u, nodes, exits, client), c)
    ensures var outs := Outbounds(u, nodes, exits, client); Resolve(outs, c, ENTRY, fuel + 2) == Resolve(outs, c, ENTRY, fuel)
  {
    CleanIsSound(u, nodes, exits, client);
    var entry := EntryPickerIn(u, nodes, client);
    MoreFuel(Outbounds(u, nodes, exits, client), c, entry, fuel);
  }

  lemma MoreFuel(outs: seq<Outbound>, c: Choice, entry: Outbound, fuel: nat)
    requires fuel >= 4
    requires Distinct(Tags(outs)) && Ranked(outs) && ValidChoice(outs, c)
    requires entry in outs && Rank(entry) == 3
    ensures Resolve(outs, c, entry.tag, fuel + 2) == Resolve(outs, c, entry.tag, fuel)
  {
    EntrySide(outs, c, entry, fuel + 2);
    EntrySide(outs, c, entry, fuel);
  }

  lemma EgressOf(usable: seq<Exit>, path: seq<Outbound>) returns (egress: Option<Exit>)
    requires |path| == 1 || (|path| == 2 && path[0] in Map(ExitLeaf, usable))
    ensures egress.Some? ==> egress.value in usable
    ensures Hop(egress) + [path[|path| - 1]] == path
  {
    egress := None;
    if |path| == 2 {
      var i :| 0 <= i < |usable| && Map(ExitLeaf, usable)[i] == path[0];
      egress := Some(usable[i]);
    }
  }
}
