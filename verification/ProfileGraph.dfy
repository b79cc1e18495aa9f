/** What a profile's outbounds mean: the path a flow takes under every setting of its groups. */
module ProfileGraph {
  import opened Prelude
  import opened Text
  import opened Roster
  import opened Profile
  import opened ProfileTags

  // ----- semantics

  /** The outbound a tag names. */
  function Find(outs: seq<Outbound>, tag: string): Option<Outbound> {
    if outs == [] then None
    else if outs[0].tag == tag then Some(outs[0])
    else Find(outs[1..], tag)
  }

  /** The member every group is currently set to: by hand for a selector, by probing for a urltest. */
  type Choice = map<string, string>

  predicate ValidChoice(outs: seq<Outbound>, c: Choice) {
    forall o :: o in outs && o.Group() ==> o.tag in c && c[o.tag] in o.members
  }

  /** The proxies a flow sent to `tag` crosses, last hop first; nothing when it gets stuck. */
  function Resolve(outs: seq<Outbound>, c: Choice, tag: string, fuel: nat): Option<seq<Outbound>>
    decreases fuel
  {
    if fuel == 0 then None
    else
      match Find(outs, tag)
      case None => None
      case Some(o) =>
        if o.Leaf() then Some([o])
        else if o.Shadowsocks? then
          match Resolve(outs, c, o.detour, fuel - 1)
          case None => None
          case Some(rest) => Some([o] + rest)
        else if tag in c && c[tag] in o.members then Resolve(outs, c, c[tag], fuel - 1)
        else None
  }

  function Refs(o: Outbound): seq<string> {
    if o.Shadowsocks? then [o.detour] else if o.Group() then o.members else []
  }

  /** Leaves, node urltests, node groups, the entry picker, egresses, the exit picker. */
  function Rank(o: Outbound): nat {
    if o.Leaf() then 0
    else if o.UrlTest? then 1
    else if o.Shadowsocks? then 4
    else if o.tag == ENTRY then 3
    else if o.members == [ENTRY] then 4
    else if First(o.members) == Some(DIRECT) then 5
    else 2
  }

  predicate NamesBelow(outs: seq<Outbound>, tag: string, rank: nat) {
    exists o :: o in outs && o.tag == tag && Rank(o) < rank
  }

  /** Every reference names an outbound of lower rank, so it is defined and leads nowhere back. */
  predicate Ranked(outs: seq<Outbound>) {
    forall o, t :: o in outs && t in Refs(o) ==> NamesBelow(outs, t, Rank(o))
  }

  // ----- what follows from ranks alone

  lemma {:induction false} FindOnly(outs: seq<Outbound>, o: Outbound)
    requires Distinct(Tags(outs)) && o in outs
    ensures Find(outs, o.tag) == Some(o)
  {
    MapCons((p: Outbound) => p.tag, outs);
    if o != outs[0] {
      var i :| 0 <= i < |outs[1..]| && outs[1..][i] == o;
      assert Tags(outs[1..])[i] == o.tag;
      FindOnly(outs[1..], o);
    }
  }

  predicate EntryPath(outs: seq<Outbound>, r: Option<seq<Outbound>>) {
    r.Some? && |r.value| == 1 && r.value[0] in outs && r.value[0].Leaf()
  }

  predicate ExitPath(outs: seq<Outbound>, r: Option<seq<Outbound>>) {
    r.Some? && |r.value| == 2 && r.value[0] in outs && r.value[0].Shadowsocks?
    && r.value[1] in outs && r.value[1].Leaf()
  }

  /** Up to the entry picker, every choice leads to one leaf in at most `Rank + 1` steps. */
  lemma {:induction false} EntrySide(outs: seq<Outbound>, c: Choice, o: Outbound, fuel: nat)
    requires Distinct(Tags(outs)) && Ranked(outs) && ValidChoice(outs, c)
    requires o in outs && Rank(o) <= 3 && fuel > Rank(o)
    ensures EntryPath(outs, Resolve(outs, c, o.tag, fuel))
    ensures Resolve(outs, c, o.tag, fuel) == Resolve(outs, c, o.tag, Rank(o) + 1)
    decreases Rank(o)
  {
    FindOnly(outs, o);
    if o.Group() {
      assert c[o.tag] in Refs(o) && NamesBelow(outs, c[o.tag], Rank(o));
      var next :| next in outs && next.tag == c[o.tag] && Rank(next) < Rank(o);
      EntrySide(outs, c, next, fuel - 1);
      EntrySide(outs, c, next, Rank(o));
    }
  }

  lemma {:induction false} AnySide(outs: seq<Outbound>, c: Choice, o: Outbound, fuel: nat)
    requires Distinct(Tags(outs)) && Ranked(outs) && ValidChoice(outs, c)
    requires forall s :: s in outs && s.Shadowsocks? ==> s.detour == ENTRY
    requires o in outs && fuel > Rank(o)
    ensures var r := Resolve(outs, c, o.tag, fuel); EntryPath(outs, r) || ExitPath(outs, r)
    decreases Rank(o)
  {
    if Rank(o) <= 3 {
      EntrySide(outs, c, o, fuel);
    } else {
      FindOnly(outs, o);
      var step := if o.Group() then c[o.tag] else o.detour;
      assert step in Refs(o) && NamesBelow(outs, step, Rank(o));
      var next :| next in outs && next.tag == step && Rank(next) < Rank(o);
      if o.Shadowsocks? {
        assert Rank(next) <= 3;
        EntrySide(outs, c, next, fuel - 1);
      } else {
        AnySide(outs, c, next, fuel - 1);
      }
    }
  }

  /** The setting of the exit picker plays no part below it. */
  lemma {:induction false} EntryIgnoresExit(outs: seq<Outbound>, c: Choice, d: Choice, o: Outbound, fuel: nat)
    requires Distinct(Tags(outs)) && Ranked(outs) && ValidChoice(outs, c)
    requires forall p :: p in outs && p.tag == EXIT ==> Rank(p) == 5
    requires forall t :: t != EXIT ==> (t in c <==> t in d) && (t in c ==> c[t] == d[t])
    requires o in outs && Rank(o) <= 3
    ensures Resolve(outs, c, o.tag, fuel) == Resolve(outs, d, o.tag, fuel)
    decreases fuel
  {
    FindOnly(outs, o);
    if fuel > 0 && o.Group() {
      assert c[o.tag] in Refs(o) && NamesBelow(outs, c[o.tag], Rank(o));
      var next :| next in outs && next.tag == c[o.tag] && Rank(next) < Rank(o);
      EntryIgnoresExit(outs, c, d, next, fuel - 1);
    }
  }

  // ----- a compiled profile is ranked

  lemma NodeLeavesAre(u: User, client: Client, n: Node, o: Outbound)
    requires o in NodeLeaves(u, client)(n)
    ensures o.Leaf() && o.tag in Candidates(u, client)(n)
  {
    var r, x, h := Map(RealityLeaf(u, n), n.reality.serverNames), XhttpLeaves(u, n, client), Hy2Leaves(u, n);
    TagMember(r, o);
    TagMember(x, o);
    TagMember(h, o);
  }

  lemma TagMember(outs: seq<Outbound>, o: Outbound)
    ensures o in outs ==> o.tag in Tags(outs)
  {
    if o in outs {
      var i :| 0 <= i < |outs| && outs[i] == o;
      assert Tags(outs)[i] == o.tag;
    }
  }

  lemma TagOwner(outs: seq<Outbound>, tag: string) returns (o: Outbound)
    requires tag in Tags(outs)
    ensures o in outs && o.tag == tag
  {
    var i :| 0 <= i < |outs| && Tags(outs)[i] == tag;
    o := outs[i];
  }

  lemma CandidateLeaf(u: User, nodes: seq<Node>, client: Client, n: Node, tag: string) returns (o: Outbound)
    requires n in nodes && tag in Candidates(u, client)(n)
    ensures o.tag == tag && o.Leaf() && o in FlatMap(NodeLeaves(u, client), nodes)
  {
    var r, x, h := Map(RealityLeaf(u, n), n.reality.serverNames), XhttpLeaves(u, n, client), Hy2Leaves(u, n);
    if tag in Tags(h) {
      o := TagOwner(h, tag);
    } else if tag in Tags(r) {
      o := TagOwner(r, tag);
    } else {
      o := TagOwner(x, tag);
    }
    assert o in NodeLeaves(u, client)(n);
    NodeLeavesAre(u, client, n, o);
    FlatMapMember(NodeLeaves(u, client), nodes, o);
  }

  lemma LeavesAreLeaves(u: User, nodes: seq<Node>, client: Client, o: Outbound) returns (n: Node)
    requires o in FlatMap(NodeLeaves(u, client), nodes)
    ensures o.Leaf() && n in nodes && o in NodeLeaves(u, client)(n) && o.tag in Candidates(u, client)(n)
  {
    n := NodeLeafOf(u, nodes, client, o);
    NodeLeavesAre(u, client, n, o);
  }

  /** The node a leaf belongs to. */
  lemma NodeLeafOf(u: User, nodes: seq<Node>, client: Client, o: Outbound) returns (n: Node)
    requires o in FlatMap(NodeLeaves(u, client), nodes)
    ensures n in nodes && o in NodeLeaves(u, client)(n)
  {
    FlatMapMember(NodeLeaves(u, client), nodes, o);
    var i :| 0 <= i < |nodes| && o in NodeLeaves(u, client)(nodes[i]);
    n := nodes[i];
  }

  lemma XhttpLeafOf(u: User, client: Client, n: Node, o: Outbound)
    requires o in NodeLeaves(u, client)(n) && o.Xhttp?
    ensures client.Sbr? && n.xhttp.Some? && o.tag == XhttpTag(n) && o.domainResolver == LOCAL
  {
    assert o in XhttpLeaves(u, n, client);
  }

  /** The node a group of a several-node profile belongs to. */
  lemma NodeGroupOf(u: User, nodes: seq<Node>, client: Client, o: Outbound) returns (n: Node)
    requires o in FlatMap(NodeGroups(u, client), nodes)
    ensures n in nodes && o in NodeGroups(u, client)(n)
  {
    FlatMapMember(NodeGroups(u, client), nodes, o);
    var i :| 0 <= i < |nodes| && o in NodeGroups(u, client)(nodes[i]);
    n := nodes[i];
  }

  lemma NodeGroupIn(u: User, nodes: seq<Node>, client: Client, n: Node)
    requires n in nodes && |nodes| != 1
    ensures forall o :: o in NodeGroups(u, client)(n) ==> o in EntryGroups(u, nodes, client)
  {
    forall o | o in NodeGroups(u, client)(n) ensures o in EntryGroups(u, nodes, client) {
      FlatMapMember(NodeGroups(u, client), nodes, o);
    }
  }

  lemma PickersReserved(u: User, nodes: seq<Node>, exits: seq<Exit>, client: Client)
    ensures ENTRY in ReservedTags(u, nodes, exits, client)
    ensures UsableExits(u, exits) != [] ==> EXIT in ReservedTags(u, nodes, exits, client)
  {
    var usable := UsableExits(u, exits);
    assert ENTRY in Map(AutoTag, nodes) + [AUTO_ALL, ENTRY];
    if usable != [] {
      assert Tags(ExitGroups(usable))[|usable| + 1] == EXIT;
    }
  }

  lemma NodeGroupRank(u: User, nodes: seq<Node>, exits: seq<Exit>, client: Client, n: Node,
                      o: Outbound)
    requires CleanNames(u, nodes, exits, client) && |nodes| != 1 && n in nodes
    requires o in NodeGroups(u, client)(n)
    ensures Rank(o) == if o.UrlTest? then 1 else 2
    ensures o.Selector? && UsableExits(u, exits) != [] ==> o.tag != EXIT
  {
    PickersReserved(u, nodes, exits, client);
    CleanNotReserved(u, nodes, exits, client);
    NodeGroupIs(u, client, n, o);
    if o.Selector? { PickerRank(o, n); }
  }

  lemma NodeGroupIs(u: User, client: Client, n: Node, o: Outbound)
    requires o in NodeGroups(u, client)(n)
    ensures o.UrlTest? ==> o == UrlTest(AutoTag(n), Candidates(u, client)(n))
    ensures !o.UrlTest? ==>
              o == Selector(n.name, [AutoTag(n)] + Candidates(u, client)(n), Some(AutoTag(n)))
  {}

  lemma PickerRank(o: Outbound, n: Node)
    requires o.Selector? && o.tag == n.name != ENTRY && o.members != [] && o.members[0] == AutoTag(n)
    ensures Rank(o) == 2
  {
    assert AutoTag(n)[0] == 'a' && DIRECT[0] == 'e' && ENTRY[0] == 'e';
  }

  lemma EntryPickerIn(u: User, nodes: seq<Node>, client: Client) returns (o: Outbound)
    ensures o in EntryGroups(u, nodes, client) && o.tag == ENTRY && o.Selector? && Rank(o) == 3
    ensures |nodes| != 1 ==> o.members == [AUTO_ALL] + Names(nodes)
  {
    var groups := EntryGroups(u, nodes, client);
    o := groups[|groups| - 1];
  }

  lemma CandidateBelow(u: User, nodes: seq<Node>, exits: seq<Exit>, client: Client, n: Node, t: string, rank: nat)
    requires n in nodes && t in Candidates(u, client)(n) && rank > 0
    ensures NamesBelow(Outbounds(u, nodes, exits, client), t, rank)
  {
    var leaf := CandidateLeaf(u, nodes, client, n, t);
    InOutbounds(u, nodes, exits, client, leaf);
  }

  lemma InOutbounds(u: User, nodes: seq<Node>, exits: seq<Exit>, client: Client, o: Outbound)
    requires o in FlatMap(NodeLeaves(u, client), nodes) || o in EntryGroups(u, nodes, client)
    ensures o in Outbounds(u, nodes, exits, client)
  {}

  /** The groups of a one-node profile: the picker, and the probing group in front of it if there is a choice. */
  lemma OneNodeRank(u: User, nodes: seq<Node>, client: Client, o: Outbound)
    requires |nodes| == 1 && o in EntryGroups(u, nodes, client)
    ensures o.Group() && Rank(o) == if o.UrlTest? then 1 else 3
  {}

  lemma OneNodeAuto(u: User, nodes: seq<Node>, client: Client, o: Outbound, t: string) returns (auto: Outbound)
    requires |nodes| == 1 && o in EntryGroups(u, nodes, client)
    requires t in Refs(o) && t !in Candidates(u, client)(nodes[0])
    ensures o.Selector? && auto.UrlTest? && auto.tag == t && auto in EntryGroups(u, nodes, client)
  {
    auto := EntryGroups(u, nodes, client)[0];
  }

  lemma OneNodeRanked(u: User, nodes: seq<Node>, exits: seq<Exit>, client: Client, o: Outbound,
                      t: string)
    requires |nodes| == 1
    requires o in EntryGroups(u, nodes, client) && t in Refs(o)
    ensures Rank(o) <= 3 && NamesBelow(Outbounds(u, nodes, exits, client), t, Rank(o))
  {
    OneNodeRank(u, nodes, client, o);
    if t in Candidates(u, client)(nodes[0]) {
      CandidateBelow(u, nodes, exits, client, nodes[0], t, Rank(o));
    } else {
      var auto := OneNodeAuto(u, nodes, client, o, t);
      InOutbounds(u, nodes, exits, client, auto);
    }
  }

  lemma NodeGroupRanked(u: User, nodes: seq<Node>, exits: seq<Exit>, client: Client, n: Node,
                        o: Outbound, t: string)
    requires CleanNames(u, nodes, exits, client) && |nodes| != 1 && n in nodes
    requires o in NodeGroups(u, client)(n) && t in Refs(o)
    ensures Rank(o) <= 3 && NamesBelow(Outbounds(u, nodes, exits, client), t, Rank(o))
  {
    NodeGroupRank(u, nodes, exits, client, n, o);
    if t in Candidates(u, client)(n) {
      CandidateBelow(u, nodes, exits, client, n, t, Rank(o));
    } else {
      NodeGroupIn(u, nodes, client, n);
      var auto := NodeGroups(u, client)(n)[0];
      InOutbounds(u, nodes, exits, client, auto);
      assert auto.tag == t;
    }
  }

  lemma AutoAllRanked(u: User, nodes: seq<Node>, exits: seq<Exit>, client: Client, t: string)
    requires t in FlatMap(Candidates(u, client), nodes)
    ensures NamesBelow(Outbounds(u, nodes, exits, client), t, 1)
  {
    FlatMapMember(Candidates(u, client), nodes, t);
    var i :| 0 <= i < |nodes| && t in Candidates(u, client)(nodes[i]);
    CandidateBelow(u, nodes, exits, client, nodes[i], t, 1);
  }

  lemma EntryPickerRanked(u: User, nodes: seq<Node>, exits: seq<Exit>, client: Client, t: string)
    requires CleanNames(u, nodes, exits, client) && |nodes| != 1
    requires t == AUTO_ALL || t in Names(nodes)
    ensures NamesBelow(Outbounds(u, nodes, exits, client), t, 3)
  {
    var groups := EntryGroups(u, nodes, client);
    var group;
    if t == AUTO_ALL {
      group := groups[|groups| - 2];
    } else {
      var i :| 0 <= i < |nodes| && Names(nodes)[i] == t;
      NodeGroupIn(u, nodes, client, nodes[i]);
      group := NodeGroups(u, client)(nodes[i])[1];
      NodeGroupRank(u, nodes, exits, client, nodes[i], group);
    }
    assert group.tag == t && Rank(group) < 3 && group in groups;
    assert group in Outbounds(u, nodes, exits, client);
  }

  /** Every reference of an entry group is below it. */
  lemma EntryGroupsRanked(u: User, nodes: seq<Node>, exits: seq<Exit>, client: Client,
                          o: Outbound, t: string)
    requires CleanNames(u, nodes, exits, client)
    requires o in EntryGroups(u, nodes, client) && t in Refs(o)
    ensures Rank(o) <= 3 && NamesBelow(Outbounds(u, nodes, exits, client), t, Rank(o))
  {
    if |nodes| == 1 {
      OneNodeRanked(u, nodes, exits, client, o, t);
    } else if o in FlatMap(NodeGroups(u, client), nodes) {
      var n := NodeGroupOf(u, nodes, client, o);
      NodeGroupRanked(u, nodes, exits, client, n, o, t);
    } else if o.UrlTest? {
      AutoAllRanked(u, nodes, exits, client, t);
    } else {
      EntryPickerRanked(u, nodes, exits, client, t);
    }
  }

  /** What the exit axis refers to: the entry picker, or one of its own members one rank down. */
  lemma ExitRefs(usable: seq<Exit>, o: Outbound, t: string) returns (egress: Outbound)
    requires o in ExitGroups(usable) && t in Refs(o)
    ensures Rank(o) >= 4
    ensures t == ENTRY || (egress in ExitGroups(usable) && egress.tag == t && Rank(egress) == 4 && Rank(o) == 5)
  {
    var groups := ExitGroups(usable);
    egress := o;
    if t != ENTRY {
      assert o == groups[|usable| + 1];
      var i :| 0 <= i < |o.members| && o.members[i] == t;
      egress := if i == 0 then groups[|usable|] else groups[i - 1];
      assert First(o.members) == Some(DIRECT) && o.members != [ENTRY] && o.tag != ENTRY;
    }
  }

  lemma ExitGroupsRanked(u: User, nodes: seq<Node>, exits: seq<Exit>, client: Client, o: Outbound,
                         t: string)
    requires o in ExitGroups(UsableExits(u, exits)) && t in Refs(o)
    ensures Rank(o) >= 4 && NamesBelow(Outbounds(u, nodes, exits, client), t, Rank(o))
  {
    var egress := ExitRefs(UsableExits(u, exits), o, t);
    var outs := Outbounds(u, nodes, exits, client);
    if t == ENTRY {
      var entry := EntryPickerIn(u, nodes, client);
      assert entry in outs;
    } else {
      assert egress in outs;
    }
  }

  lemma OutboundsRanked(u: User, nodes: seq<Node>, exits: seq<Exit>, client: Client)
    requires CleanNames(u, nodes, exits, client)
    ensures Ranked(Outbounds(u, nodes, exits, client))
  {
    var outs := Outbounds(u, nodes, exits, client);
    forall o, t | o in outs && t in Refs(o) ensures NamesBelow(outs, t, Rank(o)) {
      OutboundRanked(u, nodes, exits, client, o, t);
    }
  }

  lemma OutboundRanked(u: User, nodes: seq<Node>, exits: seq<Exit>, client: Client, o: Outbound, t: string)
    requires CleanNames(u, nodes, exits, client)
    requires o in Outbounds(u, nodes, exits, client) && t in Refs(o)
    ensures NamesBelow(Outbounds(u, nodes, exits, client), t, Rank(o))
  {
    ReferringGroup(u, nodes, exits, client, o, t);
    if o in EntryGroups(u, nodes, client) {
      EntryGroupsRanked(u, nodes, exits, client, o, t);
    } else {
      ExitGroupsRanked(u, nodes, exits, client, o, t);
    }
  }

  /** A leaf refers to nothing. */
  lemma ReferringGroup(u: User, nodes: seq<Node>, exits: seq<Exit>, client: Client, o: Outbound, t: string)
    requires o in Outbounds(u, nodes, exits, client) && t in Refs(o)
    ensures o in EntryGroups(u, nodes, client) || o in ExitGroups(UsableExits(u, exits))
  {
    assert !o.Leaf();
    if o in FlatMap(NodeLeaves(u, client), nodes) {
      var n := LeavesAreLeaves(u, nodes, client, o);
    }
  }
}
