/** What each leaf of a profile dials, and with whose credential. */
module ProfileLeaves {
  import opened Prelude
  import opened Text
  import opened Roster
  import opened Profile
  import opened ProfileGraph
  import opened ProfilePaths
  import opened ProfileTags

  /** The user's own credential, or none where the node holds none for them. */
  predicate OwnCredential(m: map<string, string>, u: User, c: Option<string>) {
    (u.name in m ==> c == Some(m[u.name])) && (u.name !in m ==> c == None)
  }

  /** `<name>:<password>`, which a server takes apart at the first colon. */
  predicate OwnUserpass(m: map<string, string>, u: User, password: string) {
    && |u.name| < |password| && password[..|u.name|] == u.name && password[|u.name|] == ':'
    && (u.name in m ==> password[|u.name| + 1..] == m[u.name])
  }

  /** A leaf reaches this node, over a transport the user may have, as that user. */
  predicate Dials(o: Outbound, u: User, n: Node, client: Client) {
    match o
    case Reality(_, server, uuid, serverName, publicKey, shortId) =>
      && server == n.server && serverName in n.reality.serverNames
      && publicKey == n.reality.publicKey && shortId == n.reality.shortId
      && OwnCredential(n.reality.uuids, u, uuid)
    case Hysteria2(_, server, serverPort, password, obfsPassword, serverName, certificate) =>
      && u.role.Admin?
      && server == n.server && (serverPort == n.hysteria.port || serverPort in n.hysteria.altPorts)
      && obfsPassword == n.hysteria.obfsPassword && serverName == n.hysteria.sni && certificate == n.hysteria.certificate
      && OwnUserpass(n.hysteria.passwords, u, password)
    case Xhttp(_, server, path, uuid, _) =>
      && client.Sbr? && n.xhttp == Some(Cdn(server, path))
      && OwnCredential(n.reality.uuids, u, uuid)
    case _ => false
  }

  /** The ways into a node a user is offered. */
  datatype Way = BySni(sni: string) | ByPort(port: nat) | ByCdn

  predicate Offered(way: Way, u: User, n: Node, client: Client) {
    match way
    case BySni(sni) => sni in n.reality.serverNames
    case ByPort(port) => u.role.Admin? && (port == n.hysteria.port || port in n.hysteria.altPorts)
    case ByCdn => client.Sbr? && n.xhttp.Some?
  }

  predicate Takes(o: Outbound, way: Way) {
    match way
    case BySni(sni) => o.Reality? && o.serverName == sni
    case ByPort(port) => o.Hysteria2? && o.serverPort == port
    case ByCdn => o.Xhttp?
  }

  /** What the leaf for a way into a node is called. */
  ghost predicate Called(tag: string, way: Way, n: Node) {
    match way
    case BySni(sni) => exists a :: NamedBy(sni, a) && tag == "reality-" + n.name + "-" + a
    case ByPort(port) => tag == "hy2-" + n.name + "-" + Decimal(port)
    case ByCdn => tag == "xhttp-" + n.name
  }

  lemma UserpassOf(u: User, n: Node)
    ensures OwnUserpass(n.hysteria.passwords, u, Hy2Password(u, n))
  {
    var password := Hy2Password(u, n);
    var rest := match Lookup(n.hysteria.passwords, u.name) case Some(p) => p case None => "undefined";
    assert password == u.name + (":" + rest) && (":" + rest)[1..] == rest;
    assert password[|u.name| + 1..] == (":" + rest)[1..];
  }

  lemma NodeLeavesDial(u: User, n: Node, client: Client, o: Outbound)
    requires o in NodeLeaves(u, client)(n)
    ensures Dials(o, u, n, client)
  {
    UserpassOf(u, n);
    if o in Map(RealityLeaf(u, n), n.reality.serverNames) {
      var i :| 0 <= i < |n.reality.serverNames| && RealityLeaf(u, n)(n.reality.serverNames[i]) == o;
    } else if o in Hy2Leaves(u, n) {
      var i :| 0 <= i < |Hy2Ports(n)| && Hy2Leaf(u, n)(Hy2Ports(n)[i]) == o;
      assert Hy2Ports(n)[i] == n.hysteria.port || Hy2Ports(n)[i] in n.hysteria.altPorts;
    }
  }

  lemma WayHasLeaf(u: User, n: Node, client: Client, way: Way) returns (o: Outbound)
    requires Offered(way, u, n, client)
    ensures o in NodeLeaves(u, client)(n) && Takes(o, way) && Called(o.tag, way, n)
  {
    match way
    case BySni(sni) =>
      SniLabelIff(sni, SniLabel(sni));
      assert "reality-" + (n.name + "-" + SniLabel(sni)) == "reality-" + n.name + "-" + SniLabel(sni);
      var i :| 0 <= i < |n.reality.serverNames| && n.reality.serverNames[i] == sni;
      o := RealityLeaf(u, n)(sni);
      assert Map(RealityLeaf(u, n), n.reality.serverNames)[i] == o;
    case ByPort(port) =>
      assert "hy2-" + (n.name + "-" + Decimal(port)) == "hy2-" + n.name + "-" + Decimal(port);
      assert port in Hy2Ports(n);
      var i :| 0 <= i < |Hy2Ports(n)| && Hy2Ports(n)[i] == port;
      o := Hy2Leaf(u, n)(port);
      assert Map(Hy2Leaf(u, n), Hy2Ports(n))[i] == o;
    case ByCdn =>
      o := XhttpLeaves(u, n, client)[0];
  }

  /** Every entry leaf of a profile dials one of its nodes as the profile's own user. */
  lemma LeavesDialTheirNodes(u: User, nodes: seq<Node>, suffix: string, exits: seq<Exit>, client: Client,
                             o: Outbound)
    requires o in Compile(u, nodes, suffix, exits, client).outbounds && o.Leaf()
    ensures exists n :: n in nodes && Dials(o, u, n, client)
  {
    Classify(u, nodes, exits, client, o);
    FlatMapMember(NodeLeaves(u, client), nodes, o);
    var i :| 0 <= i < |nodes| && o in NodeLeaves(u, client)(nodes[i]);
    NodeLeavesDial(u, nodes[i], client, o);
    assert nodes[i] in nodes;
  }

  /** And every way into every node that the user is offered has a leaf, called after the node and the way. */
  lemma EveryWayHasALeaf(u: User, nodes: seq<Node>, suffix: string, exits: seq<Exit>, client: Client,
                         n: Node, way: Way)
    requires n in nodes && Offered(way, u, n, client)
    ensures exists o :: o in Compile(u, nodes, suffix, exits, client).outbounds && Takes(o, way) && Dials(o, u, n, client)
                        && Called(o.tag, way, n)
  {
    var o := WayHasLeaf(u, n, client, way);
    NodeLeavesDial(u, n, client, o);
    var i :| 0 <= i < |nodes| && nodes[i] == n;
    FlatMapMember(NodeLeaves(u, client), nodes, o);
    assert o in NodeLeaves(u, client)(nodes[i]);
    assert o in FlatMap(NodeLeaves(u, client), nodes);
    assert o in Compile(u, nodes, suffix, exits, client).outbounds;
  }

  /** A node's ways in the order its pickers show them: hy2 ports, the first one first, then SNIs, then the CDN. */
  function WaysInOrder(u: User, n: Node, client: Client): seq<Way> {
    (if u.role.Admin? then [ByPort(n.hysteria.port)] + Map((p: nat) => ByPort(p), n.hysteria.altPorts) else [])
    + Map((s: string) => BySni(s), n.reality.serverNames)
    + (if client.Sbr? && n.xhttp.Some? then [ByCdn] else [])
  }

  ghost predicate AllCalled(tags: seq<string>, ways: seq<Way>, n: Node) {
    |tags| == |ways| && forall j :: 0 <= j < |ways| ==> Called(tags[j], ways[j], n)
  }

  lemma CalledConcat(a: seq<string>, x: seq<Way>, b: seq<string>, y: seq<Way>, n: Node)
    requires AllCalled(a, x, n) && AllCalled(b, y, n)
    ensures AllCalled(a + b, x + y, n)
  {}

  lemma Hy2Called(u: User, n: Node)
    requires u.role.Admin?
    ensures AllCalled(Tags(Hy2Leaves(u, n)), [ByPort(n.hysteria.port)] + Map((p: nat) => ByPort(p), n.hysteria.altPorts), n)
  {
    var ports := [n.hysteria.port] + n.hysteria.altPorts;
    forall j | 0 <= j < |ports| ensures Called(Tags(Hy2Leaves(u, n))[j], ByPort(ports[j]), n) {
      assert Hy2Leaves(u, n)[j].tag == Hy2Tag(n, ports[j]);
      assert "hy2-" + (n.name + "-" + Decimal(ports[j])) == "hy2-" + n.name + "-" + Decimal(ports[j]);
    }
  }

  lemma RealityCalled(u: User, n: Node)
    ensures AllCalled(Tags(Map(RealityLeaf(u, n), n.reality.serverNames)),
                      Map((s: string) => BySni(s), n.reality.serverNames), n)
  {
    var snis := n.reality.serverNames;
    forall j | 0 <= j < |snis| ensures Called(RealityTag(n, snis[j]), BySni(snis[j]), n) {
      SniLabelIff(snis[j], SniLabel(snis[j]));
      assert RealityTag(n, snis[j]) == "reality-" + n.name + "-" + SniLabel(snis[j]);
    }
  }

  lemma CandidatesAreWays(u: User, n: Node, client: Client)
    ensures AllCalled(Candidates(u, client)(n), WaysInOrder(u, n, client), n)
  {
    var hy2 := if u.role.Admin? then [ByPort(n.hysteria.port)] + Map((p: nat) => ByPort(p), n.hysteria.altPorts) else [];
    var snis := Map((s: string) => BySni(s), n.reality.serverNames);
    var h, r := Tags(Hy2Leaves(u, n)), Tags(Map(RealityLeaf(u, n), n.reality.serverNames));
    if u.role.Admin? { Hy2Called(u, n); }
    RealityCalled(u, n);
    CalledConcat(h, hy2, r, snis, n);
    var cdn := if client.Sbr? && n.xhttp.Some? then [ByCdn] else [];
    CalledConcat(h + r, hy2 + snis, Tags(XhttpLeaves(u, n, client)), cdn, n);
  }

  lemma OnePicker(u: User, nodes: seq<Node>, client: Client)
    requires |nodes| == 1
    ensures var tags, groups := Candidates(u, client)(nodes[0]), EntryGroups(u, nodes, client);
            if |tags| > 1 then
              UrlTest("auto", tags) in groups && Selector("entry-select", ["auto"] + tags, Some("auto")) in groups
            else Selector("entry-select", tags, if tags == [] then None else Some(tags[0])) in groups
  {
    var groups := EntryGroups(u, nodes, client);
    assert groups[|groups| - 1] in groups && groups[0] in groups;
  }

  lemma SeveralPickers(u: User, nodes: seq<Node>, client: Client)
    requires |nodes| != 1
    ensures var groups := EntryGroups(u, nodes, client);
            && UrlTest("auto-all", FlatMap(Candidates(u, client), nodes)) in groups
            && Selector("entry-select", ["auto-all"] + Names(nodes), Some("auto-all")) in groups
  {
    var groups := EntryGroups(u, nodes, client);
    assert groups[|groups| - 1] in groups && groups[|groups| - 2] in groups;
  }

  /** The pickers of a profile by name. */
  lemma PickersSpelled(u: User, nodes: seq<Node>, suffix: string, exits: seq<Exit>, client: Client)
    ensures var p := Compile(u, nodes, suffix, exits, client);
            if |nodes| == 1 then
              var tags := Candidates(u, client)(nodes[0]);
              if |tags| > 1 then
                && UrlTest("auto", tags) in p.outbounds
                && Selector("entry-select", ["auto"] + tags, Some("auto")) in p.outbounds
              else Selector("entry-select", tags, if tags == [] then None else Some(tags[0])) in p.outbounds
            else
              && UrlTest("auto-all", FlatMap(Candidates(u, client), nodes)) in p.outbounds
              && Selector("entry-select", ["auto-all"] + Names(nodes), Some("auto-all")) in p.outbounds
              && forall n :: n in nodes ==>
                   var tags := Candidates(u, client)(n);
                   && UrlTest("auto-" + n.name, tags) in p.outbounds
                   && Selector(n.name, ["auto-" + n.name] + tags, Some("auto-" + n.name)) in p.outbounds
  {
    var groups := EntryGroups(u, nodes, client);
    forall o | o in groups ensures o in Outbounds(u, nodes, exits, client) { InOutbounds(u, nodes, exits, client, o); }
    if |nodes| == 1 {
      OnePicker(u, nodes, client);
    } else {
      SeveralPickers(u, nodes, client);
      forall n | n in nodes
        ensures UrlTest("auto-" + n.name, Candidates(u, client)(n)) in groups
        ensures Selector(n.name, ["auto-" + n.name] + Candidates(u, client)(n), Some("auto-" + n.name)) in groups
      {
        NodeGroupIn(u, nodes, client, n);
        assert NodeGroups(u, client)(n)[0] in NodeGroups(u, client)(n);
        assert NodeGroups(u, client)(n)[1] in NodeGroups(u, client)(n);
      }
    }
  }

  /** And the exits: the picker starts on going out directly, which is where the entry picker says. */
  lemma ExitPickersSpelled(u: User, nodes: seq<Node>, suffix: string, exits: seq<Exit>, client: Client)
    ensures var p := Compile(u, nodes, suffix, exits, client);
            if u.role.Admin? && exits != [] then
              && Selector("exit-direct", ["entry-select"], Some("entry-select")) in p.outbounds
              && Selector("exit-select", ["exit-direct"] + Map((e: Exit) => "exit-" + e.name, exits), Some("exit-direct"))
                   in p.outbounds
              && p.final == "exit-select"
            else p.final == "entry-select"
    ensures var p := Compile(u, nodes, suffix, exits, client);
            p.suffix == suffix && p.suffixServer == "ts-dns" && p.dnsFinal == p.defaultResolver
  {
    if u.role.Admin? && exits != [] {
      var groups := ExitGroups(exits);
      assert groups[|exits|] == Selector("exit-direct", ["entry-select"], Some("entry-select"));
      assert Map(ExitTag, exits) == Map((e: Exit) => "exit-" + e.name, exits);
      assert groups[|exits|] in groups && groups[|exits| + 1] in groups;
    }
  }

  /** An admin's profile has one Shadowsocks outbound for each exit, behind the entry picker; a guest's has none. */
  lemma ExitsBehindTheEntry(u: User, nodes: seq<Node>, suffix: string, exits: seq<Exit>, client: Client)
    ensures forall o :: o in Compile(u, nodes, suffix, exits, client).outbounds && o.Shadowsocks? ==>
      u.role.Admin? && o.detour == ENTRY
      && exists e :: e in exits && e.server == o.server && e.port == o.serverPort && e.cipher == o.cipher
                     && e.password == o.password
    ensures u.role.Admin? ==> forall e :: e in exits ==>
      Shadowsocks(ExitTag(e), e.server, e.port, e.cipher, e.password, ENTRY)
        in Compile(u, nodes, suffix, exits, client).outbounds
  {
    var usable := UsableExits(u, exits);
    forall o | o in Outbounds(u, nodes, exits, client) && o.Shadowsocks?
      ensures u.role.Admin? && o.detour == ENTRY
      ensures exists e :: e in exits && e.server == o.server && e.port == o.serverPort && e.cipher == o.cipher
                          && e.password == o.password
    {
      Classify(u, nodes, exits, client, o);
      var i :| 0 <= i < |usable| && ExitLeaf(usable[i]) == o;
      assert usable[i] in exits;
    }
    if u.role.Admin? {
      forall e | e in exits ensures ExitLeaf(e) in Outbounds(u, nodes, exits, client) {
        var i :| 0 <= i < |exits| && exits[i] == e;
        assert Map(ExitLeaf, exits)[i] == ExitLeaf(e);
        assert ExitLeaf(e) in Map(ExitLeaf, exits);
        assert ExitLeaf(e) in ExitGroups(usable);
      }
    }
  }
}
