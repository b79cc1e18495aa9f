/** The client profile compiler, `buildProfile` (packages/vpn/src/singbox.ts). */
module Profile {
  import opened Prelude
  import opened Text
  import opened Roster
  import opened Net

  // ----- input

  datatype Hysteria = Hysteria(port: nat, altPorts: seq<nat>, sni: string, certificate: string,
                               obfsPassword: string, passwords: map<string, string>)
  datatype RealityKeys = RealityKeys(publicKey: string, serverNames: seq<string>, shortId: string,
                                     uuids: map<string, string>)
  datatype Cdn = Cdn(host: string, path: string)
  datatype Node = Node(name: string, server: string, hysteria: Hysteria, reality: RealityKeys,
                       xhttp: Option<Cdn>)
  datatype Exit = Exit(name: string, port: nat, cipher: string, password: string, server: string)
  datatype Client = SingBox | Sbr

  // ----- output

  datatype Outbound =
    | Hysteria2(tag: string, server: string, serverPort: nat, password: string,
                obfsPassword: string, serverName: string, certificate: string)
    | Reality(tag: string, server: string, uuid: Option<string>, serverName: string,
              publicKey: string, shortId: string)
    | Xhttp(tag: string, server: string, path: string, uuid: Option<string>, domainResolver: string)
    | Shadowsocks(tag: string, server: string, serverPort: nat, cipher: string, password: string,
                  detour: string)
    | UrlTest(tag: string, members: seq<string>)
    | Selector(tag: string, members: seq<string>, default: Option<string>)
  {
    predicate Leaf() { Hysteria2? || Reality? || Xhttp? }
    predicate Group() { UrlTest? || Selector? }
  }

  datatype DnsServer = DnsServer(tag: string, address: Option<Addr>, detour: Option<string>)

  datatype Match = InCidr(cidr: Cidr) | V6Port(port: nat) | AnyV6 | AnyFlow | DnsProtocol
  datatype Action = RouteTo(tag: string) | HijackDns | Reject | Sniff
  datatype Rule = Rule(match_: Match, action: Action)

  datatype Profile = Profile(outbounds: seq<Outbound>, dnsServers: seq<DnsServer>, suffix: string,
                             suffixServer: string, dnsFinal: string, defaultResolver: string,
                             rules: seq<Rule>, final: string)

  // ----- tags and leaves

  const ENTRY := "entry-select"
  const EXIT := "exit-select"
  const DIRECT := "exit-direct"
  const AUTO := "auto"
  const AUTO_ALL := "auto-all"
  const LOCAL := "local"

  /** The name a REALITY SNI goes by: `www.google.co.uk` is `google`. */
  function SniLabel(sni: string): string {
    Split(if StartsWith(sni, "www.") then sni[4..] else sni, {'.'})[0]
  }

  function Identity(n: Node, sni: string): string { n.name + "-" + SniLabel(sni) }
  function RealityTag(n: Node, sni: string): string { "reality-" + Identity(n, sni) }
  function XhttpTag(n: Node): string { "xhttp-" + n.name }
  function Hy2Tag(n: Node, port: nat): string { "hy2-" + (n.name + "-" + Decimal(port)) }
  function AutoTag(n: Node): string { "auto-" + n.name }
  function ExitTag(e: Exit): string { "exit-" + e.name }

  function Hy2Ports(n: Node): seq<nat> { [n.hysteria.port] + n.hysteria.altPorts }

  function Lookup(m: map<string, string>, k: string): Option<string> {
    if k in m then Some(m[k]) else None
  }

  /** hy2 authenticates `<name>:<password>`; a user with no password gets the text JavaScript gives a missing one. */
  function Hy2Password(u: User, n: Node): string {
    u.name + ":" + match Lookup(n.hysteria.passwords, u.name) case Some(p) => p case None => "undefined"
  }

  function RealityLeaf(u: User, n: Node): string -> Outbound {
    sni => Reality(RealityTag(n, sni), n.server, Lookup(n.reality.uuids, u.name), sni,
                   n.reality.publicKey, n.reality.shortId)
  }

  function XhttpLeaves(u: User, n: Node, client: Client): seq<Outbound> {
    if client.Sbr? && n.xhttp.Some? then
      [Xhttp(XhttpTag(n), n.xhttp.value.host, n.xhttp.value.path, Lookup(n.reality.uuids, u.name), LOCAL)]
    else []
  }

  function Hy2Leaf(u: User, n: Node): nat -> Outbound {
    (port: nat) => Hysteria2(Hy2Tag(n, port), n.server, port, Hy2Password(u, n), n.hysteria.obfsPassword,
                      n.hysteria.sni, n.hysteria.certificate)
  }

  function Hy2Leaves(u: User, n: Node): seq<Outbound> {
    if u.role.Admin? then Map(Hy2Leaf(u, n), Hy2Ports(n)) else []
  }

  /** One node's leaf outbounds, in the order the first loop pushes them. */
  function NodeLeaves(u: User, client: Client): Node -> seq<Outbound> {
    n => Map(RealityLeaf(u, n), n.reality.serverNames) + XhttpLeaves(u, n, client) + Hy2Leaves(u, n)
  }

  function Tags(outs: seq<Outbound>): seq<string> {
    Map((o: Outbound) => o.tag, outs)
  }

  /** The leaves of a node in picker order, hy2 before REALITY before XHTTP (`autoTags` and `entryTags`). */
  function Candidates(u: User, client: Client): Node -> seq<string> {
    n => Tags(Hy2Leaves(u, n)) + Tags(Map(RealityLeaf(u, n), n.reality.serverNames))
         + Tags(XhttpLeaves(u, n, client))
  }

  // ----- groups

  function First(s: seq<string>): Option<string> {
    if s == [] then None else Some(s[0])
  }

  function NodeGroups(u: User, client: Client): Node -> seq<Outbound> {
    n => var tags := Candidates(u, client)(n);
      [UrlTest(AutoTag(n), tags), Selector(n.name, [AutoTag(n)] + tags, Some(AutoTag(n)))]
  }

  function EntryGroups(u: User, nodes: seq<Node>, client: Client): seq<Outbound> {
    if |nodes| == 1 then
      var tags := Candidates(u, client)(nodes[0]);
      if |tags| > 1 then [UrlTest(AUTO, tags), Selector(ENTRY, [AUTO] + tags, Some(AUTO))]
      else [Selector(ENTRY, tags, First(tags))]
    else
      FlatMap(NodeGroups(u, client), nodes)
      + [UrlTest(AUTO_ALL, FlatMap(Candidates(u, client), nodes)),
         Selector(ENTRY, [AUTO_ALL] + Map((n: Node) => n.name, nodes), Some(AUTO_ALL))]
  }

  function ExitLeaf(e: Exit): Outbound {
    Shadowsocks(ExitTag(e), e.server, e.port, e.cipher, e.password, ENTRY)
  }

  function ExitGroups(exits: seq<Exit>): seq<Outbound> {
    if exits == [] then []
    else
      Map(ExitLeaf, exits)
      + [Selector(DIRECT, [ENTRY], Some(ENTRY)),
         Selector(EXIT, [DIRECT] + Map(ExitTag, exits), Some(DIRECT))]
  }

  function UsableExits(u: User, exits: seq<Exit>): seq<Exit> {
    if u.role.Admin? then exits else []
  }

  function Outbounds(u: User, nodes: seq<Node>, exits: seq<Exit>, client: Client): seq<Outbound> {
    FlatMap(NodeLeaves(u, client), nodes) + EntryGroups(u, nodes, client)
    + ExitGroups(UsableExits(u, exits))
  }

  // ----- DNS and routing

  function Resolver(u: User): string {
    if u.role.Admin? then "gw-cache" else "cf-doh"
  }

  predicate HasXhttp(nodes: seq<Node>, client: Client) {
    client.Sbr? && exists i :: 0 <= i < |nodes| && nodes[i].xhttp.Some?
  }

  function DnsServers(nodes: seq<Node>, client: Client): seq<DnsServer> {
    [DnsServer("gw-cache", Some(LOOPBACK), Some(ENTRY)),
     DnsServer("cf-doh", Some(Quad(1, 1, 1, 1)), Some(ENTRY)),
     DnsServer("ts-dns", Some(Quad(100, 100, 100, 100)), Some(ENTRY))]
    + if HasXhttp(nodes, client) then [DnsServer(LOCAL, None, None)] else []
  }

  const RULES := [
    Rule(InCidr(TAILNET_V6), RouteTo(ENTRY)),
    Rule(V6Port(53), HijackDns),
    Rule(AnyV6, Reject),
    Rule(AnyFlow, Sniff),
    Rule(DnsProtocol, HijackDns),
    Rule(InCidr(TAILNET_V4), RouteTo(ENTRY))
  ]

  function Final(u: User, exits: seq<Exit>): string {
    if UsableExits(u, exits) != [] then EXIT else ENTRY
  }

  /** The profile of one user, as a value. */
  function Compile(u: User, nodes: seq<Node>, suffix: string, exits: seq<Exit>, client: Client): Profile {
    Profile(Outbounds(u, nodes, exits, client), DnsServers(nodes, client), suffix, "ts-dns",
            Resolver(u), Resolver(u), RULES, Final(u, exits))
  }

  // ----- the loops

  method PushReality(outbounds: seq<Outbound>, u: User, n: Node) returns (outs: seq<Outbound>)
    ensures outs == outbounds + Map(RealityLeaf(u, n), n.reality.serverNames)
  {
    outs := outbounds;
    for j := 0 to |n.reality.serverNames|
      invariant outs == outbounds + Map(RealityLeaf(u, n), n.reality.serverNames)[..j]
    {
      outs := outs + [RealityLeaf(u, n)(n.reality.serverNames[j])];
    }
  }

  method PushHy2(outbounds: seq<Outbound>, u: User, n: Node) returns (outs: seq<Outbound>)
    requires u.role.Admin?
    ensures outs == outbounds + Hy2Leaves(u, n)
  {
    outs := outbounds;
    for j := 0 to |Hy2Ports(n)|
      invariant outs == outbounds + Hy2Leaves(u, n)[..j]
    {
      outs := outs + [Hy2Leaf(u, n)(Hy2Ports(n)[j])];
    }
  }

  method PushNode(outbounds: seq<Outbound>, u: User, n: Node, client: Client) returns (outs: seq<Outbound>)
    ensures outs == outbounds + NodeLeaves(u, client)(n)
  {
    var reality := Map(RealityLeaf(u, n), n.reality.serverNames);
    outs := PushReality(outbounds, u, n);
    if client.Sbr? && n.xhttp.Some? {
      outs := outs + XhttpLeaves(u, n, client);
    }
    assert outs == outbounds + (reality + XhttpLeaves(u, n, client));
    if u.role.Admin? {
      outs := PushHy2(outs, u, n);
    }
    assert outs == outbounds + (reality + XhttpLeaves(u, n, client) + Hy2Leaves(u, n));
  }

  method PushExits(outbounds: seq<Outbound>, exits: seq<Exit>) returns (outs: seq<Outbound>)
    ensures outs == outbounds + ExitGroups(exits)
  {
    outs := outbounds;
    if exits != [] {
      for i := 0 to |exits|
        invariant outs == outbounds + Map(ExitLeaf, exits)[..i]
      {
        outs := outs + [ExitLeaf(exits[i])];
      }
      outs := outs + [Selector(DIRECT, [ENTRY], Some(ENTRY)),
                      Selector(EXIT, [DIRECT] + Map(ExitTag, exits), Some(DIRECT))];
    }
  }

  method PushNodes(u: User, nodes: seq<Node>, client: Client) returns (outs: seq<Outbound>)
    ensures outs == FlatMap(NodeLeaves(u, client), nodes)
  {
    outs := [];
    for i := 0 to |nodes|
      invariant outs == FlatMap(NodeLeaves(u, client), nodes[..i])
    {
      outs := PushNode(outs, u, nodes[i], client);
      FlatMapSnoc(NodeLeaves(u, client), nodes[..i], nodes[i]);
      assert nodes[..i + 1] == nodes[..i] + [nodes[i]];
    }
    assert nodes[..|nodes|] == nodes;
  }

  /** The groups of a profile of several nodes, or of none. */
  method PushGroups(outbounds: seq<Outbound>, u: User, nodes: seq<Node>, client: Client) returns (outs: seq<Outbound>)
    requires |nodes| != 1
    ensures outs == outbounds + EntryGroups(u, nodes, client)
  {
    var groups: seq<Outbound> := [];
    for i := 0 to |nodes|
      invariant groups == FlatMap(NodeGroups(u, client), nodes[..i])
    {
      groups := groups + NodeGroups(u, client)(nodes[i]);
      FlatMapSnoc(NodeGroups(u, client), nodes[..i], nodes[i]);
      assert nodes[..i + 1] == nodes[..i] + [nodes[i]];
    }
    assert nodes[..|nodes|] == nodes;
    outs := outbounds + (groups + [UrlTest(AUTO_ALL, FlatMap(Candidates(u, client), nodes)),
                                   Selector(ENTRY, [AUTO_ALL] + Map((n: Node) => n.name, nodes), Some(AUTO_ALL))]);
  }

  method BuildProfile(u: User, nodes: seq<Node>, suffix: string, exits: seq<Exit>, client: Client)
    returns (p: Profile)
    ensures p == Compile(u, nodes, suffix, exits, client)
  {
    var outs := PushNodes(u, nodes, client);
    if |nodes| == 1 {
      outs := outs + EntryGroups(u, nodes, client);
    } else {
      outs := PushGroups(outs, u, nodes, client);
    }
    outs := PushExits(outs, UsableExits(u, exits));
    p := Profile(outs, DnsServers(nodes, client), suffix, "ts-dns", Resolver(u), Resolver(u), RULES,
                 Final(u, exits));
  }
}
