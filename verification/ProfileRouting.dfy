/** Where a compiled profile sends a packet and a DNS query. */
module ProfileRouting {
  import opened Prelude
  import opened Roster
  import opened Net
  import opened Profile
  import opened ProfileTags
  import opened ProfileGraph
  import opened ProfilePaths

  /** A flow as the tun sees it; that it speaks DNS is known only once it has been sniffed. */
  datatype Packet = Packet(dest: Addr, port: nat, dns: bool)

  datatype Verdict = Forward(tag: string) | Hijacked | Refused

  predicate Matches(m: Match, pkt: Packet, sniffed: bool) {
    match m
    case InCidr(cidr) => Contains(cidr, pkt.dest)
    case V6Port(port) => pkt.dest.V6? && pkt.port == port
    case AnyV6 => pkt.dest.V6?
    case AnyFlow => true
    case DnsProtocol => sniffed && pkt.dns
  }

  /** The first matching rule decides, except that sniffing only looks and goes on. */
  function Decide(rules: seq<Rule>, pkt: Packet, sniffed: bool, final: string): Verdict {
    if rules == [] then Forward(final)
    else if !Matches(rules[0].match_, pkt, sniffed) then Decide(rules[1..], pkt, sniffed, final)
    else
      match rules[0].action
      case RouteTo(tag) => Forward(tag)
      case HijackDns => Hijacked
      case Reject => Refused
      case Sniff => Decide(rules[1..], pkt, true, final)
  }

  /** The rules, tail by tail, so that `Decide` unfolds one at a time. */
  lemma RuleTails()
    ensures RULES[1..] == [RULES[1], RULES[2], RULES[3], RULES[4], RULES[5]]
    ensures RULES[1..][1..] == [RULES[2], RULES[3], RULES[4], RULES[5]]
    ensures RULES[1..][1..][1..] == [RULES[3], RULES[4], RULES[5]]
    ensures RULES[1..][1..][1..][1..] == [RULES[4], RULES[5]]
    ensures RULES[1..][1..][1..][1..][1..] == [RULES[5]]
    ensures RULES[1..][1..][1..][1..][1..][1..] == []
  {}

  lemma DecideCases(pkt: Packet, final: string)
    ensures Decide(RULES, pkt, false, final) ==
            if pkt.dest.V6? then
              if InTailnet(pkt.dest) then Forward(ENTRY) else if pkt.port == 53 then Hijacked else Refused
            else
              if pkt.dns then Hijacked else Forward(if InTailnet(pkt.dest) then ENTRY else final)
  {
    RuleTails();
    var r1 := RULES[1..];
    var r2 := r1[1..];
    var r3 := r2[1..];
    var r4 := r3[1..];
    var r5 := r4[1..];
    assert Decide(r5[1..], pkt, true, final) == Forward(final);
    assert Decide(r5, pkt, true, final) ==
           if Contains(TAILNET_V4, pkt.dest) then Forward(ENTRY) else Forward(final);
    assert Decide(r4, pkt, true, final) == if pkt.dns then Hijacked else Decide(r5, pkt, true, final);
    assert Decide(r3, pkt, false, final) == Decide(r4, pkt, true, final);
    assert Decide(r2, pkt, false, final) == if pkt.dest.V6? then Refused else Decide(r3, pkt, false, final);
    assert Decide(r1, pkt, false, final) ==
           if pkt.dest.V6? && pkt.port == 53 then Hijacked else Decide(r2, pkt, false, final);
  }

  /** The path a flow takes, or `None` when it is answered or refused at the tun. */
  function Carry(p: Profile, c: Choice, pkt: Packet, fuel: nat): Option<seq<Outbound>> {
    match Decide(p.rules, pkt, false, p.final)
    case Forward(tag) => Resolve(p.outbounds, c, tag, fuel)
    case Hijacked => None
    case Refused => None
  }

  /**
   * Whatever the exit picker says, tailnet traffic enters through one leaf and crosses no exit,
   * and IPv6 bound anywhere else never leaves the tun.
   */
  lemma TailnetCrossesNoExit(u: User, nodes: seq<Node>, suffix: string, exits: seq<Exit>,
                             client: Client,
                             c: Choice, pkt: Packet, fuel: nat)
    requires CleanNames(u, nodes, exits, client) && fuel >= 4
    requires ValidChoice(Compile(u, nodes, suffix, exits, client).outbounds, c)
    ensures var r := Carry(Compile(u, nodes, suffix, exits, client), c, pkt, fuel);
            && (InTailnet(pkt.dest) && (pkt.dest.V6? || !pkt.dns) ==>
                  r.Some? && |r.value| == 1 && IsEntry(u, nodes, client, r.value[0]))
            && (pkt.dest.V6? && !InTailnet(pkt.dest) ==> r.None?)
  {
    DecideCases(pkt, Final(u, exits));
    EntryResolves(u, nodes, exits, client, c, fuel);
  }

  // ----- DNS

  function FindServer(servers: seq<DnsServer>, tag: string): Option<DnsServer> {
    if servers == [] then None
    else if servers[0].tag == tag then Some(servers[0])
    else FindServer(servers[1..], tag)
  }

  /** The server a query goes to, given whether its name lies under the MagicDNS suffix. */
  function ServerOf(p: Profile, underSuffix: bool): Option<DnsServer> {
    FindServer(p.dnsServers, if underSuffix then p.suffixServer else p.dnsFinal)
  }

  lemma ServerCases(u: User, nodes: seq<Node>, suffix: string, exits: seq<Exit>, client: Client,
                    underSuffix: bool)
    ensures ServerOf(Compile(u, nodes, suffix, exits, client), underSuffix) ==
            Some(DnsServers(nodes, client)[if underSuffix then 2 else if u.role.Admin? then 0 else 1])
  {
    var servers := DnsServers(nodes, client);
    assert |"ts-dns"| == 6 && |"gw-cache"| == 8 && "gw-cache"[0] == 'g' && "cf-doh"[0] == 'c' && "ts-dns"[0] == 't';
    var tag := if underSuffix then "ts-dns" else Resolver(u);
    var rest := servers[1..];
    assert rest[0] == servers[1] && rest[1..][0] == servers[2];
    assert FindServer(rest[1..], "ts-dns") == Some(servers[2]);
    assert FindServer(rest, tag) == if tag == "cf-doh" then Some(servers[1]) else FindServer(rest[1..], tag);
  }

  /** Names under the suffix are asked of the tailnet, others of the gateway's cache, or of 1.1.1.1 by a guest. */
  lemma QueriesGoTo(u: User, nodes: seq<Node>, suffix: string, exits: seq<Exit>, client: Client, underSuffix: bool)
    ensures ServerOf(Compile(u, nodes, suffix, exits, client), underSuffix) ==
      Some(if underSuffix then DnsServer("ts-dns", Some(Quad(100, 100, 100, 100)), Some("entry-select"))
           else if u.role.Admin? then DnsServer("gw-cache", Some(Quad(127, 0, 0, 1)), Some("entry-select"))
           else DnsServer("cf-doh", Some(Quad(1, 1, 1, 1)), Some("entry-select")))
    ensures Compile(u, nodes, suffix, exits, client).suffix == suffix
    ensures DnsServer("local", None, None) in Compile(u, nodes, suffix, exits, client).dnsServers
            <==> client.Sbr? && exists n :: n in nodes && n.xhttp.Some?
  {
    ServerCases(u, nodes, suffix, exits, client, underSuffix);
    var servers := DnsServers(nodes, client);
    assert DnsServer("local", None, None) in servers <==> |servers| == 4;
  }

  /** Every query is answered by a defined server, over one entry and no exit. */
  lemma DnsCrossesNoExit(u: User, nodes: seq<Node>, suffix: string, exits: seq<Exit>, client: Client,
                         c: Choice, underSuffix: bool, fuel: nat)
    requires CleanNames(u, nodes, exits, client) && fuel >= 4
    requires ValidChoice(Compile(u, nodes, suffix, exits, client).outbounds, c)
    ensures var p := Compile(u, nodes, suffix, exits, client);
            var server := ServerOf(p, underSuffix);
            && server.Some? && server.value.detour.Some?
            && var r := Resolve(p.outbounds, c, server.value.detour.value, fuel);
              r.Some? && |r.value| == 1 && IsEntry(u, nodes, client, r.value[0])
  {
    ServerCases(u, nodes, suffix, exits, client, underSuffix);
    EntryResolves(u, nodes, exits, client, c, fuel);
  }

  // ----- references outside the outbounds

  predicate TagDefined(p: Profile, tag: string) {
    Find(p.outbounds, tag).Some?
  }

  lemma {:induction false} FindDefined(outs: seq<Outbound>, o: Outbound)
    requires o in outs
    ensures Find(outs, o.tag).Some?
  {
    if outs[0].tag != o.tag { FindDefined(outs[1..], o); }
  }

  /** Every outbound the routes and the DNS servers name is defined. */
  lemma PickersDefined(u: User, nodes: seq<Node>, suffix: string, exits: seq<Exit>, client: Client)
    ensures var p := Compile(u, nodes, suffix, exits, client); TagDefined(p, ENTRY) && TagDefined(p, p.final)
  {
    var p := Compile(u, nodes, suffix, exits, client);
    var entry := EntryPickerIn(u, nodes, client);
    FindDefined(p.outbounds, entry);
    var final := FinalIn(u, nodes, exits, client);
    FindDefined(p.outbounds, final);
    assert p.final == final.tag;
  }

  lemma RoutesDefined(u: User, nodes: seq<Node>, suffix: string, exits: seq<Exit>, client: Client)
    ensures var p := Compile(u, nodes, suffix, exits, client);
            && TagDefined(p, p.final)
            && (forall r :: r in p.rules && r.action.RouteTo? ==> TagDefined(p, r.action.tag))
            && (forall s :: s in p.dnsServers && s.detour.Some? ==> TagDefined(p, s.detour.value))
  {
    var p := Compile(u, nodes, suffix, exits, client);
    PickersDefined(u, nodes, suffix, exits, client);
    forall r | r in p.rules && r.action.RouteTo? ensures r.action.tag == ENTRY {
      assert r == RULES[0] || r == RULES[5];
    }
    forall s | s in p.dnsServers && s.detour.Some? ensures s.detour.value == ENTRY {
      DetourIsEntry(nodes, client, s);
    }
  }

  lemma DetourIsEntry(nodes: seq<Node>, client: Client, s: DnsServer)
    requires s in DnsServers(nodes, client) && s.detour.Some?
    ensures s.detour.value == ENTRY
  {}

  /**
   * Every DNS server the profile names is defined, and the one an XHTTP leaf names needs no
   * tunnel, so that entry can come up when no other one works.
   */
  lemma ResolversDefined(u: User, nodes: seq<Node>, suffix: string, exits: seq<Exit>, client: Client)
    ensures var p := Compile(u, nodes, suffix, exits, client);
            && FindServer(p.dnsServers, p.suffixServer).Some?
            && FindServer(p.dnsServers, p.dnsFinal).Some?
            && FindServer(p.dnsServers, p.defaultResolver).Some?
            && forall o :: o in p.outbounds && o.Xhttp? ==> DnsServer(o.domainResolver, None, None) in p.dnsServers
  {
    var p := Compile(u, nodes, suffix, exits, client);
    ServerCases(u, nodes, suffix, exits, client, true);
    ServerCases(u, nodes, suffix, exits, client, false);
    forall o | o in p.outbounds && o.Xhttp? ensures DnsServer(o.domainResolver, None, None) in p.dnsServers {
      XhttpResolver(u, nodes, exits, client, o);
    }
  }

  lemma XhttpResolver(u: User, nodes: seq<Node>, exits: seq<Exit>, client: Client, o: Outbound)
    requires o in Outbounds(u, nodes, exits, client) && o.Xhttp?
    ensures DnsServer(o.domainResolver, None, None) in DnsServers(nodes, client)
  {
    Classify(u, nodes, exits, client, o);
    var n := NodeLeafOf(u, nodes, client, o);
    XhttpLeafOf(u, client, n, o);
  }

  /** A selector starts on its first member, and has no default only when it has no member. */
  lemma SelectorDefault(u: User, nodes: seq<Node>, exits: seq<Exit>, client: Client, o: Outbound)
    requires o in Outbounds(u, nodes, exits, client) && o.Selector?
    ensures o.default == First(o.members)
  {
    Classify(u, nodes, exits, client, o);
    if o in EntryGroups(u, nodes, client) {
      EntryDefault(u, nodes, client, o);
    } else {
      ExitDefault(UsableExits(u, exits), o);
    }
  }

  lemma EntryDefault(u: User, nodes: seq<Node>, client: Client, o: Outbound)
    requires o in EntryGroups(u, nodes, client) && o.Selector?
    ensures o.default == First(o.members)
  {
    if |nodes| != 1 && o in FlatMap(NodeGroups(u, client), nodes) {
      var n := NodeGroupOf(u, nodes, client, o);
      NodeGroupIs(u, client, n, o);
    }
  }

  lemma ExitDefault(exits: seq<Exit>, o: Outbound)
    requires o in ExitGroups(exits) && o.Selector?
    ensures o.default == First(o.members)
  {}
}
