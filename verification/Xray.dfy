/**
 * What the gateway lets a connected client dial (packages/vpn/src/xray.ts), for destinations given
 * as addresses, and how that fits the profile the client was given.
 */
module Xray {
  import opened Prelude
  import opened Roster
  import opened Net

  datatype Network = Tcp | Udp

  datatype Dest = Dest(addr: Addr, port: nat, network: Network)

  /** A routing rule; a field that is not given matches everything. */
  datatype RoutingRule = RoutingRule(users: Option<seq<string>>, ips: Option<seq<Cidr>>, networks: Option<set<Network>>, tag: string)

  /** An entry of `finalRules`; all of them allow. */
  datatype FinalRule = Allow(networks: Option<set<Network>>, port: Option<nat>, ips: seq<Cidr>)

  function Block6(high: nat, len: nat): Cidr { Cidr(V6(high * 0x1_0000_0000_0000_0000_0000_0000_0000), len) }

  const GUEST_DENY_CIDRS: seq<Cidr> := [
    Cidr(Quad(100, 64, 0, 0), 10),
    Cidr(V6(0xfd7a_115c_a1e0_0000_0000_0000_0000_0000), 48),
    Cidr(Quad(127, 0, 0, 0), 8),
    Cidr(Quad(0, 0, 0, 0), 8),
    Cidr(V6(1), 128),
    Cidr(Quad(10, 0, 0, 0), 8),
    Cidr(Quad(172, 16, 0, 0), 12),
    Cidr(Quad(192, 168, 0, 0), 16),
    Cidr(Quad(169, 254, 0, 0), 16),
    Block6(0xfc00, 7)
  ]

  const FREEDOM_FINAL_RULES: seq<FinalRule> := [
    Allow(Some({Tcp, Udp}), Some(53), [Cidr(Quad(127, 0, 0, 1), 32)]),
    Allow(None, None, [Cidr(Quad(100, 64, 0, 0), 10), Cidr(V6(0xfd7a_115c_a1e0_0000_0000_0000_0000_0000), 48)])
  ]

  function Guests(users: seq<User>): seq<string> {
    Map((u: User) => u.name, Filter((u: User) => u.role.Guest?, users))
  }

  function RoutingRules(users: seq<User>): seq<RoutingRule> {
    (if Guests(users) != [] then [RoutingRule(Some(Guests(users)), Some(GUEST_DENY_CIDRS), None, "block")] else [])
    + [RoutingRule(None, None, Some({Tcp, Udp}), "direct")]
  }

  predicate RuleMatches(r: RoutingRule, user: string, d: Dest) {
    && (r.users.Some? ==> user in r.users.value)
    && (r.ips.Some? ==> InAny(r.ips.value, d.addr))
    && (r.networks.Some? ==> d.network in r.networks.value)
  }

  /** The first rule that matches names the outbound; the first outbound takes what is left. */
  function Route(rules: seq<RoutingRule>, user: string, d: Dest): string {
    if rules == [] then "direct"
    else if RuleMatches(rules[0], user, d) then rules[0].tag
    else Route(rules[1..], user, d)
  }

  predicate FinalMatches(r: FinalRule, d: Dest) {
    && (r.networks.Some? ==> d.network in r.networks.value)
    && (r.port.Some? ==> d.port == r.port.value)
    && InAny(r.ips, d.addr)
  }

  predicate FinallyAllowed(rules: seq<FinalRule>, d: Dest) {
    rules != [] && (FinalMatches(rules[0], d) || FinallyAllowed(rules[1..], d))
  }

  /** Whether the client's connection is dialled; `isPrivate` is Xray's own list of private addresses. */
  predicate Dialled(users: seq<User>, user: string, d: Dest, isPrivate: Addr -> bool) {
    Route(RoutingRules(users), user, d) == "direct" && (FinallyAllowed(FREEDOM_FINAL_RULES, d) || !isPrivate(d.addr))
  }

  /** Every user's credential under their name; `mint` stands for the one the deployment holds for it. */
  method Credentials(users: seq<User>, mint: string -> string) returns (uuids: map<string, string>)
    ensures uuids.Keys == set u | u in users :: u.name
    ensures forall u :: u in users ==> uuids[u.name] == mint(u.name)
  {
    uuids := map[];
    for i := 0 to |users|
      invariant uuids.Keys == set u | u in users[..i] :: u.name
      invariant forall u :: u in users[..i] ==> uuids[u.name] == mint(u.name)
    {
      uuids := uuids[users[i].name := mint(users[i].name)];
      assert users[..i + 1] == users[..i] + [users[i]];
    }
    assert users[..|users|] == users;
  }

  // ----- who may dial what

  predicate IsGuest(users: seq<User>, user: string) {
    exists u :: u in users && u.name == user && u.role.Guest?
  }

  lemma GuestsNamed(users: seq<User>, user: string)
    ensures user in Guests(users) <==> IsGuest(users, user)
  {
    var guests := Filter((u: User) => u.role.Guest?, users);
    if user in Guests(users) {
      var i :| 0 <= i < |guests| && Guests(users)[i] == user;
      assert guests[i] in guests && guests[i].name == user;
    }
    if IsGuest(users, user) {
      var u :| u in users && u.name == user && u.role.Guest?;
      assert u in guests;
      var i :| 0 <= i < |guests| && guests[i] == u;
      assert Guests(users)[i] == user;
    }
  }

  lemma RouteCases(users: seq<User>, user: string, d: Dest)
    ensures Route(RoutingRules(users), user, d) ==
      if IsGuest(users, user) && InAny(GUEST_DENY_CIDRS, d.addr) then "block" else "direct"
  {
    GuestsNamed(users, user);
    var direct := RoutingRule(None, None, Some({Tcp, Udp}), "direct");
    assert d.network == Tcp || d.network == Udp;
    assert RuleMatches(direct, user, d);
    assert [direct][1..] == [];
    assert Route([direct], user, d) == "direct";
    if Guests(users) != [] {
      var deny := RoutingRule(Some(Guests(users)), Some(GUEST_DENY_CIDRS), None, "block");
      assert RoutingRules(users) == [deny] + [direct] && RoutingRules(users)[1..] == [direct];
    } else {
      assert RoutingRules(users) == [direct];
    }
  }

  lemma Whole(a: Addr, b: Addr)
    requires a.V4? && b.V4?
    ensures Contains(Cidr(a, 32), b) <==> a == b
  {
    assert Pow2(0) == 1;
    Quotient(a.bits, 0, 1);
    Quotient(b.bits, 0, 1);
  }

  lemma AllowedCases(d: Dest)
    ensures FinallyAllowed(FREEDOM_FINAL_RULES, d) <==> (d.addr == LOOPBACK && d.port == 53) || InTailnet(d.addr)
  {
    var dns, tailnet := FREEDOM_FINAL_RULES[0], FREEDOM_FINAL_RULES[1];
    assert FREEDOM_FINAL_RULES[1..] == [tailnet] && [tailnet][1..] == [];
    assert !FinallyAllowed([], d);
    assert FinallyAllowed([tailnet], d) <==> FinalMatches(tailnet, d);
    if d.addr.V4? { Whole(LOOPBACK, d.addr); }
    assert d.network == Tcp || d.network == Udp;
    assert InAny(dns.ips, d.addr) <==> Contains(dns.ips[0], d.addr);
    assert tailnet.ips == [TAILNET_V4, TAILNET_V6];
    assert InAny(tailnet.ips, d.addr) <==> Contains(tailnet.ips[0], d.addr) || Contains(tailnet.ips[1], d.addr);
  }

  /**
   * A connection is dialled exactly when its address is public and not on the deny list a guest has,
   * or its user is no guest and it is the gateway's resolver or in the tailnet.
   */
  lemma DialledIff(users: seq<User>, user: string, d: Dest, isPrivate: Addr -> bool)
    ensures Dialled(users, user, d, isPrivate) <==>
      && (IsGuest(users, user) ==> !InAny(GUEST_DENY_CIDRS, d.addr))
      && (isPrivate(d.addr) ==> (d.addr == LOOPBACK && d.port == 53) || InTailnet(d.addr))
  {
    RouteCases(users, user, d);
    AllowedCases(d);
  }

  lemma Slash8(x: nat, a: nat, b: nat, c: nat, d: nat)
    requires x < 256 && a < 256 && b < 256 && c < 256 && d < 256
    ensures Contains(Cidr(Quad(x, 0, 0, 0), 8), Quad(a, b, c, d)) <==> a == x
  {
    Pow2Of16();
    Pow2Sum(16, 8);
    assert Pow2(8) == 256;
    Quotient(a, (b * 256 + c) * 256 + d, 16777216);
    Quotient(x, 0, 16777216);
  }

  lemma Slash16(x: nat, y: nat, a: nat, b: nat, c: nat, d: nat)
    requires x < 256 && y < 256 && a < 256 && b < 256 && c < 256 && d < 256
    ensures Contains(Cidr(Quad(x, y, 0, 0), 16), Quad(a, b, c, d)) <==> a == x && b == y
  {
    Pow2Of16();
    Quotient(a * 256 + b, c * 256 + d, 65536);
    Quotient(x * 256 + y, 0, 65536);
  }

  lemma Private12(a: nat, b: nat, c: nat, d: nat)
    requires a < 256 && b < 256 && c < 256 && d < 256
    ensures Contains(Cidr(Quad(172, 16, 0, 0), 12), Quad(a, b, c, d)) <==> a == 172 && 16 <= b < 32
  {
    Pow2Of16();
    Pow2Sum(16, 4);
    assert Pow2(4) == 16;
    var high, low := a * 16 + b / 16, (b % 16 * 256 + c) * 256 + d;
    assert Quad(a, b, c, d).bits == high * 1048576 + low;
    Quotient(high, low, 1048576);
    assert Quad(172, 16, 0, 0).bits == 2753 * 1048576;
    Quotient(2753, 0, 1048576);
  }

  /** The IPv4 addresses a guest is denied, octet by octet. */
  lemma DeniedByOctet(a: nat, b: nat, c: nat, d: nat)
    requires a < 256 && b < 256 && c < 256 && d < 256
    ensures InAny(GUEST_DENY_CIDRS, Quad(a, b, c, d)) <==>
      || a == 0 || a == 10 || a == 127
      || (a == 100 && 64 <= b < 128) || (a == 172 && 16 <= b < 32)
      || (a == 192 && b == 168) || (a == 169 && b == 254)
  {
    DenyList(Quad(a, b, c, d));
    TailnetByOctet(a, b, c, d);
    Slash8(127, a, b, c, d);
    Slash8(0, a, b, c, d);
    Slash8(10, a, b, c, d);
    Private12(a, b, c, d);
    Slash16(192, 168, a, b, c, d);
    Slash16(169, 254, a, b, c, d);
  }

  /** The IPv6 addresses a guest is denied: the loopback, and fc00:: to fdff::, where the tailnet is. */
  lemma DeniedByHextet(a: nat, b: nat, c: nat, d: nat, e: nat, f: nat, g: nat, h: nat)
    requires AllHextets(a, b, c, d, e, f, g, h)
    ensures InAny(GUEST_DENY_CIDRS, Hextets(a, b, c, d, e, f, g, h)) <==>
      || 0xfc00 <= a < 0xfe00
      || (a == b == c == d == e == f == g == 0 && h == 1)
  {
    DenyList6(Hextets(a, b, c, d, e, f, g, h));
    TailnetByHextet(a, b, c, d, e, f, g, h);
    Loopback6(a, b, c, d, e, f, g, h);
    Private7(a, b, c, d, e, f, g, h);
  }

  lemma DenyList6(x: Addr)
    requires x.V6?
    ensures InAny(GUEST_DENY_CIDRS, x) <==>
      Contains(TAILNET_V6, x) || Contains(Cidr(V6(1), 128), x) || Contains(Block6(0xfc00, 7), x)
  {
    AnyHolds(GUEST_DENY_CIDRS, x);
    AnyOfTen(Holds(x), GUEST_DENY_CIDRS);
  }

  lemma Loopback6(a: nat, b: nat, c: nat, d: nat, e: nat, f: nat, g: nat, h: nat)
    requires AllHextets(a, b, c, d, e, f, g, h)
    ensures Contains(Cidr(V6(1), 128), Hextets(a, b, c, d, e, f, g, h)) <==>
      a == b == c == d == e == f == g == 0 && h == 1
  {
    assert Pow2(0) == 1;
    Quotient(Hextets(a, b, c, d, e, f, g, h).bits, 0, 1);
    Quotient(1, 0, 1);
  }

  lemma Private7(a: nat, b: nat, c: nat, d: nat, e: nat, f: nat, g: nat, h: nat)
    requires AllHextets(a, b, c, d, e, f, g, h)
    ensures Contains(Block6(0xfc00, 7), Hextets(a, b, c, d, e, f, g, h)) <==> 0xfc00 <= a < 0xfe00
  {
    Pow2Of80();
    var unit := 0x1_0000_0000_0000_0000_0000_0000_0000;
    var rest := (((((b * 65536 + c) * 65536 + d) * 65536 + e) * 65536 + f) * 65536 + g) * 65536 + h;
    var high, low := a / 512, (a % 512) * unit + rest;
    assert Hextets(a, b, c, d, e, f, g, h).bits == a * unit + rest;
    assert a * unit + rest == high * (512 * unit) + low;
    Quotient(high, low, 512 * unit);
    assert Block6(0xfc00, 7).base.bits == 126 * (512 * unit);
    Quotient(126, 0, 512 * unit);
  }

  lemma AnyOfTen<T>(f: T -> bool, s: seq<T>)
    requires |s| == 10
    ensures (exists i :: 0 <= i < |s| && f(s[i])) <==>
      f(s[0]) || f(s[1]) || f(s[2]) || f(s[3]) || f(s[4]) || f(s[5]) || f(s[6]) || f(s[7]) || f(s[8]) || f(s[9])
  {}

  function Holds(x: Addr): Cidr -> bool { (c: Cidr) => Contains(c, x) }

  lemma AnyHolds(cs: seq<Cidr>, x: Addr)
    ensures InAny(cs, x) <==> exists i :: 0 <= i < |cs| && Holds(x)(cs[i])
  {
    if i :| 0 <= i < |cs| && Contains(cs[i], x) { assert Holds(x)(cs[i]); }
    if i :| 0 <= i < |cs| && Holds(x)(cs[i]) { assert Contains(cs[i], x); }
  }

  lemma DenyList(x: Addr)
    requires x.V4?
    ensures InAny(GUEST_DENY_CIDRS, x) <==>
      || Contains(TAILNET_V4, x) || Contains(Cidr(Quad(127, 0, 0, 0), 8), x) || Contains(Cidr(Quad(0, 0, 0, 0), 8), x)
      || Contains(Cidr(Quad(10, 0, 0, 0), 8), x) || Contains(Cidr(Quad(172, 16, 0, 0), 12), x)
      || Contains(Cidr(Quad(192, 168, 0, 0), 16), x) || Contains(Cidr(Quad(169, 254, 0, 0), 16), x)
  {
    AnyHolds(GUEST_DENY_CIDRS, x);
    AnyOfTen(Holds(x), GUEST_DENY_CIDRS);
  }
}
