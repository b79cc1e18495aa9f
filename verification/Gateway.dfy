/**
 * The two ends of the tunnel together: what a profile sends into it (packages/vpn/src/singbox.ts)
 * against what the gateway then dials (packages/vpn/src/xray.ts).
 */
module Gateway {
  import opened Prelude
  import opened Roster
  import opened Net
  import Profile
  import opened ProfileTags
  import opened ProfileRouting
  import Xray

  predicate NamesApart(users: seq<User>) {
    forall u, v :: u in users && v in users && u.name == v.name ==> u == v
  }

  lemma GuestByRole(users: seq<User>, u: User)
    requires NamesApart(users) && u in users
    ensures Xray.IsGuest(users, u.name) <==> u.role.Guest?
  {}

  lemma TailnetDenied(a: Addr)
    requires InTailnet(a)
    ensures InAny(Xray.GUEST_DENY_CIDRS, a)
  {
    assert Xray.GUEST_DENY_CIDRS[0] == TAILNET_V4 && Xray.GUEST_DENY_CIDRS[1] == TAILNET_V6;
  }

  /**
   * The tailnet a profile routes to the entry is the tailnet the gateway dials: every such flow is
   * dialled for an admin, and none for a guest.
   */
  lemma TailnetFlowsDialled(users: seq<User>, u: User, pkt: Packet, net: Xray.Network, final: string,
                            isPrivate: Addr -> bool)
    requires NamesApart(users) && u in users
    requires InTailnet(pkt.dest)
    ensures Decide(Profile.RULES, pkt, false, final) == Forward(Profile.ENTRY) || (pkt.dest.V4? && pkt.dns)
    ensures Xray.Dialled(users, u.name, Xray.Dest(pkt.dest, pkt.port, net), isPrivate) <==> u.role.Admin?
  {
    DecideCases(pkt, final);
    GuestByRole(users, u);
    TailnetDenied(pkt.dest);
    Xray.DialledIff(users, u.name, Xray.Dest(pkt.dest, pkt.port, net), isPrivate);
  }

  /** How a resolver is dialled at the far end. */
  function ResolverDest(s: Profile.DnsServer): Xray.Dest
    requires s.address.Some?
  {
    if s.tag == "cf-doh" then Xray.Dest(s.address.value, 443, Xray.Tcp) else Xray.Dest(s.address.value, 53, Xray.Udp)
  }

  /**
   * The resolver a profile names can be reached through the gateway, except the tailnet's by a
   * guest: names under the tailnet's suffix are answered for admins alone.
   */
  lemma ResolversReached(users: seq<User>, u: User, nodes: seq<Profile.Node>, suffix: string,
                         exits: seq<Profile.Exit>,
                         client: Profile.Client, underSuffix: bool, isPrivate: Addr -> bool)
    requires NamesApart(users) && u in users
    requires !isPrivate(Quad(1, 1, 1, 1))
    ensures var server := ServerOf(Profile.Compile(u, nodes, suffix, exits, client), underSuffix);
            && server.Some? && server.value.address.Some?
            && (Xray.Dialled(users, u.name, ResolverDest(server.value), isPrivate) <==> u.role.Admin? || !underSuffix)
  {
    ServerCases(u, nodes, suffix, exits, client, underSuffix);
    var server := ServerOf(Profile.Compile(u, nodes, suffix, exits, client), underSuffix).value;
    GuestByRole(users, u);
    Xray.DialledIff(users, u.name, ResolverDest(server), isPrivate);
    TailnetByOctet(100, 100, 100, 100);
    Xray.DeniedByOctet(100, 100, 100, 100);
    Xray.DeniedByOctet(1, 1, 1, 1);
  }
}
