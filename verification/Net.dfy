/** IP addresses and CIDR blocks, as the routing code compares them. */
module Net {
  /** An address as an integer: below 2^32 for IPv4, below 2^128 for IPv6. */
  datatype Addr = V4(bits: nat) | V6(bits: nat)

  /** `base/len`; `base` need not be the lowest address of the block. */
  datatype Cidr = Cidr(base: Addr, len: nat)

  function Pow2(n: nat): (r: nat)
    ensures r > 0
  {
    if n == 0 then 1 else 2 * Pow2(n - 1)
  }

  function Width(a: Addr): nat {
    if a.V4? then 32 else 128
  }

  predicate Contains(c: Cidr, a: Addr) {
    && c.base.V4? == a.V4?
    && c.len <= Width(a)
    && a.bits / Pow2(Width(a) - c.len) == c.base.bits / Pow2(Width(a) - c.len)
  }

  predicate InAny(cs: seq<Cidr>, a: Addr) {
    exists i :: 0 <= i < |cs| && Contains(cs[i], a)
  }

  function Quad(a: nat, b: nat, c: nat, d: nat): Addr {
    V4(((a * 256 + b) * 256 + c) * 256 + d)
  }

  const LOOPBACK := Quad(127, 0, 0, 1)

  /** 100.64.0.0/10 and fd7a:115c:a1e0::/48, the two ranges a tailnet assigns from. */
  const TAILNET_V4 := Cidr(Quad(100, 64, 0, 0), 10)
  const TAILNET_V6 := Cidr(V6(0xfd7a_115c_a1e0_0000_0000_0000_0000_0000), 48)

  predicate InTailnet(a: Addr) {
    Contains(TAILNET_V4, a) || Contains(TAILNET_V6, a)
  }

  /** Eight groups of sixteen bits, as an IPv6 address is written. */
  function Hextets(a: nat, b: nat, c: nat, d: nat, e: nat, f: nat, g: nat, h: nat): Addr {
    V6(((((((a * 65536 + b) * 65536 + c) * 65536 + d) * 65536 + e) * 65536 + f) * 65536 + g) * 65536 + h)
  }

  predicate AllHextets(a: nat, b: nat, c: nat, d: nat, e: nat, f: nat, g: nat, h: nat) {
    a < 65536 && b < 65536 && c < 65536 && d < 65536 && e < 65536 && f < 65536 && g < 65536 && h < 65536
  }

  lemma Pow2Of80()
    ensures Pow2(80) == 0x1_0000_0000_0000_0000_0000
    ensures Pow2(112) == 0x1_0000_0000_0000_0000_0000_0000_0000
    ensures Pow2(121) == 512 * 0x1_0000_0000_0000_0000_0000_0000_0000
  {
    Pow2Of32();
    Pow2Product(32, 32, 64);
    Pow2Of16();
    Pow2Product(64, 16, 80);
    Pow2Product(80, 32, 112);
    Pow2Product(112, 9, 121);
    Pow2Of9();
  }

  lemma Pow2Of32()
    ensures Pow2(32) == 0x1_0000_0000
  {
    Pow2Of16();
    Pow2Product(16, 16, 32);
  }

  lemma Pow2Of9()
    ensures Pow2(9) == 512
  {}

  lemma Pow2Product(m: nat, n: nat, sum: nat)
    requires sum == m + n
    ensures Pow2(sum) == Pow2(m) * Pow2(n)
  {
    Pow2Sum(m, n);
  }

  /** fd7a:115c:a1e0:: and everything that starts like it. */
  lemma TailnetByHextet(a: nat, b: nat, c: nat, d: nat, e: nat, f: nat, g: nat, h: nat)
    requires AllHextets(a, b, c, d, e, f, g, h)
    ensures Contains(TAILNET_V6, Hextets(a, b, c, d, e, f, g, h)) <==> a == 0xfd7a && b == 0x115c && c == 0xa1e0
  {
    Pow2Of80();
    var high, low := (a * 65536 + b) * 65536 + c, (((d * 65536 + e) * 65536 + f) * 65536 + g) * 65536 + h;
    assert Hextets(a, b, c, d, e, f, g, h).bits == high * 0x1_0000_0000_0000_0000_0000 + low;
    Quotient(high, low, 0x1_0000_0000_0000_0000_0000);
    assert TAILNET_V6.base.bits == 0xfd7a_115c_a1e0 * 0x1_0000_0000_0000_0000_0000;
    Quotient(0xfd7a_115c_a1e0, 0, 0x1_0000_0000_0000_0000_0000);
  }

  lemma Pow2Of16()
    ensures Pow2(16) == 65536 && Pow2(22) == 4194304
  {
    Pow2Sum(8, 8);
    Pow2Sum(16, 6);
    assert Pow2(6) == 64 && Pow2(8) == 256;
  }

  lemma {:induction false} Pow2Sum(m: nat, n: nat)
    ensures Pow2(m + n) == Pow2(m) * Pow2(n)
  {
    if n > 0 { Pow2Sum(m, n - 1); }
  }

  lemma Quotient(q: nat, r: nat, k: nat)
    requires r < k
    ensures (q * k + r) / k == q
  {
    var d, rest := (q * k + r) / k, (q * k + r) % k;
    assert (d - q) * k == r - rest;
    if d < q { AtLeast(q - d, k); }
    if d > q { AtLeast(d - q, k); }
  }

  lemma AtLeast(m: nat, k: nat)
    requires m > 0
    ensures m * k >= k
  {}

  /** 100.64.0.0 to 100.127.255.255. */
  lemma TailnetByOctet(a: nat, b: nat, c: nat, d: nat)
    requires a < 256 && b < 256 && c < 256 && d < 256
    ensures Contains(TAILNET_V4, Quad(a, b, c, d)) <==> a == 100 && 64 <= b < 128
  {
    Pow2Of16();
    var high, low := a * 4 + b / 64, (b % 64 * 256 + c) * 256 + d;
    assert ((a * 256 + b) * 256 + c) * 256 + d == high * 4194304 + low;
    Quotient(high, low, 4194304);
    assert Quad(100, 64, 0, 0).bits == 401 * 4194304;
    Quotient(401, 0, 4194304);
  }
}
