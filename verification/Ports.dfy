/**
 * The port an exit listens on (packages/vpn/src/exit.ts), in JavaScript's arithmetic, and the check
 * that no two exits on one node share it (packages/infra/src/main.ts).
 */
module Ports {
  import opened Prelude
  import opened Text

  const TWO32: int := 0x1_0000_0000
  const SAFE: int := 0x20_0000_0000_0000

  // ----- JavaScript's operators

  /** `>>> 0` */
  function ToUint32(x: int): (r: nat)
    ensures r < TWO32
  {
    x % TWO32
  }

  function ToInt32(x: int): (r: int)
    ensures -TWO32 / 2 <= r < TWO32 / 2
  {
    var u := ToUint32(x);
    if u < TWO32 / 2 then u else u - TWO32
  }

  /** `h << 5`: the low bits of a signed 32-bit word, moved up, and read as signed again. */
  function ShiftLeft5(h: int): int { ToInt32(ToInt32(h) * 32) }

  /** `charCodeAt(0)` of one code point: itself, or the first of its two surrogates. */
  function CodeUnit(c: char): (r: nat)
    ensures r < 0x10000
  {
    var v := c as int;
    if v < 0x10000 then v else 0xD800 + (v - 0x10000) / 0x400
  }

  // ----- the hash

  /** The polynomial the loop evaluates, in unbounded arithmetic. */
  function Djb2(name: string): nat {
    if name == "" then 5381 else 33 * Djb2(name[..|name| - 1]) + CodeUnit(name[|name| - 1])
  }

  /** A character of one code unit is its code point; of two, the first carries the upper ten bits. */
  lemma CodeUnitSpelled(c: char)
    ensures c as int < 0x10000 ==> CodeUnit(c) == c as int
    ensures c as int >= 0x10000 ==>
      && 0xD800 <= CodeUnit(c) < 0xDC00
      && 0 <= c as int - 0x10000 - (CodeUnit(c) - 0xD800) * 0x400 < 0x400
  {}

  function Power33(n: nat): nat { if n == 0 then 1 else 33 * Power33(n - 1) }

  /** The code points of a name, each by a power of 33: the last by 1, the one before it by 33, and so on. */
  function Weighed(name: string): nat {
    if name == "" then 0 else name[0] as int * Power33(|name| - 1) + Weighed(name[1..])
  }

  lemma {:induction false} WeighedSnoc(name: string, c: char)
    ensures Weighed(name + [c]) == 33 * Weighed(name) + c as int
  {
    if name == "" {
      assert "" + [c] == [c] && [c][1..] == "" && Power33(0) == 1;
    } else {
      assert (name + [c])[1..] == name[1..] + [c] && (name + [c])[0] == name[0];
      WeighedSnoc(name[1..], c);
      assert Power33(|name|) == 33 * Power33(|name| - 1);
    }
  }

  /** The hash in closed form. */
  lemma {:induction false} HashOfCodePoints(name: string)
    requires forall c :: c in name ==> c as int < 0x10000
    ensures Djb2(name) == 5381 * Power33(|name|) + Weighed(name)
  {
    if name != "" {
      var n := |name| - 1;
      forall c | c in name[..n] ensures c as int < 0x10000 { assert c in name; }
      HashOfCodePoints(name[..n]);
      assert name[n] in name;
      WeighedSnoc(name[..n], name[n]);
      assert name == name[..n] + [name[n]];
    }
  }

  /** One turn of the loop is exact in a double, and is a turn of the polynomial modulo 2^32. */
  lemma TurnExact(h: nat, c: char)
    requires h < TWO32
    ensures -SAFE < ShiftLeft5(h) + h < SAFE && -SAFE < ShiftLeft5(h) + h + CodeUnit(c) < SAFE
    ensures ToUint32(ShiftLeft5(h) + h + CodeUnit(c)) == (33 * h + CodeUnit(c)) % TWO32
  {
    SameModulo(h);
    var k :| ShiftLeft5(h) == 32 * h + k * TWO32;
    AddMultiple(33 * h + CodeUnit(c), k);
  }

  /** The port in closed form. */
  lemma PortOfCodePoints(name: string)
    requires forall c :: c in name ==> c as int < 0x10000
    ensures DerivedPort(name) == 20000 + (5381 * Power33(|name|) + Weighed(name)) % 4294967296 % 10000
  {
    HashOfCodePoints(name);
  }

  lemma SameModulo(h: nat)
    requires h < TWO32
    ensures exists k :: ShiftLeft5(h) == 32 * h + k * TWO32
  {
    var s := ToInt32(h);
    assert s == h || s == h - TWO32;
    var t := s * 32;
    assert t == ToUint32(t) + (t / TWO32) * TWO32;
    var j := if s == h then 0 else -32;
    assert t == 32 * h + j * TWO32;
    var i := if ToInt32(t) == ToUint32(t) then 0 else -1;
    assert ToInt32(t) == 32 * h + (j - t / TWO32 + i) * TWO32;
  }

  lemma AddMultiple(x: int, k: int)
    ensures (x + k * TWO32) % TWO32 == x % TWO32
  {}

  lemma PolyTurn(p: nat, c: nat)
    ensures (33 * (p % TWO32) + c) % TWO32 == (33 * p + c) % TWO32
  {
    var q := p / TWO32;
    assert p == q * TWO32 + p % TWO32;
    AddMultiple(33 * (p % TWO32) + c, 33 * q);
  }

  function DerivedPort(name: string): nat { 20000 + Djb2(name) % TWO32 % 10000 }

  /** The port is the polynomial's, wherever the loop wraps. */
  method DeriveExitPort(name: string) returns (port: nat)
    ensures port == DerivedPort(name)
    ensures 20000 <= port <= 29999
  {
    var h: nat := 5381;
    for i := 0 to |name|
      invariant h == Djb2(name[..i]) % TWO32
    {
      TurnExact(h, name[i]);
      PolyTurn(Djb2(name[..i]), CodeUnit(name[i]));
      assert name[..i + 1][..i] == name[..i];
      h := ToUint32(ShiftLeft5(h) + h + CodeUnit(name[i]));
    }
    assert name[..|name|] == name;
    port := 20000 + h % 10000;
  }

  // ----- one port a node

  datatype ExitConf = ExitConf(name: string, node: string, port: Option<nat>)

  function PortOf(e: ExitConf): nat {
    if e.port.Some? then e.port.value else DerivedPort(e.name)
  }

  function Bind(e: ExitConf): string { e.node + ":" + Decimal(PortOf(e)) }

  function Binds(exits: seq<ExitConf>): seq<string> { Map(Bind, exits) }

  /** `new Set(binds).size === binds.length` */
  predicate Accepted(exits: seq<ExitConf>) {
    |set b | b in Binds(exits)| == |Binds(exits)|
  }

  lemma {:induction false} SetSize(s: seq<string>)
    ensures |set x | x in s| <= |s|
    ensures |set x | x in s| == |s| <==> Distinct(s)
  {
    if s != [] {
      SetSize(s[1..]);
      var rest := set x | x in s[1..];
      assert (set x | x in s) == rest + {s[0]};
    }
  }

  lemma DigitsNoColon(n: nat)
    ensures ':' !in Decimal(n)
  {}

  lemma BindsApart(a: ExitConf, b: ExitConf)
    ensures Bind(a) == Bind(b) <==> a.node == b.node && PortOf(a) == PortOf(b)
  {
    DigitsNoColon(PortOf(a));
    DigitsNoColon(PortOf(b));
    LastSeparator(a.node, Decimal(PortOf(a)), b.node, Decimal(PortOf(b)), ':');
    DecimalInjective(PortOf(a), PortOf(b));
  }

  /** Exits are accepted exactly when no two on one node have one port, whatever the nodes are called. */
  lemma AcceptedIffNoClash(exits: seq<ExitConf>)
    ensures Accepted(exits) <==>
      forall i, j :: 0 <= i < j < |exits| && exits[i].node == exits[j].node ==> PortOf(exits[i]) != PortOf(exits[j])
  {
    SetSize(Binds(exits));
    DistinctPairs(Binds(exits));
    forall i, j | 0 <= i < j < |exits|
      ensures Binds(exits)[i] == Binds(exits)[j] <==> exits[i].node == exits[j].node && PortOf(exits[i]) == PortOf(exits[j])
    {
      BindsApart(exits[i], exits[j]);
    }
  }
}
