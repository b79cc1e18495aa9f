/**
 * Two routing rules kept in the kernel's table (packages/hetzner/src/tailnet-rule.ts), and where
 * they send packets that another rule's mark would have diverted.
 */
module TailnetRule {
  import opened Prelude
  import opened Text
  import opened Net

  // ----- the kernel

  /** What a rule asks of a packet: a destination, bits of its mark, or anything else, as text. */
  datatype Selector = To(cidr: Cidr) | Fwmark(value: bv32, mask: bv32) | Other(text: string)

  datatype Rule = Rule(pref: nat, selector: Selector, table: nat)

  datatype Packet = Packet(dest: Addr, mark: bv32)

  /** What the routing tables answer, what other selectors mean, and how a rule is listed after its pref. */
  datatype Kernel = Kernel(
    fib: (nat, Addr) -> Option<string>,
    meets: (string, Packet) -> bool,
    shown: Rule -> string)

  predicate Selects(k: Kernel, s: Selector, p: Packet) {
    match s
    case To(cidr) => Contains(cidr, p.dest)
    case Fwmark(value, mask) => p.mark & mask == value
    case Other(text) => k.meets(text, p)
  }

  /** The first rule that selects the packet and whose table has a route for it. */
  function Resolve(k: Kernel, rules: seq<Rule>, p: Packet): Option<string> {
    if rules == [] then None
    else if Selects(k, rules[0].selector, p) && k.fib(rules[0].table, p.dest).Some? then k.fib(rules[0].table, p.dest)
    else Resolve(k, rules[1..], p)
  }

  /** Behind the rules of no greater pref. */
  function Insert(rules: seq<Rule>, r: Rule): seq<Rule> {
    if rules == [] || r.pref < rules[0].pref then [r] + rules else [rules[0]] + Insert(rules[1..], r)
  }

  predicate InOrder(rules: seq<Rule>) {
    rules == [] || ((forall r :: r in rules[1..] ==> rules[0].pref <= r.pref) && InOrder(rules[1..]))
  }

  /** `ip rule list`: a line a rule, the pref and a colon in front. */
  function Listing(k: Kernel, rules: seq<Rule>): seq<string> {
    Map((r: Rule) => Decimal(r.pref) + [':'] + k.shown(r), rules)
  }

  /** `grep -q '^...'` */
  predicate Grep(lines: seq<string>, start: string) {
    exists i :: 0 <= i < |lines| && StartsWith(lines[i], start)
  }

  // ----- the loop

  const TABLE: nat := 52
  const POD_CIDR := Cidr(Quad(10, 42, 0, 0), 16)
  const PODS := Rule(5208, To(POD_CIDR), TABLE)
  const TAILNET := Rule(5209, To(TAILNET_V4), TABLE)

  predicate Has(rules: seq<Rule>, pref: nat) { exists r :: r in rules && r.pref == pref }

  /** One line of the loop: a rule is added unless its pref is taken. */
  function Ensured(rules: seq<Rule>, r: Rule): seq<Rule> {
    if Has(rules, r.pref) then rules else Insert(rules, r)
  }

  function Repaired(rules: seq<Rule>): seq<Rule> { Ensured(Ensured(rules, PODS), TAILNET) }

  /** A listed line starts with a pref and a colon exactly when that is the rule's pref, whole. */
  lemma GrepFindsPref(k: Kernel, rules: seq<Rule>, pref: nat)
    ensures Grep(Listing(k, rules), Decimal(pref) + [':']) <==> Has(rules, pref)
  {
    var lines, start := Listing(k, rules), Decimal(pref) + [':'];
    forall i | 0 <= i < |rules| ensures StartsWith(lines[i], start) <==> rules[i].pref == pref {
      StartsWithPref(rules[i].pref, k.shown(rules[i]), pref);
    }
    if Has(rules, pref) {
      var r :| r in rules && r.pref == pref;
      var i :| 0 <= i < |rules| && rules[i] == r;
      assert StartsWith(lines[i], start);
    }
    if i :| 0 <= i < |lines| && StartsWith(lines[i], start) {
      assert rules[i] in rules;
    }
  }

  lemma StartsWithPref(m: nat, shown: string, n: nat)
    ensures StartsWith(Decimal(m) + [':'] + shown, Decimal(n) + [':']) <==> m == n
  {
    var line, start := Decimal(m) + [':'] + shown, Decimal(n) + [':'];
    if StartsWith(line, start) {
      assert line == start + line[|start|..];
      NoColon(m);
      NoColon(n);
      FirstSeparator(Decimal(m), shown, Decimal(n), line[|start|..], ':');
      DecimalInjective(m, n);
    }
    if m == n { assert line == start + shown; }
  }

  lemma NoColon(n: nat)
    ensures ':' !in Decimal(n)
  {}

  class RuleTable {
    const k: Kernel
    var rules: seq<Rule>

    constructor (k: Kernel, rules: seq<Rule>)
      ensures this.k == k && this.rules == rules
    {
      this.k, this.rules := k, rules;
    }

    /** `ip rule list | grep -q '^pref:' || ip rule add ...` */
    method Ensure(r: Rule)
      modifies this`rules
      ensures rules == Ensured(old(rules), r)
    {
      GrepFindsPref(k, rules, r.pref);
      if !Grep(Listing(k, rules), Decimal(r.pref) + [':']) {
        rules := Insert(rules, r);
      }
    }

    /** One turn of the loop. */
    method Turn()
      modifies this`rules
      ensures rules == Repaired(old(rules))
    {
      Ensure(PODS);
      Ensure(TAILNET);
    }
  }

  /** The two rules as the script spells them, each put in its place if its pref is free. */
  lemma RestoredSpelled(rules: seq<Rule>)
    ensures (forall r :: r in rules ==> r.pref != 5208) ==>
      Rule(5208, To(Cidr(Quad(10, 42, 0, 0), 16)), 52) in Repaired(rules)
    ensures (forall r :: r in rules ==> r.pref != 5209) ==>
      Rule(5209, To(Cidr(Quad(100, 64, 0, 0), 10)), 52) in Repaired(rules)
  {
    InsertAdds(rules, PODS);
    InsertAdds(rules, TAILNET);
    InsertAdds(Ensured(rules, PODS), TAILNET);
  }

  // ----- what the loop restores

  function CountAt(rules: seq<Rule>, pref: nat): nat {
    if rules == [] then 0 else (if rules[0].pref == pref then 1 else 0) + CountAt(rules[1..], pref)
  }

  lemma {:induction false} CountHas(rules: seq<Rule>, pref: nat)
    ensures Has(rules, pref) <==> CountAt(rules, pref) > 0
  {
    if rules != [] {
      CountHas(rules[1..], pref);
      assert rules[0] in rules && forall r :: r in rules <==> r == rules[0] || r in rules[1..];
    }
  }

  lemma {:induction false} InsertAdds(rules: seq<Rule>, r: Rule)
    ensures multiset(Insert(rules, r)) == multiset(rules) + multiset{r}
    ensures forall x :: x in Insert(rules, r) <==> x == r || x in rules
  {
    if rules != [] && r.pref >= rules[0].pref {
      InsertAdds(rules[1..], r);
      assert rules == [rules[0]] + rules[1..];
    }
  }

  lemma {:induction false} InsertInOrder(rules: seq<Rule>, r: Rule)
    requires InOrder(rules)
    ensures InOrder(Insert(rules, r))
  {
    if rules != [] && r.pref >= rules[0].pref {
      InsertInOrder(rules[1..], r);
      InsertAdds(rules[1..], r);
      assert Insert(rules, r)[1..] == Insert(rules[1..], r);
    } else {
      assert ([r] + rules)[1..] == rules;
    }
  }

  lemma {:induction false} InsertCounts(rules: seq<Rule>, r: Rule, pref: nat)
    ensures CountAt(Insert(rules, r), pref) == CountAt(rules, pref) + if r.pref == pref then 1 else 0
  {
    if rules != [] && r.pref >= rules[0].pref {
      InsertCounts(rules[1..], r, pref);
      assert Insert(rules, r)[1..] == Insert(rules[1..], r);
    } else {
      assert ([r] + rules)[1..] == rules;
    }
  }

  predicate Ours(r: Rule) { r == PODS || r == TAILNET }

  /**
   * A turn puts a rule back exactly when its pref was free or already its own; it never adds a second
   * at a pref, never drops or reorders another's, and a turn right after it does nothing.
   */
  lemma TurnRestores(rules: seq<Rule>, r: Rule)
    requires Ours(r) && InOrder(rules)
    ensures var now := Repaired(rules);
            && (r in now <==> r in rules || !Has(rules, r.pref))
            && CountAt(now, r.pref) == (if CountAt(rules, r.pref) == 0 then 1 else CountAt(rules, r.pref))
            && multiset(now) == multiset(rules) + (if Has(rules, PODS.pref) then multiset{} else multiset{PODS})
                                + (if Has(rules, TAILNET.pref) then multiset{} else multiset{TAILNET})
            && InOrder(now) && Repaired(now) == now
  {
    EnsuredKeeps(rules, PODS, r.pref);
    EnsuredKeeps(Ensured(rules, PODS), TAILNET, r.pref);
    EnsuredHas(rules, PODS, TAILNET.pref);
    EnsuredHas(Ensured(rules, PODS), TAILNET, PODS.pref);
    EnsuredHas(Ensured(rules, PODS), TAILNET, TAILNET.pref);
    EnsuredHas(rules, PODS, PODS.pref);
  }

  lemma EnsuredHas(rules: seq<Rule>, r: Rule, pref: nat)
    ensures Has(Ensured(rules, r), pref) <==> Has(rules, pref) || pref == r.pref
  {
    InsertAdds(rules, r);
    if Has(rules, pref) {
      var x :| x in rules && x.pref == pref;
      assert x in Ensured(rules, r);
    }
    if !Has(rules, r.pref) { assert r in Ensured(rules, r); }
  }

  lemma EnsuredKeeps(rules: seq<Rule>, r: Rule, pref: nat)
    requires InOrder(rules)
    ensures var now := Ensured(rules, r);
            && InOrder(now)
            && (forall x :: x in now <==> x in rules || (x == r && !Has(rules, r.pref)))
            && CountAt(now, pref) == (if pref == r.pref && CountAt(rules, pref) == 0 then 1 else CountAt(rules, pref))
            && multiset(now) == multiset(rules) + if Has(rules, r.pref) then multiset{} else multiset{r}
  {
    CountHas(rules, pref);
    if !Has(rules, r.pref) {
      InsertAdds(rules, r);
      InsertInOrder(rules, r);
      InsertCounts(rules, r, pref);
    }
  }

  // ----- any run, with others editing the table between any two commands

  datatype Step =
    | Look(mine: Rule)
    | Add
    | Lose(index: nat)
    | Gain(theirs: Rule)

  /** The table, and the rule the loop has found missing and is about to add. */
  datatype Watch = Watch(rules: seq<Rule>, due: Option<Rule>)

  function Next(s: Watch, step: Step): Watch {
    match step
    case Look(mine) => s.(due := if Has(s.rules, mine.pref) then None else Some(mine))
    case Add => if s.due.Some? then Watch(Insert(s.rules, s.due.value), None) else s
    case Lose(i) => if i < |s.rules| then s.(rules := s.rules[..i] + s.rules[i + 1..]) else s
    case Gain(theirs) => s.(rules := Insert(s.rules, theirs))
  }

  function After(s: Watch, steps: seq<Step>): Watch
    decreases |steps|
  {
    if steps == [] then s else After(Next(s, steps[0]), steps[1..])
  }

  /** The four commands of a turn, with nobody in between, are the turn. */
  lemma UndisturbedTurn(rules: seq<Rule>)
    ensures After(Watch(rules, None), [Look(PODS), Add, Look(TAILNET), Add]) == Watch(Repaired(rules), None)
  {
    var steps := [Look(PODS), Add, Look(TAILNET), Add];
    var s1 := Next(Watch(rules, None), steps[0]);
    var s2 := Next(s1, steps[1]);
    var s3 := Next(s2, steps[2]);
    var s4 := Next(s3, steps[3]);
    assert s2 == Watch(Ensured(rules, PODS), None) && s4 == Watch(Repaired(rules), None);
    assert steps[1..] == [Add, Look(TAILNET), Add] && steps[1..][1..] == [Look(TAILNET), Add];
    assert steps[1..][1..][1..] == [Add] && steps[1..][1..][1..][1..] == [];
    assert After(s3, [Add]) == After(s4, []);
    assert After(s2, [Look(TAILNET), Add]) == After(s3, [Add]);
    assert After(s1, [Add, Look(TAILNET), Add]) == After(s2, [Look(TAILNET), Add]);
  }

  /** The loop looks for its own rules, and nobody else adds at their prefs. */
  predicate Fair(step: Step) {
    && (step.Look? ==> Ours(step.mine))
    && (step.Gain? ==> step.theirs.pref != PODS.pref && step.theirs.pref != TAILNET.pref)
  }

  /** Each of the two prefs holds its own rule, at most once, or nothing. */
  predicate Clean(rules: seq<Rule>) {
    && InOrder(rules)
    && CountAt(rules, PODS.pref) <= 1 && CountAt(rules, TAILNET.pref) <= 1
    && forall r :: r in rules && (r.pref == PODS.pref || r.pref == TAILNET.pref) ==> Ours(r)
  }

  predicate Sound(s: Watch) {
    Clean(s.rules) && (s.due.Some? ==> Ours(s.due.value) && !Has(s.rules, s.due.value.pref))
  }

  lemma {:induction false} DropCounts(rules: seq<Rule>, i: nat, pref: nat)
    requires i < |rules|
    ensures var now := rules[..i] + rules[i + 1..];
            && CountAt(now, pref) <= CountAt(rules, pref)
            && (forall r :: r in now ==> r in rules)
            && (InOrder(rules) ==> InOrder(now))
  {
    var now := rules[..i] + rules[i + 1..];
    if i == 0 {
      assert now == rules[1..];
    } else {
      DropCounts(rules[1..], i - 1, pref);
      var rest := rules[1..][..i - 1] + rules[1..][i..];
      assert now[0] == rules[0] && now[1..] == rest;
    }
  }

  lemma AddSound(rules: seq<Rule>, r: Rule)
    requires Clean(rules) && (Ours(r) ==> !Has(rules, r.pref))
    requires r.pref == PODS.pref || r.pref == TAILNET.pref ==> Ours(r)
    ensures Clean(Insert(rules, r))
  {
    InsertAdds(rules, r);
    InsertInOrder(rules, r);
    InsertCounts(rules, r, PODS.pref);
    InsertCounts(rules, r, TAILNET.pref);
    CountHas(rules, PODS.pref);
    CountHas(rules, TAILNET.pref);
  }

  lemma StepSound(s: Watch, step: Step)
    requires Sound(s) && Fair(step)
    ensures Sound(Next(s, step))
  {
    match step
    case Look(_) =>
    case Add => if s.due.Some? { AddSound(s.rules, s.due.value); }
    case Lose(i) =>
      if i < |s.rules| {
        DropCounts(s.rules, i, PODS.pref);
        DropCounts(s.rules, i, TAILNET.pref);
      }
    case Gain(theirs) =>
      AddSound(s.rules, theirs);
      InsertAdds(s.rules, theirs);
  }

  /**
   * However the table is edited between the loop's commands, neither rule is ever there twice and
   * nothing else sits at its pref; and from any point, one undisturbed turn has both in place.
   */
  lemma {:induction false} NeverTwiceAlwaysRestored(s: Watch, steps: seq<Step>)
    requires Sound(s) && forall i :: 0 <= i < |steps| ==> Fair(steps[i])
    ensures var now := After(s, steps).rules;
            && CountAt(now, PODS.pref) <= 1 && CountAt(now, TAILNET.pref) <= 1
            && PODS in Repaired(now) && TAILNET in Repaired(now) && Clean(Repaired(now))
    decreases |steps|
  {
    if steps == [] {
      TurnClean(s.rules);
    } else {
      StepSound(s, steps[0]);
      NeverTwiceAlwaysRestored(Next(s, steps[0]), steps[1..]);
    }
  }

  lemma TurnClean(rules: seq<Rule>)
    requires Clean(rules)
    ensures Clean(Repaired(rules)) && PODS in Repaired(rules) && TAILNET in Repaired(rules)
  {
    TurnRestores(rules, PODS);
    TurnRestores(rules, TAILNET);
    EnsuredKeeps(rules, PODS, PODS.pref);
    EnsuredKeeps(Ensured(rules, PODS), TAILNET, TAILNET.pref);
  }

  // ----- where packets go

  predicate Steered(k: Kernel, p: Packet) {
    (Contains(POD_CIDR, p.dest) || Contains(TAILNET_V4, p.dest)) && k.fib(TABLE, p.dest).Some?
  }

  function Under(n: nat): Rule -> bool { (r: Rule) => r.pref < n }

  function From(n: nat): Rule -> bool { (r: Rule) => r.pref >= n }

  function Theirs(): Rule -> bool { (r: Rule) => !Ours(r) }

  lemma {:induction false} ResolveConcat(k: Kernel, a: seq<Rule>, b: seq<Rule>, p: Packet)
    ensures Resolve(k, a + b, p) == if Resolve(k, a, p).Some? then Resolve(k, a, p) else Resolve(k, b, p)
  {
    if a == [] {
      assert a + b == b;
    } else {
      assert (a + b)[1..] == a[1..] + b;
      ResolveConcat(k, a[1..], b, p);
    }
  }

  lemma {:induction false} SplitAtPref(rules: seq<Rule>, n: nat)
    requires InOrder(rules)
    ensures rules == Filter(Under(n), rules) + Filter(From(n), rules)
  {
    if rules != [] {
      if rules[0].pref < n {
        SplitAtPref(rules[1..], n);
        assert rules == [rules[0]] + rules[1..];
      } else {
        FilterNone(Under(n), rules);
        FilterAll(From(n), rules);
      }
    }
  }

  lemma {:induction false} FromInOrder(rules: seq<Rule>, n: nat)
    requires InOrder(rules)
    ensures InOrder(Filter(From(n), rules))
  {
    if rules != [] { FromInOrder(rules[1..], n); }
  }

  /** Among its own rules a packet resolves by destination alone. */
  lemma {:induction false} OwnRules(k: Kernel, rules: seq<Rule>, p: Packet)
    requires forall r :: r in rules ==> Ours(r)
    ensures Resolve(k, rules, p) ==
      if k.fib(TABLE, p.dest).Some?
         && ((PODS in rules && Contains(POD_CIDR, p.dest)) || (TAILNET in rules && Contains(TAILNET_V4, p.dest)))
      then k.fib(TABLE, p.dest) else None
  {
    if rules != [] {
      assert rules[0] in rules && forall r :: r in rules <==> r == rules[0] || r in rules[1..];
      OwnRules(k, rules[1..], p);
    }
  }

  /** The table in three: what comes before the two rules, the two rules, and the rest. */
  lemma InThree(rules: seq<Rule>) returns (before: seq<Rule>, own: seq<Rule>, rest: seq<Rule>)
    requires Clean(rules)
    ensures rules == before + own + rest && before == Filter(Under(PODS.pref), rules)
    ensures (forall r :: r in before ==> !Ours(r)) && (forall r :: r in rest ==> !Ours(r))
    ensures forall r :: r in own <==> r in rules && Ours(r)
  {
    before := Filter(Under(PODS.pref), rules);
    var on := Filter(From(PODS.pref), rules);
    SplitAtPref(rules, PODS.pref);
    own, rest := Filter(Under(TAILNET.pref + 1), on), Filter(From(TAILNET.pref + 1), on);
    SplitAgain(rules, PODS.pref, TAILNET.pref + 1);
  }

  lemma SplitAgain(rules: seq<Rule>, n: nat, m: nat)
    requires InOrder(rules)
    ensures var on := Filter(From(n), rules); on == Filter(Under(m), on) + Filter(From(m), on)
  {
    FromInOrder(rules, n);
    SplitAtPref(Filter(From(n), rules), m);
  }

  lemma {:induction false} FilterSkips<T>(f: T -> bool, own: seq<T>, rest: seq<T>)
    requires forall x :: x in own ==> !f(x)
    ensures Filter(f, own + rest) == Filter(f, rest)
  {
    if own == [] {
      assert own + rest == rest;
    } else {
      assert (own + rest)[1..] == own[1..] + rest;
      FilterSkips(f, own[1..], rest);
    }
  }

  lemma {:induction false} FilterKeeps<T>(f: T -> bool, before: seq<T>, rest: seq<T>)
    requires forall x :: x in before ==> f(x)
    ensures Filter(f, before + rest) == before + Filter(f, rest)
  {
    if before == [] {
      assert before + rest == rest;
    } else {
      assert (before + rest)[1..] == before[1..] + rest;
      FilterKeeps(f, before[1..], rest);
    }
  }

  lemma TheirsRemain(before: seq<Rule>, own: seq<Rule>, rest: seq<Rule>)
    requires (forall r :: r in before ==> !Ours(r)) && (forall r :: r in rest ==> !Ours(r))
    requires forall r :: r in own ==> Ours(r)
    ensures Filter(Theirs(), before + own + rest) == before + rest
  {
    assert before + own + rest == before + (own + rest);
    FilterKeeps(Theirs(), before, own + rest);
    FilterSkips(Theirs(), own, rest);
    FilterAll(Theirs(), rest);
  }

  /**
   * The whole effect of the two rules: past whatever is decided before them, a packet to the tailnet
   * or the pod network takes its route in the tailnet's table if it has one there, whatever its mark.
   * Every other packet resolves as if the rules were not there.
   */
  lemma RulesSteerExactly(k: Kernel, rules: seq<Rule>, p: Packet)
    requires Clean(rules) && PODS in rules && TAILNET in rules
    ensures var before := Resolve(k, Filter(Under(PODS.pref), rules), p);
            Resolve(k, rules, p) ==
              if before.None? && Steered(k, p) then k.fib(TABLE, p.dest)
              else Resolve(k, Filter(Theirs(), rules), p)
  {
    var before, own, rest := InThree(rules);
    TheirsRemain(before, own, rest);
    ResolveConcat(k, before + own, rest, p);
    ResolveConcat(k, before, own, p);
    ResolveConcat(k, before, rest, p);
    OwnRules(k, own, p);
  }

  // ----- the collision

  /** What marks a packet as tailscaled's own, and the table those go to. */
  const BYPASS := Fwmark(0x80000, 0xff0000)

  /** A mark with the sender's identity in its upper half. */
  function Stamped(identity: bv32, low: bv32): bv32 { (identity << 16) | low }

  /** The bypass mark is hit by exactly the identities that are 8 modulo 256. */
  lemma BypassByIdentity(k: Kernel, p: Packet, identity: bv32, low: bv32)
    requires identity < 0x10000 && low < 0x10000 && p.mark == Stamped(identity, low)
    ensures Selects(k, BYPASS, p) <==> identity % 256 == 8
  {}

  /**
   * A table without the two rules diverts a packet for the tailnet to the main table exactly when
   * its sender's identity collides; one turn of the loop ends that for every identity.
   */
  lemma TurnEndsDiversion(k: Kernel, rules: seq<Rule>, rest: seq<Rule>, main: nat, p: Packet, identity: bv32, low: bv32)
    requires identity < 0x10000 && low < 0x10000 && p.mark == Stamped(identity, low)
    requires Clean(rules) && !Has(rules, PODS.pref) && !Has(rules, TAILNET.pref)
    requires Filter(From(PODS.pref), rules) == [Rule(5210, BYPASS, main)] + rest
    requires Resolve(k, Filter(Under(PODS.pref), rules), p).None? && Steered(k, p)
    requires k.fib(main, p.dest).Some? && k.fib(main, p.dest) != k.fib(TABLE, p.dest)
    requires Resolve(k, rest, p) == k.fib(TABLE, p.dest)
    ensures Resolve(k, rules, p) != k.fib(TABLE, p.dest) <==> identity % 256 == 8
    ensures Resolve(k, Repaired(rules), p) == k.fib(TABLE, p.dest)
  {
    BypassByIdentity(k, p, identity, low);
    SplitAtPref(rules, PODS.pref);
    ResolveConcat(k, Filter(Under(PODS.pref), rules), Filter(From(PODS.pref), rules), p);
    assert ([Rule(5210, BYPASS, main)] + rest)[1..] == rest;
    TurnClean(rules);
    BeforeUntouched(rules, PODS);
    EnsuredKeeps(rules, PODS, 0);
    BeforeUntouched(Ensured(rules, PODS), TAILNET);
    RulesSteerExactly(k, Repaired(rules), p);
  }

  lemma {:induction false} InsertBehind(rules: seq<Rule>, r: Rule, n: nat)
    requires r.pref >= n
    ensures Filter(Under(n), Insert(rules, r)) == Filter(Under(n), rules)
  {
    if rules != [] && r.pref >= rules[0].pref {
      InsertBehind(rules[1..], r, n);
      assert Insert(rules, r)[1..] == Insert(rules[1..], r);
    } else {
      assert ([r] + rules)[1..] == rules;
    }
  }

  lemma BeforeUntouched(rules: seq<Rule>, r: Rule)
    requires r.pref >= PODS.pref
    ensures Filter(Under(PODS.pref), Ensured(rules, r)) == Filter(Under(PODS.pref), rules)
  {
    InsertBehind(rules, r, PODS.pref);
  }

  /** The pod network, octet by octet. */
  lemma PodsByOctet(a: nat, b: nat, c: nat, d: nat)
    requires a < 256 && b < 256 && c < 256 && d < 256
    ensures Contains(POD_CIDR, Quad(a, b, c, d)) <==> a == 10 && b == 42
  {
    Pow2Of16();
    Quotient(a * 256 + b, c * 256 + d, 65536);
    Quotient(10 * 256 + 42, 0, 65536);
  }

  /**
   * With the rules in place and no earlier one routing the packet, 10.42.x.x and 100.64 to 100.127 go
   * where table 52 says, if it says anything; and no other address is touched.
   */
  lemma SteeredByOctet(k: Kernel, rules: seq<Rule>, a: nat, b: nat, c: nat, d: nat, mark: bv32)
    requires a < 256 && b < 256 && c < 256 && d < 256 && Clean(rules) && PODS in rules && TAILNET in rules
    requires Resolve(k, Filter(Under(5208), rules), Packet(Quad(a, b, c, d), mark)).None?
    ensures var p := Packet(Quad(a, b, c, d), mark);
            Resolve(k, rules, p) ==
              if ((a == 10 && b == 42) || (a == 100 && 64 <= b < 128)) && k.fib(52, p.dest).Some? then k.fib(52, p.dest)
              else Resolve(k, Filter(Theirs(), rules), p)
  {
    RulesSteerExactly(k, rules, Packet(Quad(a, b, c, d), mark));
    PodsByOctet(a, b, c, d);
    TailnetByOctet(a, b, c, d);
  }
}
