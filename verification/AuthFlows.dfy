/** The flow a callback is bound to: used once, by the browser it was started for. */
module AuthFlows {
  import opened Prelude
  import opened AuthIdentity
  import opened AuthProtocol

  function StartedIds(xs: seq<Started>): seq<string> { Map((x: Started) => x.id, xs) }
  function TakenIds(xs: seq<Taken>): seq<string> { Map((x: Taken) => x.id, xs) }
  function VerdictIds(xs: seq<Verdict>): seq<string> { Map((x: Verdict) => x.id, xs) }

  /** The flow a thread holds, once it has taken one. */
  function FlowOf(pc: Pc): Option<Started> {
    match pc
    case Exchanging(id, flow) => Some(Started(id, flow))
    case CallbackReject(id, flow, _) => Some(Started(id, flow))
    case CallbackAccept(id, flow, _) => Some(Started(id, flow))
    case _ => None
  }

  /** A flow was started, and taken by a callback that presented its own csrf value as `state`. */
  predicate Matched(l: Ledger, held: Started) {
    held in l.started && Taken(held.id, held.flow.csrf) in l.taken
  }

  predicate Backed(l: Ledger, v: Verdict) {
    exists i :: 0 <= i < |l.started| && l.started[i].id == v.id && l.started[i].flow.challenge == v.challenge
                && Matched(l, l.started[i])
  }

  predicate LedgerSound(l: Ledger) {
    && Distinct(StartedIds(l.started)) && Distinct(TakenIds(l.taken)) && Distinct(VerdictIds(l.verdicts))
    && (forall v :: v in l.verdicts ==> Backed(l, v))
  }

  predicate WaitingSound(s: State) {
    && (forall id :: id in s.flows ==>
          Started(id, s.flows[id]) in s.ledger.started && id !in TakenIds(s.ledger.taken))
    && (forall id :: id in TakenIds(s.ledger.taken) ==> id in StartedIds(s.ledger.started))
  }

  predicate HeldApart(a: Option<Started>, b: Option<Started>) {
    a.Some? && b.Some? ==> a.value.id != b.value.id
  }

  predicate ThreadsSound(s: State) {
    && (forall t :: t in s.threads && FlowOf(s.threads[t]).Some? ==>
          && Matched(s.ledger, FlowOf(s.threads[t]).value)
          && FlowOf(s.threads[t]).value.id !in VerdictIds(s.ledger.verdicts))
    && (forall t, u :: t in s.threads && u in s.threads && t != u ==>
          HeldApart(FlowOf(s.threads[t]), FlowOf(s.threads[u])))
  }

  predicate Sound(s: State) {
    LedgerSound(s.ledger) && WaitingSound(s) && ThreadsSound(s)
  }

  lemma DistinctSnoc<T>(xs: seq<T>, x: T)
    ensures Distinct(xs + [x]) <==> Distinct(xs) && x !in xs
  {
    DistinctConcat(xs, [x]);
    ApartMembers(xs, [x]);
    assert [x][1..] == [];
  }

  lemma MapSnoc<A, B>(f: A -> B, xs: seq<A>, x: A)
    ensures Map(f, xs + [x]) == Map(f, xs) + [f(x)]
  {}

  lemma IdIn<A>(f: A -> string, xs: seq<A>, x: A)
    ensures x in xs ==> f(x) in Map(f, xs)
  {
    if x in xs {
      var i :| 0 <= i < |xs| && xs[i] == x;
      assert Map(f, xs)[i] == f(x);
    }
  }

  lemma VerdictWasTaken(l: Ledger, id: string)
    requires LedgerSound(l) && id in VerdictIds(l.verdicts)
    ensures id in TakenIds(l.taken)
  {
    var i :| 0 <= i < |l.verdicts| && VerdictIds(l.verdicts)[i] == id;
    assert l.verdicts[i] in l.verdicts && Backed(l, l.verdicts[i]);
    var j :| 0 <= j < |l.started| && l.started[j].id == id && Matched(l, l.started[j]);
    IdIn((x: Taken) => x.id, l.taken, Taken(id, l.started[j].flow.csrf));
  }

  // ----- the steps that touch flows

  lemma CreateKeepsSound(s: State, id: string, flow: Flow)
    requires Sound(s) && FreshId(s, id)
    ensures Sound(s.(flows := s.flows[id := flow],
                     ledger := s.ledger.(started := s.ledger.started + [Started(id, flow)])))
  {
    var l, added := s.ledger, Started(id, flow);
    var after := s.(flows := s.flows[id := flow], ledger := l.(started := l.started + [added]));
    MapSnoc((x: Started) => x.id, l.started, added);
    DistinctSnoc(StartedIds(l.started), id);
    assert id !in StartedIds(l.started) && id !in TakenIds(l.taken);
    MoreStarted(l, added);
    assert WaitingSound(after) by {
      forall k | k in after.flows
        ensures Started(k, after.flows[k]) in after.ledger.started && k !in TakenIds(l.taken)
      {
        if k != id { assert Started(k, s.flows[k]) in l.started; }
      }
    }
  }

  lemma MoreStarted(l: Ledger, added: Started)
    ensures forall held :: Matched(l, held) ==> Matched(l.(started := l.started + [added]), held)
    ensures forall v :: Backed(l, v) ==> Backed(l.(started := l.started + [added]), v)
  {
    var after := l.(started := l.started + [added]);
    forall v | Backed(l, v) ensures Backed(after, v) {
      var i :| 0 <= i < |l.started| && l.started[i].id == v.id && l.started[i].flow.challenge == v.challenge
               && Matched(l, l.started[i]);
      assert after.started[i] == l.started[i];
    }
  }

  lemma MoreTaken(l: Ledger, added: Taken)
    ensures forall held :: Matched(l, held) ==> Matched(l.(taken := l.taken + [added]), held)
    ensures forall v :: Backed(l, v) ==> Backed(l.(taken := l.taken + [added]), v)
  {
    var after := l.(taken := l.taken + [added]);
    forall v | Backed(l, v) ensures Backed(after, v) {
      var i :| 0 <= i < |l.started| && l.started[i].id == v.id && l.started[i].flow.challenge == v.challenge
               && Matched(l, l.started[i]);
      assert Matched(after, after.started[i]);
    }
  }

  lemma TakeKeepsSound(s: State, cookie: string, state: string)
    requires Sound(s) && cookie in s.flows
    ensures Sound(s.(flows := s.flows - {cookie}, ledger := s.ledger.(taken := s.ledger.taken + [Taken(cookie, state)])))
  {
    var l, added := s.ledger, Taken(cookie, state);
    var after := s.(flows := s.flows - {cookie}, ledger := l.(taken := l.taken + [added]));
    MapSnoc((x: Taken) => x.id, l.taken, added);
    DistinctSnoc(TakenIds(l.taken), cookie);
    IdIn((x: Started) => x.id, l.started, Started(cookie, s.flows[cookie]));
    MoreTaken(l, added);
  }

  lemma HoldKeepsSound(s: State, t: nat, cookie: string, state: string)
    requires Sound(s) && cookie in s.flows && t !in s.threads && s.flows[cookie].csrf == state
    ensures Sound(At(s.(flows := s.flows - {cookie},
                        ledger := s.ledger.(taken := s.ledger.taken + [Taken(cookie, state)])),
                     t, Exchanging(cookie, s.flows[cookie])))
  {
    var l, held := s.ledger, Started(cookie, s.flows[cookie]);
    TakeKeepsSound(s, cookie, state);
    var rest := s.(flows := s.flows - {cookie}, ledger := l.(taken := l.taken + [Taken(cookie, state)]));
    var after := At(rest, t, Exchanging(cookie, s.flows[cookie]));
    if cookie in VerdictIds(l.verdicts) { VerdictWasTaken(l, cookie); assert false; }
    assert Matched(after.ledger, held);
    forall u | u in s.threads && FlowOf(s.threads[u]).Some?
      ensures FlowOf(s.threads[u]).value.id != cookie
    {
      var other := FlowOf(s.threads[u]).value;
      assert Matched(l, other);
      IdIn((x: Taken) => x.id, l.taken, Taken(other.id, other.flow.csrf));
    }
  }

  lemma JudgeKeepsSound(s: State, t: nat, accepted: bool)
    requires Sound(s) && t in s.threads && FlowOf(s.threads[t]).Some?
    ensures var held := FlowOf(s.threads[t]).value;
            Sound(Done(Judge(s, held.id, held.flow.challenge, accepted), t))
  {
    var l, held := s.ledger, FlowOf(s.threads[t]).value;
    var v := Verdict(held.id, held.flow.challenge, accepted);
    var after := Done(Judge(s, held.id, held.flow.challenge, accepted), t);
    MapSnoc((x: Verdict) => x.id, l.verdicts, v);
    DistinctSnoc(VerdictIds(l.verdicts), held.id);
    SameBacking(l, after.ledger);
    assert Matched(l, held);
    var i :| 0 <= i < |l.started| && l.started[i] == held;
    assert Backed(l, v);
  }

  lemma SameBacking(l: Ledger, m: Ledger)
    requires l.started == m.started && l.taken == m.taken
    ensures forall held :: Matched(l, held) == Matched(m, held)
    ensures forall v :: Backed(l, v) == Backed(m, v)
  {
    forall v ensures Backed(l, v) == Backed(m, v) {
      forall i | 0 <= i < |l.started| ensures Matched(l, l.started[i]) == Matched(m, m.started[i]) {}
    }
  }

  /** A step that moves one thread without touching flows, nor what it holds. */
  lemma QuietKeepsSound(s: State, after: State, t: nat)
    requires Sound(s) && after.flows == s.flows
    requires after.ledger.started == s.ledger.started && after.ledger.taken == s.ledger.taken
    requires after.ledger.verdicts == s.ledger.verdicts
    requires forall u :: u != t && u in after.threads ==> u in s.threads && after.threads[u] == s.threads[u]
    requires t in after.threads ==>
               FlowOf(after.threads[t]).None? || (t in s.threads && FlowOf(s.threads[t]) == FlowOf(after.threads[t]))
    ensures Sound(after)
  {
    SameBacking(s.ledger, after.ledger);
  }

  lemma FewerFlowsSound(s: State, id: string)
    requires Sound(s)
    ensures Sound(s.(flows := s.flows - {id}))
  {}

  // ----- every step, every run

  lemma FlowStepKeepsSound(cfg: Config, s: State, a: Action)
    requires a.CreateFlow? || a.RejectCallback? || a.AcceptCallback?
    requires Sound(s) && a.t in s.threads && StepThread(cfg, s, a, s.threads[a.t]).Some?
    ensures Sound(StepThread(cfg, s, a, s.threads[a.t]).value)
  {
    var t, pc := a.t, s.threads[a.t];
    var after := StepThread(cfg, s, a, pc).value;
    if a.CreateFlow? {
      var flow := Flow(a.csrf, pc.challenge);
      var stored := s.(flows := s.flows[a.id := flow],
                       ledger := s.ledger.(started := s.ledger.started + [Started(a.id, flow)]));
      CreateKeepsSound(s, a.id, flow);
      assert after == Done(stored, t);
      QuietKeepsSound(stored, after, t);
    } else if a.RejectCallback? {
      JudgeKeepsSound(s, t, false);
    } else {
      JudgeKeepsSound(s, t, true);
      QuietKeepsSound(Done(Judge(s, pc.id, pc.flow.challenge, true), t), after, t);
    }
  }

  /** A thread that holds no flow moves on, with fewer sessions perhaps. */
  lemma MoveKeepsSound(s: State, after: State, t: nat, pc: Pc)
    requires Sound(s) && FlowOf(pc).None?
    requires after.flows == s.flows && after.ledger == s.ledger && after.threads == s.threads[t := pc]
    ensures Sound(after)
  {
    QuietKeepsSound(s, after, t);
  }

  lemma RevokeStepKeepsSound(cfg: Config, s: State, a: Action)
    requires a.RevokeConsents? || a.RevokeLogin?
    requires Sound(s) && a.t in s.threads && StepThread(cfg, s, a, s.threads[a.t]).Some?
    ensures Sound(StepThread(cfg, s, a, s.threads[a.t]).value)
  {
    var pc := RevokeStep(cfg, s, a);
    MoveKeepsSound(s, StepThread(cfg, s, a, s.threads[a.t]).value, a.t, pc);
  }

  lemma ExchangeStepKeepsSound(cfg: Config, s: State, a: Action)
    requires a.NoCode? || a.ExchangeCode?
    requires Sound(s) && a.t in s.threads && StepThread(cfg, s, a, s.threads[a.t]).Some?
    ensures Sound(StepThread(cfg, s, a, s.threads[a.t]).value)
  {
    QuietKeepsSound(s, StepThread(cfg, s, a, s.threads[a.t]).value, a.t);
  }

  lemma LastStepKeepsSound(cfg: Config, s: State, a: Action)
    requires a.RejectSkip? || a.AcceptSkip? || a.RejectConsent? || a.GrantConsent? || a.GrantApproval?
    requires Sound(s) && a.t in s.threads && StepThread(cfg, s, a, s.threads[a.t]).Some?
    ensures Sound(StepThread(cfg, s, a, s.threads[a.t]).value)
  {
    QuietKeepsSound(s, StepThread(cfg, s, a, s.threads[a.t]).value, a.t);
  }

  lemma OutsideStepKeepsSound(cfg: Config, s: State, a: Action)
    requires a.OpenLogin? || a.OpenConsent? || a.Forget? || a.Fail?
    requires Sound(s) && Step(cfg, s, a).Some?
    ensures Sound(Step(cfg, s, a).value)
  {
    QuietKeepsSound(s, Step(cfg, s, a).value, if a.Fail? then a.t else 0);
  }

  lemma ReadStepKeepsSound(cfg: Config, s: State, a: Action)
    requires a.ReadLogin? || a.ReadConsent? || a.ReadApproval?
    requires Sound(s) && Step(cfg, s, a).Some?
    ensures Sound(Step(cfg, s, a).value)
  {
    var after := Step(cfg, s, a).value;
    if after != s { MoveKeepsSound(s, after, a.t, after.threads[a.t]); }
  }

  lemma TakeStepKeepsSound(cfg: Config, s: State, a: Action)
    requires a.TakeFlow? && Sound(s) && Step(cfg, s, a).Some?
    ensures Sound(Step(cfg, s, a).value)
  {
    if a.cookie in s.flows {
      TakeKeepsSound(s, a.cookie, a.state);
      if s.flows[a.cookie].csrf == a.state { HoldKeepsSound(s, a.t, a.cookie, a.state); }
    }
  }

  lemma ThreadStepKeepsSound(cfg: Config, s: State, a: Action)
    requires a.RevokeConsents? || a.RevokeLogin? || a.NoCode? || a.ExchangeCode? || a.CreateFlow? || a.RejectCallback?
             || a.AcceptCallback? || a.RejectSkip? || a.AcceptSkip? || a.RejectConsent? || a.GrantConsent?
             || a.GrantApproval?
    requires Sound(s) && a.t in s.threads && StepThread(cfg, s, a, s.threads[a.t]).Some?
    ensures Sound(StepThread(cfg, s, a, s.threads[a.t]).value)
  {
    if a.RevokeConsents? || a.RevokeLogin? {
      RevokeStepKeepsSound(cfg, s, a);
    } else if a.NoCode? || a.ExchangeCode? {
      ExchangeStepKeepsSound(cfg, s, a);
    } else if a.CreateFlow? || a.RejectCallback? || a.AcceptCallback? {
      FlowStepKeepsSound(cfg, s, a);
    } else {
      LastStepKeepsSound(cfg, s, a);
    }
  }

  lemma StepKeepsSound(cfg: Config, s: State, a: Action)
    requires Sound(s) && Step(cfg, s, a).Some?
    ensures Sound(Step(cfg, s, a).value)
  {
    match a
    case OpenLogin(_, _) => OutsideStepKeepsSound(cfg, s, a);
    case OpenConsent(_, _) => OutsideStepKeepsSound(cfg, s, a);
    case Forget(_) => OutsideStepKeepsSound(cfg, s, a);
    case Fail(_) => OutsideStepKeepsSound(cfg, s, a);
    case Expire(id) => FewerFlowsSound(s, id);
    case ReadLogin(_, _) => ReadStepKeepsSound(cfg, s, a);
    case ReadConsent(_, _) => ReadStepKeepsSound(cfg, s, a);
    case ReadApproval(_, _) => ReadStepKeepsSound(cfg, s, a);
    case TakeFlow(_, _, _) => TakeStepKeepsSound(cfg, s, a);
    case _ => ThreadStepKeepsSound(cfg, s, a);
  }

  lemma {:induction false} RunKeepsSound(cfg: Config, s: State, acts: seq<Action>)
    requires Sound(s) && Run(cfg, s, acts).Some?
    ensures Sound(Run(cfg, s, acts).value)
    decreases acts
  {
    if acts != [] {
      StepKeepsSound(cfg, s, acts[0]);
      RunKeepsSound(cfg, Step(cfg, s, acts[0]).value, acts[1..]);
    }
  }

  // ----- counting

  /** The ids of the verdicts on one challenge. */
  function JudgedFor(xs: seq<Verdict>, challenge: string): seq<string> {
    if xs == [] then []
    else (if xs[0].challenge == challenge then [xs[0].id] else []) + JudgedFor(xs[1..], challenge)
  }

  function StartedFor(xs: seq<Started>, challenge: string): seq<string> {
    if xs == [] then []
    else (if xs[0].flow.challenge == challenge then [xs[0].id] else []) + StartedFor(xs[1..], challenge)
  }

  lemma {:induction false} JudgedForDistinct(xs: seq<Verdict>, challenge: string)
    requires Distinct(VerdictIds(xs))
    ensures Distinct(JudgedFor(xs, challenge))
    ensures forall id :: id in JudgedFor(xs, challenge) ==>
                         id in VerdictIds(xs) && exists v :: v in xs && v.id == id && v.challenge == challenge
  {
    if xs != [] {
      MapCons((x: Verdict) => x.id, xs);
      JudgedForDistinct(xs[1..], challenge);
      var here, rest := (if xs[0].challenge == challenge then [xs[0].id] else []), JudgedFor(xs[1..], challenge);
      assert xs[0] in xs;
      if here != [] { assert (here + rest)[1..] == rest; } else { assert here + rest == rest; }
    }
  }

  lemma {:induction false} StartedForMember(xs: seq<Started>, x: Started)
    requires x in xs
    ensures x.id in StartedFor(xs, x.flow.challenge)
  {
    if x != xs[0] { StartedForMember(xs[1..], x); }
  }

  lemma {:induction false} DistinctFits(a: seq<string>, b: seq<string>)
    requires Distinct(a) && forall x :: x in a ==> x in b
    ensures |a| <= |b|
  {
    if a != [] {
      assert a[0] in a && forall x :: x in a[1..] ==> x in a;
      var i :| 0 <= i < |b| && b[i] == a[0];
      var less := b[..i] + b[i + 1..];
      forall x | x in a[1..] ensures x in less {
        var j :| 0 <= j < |b| && b[j] == x;
        assert x == less[if j < i then j else j - 1];
      }
      DistinctFits(a[1..], less);
    }
  }

  /** Verdicts on a login challenge never outnumber the flows started for it. */
  lemma VerdictsWithinStarts(l: Ledger, challenge: string)
    requires LedgerSound(l)
    ensures |JudgedFor(l.verdicts, challenge)| <= |StartedFor(l.started, challenge)|
  {
    JudgedForDistinct(l.verdicts, challenge);
    forall id | id in JudgedFor(l.verdicts, challenge) ensures id in StartedFor(l.started, challenge) {
      var v :| v in l.verdicts && v.id == id && v.challenge == challenge;
      assert Backed(l, v);
      var i :| 0 <= i < |l.started| && l.started[i].id == id && l.started[i].flow.challenge == challenge;
      StartedForMember(l.started, l.started[i]);
    }
    DistinctFits(JudgedFor(l.verdicts, challenge), StartedFor(l.started, challenge));
  }

  /**
   * In every run, however steps interleave and flows expire: a flow is started once and taken at
   * most once, every callback verdict names the challenge its flow was started for and follows a
   * callback whose `state` was that flow's csrf value (section 10.12 of RFC 6749), no flow yields
   * two verdicts, and verdicts on a challenge never outnumber its flows.
   */
  lemma FlowsAreBound(cfg: Config, s: State, acts: seq<Action>, challenge: string)
    requires Initial(s) && Run(cfg, s, acts).Some?
    ensures var l := Run(cfg, s, acts).value.ledger;
            && LedgerSound(l)
            && |JudgedFor(l.verdicts, challenge)| <= |StartedFor(l.started, challenge)|
  {
    assert Sound(s);
    RunKeepsSound(cfg, s, acts);
    VerdictsWithinStarts(Run(cfg, s, acts).value.ledger, challenge);
  }
}
