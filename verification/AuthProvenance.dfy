/** Where the name, the address and its verified flag on an ID token come from. */
module AuthProvenance {
  import opened Prelude
  import opened AuthIdentity
  import opened AuthProtocol

  function Whose(session: Session): Identity {
    Identity(session.subject, session.Claims())
  }

  /** Everybody Hydra holds anything about. */
  function KnownAt(s: State): set<Identity> {
    (set g | g in s.grants :: Whose(g)) + (set g | g in s.sessions :: Whose(g))
    + (set ch | ch in s.consents :: Whose(s.consents[ch].session))
    + (set ch | ch in s.logins && s.logins[ch].skip :: Whose(s.logins[ch].session))
  }

  /** An identity held from the start, or one GitHub answered with during the run. */
  predicate From(known: set<Identity>, l: Ledger, i: Identity) {
    i in known || i in l.answers
  }

  predicate PcFrom(known: set<Identity>, l: Ledger, pc: Pc) {
    match pc
    case SkipAccept(_, subject, claims) => From(known, l, Identity(subject, claims))
    case CallbackAccept(_, _, identity) => From(known, l, identity)
    case ConsentGrant(_, request) => From(known, l, Whose(request.session))
    case ApproveGrant(_, request) => From(known, l, Whose(request.session))
    case _ => true
  }

  predicate TokenFrom(known: set<Identity>, l: Ledger, c: ConsentAccept) {
    From(known, l, Identity(c.request.session.subject, c.token))
  }

  predicate Traced(known: set<Identity>, s: State) {
    && (forall g :: g in s.grants + s.sessions ==> From(known, s.ledger, Whose(g)))
    && (forall ch :: ch in s.consents ==> From(known, s.ledger, Whose(s.consents[ch].session)))
    && (forall ch :: ch in s.logins && s.logins[ch].skip ==> From(known, s.ledger, Whose(s.logins[ch].session)))
    && (forall t :: t in s.threads ==> PcFrom(known, s.ledger, s.threads[t]))
    && (forall c :: c in s.ledger.consents ==> TokenFrom(known, s.ledger, c))
  }

  /** Some exchange of a code in the run was answered with this very account and these addresses. */
  predicate Told(acts: seq<Action>, i: Identity) {
    exists k :: 0 <= k < |acts| && TellsAt(acts, k, i)
  }

  predicate TellsAt(acts: seq<Action>, k: nat, i: Identity)
    requires k < |acts|
  {
    acts[k].ExchangeCode? && i == Assemble(acts[k].user, acts[k].addresses)
  }

  lemma AtTraced(known: set<Identity>, s: State, t: nat, pc: Pc)
    requires Traced(known, s) && PcFrom(known, s.ledger, pc)
    ensures Traced(known, At(s, t, pc))
  {}

  lemma DoneTraced(known: set<Identity>, s: State, t: nat)
    requires Traced(known, s)
    ensures Traced(known, Done(s, t))
  {}

  lemma AcceptTraced(known: set<Identity>, s: State, challenge: string, subject: string,
                     claims: Claims)
    requires Traced(known, s) && From(known, s.ledger, Identity(subject, claims))
    ensures Traced(known, Accept(s, challenge, Session(subject, AsContext(claims))))
  {
    ClaimsRoundTrip(claims, subject);
  }

  lemma GrantTraced(known: set<Identity>, s: State, challenge: string, request: ConsentRequest, approved: bool)
    requires Traced(known, s) && From(known, s.ledger, Whose(request.session))
    ensures Traced(known, Grant(s, challenge, request, approved))
  {}

  lemma AnswerTraced(known: set<Identity>, s: State, i: Identity)
    requires Traced(known, s)
    ensures Traced(known, s.(ledger := s.ledger.(answers := s.ledger.answers + [i])))
  {
    var after := s.(ledger := s.ledger.(answers := s.ledger.answers + [i]));
    forall t | t in s.threads ensures PcFrom(known, after.ledger, s.threads[t]) {
      assert PcFrom(known, s.ledger, s.threads[t]);
    }
    forall c | c in s.ledger.consents ensures TokenFrom(known, after.ledger, c) {
      assert TokenFrom(known, s.ledger, c);
    }
  }

  /** A step that adds nothing to what Hydra holds or has granted. */
  lemma QuietTraced(known: set<Identity>, s: State, after: State, t: nat)
    requires Traced(known, s)
    requires after.grants <= s.grants && after.sessions <= s.sessions
    requires after.consents == s.consents && after.logins == s.logins
    requires after.ledger.answers == s.ledger.answers && after.ledger.consents == s.ledger.consents
    requires forall u :: u != t && u in after.threads ==> u in s.threads && after.threads[u] == s.threads[u]
    requires t in after.threads ==> PcFrom(known, after.ledger, after.threads[t])
    ensures Traced(known, after)
  {
    forall u | u in after.threads ensures PcFrom(known, after.ledger, after.threads[u]) {
      if u != t { assert PcFrom(known, s.ledger, s.threads[u]); }
    }
    forall c | c in after.ledger.consents ensures TokenFrom(known, after.ledger, c) {
      assert TokenFrom(known, s.ledger, c);
    }
  }

  lemma ExchangeKeepsTraced(known: set<Identity>, cfg: Config, s: State, a: Action)
    requires a.ExchangeCode? && Traced(known, s)
    requires a.t in s.threads && StepThread(cfg, s, a, s.threads[a.t]).Some?
    ensures Traced(known, StepThread(cfg, s, a, s.threads[a.t]).value)
  {
    var pc, identity := s.threads[a.t], Assemble(a.user, a.addresses);
    var told := s.(ledger := s.ledger.(answers := s.ledger.answers + [identity]));
    AnswerTraced(known, s, identity);
    AtTraced(known, told, a.t,
             if LoginAllowed(cfg.allowed, identity.claims.login) then CallbackAccept(pc.id, pc.flow, identity)
             else CallbackReject(pc.id, pc.flow, "access_denied"));
  }

  lemma AcceptKeepsTraced(known: set<Identity>, cfg: Config, s: State, a: Action)
    requires a.AcceptSkip? || a.AcceptCallback?
    requires Traced(known, s) && a.t in s.threads && StepThread(cfg, s, a, s.threads[a.t]).Some?
    ensures var after := StepThread(cfg, s, a, s.threads[a.t]).value;
            Traced(known, after) && after.ledger.answers == s.ledger.answers
  {
    var t, pc := a.t, s.threads[a.t];
    assert PcFrom(known, s.ledger, pc);
    if a.AcceptSkip? {
      AcceptTraced(known, s, pc.challenge, pc.subject, pc.claims);
      DoneTraced(known, Accept(s, pc.challenge, Session(pc.subject, AsContext(pc.claims))), t);
    } else {
      var judged, i := Judge(s, pc.id, pc.flow.challenge, true), pc.identity;
      QuietTraced(known, s, judged, t);
      AcceptTraced(known, judged, pc.flow.challenge, i.subject, i.claims);
      DoneTraced(known, Accept(judged, pc.flow.challenge, Session(i.subject, AsContext(i.claims))), t);
    }
  }

  lemma GrantKeepsTraced(known: set<Identity>, cfg: Config, s: State, a: Action)
    requires a.GrantConsent? || a.GrantApproval?
    requires Traced(known, s) && a.t in s.threads && StepThread(cfg, s, a, s.threads[a.t]).Some?
    ensures var after := StepThread(cfg, s, a, s.threads[a.t]).value;
            Traced(known, after) && after.ledger.answers == s.ledger.answers
  {
    var pc := s.threads[a.t];
    assert PcFrom(known, s.ledger, pc);
    GrantTraced(known, s, pc.challenge, pc.request, a.GrantApproval?);
    DoneTraced(known, Grant(s, pc.challenge, pc.request, a.GrantApproval?), a.t);
  }

  lemma RevokeKeepsTraced(known: set<Identity>, cfg: Config, s: State, a: Action)
    requires a.RevokeConsents? || a.RevokeLogin?
    requires Traced(known, s) && a.t in s.threads && StepThread(cfg, s, a, s.threads[a.t]).Some?
    ensures var after := StepThread(cfg, s, a, s.threads[a.t]).value;
            Traced(known, after) && after.ledger.answers == s.ledger.answers
  {
    var pc := RevokeStep(cfg, s, a);
    QuietTraced(known, s, StepThread(cfg, s, a, s.threads[a.t]).value, a.t);
  }

  lemma OtherStepKeepsTraced(known: set<Identity>, cfg: Config, s: State, a: Action)
    requires a.RejectSkip? || a.CreateFlow? || a.NoCode? || a.RejectCallback? || a.RejectConsent?
    requires Traced(known, s) && a.t in s.threads && StepThread(cfg, s, a, s.threads[a.t]).Some?
    ensures var after := StepThread(cfg, s, a, s.threads[a.t]).value;
            Traced(known, after) && after.ledger.answers == s.ledger.answers
  {
    QuietTraced(known, s, StepThread(cfg, s, a, s.threads[a.t]).value, a.t);
  }

  lemma OpenKeepsTraced(known: set<Identity>, cfg: Config, s: State, a: Action)
    requires a.OpenLogin? || a.OpenConsent?
    requires Traced(known, s) && Step(cfg, s, a).Some?
    ensures var after := Step(cfg, s, a).value; Traced(known, after) && after.ledger == s.ledger
  {
    if a.OpenLogin? {
      assert a.login.skip ==> a.login.session in s.grants + s.sessions;
    } else {
      assert a.request.session in s.grants + s.sessions;
    }
  }

  /** Losing something adds nothing. */
  lemma LossKeepsTraced(known: set<Identity>, cfg: Config, s: State, a: Action)
    requires a.Expire? || a.Forget? || a.Fail? || a.TakeFlow?
    requires Traced(known, s) && Step(cfg, s, a).Some?
    ensures var after := Step(cfg, s, a).value; Traced(known, after) && after.ledger.answers == s.ledger.answers
  {
    QuietTraced(known, s, Step(cfg, s, a).value, if a.Expire? || a.Forget? then 0 else a.t);
  }

  /** Nor does reading a challenge. */
  lemma ReadKeepsTraced(known: set<Identity>, cfg: Config, s: State, a: Action)
    requires a.ReadLogin? || a.ReadConsent? || a.ReadApproval?
    requires Traced(known, s) && Step(cfg, s, a).Some?
    ensures var after := Step(cfg, s, a).value; Traced(known, after) && after.ledger.answers == s.ledger.answers
  {
    if a.ReadLogin? {
      AtTraced(known, s, a.t, AfterReadLogin(cfg, a.challenge, s.logins[a.challenge]));
    } else if a.ReadApproval? {
      AtTraced(known, s, a.t, ApproveGrant(a.challenge, s.consents[a.challenge]));
    } else {
      var pc := AfterReadConsent(cfg, a.challenge, s.consents[a.challenge]);
      if pc.Some? { AtTraced(known, s, a.t, pc.value); }
    }
  }

  lemma UntoldStepKeepsTraced(known: set<Identity>, cfg: Config, s: State, a: Action)
    requires !a.ExchangeCode? && Traced(known, s) && Step(cfg, s, a).Some?
    ensures var after := Step(cfg, s, a).value; Traced(known, after) && after.ledger.answers == s.ledger.answers
  {
    if a.OpenLogin? || a.OpenConsent? {
      OpenKeepsTraced(known, cfg, s, a);
    } else if a.Expire? || a.Forget? || a.Fail? || a.TakeFlow? {
      LossKeepsTraced(known, cfg, s, a);
    } else if a.ReadLogin? || a.ReadConsent? || a.ReadApproval? {
      ReadKeepsTraced(known, cfg, s, a);
    } else if a.RevokeConsents? || a.RevokeLogin? {
      RevokeKeepsTraced(known, cfg, s, a);
    } else if a.AcceptSkip? || a.AcceptCallback? {
      AcceptKeepsTraced(known, cfg, s, a);
    } else if a.GrantConsent? || a.GrantApproval? {
      GrantKeepsTraced(known, cfg, s, a);
    } else {
      OtherStepKeepsTraced(known, cfg, s, a);
    }
  }

  lemma StepKeepsTraced(known: set<Identity>, cfg: Config, s: State, a: Action)
    requires Traced(known, s) && Step(cfg, s, a).Some?
    ensures Traced(known, Step(cfg, s, a).value)
  {
    if a.ExchangeCode? {
      ExchangeKeepsTraced(known, cfg, s, a);
    } else {
      UntoldStepKeepsTraced(known, cfg, s, a);
    }
  }

  lemma {:induction false} RunKeepsTraced(known: set<Identity>, cfg: Config, s: State, acts: seq<Action>)
    requires Traced(known, s) && Run(cfg, s, acts).Some?
    ensures Traced(known, Run(cfg, s, acts).value)
    decreases acts
  {
    if acts != [] {
      StepKeepsTraced(known, cfg, s, acts[0]);
      RunKeepsTraced(known, cfg, Step(cfg, s, acts[0]).value, acts[1..]);
    }
  }

  /** Only an exchange of a code adds an answer, and it adds its own. */
  lemma StepAnswers(known: set<Identity>, cfg: Config, s: State, a: Action)
    requires Traced(known, s) && Step(cfg, s, a).Some?
    ensures Step(cfg, s, a).value.ledger.answers ==
            s.ledger.answers + if a.ExchangeCode? then [Assemble(a.user, a.addresses)] else []
  {
    if !a.ExchangeCode? { UntoldStepKeepsTraced(known, cfg, s, a); }
  }

  lemma {:induction false} AnswersTold(known: set<Identity>, cfg: Config, s: State, acts: seq<Action>, i: Identity)
    requires Traced(known, s) && Run(cfg, s, acts).Some? && i in Run(cfg, s, acts).value.ledger.answers
    ensures i in s.ledger.answers || Told(acts, i)
    decreases acts
  {
    if acts != [] {
      var next := Step(cfg, s, acts[0]).value;
      StepKeepsTraced(known, cfg, s, acts[0]);
      StepAnswers(known, cfg, s, acts[0]);
      AnswersTold(known, cfg, next, acts[1..], i);
      if i in next.ledger.answers {
        if i !in s.ledger.answers { assert TellsAt(acts, 0, i); }
      } else {
        var k :| 0 <= k < |acts[1..]| && TellsAt(acts[1..], k, i);
        assert TellsAt(acts, k + 1, i);
      }
    }
  }

  /**
   * After any number of skipped logins, the subject, name, address and verified flag of an ID token
   * are still together what one exchange of this run was answered with, or what Hydra held before.
   */
  lemma TokensComeFromGithub(cfg: Config, s: State, acts: seq<Action>, c: ConsentAccept)
    requires Initial(s) && Run(cfg, s, acts).Some? && c in Run(cfg, s, acts).value.ledger.consents
    ensures var token := Identity(c.request.session.subject, c.token);
            || token in KnownAt(s)
            || exists k :: 0 <= k < |acts| && acts[k].ExchangeCode? && token == Assemble(acts[k].user, acts[k].addresses)
  {
    var token := Identity(c.request.session.subject, c.token);
    RunKeepsTraced(KnownAt(s), cfg, s, acts);
    assert TokenFrom(KnownAt(s), Run(cfg, s, acts).value.ledger, c);
    if token !in KnownAt(s) {
      AnswersTold(KnownAt(s), cfg, s, acts, token);
      var k :| 0 <= k < |acts| && TellsAt(acts, k, token);
    }
  }

  /** So an address is marked verified only if GitHub listed it verified in that answer, as the best there is. */
  lemma VerifiedMeansVerified(cfg: Config, s: State, acts: seq<Action>, c: ConsentAccept)
    requires Initial(s) && Run(cfg, s, acts).Some?
    requires c in Run(cfg, s, acts).value.ledger.consents && c.token.emailVerified
    requires Identity(c.request.session.subject, c.token) !in KnownAt(s)
    ensures exists k, a :: 0 <= k < |acts| && acts[k].ExchangeCode?
              && BestAddress(a, acts[k].addresses) && a.email == c.token.email
              && c.request.session.subject == Subject(acts[k].user) && c.token.login == acts[k].user.login
  {
    TokensComeFromGithub(cfg, s, acts, c);
    var k :| 0 <= k < |acts| && acts[k].ExchangeCode?
      && Identity(c.request.session.subject, c.token) == Assemble(acts[k].user, acts[k].addresses);
    AddressIsVouchedFor(acts[k].user, acts[k].addresses);
    var a :| BestAddress(a, acts[k].addresses) && a.email == c.token.email;
  }
}
