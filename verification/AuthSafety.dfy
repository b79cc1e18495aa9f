/** What holds in every run of the login and consent protocol. */
module AuthSafety {
  import opened Prelude
  import opened AuthIdentity
  import opened AuthProtocol

  // ----- only allowed people

  predicate Allowed(cfg: Config, session: Session) {
    LoginAllowed(cfg.allowed, session.Claims().login)
  }

  /** Every accepted login and consent is an allowed person's, and an unknown client's was approved. */
  predicate LedgerSafe(cfg: Config, l: Ledger) {
    && (forall i :: 0 <= i < |l.logins| ==> Allowed(cfg, l.logins[i].session))
    && (forall i :: 0 <= i < |l.consents| ==> ConsentSafe(cfg, l.consents[i]))
  }

  predicate ConsentSafe(cfg: Config, c: ConsentAccept) {
    LoginAllowed(cfg.allowed, c.token.login) && (c.approved || c.request.clientId in cfg.firstParty)
  }

  predicate PcSafe(cfg: Config, pc: Pc) {
    match pc
    case SkipAccept(_, subject, claims) => LoginAllowed(cfg.allowed, claims.login)
    case CallbackAccept(_, _, identity) => LoginAllowed(cfg.allowed, identity.claims.login)
    case ConsentGrant(_, request) => Allowed(cfg, request.session) && request.clientId in cfg.firstParty
    case ApproveGrant(_, request) => Allowed(cfg, request.session)
    case _ => true
  }

  /** What Hydra holds that a consent can come from. */
  predicate HeldSafe(cfg: Config, s: State) {
    && (forall g :: g in s.grants ==> Allowed(cfg, g))
    && (forall ch :: ch in s.consents ==> Allowed(cfg, s.consents[ch].session))
  }

  predicate Safe(cfg: Config, s: State) {
    && HeldSafe(cfg, s)
    && (forall t :: t in s.threads ==> PcSafe(cfg, s.threads[t]))
    && LedgerSafe(cfg, s.ledger)
  }

  lemma AtSafe(cfg: Config, s: State, t: nat, pc: Pc)
    requires Safe(cfg, s) && PcSafe(cfg, pc)
    ensures Safe(cfg, At(s, t, pc))
  {}

  lemma DoneSafe(cfg: Config, s: State, t: nat)
    requires Safe(cfg, s)
    ensures Safe(cfg, Done(s, t))
  {}

  lemma AcceptSafe(cfg: Config, s: State, challenge: string, subject: string, claims: Claims)
    requires Safe(cfg, s) && LoginAllowed(cfg.allowed, claims.login)
    ensures Safe(cfg, Accept(s, challenge, Session(subject, AsContext(claims))))
  {
    ClaimsRoundTrip(claims, subject);
  }

  lemma GrantSafe(cfg: Config, s: State, challenge: string, request: ConsentRequest, approved: bool)
    requires Safe(cfg, s) && Allowed(cfg, request.session) && (approved || request.clientId in cfg.firstParty)
    ensures Safe(cfg, Grant(s, challenge, request, approved))
  {}

  lemma AcceptStepKeepsSafe(cfg: Config, s: State, a: Action)
    requires a.AcceptSkip? || a.AcceptCallback?
    requires Safe(cfg, s) && a.t in s.threads && StepThread(cfg, s, a, s.threads[a.t]).Some?
    ensures Safe(cfg, StepThread(cfg, s, a, s.threads[a.t]).value)
  {
    var t, pc := a.t, s.threads[a.t];
    assert PcSafe(cfg, pc);
    if a.AcceptSkip? {
      AcceptSafe(cfg, s, pc.challenge, pc.subject, pc.claims);
      DoneSafe(cfg, Accept(s, pc.challenge, Session(pc.subject, AsContext(pc.claims))), t);
    } else {
      var judged, i := Judge(s, pc.id, pc.flow.challenge, true), pc.identity;
      AcceptSafe(cfg, judged, pc.flow.challenge, i.subject, i.claims);
      DoneSafe(cfg, Accept(judged, pc.flow.challenge, Session(i.subject, AsContext(i.claims))), t);
    }
  }

  lemma GrantStepKeepsSafe(cfg: Config, s: State, a: Action)
    requires a.GrantConsent? || a.GrantApproval?
    requires Safe(cfg, s) && a.t in s.threads && StepThread(cfg, s, a, s.threads[a.t]).Some?
    ensures Safe(cfg, StepThread(cfg, s, a, s.threads[a.t]).value)
  {
    var pc := s.threads[a.t];
    assert PcSafe(cfg, pc);
    GrantSafe(cfg, s, pc.challenge, pc.request, a.GrantApproval?);
    DoneSafe(cfg, Grant(s, pc.challenge, pc.request, a.GrantApproval?), a.t);
  }

  lemma RevokeStepKeepsSafe(cfg: Config, s: State, a: Action)
    requires a.RevokeConsents? || a.RevokeLogin?
    requires Safe(cfg, s) && a.t in s.threads && StepThread(cfg, s, a, s.threads[a.t]).Some?
    ensures Safe(cfg, StepThread(cfg, s, a, s.threads[a.t]).value)
  {
    var after := StepThread(cfg, s, a, s.threads[a.t]).value;
    var pc := RevokeStep(cfg, s, a);
    AtSafe(cfg, s.(issued := after.issued, sessions := after.sessions), a.t, pc);
  }

  lemma ExchangeStepKeepsSafe(cfg: Config, s: State, a: Action)
    requires a.NoCode? || a.ExchangeCode?
    requires Safe(cfg, s) && a.t in s.threads && StepThread(cfg, s, a, s.threads[a.t]).Some?
    ensures Safe(cfg, StepThread(cfg, s, a, s.threads[a.t]).value)
  {}

  lemma LastStepKeepsSafe(cfg: Config, s: State, a: Action)
    requires a.RejectSkip? || a.CreateFlow? || a.RejectCallback? || a.RejectConsent?
    requires Safe(cfg, s) && a.t in s.threads && StepThread(cfg, s, a, s.threads[a.t]).Some?
    ensures Safe(cfg, StepThread(cfg, s, a, s.threads[a.t]).value)
  {}

  lemma ThreadStepKeepsSafe(cfg: Config, s: State, a: Action)
    requires a.RevokeConsents? || a.RevokeLogin? || a.NoCode? || a.ExchangeCode? || a.AcceptSkip? || a.AcceptCallback?
             || a.GrantConsent? || a.GrantApproval? || a.RejectSkip? || a.CreateFlow? || a.RejectCallback?
             || a.RejectConsent?
    requires Safe(cfg, s) && a.t in s.threads && StepThread(cfg, s, a, s.threads[a.t]).Some?
    ensures Safe(cfg, StepThread(cfg, s, a, s.threads[a.t]).value)
  {
    if a.RevokeConsents? || a.RevokeLogin? {
      RevokeStepKeepsSafe(cfg, s, a);
    } else if a.NoCode? || a.ExchangeCode? {
      ExchangeStepKeepsSafe(cfg, s, a);
    } else if a.AcceptSkip? || a.AcceptCallback? {
      AcceptStepKeepsSafe(cfg, s, a);
    } else if a.GrantConsent? || a.GrantApproval? {
      GrantStepKeepsSafe(cfg, s, a);
    } else {
      LastStepKeepsSafe(cfg, s, a);
    }
  }

  lemma OutsideStepKeepsSafe(cfg: Config, s: State, a: Action)
    requires a.OpenLogin? || a.OpenConsent? || a.Expire? || a.Forget? || a.Fail?
    requires Safe(cfg, s) && Step(cfg, s, a).Some?
    ensures Safe(cfg, Step(cfg, s, a).value)
  {}

  lemma TakeStepKeepsSafe(cfg: Config, s: State, a: Action)
    requires a.TakeFlow? && Safe(cfg, s) && Step(cfg, s, a).Some?
    ensures Safe(cfg, Step(cfg, s, a).value)
  {}

  lemma ReadKeepsSafe(cfg: Config, s: State, a: Action)
    requires a.ReadLogin? || a.ReadConsent? || a.ReadApproval?
    requires Safe(cfg, s) && Step(cfg, s, a).Some?
    ensures Safe(cfg, Step(cfg, s, a).value)
  {
    match a
    case ReadLogin(t, challenge) => AtSafe(cfg, s, t, AfterReadLogin(cfg, challenge, s.logins[challenge]));
    case ReadConsent(t, challenge) =>
      var pc := AfterReadConsent(cfg, challenge, s.consents[challenge]);
      if pc.Some? { AtSafe(cfg, s, t, pc.value); }
    case ReadApproval(t, challenge) => AtSafe(cfg, s, t, ApproveGrant(challenge, s.consents[challenge]));
  }

  lemma StepKeepsSafe(cfg: Config, s: State, a: Action)
    requires Safe(cfg, s) && Step(cfg, s, a).Some?
    ensures Safe(cfg, Step(cfg, s, a).value)
  {
    match a
    case OpenLogin(_, _) => OutsideStepKeepsSafe(cfg, s, a);
    case OpenConsent(_, _) => OutsideStepKeepsSafe(cfg, s, a);
    case Expire(_) => OutsideStepKeepsSafe(cfg, s, a);
    case Forget(_) => OutsideStepKeepsSafe(cfg, s, a);
    case Fail(_) => OutsideStepKeepsSafe(cfg, s, a);
    case TakeFlow(_, _, _) => TakeStepKeepsSafe(cfg, s, a);
    case ReadLogin(_, _) => ReadKeepsSafe(cfg, s, a);
    case ReadConsent(_, _) => ReadKeepsSafe(cfg, s, a);
    case ReadApproval(_, _) => ReadKeepsSafe(cfg, s, a);
    case _ => ThreadStepKeepsSafe(cfg, s, a);
  }

  lemma {:induction false} RunKeepsSafe(cfg: Config, s: State, acts: seq<Action>)
    requires Safe(cfg, s) && Run(cfg, s, acts).Some?
    ensures Safe(cfg, Run(cfg, s, acts).value)
    decreases acts
  {
    if acts != [] {
      StepKeepsSafe(cfg, s, acts[0]);
      RunKeepsSafe(cfg, Step(cfg, s, acts[0]).value, acts[1..]);
    }
  }

  /** In any run from a safe state whoever is accepted is on the list, spelled in whatever case. */
  lemma AcceptedAreOnTheList(cfg: Config, s: State, acts: seq<Action>)
    requires Safe(cfg, s) && Run(cfg, s, acts).Some?
    ensures var l := Run(cfg, s, acts).value.ledger;
            && (forall i :: 0 <= i < |l.logins| ==> OnTheList(cfg.allowed, l.logins[i].session.Claims().login))
            && (forall i :: 0 <= i < |l.consents| ==> OnTheList(cfg.allowed, l.consents[i].token.login))
  {
    RunKeepsSafe(cfg, s, acts);
    var l := Run(cfg, s, acts).value.ledger;
    forall i | 0 <= i < |l.logins| ensures OnTheList(cfg.allowed, l.logins[i].session.Claims().login) {
      assert Allowed(cfg, l.logins[i].session);
      AllowedIff(cfg.allowed, l.logins[i].session.Claims().login);
    }
    forall i | 0 <= i < |l.consents| ensures OnTheList(cfg.allowed, l.consents[i].token.login) {
      assert ConsentSafe(cfg, l.consents[i]);
      AllowedIff(cfg.allowed, l.consents[i].token.login);
    }
  }

  /** No run from here ever accepts anybody who is not allowed, or an unknown client unasked. */
  ghost predicate AlwaysSafe(cfg: Config, s: State) {
    forall acts: seq<Action> :: Run(cfg, s, acts).Some? ==> LedgerSafe(cfg, Run(cfg, s, acts).value.ledger)
  }

  lemma {:induction false} LongerThan(names: set<string>) returns (n: nat)
    ensures forall x :: x in names ==> |x| < n
  {
    if names == {} {
      n := 0;
    } else {
      var x :| x in names;
      var m := LongerThan(names - {x});
      n := m + |x| + 1;
    }
  }

  lemma FreshName(names: set<string>) returns (x: string)
    ensures x !in names
  {
    var n := LongerThan(names);
    x := seq(n, i => 'x');
  }

  lemma ApprovalRun(cfg: Config, s: State, challenge: string)
    requires Initial(s) && challenge in s.consents
    ensures var acts := [ReadApproval(0, challenge), GrantApproval(0)];
            && Run(cfg, s, acts).Some?
            && Run(cfg, s, acts).value.ledger.consents ==
               [ConsentAccept(challenge, s.consents[challenge], s.consents[challenge].session.Claims(), true)]
  {
    var acts := [ReadApproval(0, challenge), GrantApproval(0)];
    var read := Step(cfg, s, acts[0]).value;
    assert acts[1..] == [acts[1]] && acts[1..][1..] == [];
    assert Run(cfg, read, acts[1..]) == Run(cfg, Step(cfg, read, acts[1]).value, acts[1..][1..]);
  }

  /**
   * Nobody outside the allowlist is ever accepted, through either handler, exactly when Hydra
   * starts out holding no login and no consent of such a person: `consent_decision` looks at the
   * challenge it is posted and not at the list.
   */
  lemma AlwaysSafeIffHeldSafe(cfg: Config, s: State)
    requires Initial(s)
    ensures AlwaysSafe(cfg, s) <==> HeldSafe(cfg, s)
  {
    if HeldSafe(cfg, s) {
      forall acts: seq<Action> | Run(cfg, s, acts).Some?
        ensures LedgerSafe(cfg, Run(cfg, s, acts).value.ledger)
      {
        RunKeepsSafe(cfg, s, acts);
      }
    }
    if AlwaysSafe(cfg, s) {
      forall ch | ch in s.consents ensures Allowed(cfg, s.consents[ch].session) {
        UnsafeConsent(cfg, s, ch);
      }
      forall g | g in s.grants ensures Allowed(cfg, g) {
        UnsafeGrant(cfg, s, g);
      }
    }
  }

  lemma UnsafeConsent(cfg: Config, s: State, ch: string)
    requires Initial(s) && ch in s.consents && AlwaysSafe(cfg, s)
    ensures Allowed(cfg, s.consents[ch].session)
  {
    var acts := [ReadApproval(0, ch), GrantApproval(0)];
    ApprovalRun(cfg, s, ch);
    assert LedgerSafe(cfg, Run(cfg, s, acts).value.ledger);
    assert ConsentSafe(cfg, Run(cfg, s, acts).value.ledger.consents[0]);
  }

  lemma UnsafeGrant(cfg: Config, s: State, g: Session)
    requires Initial(s) && g in s.grants && AlwaysSafe(cfg, s)
    ensures Allowed(cfg, g)
  {
    var ch := FreshName(s.consents.Keys);
    var request := ConsentRequest("client", g, [], []);
    var asked := s.(consents := s.consents[ch := request]);
    var rest := [ReadApproval(0, ch), GrantApproval(0)];
    var acts := [OpenConsent(ch, request)] + rest;
    assert acts[1..] == rest;
    assert Run(cfg, s, acts) == Run(cfg, asked, rest);
    ApprovalRun(cfg, asked, ch);
    assert LedgerSafe(cfg, Run(cfg, s, acts).value.ledger);
    assert ConsentSafe(cfg, Run(cfg, s, acts).value.ledger.consents[0]);
  }
}
