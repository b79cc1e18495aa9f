/**
 * The login and consent protocol (apps/auth/src/routes.rs, store.rs, hydra.rs) as a step relation.
 *
 * Every call to Redis or Hydra is one atomic step; between two of them a handler is a thread, and
 * the steps of any number of threads, on any number of replicas, interleave with expiry and with
 * whatever Hydra starts. A browser may present any cookie and any `state`.
 */
module AuthProtocol {
  import opened Prelude
  import opened AuthIdentity

  datatype Config = Config(allowed: seq<string>, firstParty: seq<string>)

  datatype Flow = Flow(csrf: string, challenge: string)

  /** A login Hydra holds: the subject it accepted and the context attached to it. */
  datatype Session = Session(subject: string, context: Json) {
    function Claims(): Claims { FromContext(context, subject) }
  }

  datatype LoginRequest = LoginRequest(skip: bool, session: Session)
  datatype ConsentRequest = ConsentRequest(clientId: string, session: Session, scope: seq<string>,
                                           audience: seq<string>)

  /** Where a handler is between two steps. */
  datatype Pc =
    | SkipAccept(challenge: string, subject: string, claims: Claims)
    | SkipRevoke(challenge: string, subject: string)
    | SkipRevokeLogin(challenge: string, subject: string)
    | SkipReject(challenge: string)
    | BeginFlow(challenge: string)
    | Exchanging(id: string, flow: Flow)
    | CallbackReject(id: string, flow: Flow, error: string)
    | CallbackAccept(id: string, flow: Flow, identity: Identity)
    | ConsentRevoke(challenge: string, subject: string)
    | ConsentRevokeLogin(challenge: string, subject: string)
    | ConsentReject(challenge: string)
    | ConsentGrant(challenge: string, request: ConsentRequest)
    | ApproveGrant(challenge: string, request: ConsentRequest)

  datatype Started = Started(id: string, flow: Flow)
  datatype Taken = Taken(id: string, state: string)
  datatype Verdict = Verdict(id: string, challenge: string, accepted: bool)
  datatype LoginAccept = LoginAccept(challenge: string, session: Session)
  datatype ConsentAccept = ConsentAccept(challenge: string, request: ConsentRequest, token: Claims, approved: bool)

  /** What has happened so far, each list in order. */
  datatype Ledger = Ledger(started: seq<Started>, taken: seq<Taken>, verdicts: seq<Verdict>,
                           answers: seq<Identity>, logins: seq<LoginAccept>, consents: seq<ConsentAccept>)

  /** A consent session, under which a client holds tokens for a subject. */
  datatype Issue = Issue(subject: string, clientId: string)

  datatype State = State(flows: map<string, Flow>,
                         logins: map<string, LoginRequest>, consents: map<string, ConsentRequest>,
                         grants: set<Session>, sessions: set<Session>, issued: set<Issue>,
                         threads: map<nat, Pc>, ledger: Ledger)

  datatype Action =
    // Hydra, the clock, and whatever ends a handler early
    | OpenLogin(challenge: string, login: LoginRequest)
    | OpenConsent(challenge: string, request: ConsentRequest)
    | Expire(id: string)
    | Forget(session: Session)
    | Fail(t: nat)
    // login
    | ReadLogin(t: nat, challenge: string)
    | RevokeConsents(t: nat, applied: bool, answered: bool)
    | RevokeLogin(t: nat, applied: bool)
    | RejectSkip(t: nat)
    | AcceptSkip(t: nat)
    | CreateFlow(t: nat, id: string, csrf: string)
    // github_callback
    | TakeFlow(t: nat, cookie: string, state: string)
    | NoCode(t: nat, error: Option<string>)
    | ExchangeCode(t: nat, user: GithubUser, addresses: seq<Address>)
    | RejectCallback(t: nat)
    | AcceptCallback(t: nat)
    // consent and consent_decision
    | ReadConsent(t: nat, challenge: string)
    | RejectConsent(t: nat)
    | GrantConsent(t: nat)
    | ReadApproval(t: nat, challenge: string)
    | GrantApproval(t: nat)

  function UpstreamError(error: Option<string>): string {
    if error == Some("access_denied") then "access_denied" else "server_error"
  }

  function At(s: State, t: nat, pc: Pc): State {
    s.(threads := s.threads[t := pc])
  }

  function Done(s: State, t: nat): State {
    s.(threads := s.threads - {t})
  }

  // ----- the atomic operations

  /** Hydra takes an accepted login: it remembers it, and may ask for consents on its strength. */
  function Accept(s: State, challenge: string, session: Session): State {
    s.(grants := s.grants + {session}, sessions := s.sessions + {session},
       ledger := s.ledger.(logins := s.ledger.logins + [LoginAccept(challenge, session)]))
  }

  function Grant(s: State, challenge: string, request: ConsentRequest, approved: bool): State {
    var entry := ConsentAccept(challenge, request, request.session.Claims(), approved);
    s.(issued := s.issued + {Issue(request.session.subject, request.clientId)},
       ledger := s.ledger.(consents := s.ledger.consents + [entry]))
  }

  function Judge(s: State, id: string, challenge: string, accepted: bool): State {
    s.(ledger := s.ledger.(verdicts := s.ledger.verdicts + [Verdict(id, challenge, accepted)]))
  }

  function AfterReadLogin(cfg: Config, challenge: string, request: LoginRequest): Pc {
    var claims := request.session.Claims();
    if request.skip && claims.email != "" then
      if LoginAllowed(cfg.allowed, claims.login) then SkipAccept(challenge, request.session.subject, claims)
      else SkipRevoke(challenge, request.session.subject)
    else BeginFlow(challenge)
  }

  /** The consent screen is shown to anyone allowed whose client this deployment did not register. */
  function AfterReadConsent(cfg: Config, challenge: string, request: ConsentRequest): Option<Pc> {
    if !LoginAllowed(cfg.allowed, request.session.Claims().login) then
      Some(ConsentRevoke(challenge, request.session.subject))
    else if request.clientId in cfg.firstParty then Some(ConsentGrant(challenge, request))
    else None
  }

  predicate FreshId(s: State, id: string) {
    forall i :: 0 <= i < |s.ledger.started| ==> s.ledger.started[i].id != id
  }

  function DropSessions(s: State, subject: string): State {
    s.(sessions := set g | g in s.sessions && g.subject != subject)
  }

  function DropIssued(s: State, subject: string): State {
    s.(issued := set i | i in s.issued && i.subject != subject)
  }

  /** One step; `None` when the action is not possible in this state. */
  function Step(cfg: Config, s: State, a: Action): Option<State> {
    match a
    case OpenLogin(challenge, request) =>
      if challenge !in s.logins && (request.skip ==> request.session in s.sessions) then
        Some(s.(logins := s.logins[challenge := request]))
      else None
    case OpenConsent(challenge, request) =>
      if challenge !in s.consents && request.session in s.grants then
        Some(s.(consents := s.consents[challenge := request]))
      else None
    case Expire(id) => Some(s.(flows := s.flows - {id}))
    case Forget(session) => Some(s.(sessions := s.sessions - {session}))
    case Fail(t) => Some(Done(s, t))
    case ReadLogin(t, challenge) =>
      if t !in s.threads && challenge in s.logins then
        Some(At(s, t, AfterReadLogin(cfg, challenge, s.logins[challenge])))
      else None
    case ReadConsent(t, challenge) =>
      if t !in s.threads && challenge in s.consents then
        match AfterReadConsent(cfg, challenge, s.consents[challenge])
        case Some(pc) => Some(At(s, t, pc))
        case None => Some(s)
      else None
    case ReadApproval(t, challenge) =>
      if t !in s.threads && challenge in s.consents then
        Some(At(s, t, ApproveGrant(challenge, s.consents[challenge])))
      else None
    case TakeFlow(t, cookie, state) =>
      if t in s.threads then None
      else if cookie !in s.flows then Some(s)
      else
        var flow := s.flows[cookie];
        var rest := s.(flows := s.flows - {cookie}, ledger := s.ledger.(taken := s.ledger.taken + [Taken(cookie, state)]));
        Some(if flow.csrf == state then At(rest, t, Exchanging(cookie, flow)) else rest)
    case _ => if a.t in s.threads then StepThread(cfg, s, a, s.threads[a.t]) else None
  }

  /** A step of a thread already under way. */
  function StepThread(cfg: Config, s: State, a: Action, pc: Pc): Option<State> {
    match (a, pc)
    // The login half is tried only once the consent half has been answered; what fails is logged.
    case (RevokeConsents(t, applied, answered), SkipRevoke(challenge, subject)) =>
      if answered && !applied then None
      else Some(At(if applied then DropIssued(s, subject) else s, t,
                   if answered then SkipRevokeLogin(challenge, subject) else SkipReject(challenge)))
    case (RevokeConsents(t, applied, answered), ConsentRevoke(challenge, subject)) =>
      if answered && !applied then None
      else Some(At(if applied then DropIssued(s, subject) else s, t,
                   if answered then ConsentRevokeLogin(challenge, subject) else ConsentReject(challenge)))
    case (RevokeLogin(t, applied), SkipRevokeLogin(challenge, subject)) =>
      Some(At(if applied then DropSessions(s, subject) else s, t, SkipReject(challenge)))
    case (RevokeLogin(t, applied), ConsentRevokeLogin(challenge, subject)) =>
      Some(At(if applied then DropSessions(s, subject) else s, t, ConsentReject(challenge)))
    case (RejectSkip(t), SkipReject(_)) => Some(Done(s, t))
    case (AcceptSkip(t), SkipAccept(challenge, subject, claims)) =>
      Some(Done(Accept(s, challenge, Session(subject, AsContext(claims))), t))
    case (CreateFlow(t, id, csrf), BeginFlow(challenge)) =>
      if FreshId(s, id) then
        var flow := Flow(csrf, challenge);
        Some(Done(s.(flows := s.flows[id := flow],
                     ledger := s.ledger.(started := s.ledger.started + [Started(id, flow)])), t))
      else None
    case (NoCode(t, error), Exchanging(id, flow)) =>
      Some(At(s, t, CallbackReject(id, flow, UpstreamError(error))))
    case (ExchangeCode(t, user, addresses), Exchanging(id, flow)) =>
      var identity := Assemble(user, addresses);
      var told := s.(ledger := s.ledger.(answers := s.ledger.answers + [identity]));
      Some(At(told, t,
              if LoginAllowed(cfg.allowed, identity.claims.login) then CallbackAccept(id, flow, identity)
              else CallbackReject(id, flow, "access_denied")))
    case (RejectCallback(t), CallbackReject(id, flow, _)) =>
      Some(Done(Judge(s, id, flow.challenge, false), t))
    case (AcceptCallback(t), CallbackAccept(id, flow, identity)) =>
      var session := Session(identity.subject, AsContext(identity.claims));
      Some(Done(Accept(Judge(s, id, flow.challenge, true), flow.challenge, session), t))
    case (RejectConsent(t), ConsentReject(_)) => Some(Done(s, t))
    case (GrantConsent(t), ConsentGrant(challenge, request)) =>
      Some(Done(Grant(s, challenge, request, false), t))
    case (GrantApproval(t), ApproveGrant(challenge, request)) =>
      Some(Done(Grant(s, challenge, request, true), t))
    case _ => None
  }

  /** A revocation moves its own thread on and, at most, takes sessions away. */
  lemma RevokeStep(cfg: Config, s: State, a: Action) returns (pc: Pc)
    requires a.RevokeConsents? || a.RevokeLogin?
    requires a.t in s.threads && StepThread(cfg, s, a, s.threads[a.t]).Some?
    ensures var after := StepThread(cfg, s, a, s.threads[a.t]).value;
            && after == At(s.(issued := after.issued, sessions := after.sessions), a.t, pc)
            && after.sessions <= s.sessions
    ensures pc.SkipRevokeLogin? || pc.SkipReject? || pc.ConsentRevokeLogin? || pc.ConsentReject?
  {
    pc := StepThread(cfg, s, a, s.threads[a.t]).value.threads[a.t];
  }

  function Run(cfg: Config, s: State, acts: seq<Action>): Option<State>
    decreases acts
  {
    if acts == [] then Some(s)
    else
      match Step(cfg, s, acts[0])
      case None => None
      case Some(next) => Run(cfg, next, acts[1..])
  }

  const BLANK := Ledger([], [], [], [], [], [])

  /** Nothing in flight and nothing recorded; Hydra may hold logins, consents and sessions already. */
  predicate Initial(s: State) {
    s.flows == map[] && s.threads == map[] && s.ledger == BLANK
  }
}
