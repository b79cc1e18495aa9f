/**
 * The four handlers (apps/auth/src/routes.rs), over the calls they make to Redis (store.rs) and
 * Hydra (hydra.rs), as they run when nothing interleaves. Each is a run of the step relation, so
 * what holds of every run holds of them.
 */
module AuthHandlers {
  import opened Prelude
  import opened AuthIdentity
  import opened AuthProtocol

  datatype Response =
    | LoginAccepted
    | LoginRejected
    | ToGithub(csrf: string, cookie: string)
    | ConsentPage(login: string)
    | ConsentAccepted
    | ConsentRejected
    | Expired
    | StateMismatch
    | UpstreamFault

  /**
   * What became of a call that changes something: it took effect and was heard to, it took effect
   * and the answer was lost, or it had no effect.
   */
  datatype Reply = Heard | Lost | Missed {
    predicate Applied() { !Missed? }
  }

  /** What the calls of one handler meet: Redis, Hydra's read, the two revocations, GitHub, Hydra's answer. */
  datatype Calls = Calls(store: Reply, read: bool, revokeConsents: Reply, revokeLogin: Reply, github: Github, answer: Reply)

  /** The consent sessions go first; the logins are asked for only once that was heard. */
  function Revoked(s: State, subject: string, calls: Calls): State {
    var fewer := if calls.revokeConsents.Applied() then DropIssued(s, subject) else s;
    if calls.revokeConsents.Heard? && calls.revokeLogin.Applied() then DropSessions(fewer, subject) else fewer
  }

  /** The person came back without a code, the exchange failed, or GitHub said who they are. */
  datatype Github = Declined(error: Option<string>) | Refused | Answered(user: GithubUser, addresses: seq<Address>)

  /** A flow kept under a fresh id. */
  function Begun(s: State, id: string, flow: Flow): State {
    s.(flows := s.flows[id := flow], ledger := s.ledger.(started := s.ledger.started + [Started(id, flow)]))
  }

  lemma {:induction false} RunSnoc(cfg: Config, s: State, acts: seq<Action>, a: Action)
    requires Run(cfg, s, acts).Some?
    ensures Run(cfg, s, acts + [a]) == Step(cfg, Run(cfg, s, acts).value, a)
    decreases acts
  {
    if acts == [] {
      assert ([] + [a])[0] == a && ([] + [a])[1..] == [];
    } else {
      assert (acts + [a])[1..] == acts[1..] + [a];
      RunSnoc(cfg, Step(cfg, s, acts[0]).value, acts[1..], a);
    }
  }

  class Provider {
    const cfg: Config
    var s: State
    ghost var trace: seq<Action>
    ghost const start: State

    /** The state is where the trace leads from the start. */
    ghost predicate Valid() reads this {
      Run(cfg, start, trace) == Some(s)
    }

    constructor (cfg: Config, s: State)
      ensures Valid() && this.s == s && this.cfg == cfg && start == s
    {
      this.cfg, this.s, start, trace := cfg, s, s, [];
    }

    /** One atomic operation. */
    method Do(a: Action)
      requires Valid() && Step(cfg, s, a).Some?
      modifies this
      ensures Valid() && Some(s) == Step(cfg, old(s), a)
    {
      RunSnoc(cfg, start, trace, a);
      s := Step(cfg, s, a).value;
      trace := trace + [a];
    }

    // ----- the calls a handler makes, each one step

    method ReadLogin(t: nat, challenge: string)
      requires Valid() && t !in s.threads && challenge in s.logins
      modifies this
      ensures Valid() && s == At(old(s), t, AfterReadLogin(cfg, challenge, old(s.logins[challenge])))
    {
      Do(Action.ReadLogin(t, challenge));
    }

    /** `revoke_subject`: two calls in turn, what fails is logged, and the rejection follows either way. */
    method Revoke(t: nat, calls: Calls)
      requires Valid() && t in s.threads && (s.threads[t].SkipRevoke? || s.threads[t].ConsentRevoke?)
      modifies this
      ensures Valid()
      ensures var pc := old(s.threads[t]);
              s == At(Revoked(old(s), pc.subject, calls), t,
                      if pc.SkipRevoke? then SkipReject(pc.challenge) else ConsentReject(pc.challenge))
    {
      DropConsents(t, calls.revokeConsents);
      if calls.revokeConsents.Heard? {
        DropLogins(t, calls.revokeLogin.Applied());
      }
    }

    method DropConsents(t: nat, reply: Reply)
      requires Valid() && t in s.threads && (s.threads[t].SkipRevoke? || s.threads[t].ConsentRevoke?)
      modifies this
      ensures Valid()
      ensures var pc := old(s.threads[t]);
              s == At(if reply.Applied() then DropIssued(old(s), pc.subject) else old(s), t,
                      if pc.SkipRevoke? then
                        if reply.Heard? then SkipRevokeLogin(pc.challenge, pc.subject) else SkipReject(pc.challenge)
                      else
                        if reply.Heard? then ConsentRevokeLogin(pc.challenge, pc.subject) else ConsentReject(pc.challenge))
    {
      Do(RevokeConsents(t, reply.Applied(), reply.Heard?));
    }

    method DropLogins(t: nat, applied: bool)
      requires Valid() && t in s.threads && (s.threads[t].SkipRevokeLogin? || s.threads[t].ConsentRevokeLogin?)
      modifies this
      ensures Valid()
      ensures var pc := old(s.threads[t]);
              s == At(if applied then DropSessions(old(s), pc.subject) else old(s), t,
                      if pc.SkipRevokeLogin? then SkipReject(pc.challenge) else ConsentReject(pc.challenge))
    {
      Do(RevokeLogin(t, applied));
    }

    /** A rejection at Hydra, or a fault: either way the handler is over and nothing was accepted. */
    method End(t: nat, answered: bool)
      requires Valid() && t in s.threads
      requires answered ==> s.threads[t].SkipReject? || s.threads[t].ConsentReject?
      modifies this
      ensures Valid() && s == Done(old(s), t)
    {
      if !answered {
        Do(Fail(t));
      } else if s.threads[t].SkipReject? {
        Do(RejectSkip(t));
      } else {
        Do(RejectConsent(t));
      }
    }

    method AcceptSkipped(t: nat)
      requires Valid() && t in s.threads && s.threads[t].SkipAccept?
      modifies this
      ensures Valid()
      ensures var pc := old(s.threads[t]);
              s == Done(Accept(old(s), pc.challenge, Session(pc.subject, AsContext(pc.claims))), t)
    {
      Do(AcceptSkip(t));
    }

    /** `SET .. EX`, under an id drawn afresh. */
    method CreateFlow(t: nat, id: string, csrf: string)
      requires Valid() && t in s.threads && s.threads[t].BeginFlow? && FreshId(s, id)
      modifies this
      ensures Valid()
      ensures s == Done(Begun(old(s), id, Flow(csrf, old(s.threads[t].challenge))), t)
    {
      Do(Action.CreateFlow(t, id, csrf));
    }

    /** `GETDEL`: what was there, and nothing there afterwards, so a replay finds nothing. */
    method TakeFlow(t: nat, id: string, state: string) returns (flow: Option<Flow>)
      requires Valid() && t !in s.threads
      modifies this
      ensures Valid()
      ensures flow == if id in old(s.flows) then Some(old(s.flows)[id]) else None
      ensures s.flows == old(s.flows) - {id}
      ensures flow.None? ==> s == old(s)
      ensures flow.Some? ==>
                var rest := old(s).(flows := old(s.flows) - {id},
                                    ledger := old(s.ledger).(taken := old(s.ledger.taken) + [Taken(id, state)]));
                s == if flow.value.csrf == state then At(rest, t, Exchanging(id, flow.value)) else rest
    {
      flow := if id in s.flows then Some(s.flows[id]) else None;
      Do(Action.TakeFlow(t, id, state));
      assert id !in old(s.flows) ==> old(s.flows) - {id} == old(s.flows);
    }

    /** `GETDEL` whose answer was lost: the flow is gone, and the handler never learns what it was. */
    method TakeUnheard(t: nat, id: string, state: string)
      requires Valid() && t !in s.threads
      modifies this
      ensures Valid() && s.threads == old(s.threads) && s.flows == old(s.flows) - {id}
      ensures s.consents == old(s.consents) && s.logins == old(s.logins) && s.grants == old(s.grants)
      ensures s.ledger == if id in old(s.flows)
                          then old(s.ledger).(taken := old(s.ledger.taken) + [Taken(id, state)]) else old(s.ledger)
      ensures id !in old(s.flows) ==> s == old(s)
    {
      var flow := TakeFlow(t, id, state);
      if t in s.threads { End(t, false); }
    }

    method ExchangeCode(t: nat, user: GithubUser, addresses: seq<Address>)
      requires Valid() && t in s.threads && s.threads[t].Exchanging?
      modifies this
      ensures Valid()
      ensures var pc, who := old(s.threads[t]), Assemble(user, addresses);
              s == At(old(s).(ledger := old(s.ledger).(answers := old(s.ledger.answers) + [who])), t,
                      if LoginAllowed(cfg.allowed, who.claims.login) then CallbackAccept(pc.id, pc.flow, who)
                      else CallbackReject(pc.id, pc.flow, "access_denied"))
    {
      Do(Action.ExchangeCode(t, user, addresses));
    }

    method NoCode(t: nat, error: Option<string>)
      requires Valid() && t in s.threads && s.threads[t].Exchanging?
      modifies this
      ensures Valid()
      ensures var pc, reason := old(s.threads[t]), if error == Some("access_denied") then "access_denied" else "server_error";
              s == At(old(s), t, CallbackReject(pc.id, pc.flow, reason))
    {
      Do(Action.NoCode(t, error));
    }

    method AnswerCallback(t: nat) returns (accepted: bool)
      requires Valid() && t in s.threads && (s.threads[t].CallbackAccept? || s.threads[t].CallbackReject?)
      modifies this
      ensures Valid() && accepted == old(s.threads[t].CallbackAccept?)
      ensures var pc := old(s.threads[t]);
              var judged := Judge(old(s), pc.id, pc.flow.challenge, accepted);
              s == if accepted then
                Done(Accept(judged, pc.flow.challenge, Session(pc.identity.subject, AsContext(pc.identity.claims))), t)
              else Done(judged, t)
    {
      accepted := s.threads[t].CallbackAccept?;
      if accepted { Do(AcceptCallback(t)); } else { Do(RejectCallback(t)); }
    }

    method ReadConsent(t: nat, challenge: string)
      requires Valid() && t !in s.threads && challenge in s.consents
      modifies this
      ensures Valid()
      ensures var pc := AfterReadConsent(cfg, challenge, old(s.consents[challenge]));
              s == if pc.Some? then At(old(s), t, pc.value) else old(s)
    {
      Do(Action.ReadConsent(t, challenge));
    }

    method ReadApproval(t: nat, challenge: string)
      requires Valid() && t !in s.threads && challenge in s.consents
      modifies this
      ensures Valid() && s == At(old(s), t, ApproveGrant(challenge, old(s.consents[challenge])))
    {
      Do(Action.ReadApproval(t, challenge));
    }

    method AcceptConsent(t: nat)
      requires Valid() && t in s.threads && (s.threads[t].ConsentGrant? || s.threads[t].ApproveGrant?)
      modifies this
      ensures Valid()
      ensures var pc := old(s.threads[t]); s == Done(Grant(old(s), pc.challenge, pc.request, pc.ApproveGrant?), t)
    {
      if s.threads[t].ConsentGrant? { Do(GrantConsent(t)); } else { Do(GrantApproval(t)); }
    }

    // ----- the handlers

    /**
     * A remembered login with an address is judged by the list and answered at Hydra; any other starts
     * one flow for its challenge. A fault means that something was not heard of, not that it did not happen.
     */
    method Login(t: nat, challenge: string, id: string, csrf: string, calls: Calls) returns (r: Response)
      requires Valid() && t !in s.threads && FreshId(s, id)
      modifies this
      ensures Valid()
      ensures !calls.read || challenge !in old(s.logins) ==> r.UpstreamFault? && s == old(s)
      ensures calls.read && challenge in old(s.logins) ==>
                var request := old(s.logins[challenge]);
                var subject, claims := request.session.subject, request.session.Claims();
                if !request.skip || claims.email == "" then
                  && r == (if calls.store.Heard? then ToGithub(csrf, id) else UpstreamFault)
                  && s == if calls.store.Applied() then Begun(old(s), id, Flow(csrf, challenge)) else old(s)
                else if OnTheList(cfg.allowed, claims.login) then
                  && r == (if calls.answer.Heard? then LoginAccepted else UpstreamFault)
                  && s == if calls.answer.Applied() then Accept(old(s), challenge, Session(subject, AsContext(claims)))
                          else old(s)
                else
                  && r == (if calls.answer.Heard? then LoginRejected else UpstreamFault)
                  && s == Revoked(old(s), subject, calls)
    {
      if !calls.read || challenge !in s.logins { return UpstreamFault; }
      var request := s.logins[challenge];
      var claims := request.session.Claims();
      AllowedIff(cfg.allowed, claims.login);
      ReadLogin(t, challenge);
      assert old(s.threads)[t := s.threads[t]] - {t} == old(s.threads);
      if request.skip && claims.email != "" {
        r := AnswerSkip(t, calls);
      } else {
        r := Begin(t, id, csrf, calls);
      }
    }

    /** The flow of a login that is not remembered, kept before the person is sent to GitHub. */
    method Begin(t: nat, id: string, csrf: string, calls: Calls) returns (r: Response)
      requires Valid() && t in s.threads && s.threads[t].BeginFlow? && FreshId(s, id)
      modifies this
      ensures Valid()
      ensures r == if calls.store.Heard? then ToGithub(csrf, id) else UpstreamFault
      ensures s == Done(if calls.store.Applied() then Begun(old(s), id, Flow(csrf, old(s.threads[t].challenge)))
                        else old(s), t)
    {
      if calls.store.Applied() { CreateFlow(t, id, csrf); } else { End(t, false); }
      return if calls.store.Heard? then ToGithub(csrf, id) else UpstreamFault;
    }

    /** The answer to a remembered login, once the list has been looked at. */
    method AnswerSkip(t: nat, calls: Calls) returns (r: Response)
      requires Valid() && t in s.threads && (s.threads[t].SkipAccept? || s.threads[t].SkipRevoke?)
      modifies this
      ensures Valid()
      ensures var pc := old(s.threads[t]);
              && r == (if !calls.answer.Heard? then UpstreamFault
                       else if pc.SkipAccept? then LoginAccepted else LoginRejected)
              && s == Done(if pc.SkipRevoke? then Revoked(old(s), pc.subject, calls)
                           else if calls.answer.Applied() then
                             Accept(old(s), pc.challenge, Session(pc.subject, AsContext(pc.claims)))
                           else old(s), t)
    {
      if s.threads[t].SkipRevoke? {
        Revoke(t, calls);
        End(t, calls.answer.Applied());
        return if calls.answer.Heard? then LoginRejected else UpstreamFault;
      }
      if calls.answer.Applied() { AcceptSkipped(t); } else { End(t, false); }
      return if calls.answer.Heard? then LoginAccepted else UpstreamFault;
    }

    /** The flow is spent before anything about it is known; only its own `state` carries on. */
    method GithubCallback(t: nat, cookie: Option<string>, state: string, calls: Calls)
      returns (r: Response)
      requires Valid() && t !in s.threads
      modifies this
      ensures Valid() && s.threads == old(s.threads) && s.consents == old(s.consents) && s.logins == old(s.logins)
      ensures cookie.None? ==> r.Expired?
      ensures cookie.None? || calls.store.Missed? || cookie.value !in old(s.flows) ==> s == old(s)
      ensures cookie.Some? && !calls.store.Heard? ==> r.UpstreamFault? && s.ledger.logins == old(s.ledger.logins)
      ensures cookie.Some? && calls.store.Heard? ==>
                && (cookie.value !in old(s.flows) <==> r.Expired?)
                && (r.StateMismatch? <==> cookie.value in old(s.flows) && old(s.flows)[cookie.value].csrf != state)
      ensures cookie.Some? && calls.store.Applied() ==> s.flows == old(s.flows) - {cookie.value}
      ensures s.ledger.verdicts != old(s.ledger.verdicts) ==>
                && cookie.Some? && cookie.value in old(s.flows)
                && var flow := old(s.flows)[cookie.value];
                && flow.csrf == state
                && s.ledger.verdicts == old(s.ledger.verdicts)
                     + [Verdict(cookie.value, flow.challenge, s.ledger.logins != old(s.ledger.logins))]
      ensures s.ledger.logins != old(s.ledger.logins) ==>
                && calls.github.Answered? && cookie.Some? && cookie.value in old(s.flows)
                && var who := Assemble(calls.github.user, calls.github.addresses);
                && OnTheList(cfg.allowed, who.claims.login)
                && s.ledger.logins == old(s.ledger.logins)
                     + [LoginAccept(old(s.flows)[cookie.value].challenge, Session(who.subject, AsContext(who.claims)))]
      ensures r.LoginAccepted? ==> s.ledger.logins != old(s.ledger.logins)
      ensures r.LoginRejected? ==> s.ledger.verdicts != old(s.ledger.verdicts)
      ensures r.LoginRejected? || r.Expired? || r.StateMismatch? ==>
                s.ledger.logins == old(s.ledger.logins) && s.grants == old(s.grants)
    {
      if cookie.None? { return Expired; }
      if calls.store.Missed? { return UpstreamFault; }
      if calls.store.Lost? {
        TakeUnheard(t, cookie.value, state);
        return UpstreamFault;
      }
      var flow := TakeFlow(t, cookie.value, state);
      if flow.None? { return Expired; }
      if flow.value.csrf != state { return StateMismatch; }
      r := AnswerChallenge(t, calls);
    }

    /** The rest of the callback, once the flow is this handler's. */
    method AnswerChallenge(t: nat, calls: Calls) returns (r: Response)
      requires Valid() && t in s.threads && s.threads[t].Exchanging?
      modifies this
      ensures Valid() && s.threads == old(s.threads) - {t} && s.flows == old(s.flows)
      ensures s.consents == old(s.consents) && s.logins == old(s.logins)
      ensures var judged := !calls.github.Refused? && calls.answer.Applied();
              var passed := calls.github.Answered?
                && OnTheList(cfg.allowed, Assemble(calls.github.user, calls.github.addresses).claims.login);
              var pc := old(s.threads[t]);
              && r == (if calls.github.Refused? || !calls.answer.Heard? then UpstreamFault
                       else if passed then LoginAccepted else LoginRejected)
              && s.ledger.verdicts == old(s.ledger.verdicts)
                   + (if judged then [Verdict(pc.id, pc.flow.challenge, passed)] else [])
              && (if judged && passed then
                    var who := Assemble(calls.github.user, calls.github.addresses);
                    var session := Session(who.subject, AsContext(who.claims));
                    && s.ledger.logins == old(s.ledger.logins) + [LoginAccept(pc.flow.challenge, session)]
                    && s.grants == old(s.grants) + {session}
                  else s.ledger.logins == old(s.ledger.logins) && s.grants == old(s.grants))
    {
      match calls.github {
        case Declined(error) => NoCode(t, error);
        case Refused => End(t, false); return UpstreamFault;
        case Answered(user, addresses) =>
          AllowedIff(cfg.allowed, Assemble(user, addresses).claims.login);
          ExchangeCode(t, user, addresses);
      }
      r := AnswerLogin(t, calls.answer);
    }

    /** Hydra hears the verdict, or the handler ends without knowing whether it did. */
    method AnswerLogin(t: nat, answer: Reply) returns (r: Response)
      requires Valid() && t in s.threads && (s.threads[t].CallbackAccept? || s.threads[t].CallbackReject?)
      modifies this
      ensures Valid() && s.threads == old(s.threads) - {t} && s.flows == old(s.flows)
      ensures s.consents == old(s.consents) && s.logins == old(s.logins)
      ensures var pc := old(s.threads[t]);
              && r == (if !answer.Heard? then UpstreamFault else if pc.CallbackAccept? then LoginAccepted else LoginRejected)
              && s.ledger.verdicts == old(s.ledger.verdicts)
                   + (if answer.Applied() then [Verdict(pc.id, pc.flow.challenge, pc.CallbackAccept?)] else [])
              && (if answer.Applied() && pc.CallbackAccept? then
                    var session := Session(pc.identity.subject, AsContext(pc.identity.claims));
                    && s.ledger.logins == old(s.ledger.logins) + [LoginAccept(pc.flow.challenge, session)]
                    && s.grants == old(s.grants) + {session}
                  else s.ledger.logins == old(s.ledger.logins) && s.grants == old(s.grants))
    {
      if answer.Missed? { End(t, false); return UpstreamFault; }
      var accepted := AnswerCallback(t);
      return if answer.Lost? then UpstreamFault else if accepted then LoginAccepted else LoginRejected;
    }

    /** The list first, then whether the client is registered here, then the page. */
    method Consent(t: nat, challenge: string, calls: Calls) returns (r: Response)
      requires Valid() && t !in s.threads
      modifies this
      ensures Valid()
      ensures !calls.read || challenge !in old(s.consents) ==> r.UpstreamFault? && s == old(s)
      ensures calls.read && challenge in old(s.consents) ==>
                var request := old(s.consents[challenge]);
                var login := request.session.Claims().login;
                if !OnTheList(cfg.allowed, login) then
                  && r == (if calls.answer.Heard? then ConsentRejected else UpstreamFault)
                  && s == Revoked(old(s), request.session.subject, calls)
                else if request.clientId in cfg.firstParty then
                  && r == (if calls.answer.Heard? then ConsentAccepted else UpstreamFault)
                  && s == if calls.answer.Applied() then Grant(old(s), challenge, request, false) else old(s)
                else r == ConsentPage(login) && s == old(s)
    {
      if !calls.read || challenge !in s.consents { return UpstreamFault; }
      var request := s.consents[challenge];
      var login := request.session.Claims().login;
      AllowedIff(cfg.allowed, login);
      ReadConsent(t, challenge);
      assert t in s.threads ==> old(s.threads)[t := s.threads[t]] - {t} == old(s.threads);
      if !LoginAllowed(cfg.allowed, login) || request.clientId in cfg.firstParty {
        r := AnswerConsent(t, calls);
      } else {
        r := ConsentPage(login);
      }
    }

    /** The answer to a consent that needs no page. */
    method AnswerConsent(t: nat, calls: Calls) returns (r: Response)
      requires Valid() && t in s.threads && (s.threads[t].ConsentGrant? || s.threads[t].ConsentRevoke?)
      modifies this
      ensures Valid()
      ensures var pc := old(s.threads[t]);
              && r == (if !calls.answer.Heard? then UpstreamFault
                       else if pc.ConsentGrant? then ConsentAccepted else ConsentRejected)
              && s == Done(if pc.ConsentRevoke? then Revoked(old(s), pc.subject, calls)
                           else if calls.answer.Applied() then Grant(old(s), pc.challenge, pc.request, false)
                           else old(s), t)
    {
      if s.threads[t].ConsentRevoke? {
        Revoke(t, calls);
        End(t, calls.answer.Applied());
        return if calls.answer.Heard? then ConsentRejected else UpstreamFault;
      }
      if calls.answer.Applied() { AcceptConsent(t); } else { End(t, false); }
      return if calls.answer.Heard? then ConsentAccepted else UpstreamFault;
    }

    /** Whoever posts the challenge decides; the allowlist is not looked at again. */
    method ConsentDecision(t: nat, challenge: string, approve: bool, calls: Calls) returns (r: Response)
      requires Valid() && t !in s.threads
      modifies this
      ensures Valid()
      ensures !approve ==> s == old(s) && r == if calls.answer.Heard? then ConsentRejected else UpstreamFault
      ensures approve && (!calls.read || challenge !in old(s.consents)) ==> r.UpstreamFault? && s == old(s)
      ensures approve && calls.read && challenge in old(s.consents) ==>
                && r == (if calls.answer.Heard? then ConsentAccepted else UpstreamFault)
                && s == if calls.answer.Applied() then Grant(old(s), challenge, old(s.consents[challenge]), true) else old(s)
    {
      if !approve {
        return if calls.answer.Heard? then ConsentRejected else UpstreamFault;
      }
      if !calls.read || challenge !in s.consents { return UpstreamFault; }
      ReadApproval(t, challenge);
      if calls.answer.Applied() { AcceptConsent(t); } else { End(t, false); }
      return if calls.answer.Heard? then ConsentAccepted else UpstreamFault;
    }
  }

  /** What Hydra accepts it remembers: the login may be skipped next time, and the client holds tokens. */
  lemma AcceptedIsRemembered(cfg: Config, s: State, challenge: string, session: Session, next: string,
                             request: ConsentRequest, approved: bool)
    requires next !in s.logins && next !in s.consents
    ensures Step(cfg, Accept(s, challenge, session), OpenLogin(next, LoginRequest(true, session))).Some?
    ensures request.session == session ==> Step(cfg, Accept(s, challenge, session), OpenConsent(next, request)).Some?
    ensures Issue(request.session.subject, request.clientId) in Grant(s, challenge, request, approved).issued
  {}

  /** With both revocations carried out, Hydra holds neither a login nor a consent session of the subject. */
  lemma RevokedLeavesNothing(s: State, subject: string, calls: Calls)
    requires calls.revokeConsents.Heard? && calls.revokeLogin.Applied()
    ensures var after := Revoked(s, subject, calls);
            && (forall g :: g in after.sessions <==> g in s.sessions && g.subject != subject)
            && (forall i :: i in after.issued <==> i in s.issued && i.subject != subject)
  {}
}
