/**
 * Who a person is: the allowlist (apps/auth/src/config.rs), GitHub's answer
 * (apps/auth/src/github.rs) and the claims a session carries (apps/auth/src/hydra.rs).
 */
module AuthIdentity {
  import opened Prelude
  import opened Text

  // ----- the allowlist

  function LowerAscii(c: char): char {
    if 'A' <= c <= 'Z' then ((c as int) + 32) as char else c
  }

  predicate EqIgnoreCase(a: string, b: string) {
    |a| == |b| && forall i :: 0 <= i < |a| ==> LowerAscii(a[i]) == LowerAscii(b[i])
  }

  predicate LoginAllowed(allowed: seq<string>, login: string) {
    exists i :: 0 <= i < |allowed| && EqIgnoreCase(allowed[i], login)
  }

  /** `GH_ALLOWED`: names between commas, trimmed, blanks dropped. */
  function ParseAllowed(raw: string): seq<string> {
    Filter((s: string) => s != "", Map((s: string) => Trim(s, RUST_WHITESPACE), Split(raw, {','})))
  }

  /** The names between the commas, with whatever white space around them, and nothing for a blank. */
  lemma AllowlistIsRead(items: seq<Padded>)
    requires items != [] && forall i :: i in items ==> i.Clean(RUST_WHITESPACE, ',')
    ensures ParseAllowed(Join(Spell(items), ",")) == Filter((s: string) => s != "", Cores(items))
  {
    var trim := (s: string) => Trim(s, RUST_WHITESPACE);
    PaddedList(items, trim, RUST_WHITESPACE, ',');
  }

  datatype BootError = EmptyAllowlist

  function LoadAllowed(raw: string): Result<seq<string>, BootError> {
    var allowed := ParseAllowed(raw);
    if allowed == [] then Err(EmptyAllowlist) else Ok(allowed)
  }

  /** Whatever boots admits somebody, and never the empty login a context without one would give. */
  lemma BootedAllowlist(raw: string)
    ensures match LoadAllowed(raw)
            case Err(_) => forall login :: !LoginAllowed(ParseAllowed(raw), login)
            case Ok(allowed) => (exists login :: LoginAllowed(allowed, login)) && !LoginAllowed(allowed, "")
  {
    var allowed := ParseAllowed(raw);
    if allowed != [] {
      assert allowed[0] in allowed && EqIgnoreCase(allowed[0], allowed[0]);
      assert LoginAllowed(allowed, allowed[0]);
      forall i | 0 <= i < |allowed| ensures !EqIgnoreCase(allowed[i], "") { assert allowed[i] in allowed; }
    }
  }

  /** The same character, or the two cases of one ASCII letter. */
  predicate SameButCase(c: char, d: char) {
    || c == d
    || ('A' <= c <= 'Z' && d as int == c as int + 32)
    || ('A' <= d <= 'Z' && c as int == d as int + 32)
  }

  /** Some entry is this login, character by character, but for the case of ASCII letters. */
  predicate OnTheList(allowed: seq<string>, login: string) {
    exists i :: 0 <= i < |allowed| && |allowed[i]| == |login|
                && forall j :: 0 <= j < |login| ==> SameButCase(allowed[i][j], login[j])
  }

  lemma CaseFolds(a: string, b: string)
    ensures EqIgnoreCase(a, b) <==> |a| == |b| && forall j :: 0 <= j < |b| ==> SameButCase(a[j], b[j])
  {
    if |a| == |b| {
      forall j | 0 <= j < |b| ensures LowerAscii(a[j]) == LowerAscii(b[j]) <==> SameButCase(a[j], b[j]) {}
    }
  }

  lemma AllowedIff(allowed: seq<string>, login: string)
    ensures LoginAllowed(allowed, login) <==> OnTheList(allowed, login)
  {
    forall i | 0 <= i < |allowed|
      ensures EqIgnoreCase(allowed[i], login) <==>
        |allowed[i]| == |login| && forall j :: 0 <= j < |login| ==> SameButCase(allowed[i][j], login[j])
    {
      CaseFolds(allowed[i], login);
    }
  }

  /** Spelling a login in another case changes nothing. */
  lemma AllowedIgnoresCase(allowed: seq<string>, a: string, b: string)
    requires |a| == |b| && forall j :: 0 <= j < |b| ==> SameButCase(a[j], b[j])
    ensures LoginAllowed(allowed, a) <==> LoginAllowed(allowed, b)
  {
    CaseFolds(a, b);
    forall i | 0 <= i < |allowed| ensures EqIgnoreCase(allowed[i], a) <==> EqIgnoreCase(allowed[i], b) {}
  }

  // ----- GitHub's answer

  datatype GithubUser = GithubUser(id: nat, login: string)
  datatype Address = Address(email: string, primary: bool, verified: bool)
  datatype Identity = Identity(subject: string, claims: Claims)

  function Noreply(u: GithubUser): string {
    Decimal(u.id) + "+" + u.login + "@users.noreply.github.com"
  }

  function FirstWhere(f: Address -> bool, addresses: seq<Address>): (r: Option<Address>)
    ensures r.Some? ==> r.value in addresses && f(r.value)
    ensures r.None? ==> forall a :: a in addresses ==> !f(a)
  {
    if addresses == [] then None
    else if f(addresses[0]) then Some(addresses[0])
    else FirstWhere(f, addresses[1..])
  }

  function Pick(addresses: seq<Address>): Option<Address> {
    match FirstWhere((a: Address) => a.primary && a.verified, addresses)
    case Some(a) => Some(a)
    case None => FirstWhere((a: Address) => a.verified, addresses)
  }

  function Subject(u: GithubUser): string {
    "github:" + Decimal(u.id)
  }

  /** What `exchange_code` makes of a user and their addresses (none, when the list was refused). */
  function Assemble(u: GithubUser, addresses: seq<Address>): Identity {
    var picked := Pick(addresses);
    Identity(Subject(u),
             if picked.Some? then Claims(u.login, picked.value.email, true)
             else Claims(u.login, Noreply(u), false))
  }

  /** A verified address, and a primary one unless no primary one is verified. */
  predicate BestAddress(a: Address, addresses: seq<Address>) {
    && a in addresses && a.verified
    && (a.primary || forall b :: b in addresses && b.primary ==> !b.verified)
  }

  /**
   * An address is vouched for exactly when GitHub verified one, the primary one where that is
   * verified; otherwise it is the account's own no-reply address.
   */
  lemma AddressIsVouchedFor(u: GithubUser, addresses: seq<Address>)
    ensures var c := Assemble(u, addresses).claims;
            && Assemble(u, addresses).subject == Subject(u) && c.login == u.login
            && (c.emailVerified <==> exists a :: a in addresses && a.verified)
            && (c.emailVerified ==> exists a :: BestAddress(a, addresses) && a.email == c.email)
            && (!c.emailVerified ==> c.email == Noreply(u))
  {
    var picked := Pick(addresses);
    if picked.Some? {
      assert BestAddress(picked.value, addresses);
    }
  }

  lemma SubjectsApart(u: GithubUser, v: GithubUser)
    ensures Subject(u) == Subject(v) <==> u.id == v.id
  {
    DecimalInjective(u.id, v.id);
    assert Subject(u)[7..] == Decimal(u.id) && Subject(v)[7..] == Decimal(v.id);
  }

  lemma NoPlus(n: nat)
    ensures '+' !in Decimal(n)
  {}

  lemma CutSuffix(a: string, b: string, suffix: string)
    ensures a + suffix == b + suffix <==> a == b
  {
    if a + suffix == b + suffix {
      assert |a| == |b|;
      assert (a + suffix)[..|a|] == a && (b + suffix)[..|b|] == b;
    }
  }

  /** One account, one subject; and a no-reply address names both the account and its login. */
  lemma AccountsApart(u: GithubUser, v: GithubUser)
    ensures Subject(u) == "github:" + Decimal(u.id)
    ensures Noreply(u)[|Decimal(u.id)|..] == "+" + u.login + "@users.noreply.github.com"
    ensures Subject(u) == Subject(v) <==> u.id == v.id
    ensures Noreply(u) == Noreply(v) <==> u == v
  {
    SubjectsApart(u, v);
    DecimalInjective(u.id, v.id);
    var host := "@users.noreply.github.com";
    NoPlus(u.id);
    NoPlus(v.id);
    FirstSeparator(Decimal(u.id), u.login + host, Decimal(v.id), v.login + host, '+');
    CutSuffix(u.login, v.login, host);
    assert Noreply(u) == Decimal(u.id) + ['+'] + (u.login + host);
    assert Noreply(v) == Decimal(v.id) + ['+'] + (v.login + host);
  }

  // ----- claims and the session context

  datatype Json =
    | Null
    | Bool(flag: bool)
    | Number(value: int)
    | Text(text: string)
    | List(items: seq<Json>)
    | Object(fields: map<string, Json>)

  datatype Claims = Claims(login: string, email: string, emailVerified: bool)

  function Field(v: Json, key: string): Json {
    if v.Object? && key in v.fields then v.fields[key] else Null
  }

  /** A context is anything at all: sessions outlive the code that wrote them. */
  function FromContext(context: Json, subject: string): Claims {
    var login, email, verified := Field(context, "login"), Field(context, "email"), Field(context, "email_verified");
    Claims(if login.Text? then login.text else subject,
           if email.Text? then email.text else "",
           verified.Bool? && verified.flag)
  }

  function AsContext(c: Claims): Json {
    Object(map["login" := Text(c.login), "email" := Text(c.email), "email_verified" := Bool(c.emailVerified)])
  }

  predicate Says(context: Json, key: string, value: Json) {
    context.Object? && key in context.fields && context.fields[key] == value
  }

  /**
   * Of any context at all: a text is the login or the address, a missing login is the subject, a missing
   * address is empty, and nothing but `true` marks it verified.
   */
  lemma AnyContextIsRead(context: Json, subject: string)
    ensures var c := FromContext(context, subject);
            && (forall t :: Says(context, "login", Text(t)) ==> c.login == t)
            && ((forall t :: !Says(context, "login", Text(t))) ==> c.login == subject)
            && (forall t :: Says(context, "email", Text(t)) ==> c.email == t)
            && ((forall t :: !Says(context, "email", Text(t))) ==> c.email == "")
            && (c.emailVerified <==> Says(context, "email_verified", Bool(true)))
  {
    var login, email := Field(context, "login"), Field(context, "email");
    if login.Text? { assert Says(context, "login", Text(login.text)); }
    if email.Text? { assert Says(context, "email", Text(email.text)); }
  }

  /** What is written into a session is what every later reader gets, whatever the subject. */
  lemma ClaimsRoundTrip(c: Claims, subject: string)
    ensures FromContext(AsContext(c), subject) == c
  {
    assert |"login"| == 5 && |"email"| == 5 && "login"[0] != "email"[0] && |"email_verified"| == 14;
  }
}
