/** The VPN roster as the deployment's secret spells it (packages/vpn/src/users.ts). */
module Roster {
  import opened Prelude
  import opened Text

  datatype Role = Admin | Guest
  datatype User = User(name: string, role: Role)

  datatype RosterError = InvalidName(name: string) | DuplicateName(name: string)

  predicate Letter(c: char) { 'a' <= c <= 'z' || 'A' <= c <= 'Z' }

  predicate NameChar(c: char) { Letter(c) || IsDigit(c) || c == '_' || c == '-' }

  /** `/^[a-z][a-z0-9_-]*$/i` */
  predicate ValidName(s: string) {
    s != "" && Letter(s[0]) && forall c :: c in s ==> NameChar(c)
  }

  // ----- one token

  function Trimmed(): string -> string { (s: string) => Trim(s, WHITESPACE) }

  predicate Starred(token: string) { EndsWith(token, "+") }

  /** The user a trimmed token stands for. */
  function ReadUser(token: string): User {
    if Starred(token) then User(Trim(token[..|token| - 1], WHITESPACE), Admin)
    else User(Trim(token, WHITESPACE), Guest)
  }

  function UserName(u: User): string { u.name }

  /** The tokens that are not blank. */
  function Tokens(raw: string): seq<string> {
    Filter((t: string) => t != "", Map(Trimmed(), Split(raw, {','})))
  }

  function Named(tokens: seq<string>): seq<User> { Map(ReadUser, tokens) }

  function UserNames(users: seq<User>): seq<string> { Map(UserName, users) }

  predicate ValidRoster(users: seq<User>) {
    (forall u :: u in users ==> ValidName(u.name)) && Distinct(UserNames(users))
  }

  /** What a roster stands for, if it is one. */
  function Parse(raw: string): Option<seq<User>> {
    if ValidRoster(Named(Tokens(raw))) then Some(Named(Tokens(raw))) else None
  }

  /** What is wrong with the first token that cannot be taken, given those before it. */
  predicate FirstFault(users: seq<User>, i: nat, error: RosterError) {
    && i < |users| && ValidRoster(users[..i])
    && if !ValidName(users[i].name) then error == InvalidName(users[i].name)
       else users[i].name in UserNames(users[..i]) && error == DuplicateName(users[i].name)
  }

  lemma RosterSnoc(users: seq<User>, u: User)
    ensures ValidRoster(users + [u]) <==> ValidRoster(users) && ValidName(u.name) && u.name !in UserNames(users)
    ensures UserNames(users + [u]) == UserNames(users) + [u.name]
  {
    DistinctConcat(UserNames(users), [u.name]);
    ApartMembers(UserNames(users), [u.name]);
    assert UserNames(users + [u]) == UserNames(users) + [u.name];
    if ValidRoster(users + [u]) {
      assert u in users + [u];
      forall v | v in users ensures ValidName(v.name) { assert v in users + [u]; }
    }
  }

  lemma {:induction false} RosterPrefix(users: seq<User>, i: nat)
    requires i <= |users| && ValidRoster(users)
    ensures ValidRoster(users[..i])
    decreases |users| - i
  {
    if i < |users| {
      RosterPrefix(users, i + 1);
      assert users[..i + 1] == users[..i] + [users[i]];
      RosterSnoc(users[..i], users[i]);
    } else {
      assert users[..i] == users;
    }
  }

  lemma FaultSpoils(users: seq<User>, i: nat, error: RosterError)
    requires FirstFault(users, i, error)
    ensures !ValidRoster(users)
  {
    RosterSnoc(users[..i], users[i]);
    assert users[..i + 1] == users[..i] + [users[i]];
    if ValidRoster(users) { RosterPrefix(users, i + 1); }
  }

  function TokensOf(parts: seq<string>): seq<string> {
    Filter((t: string) => t != "", Map(Trimmed(), parts))
  }

  lemma TokensSnoc(parts: seq<string>, i: nat)
    requires i < |parts|
    ensures var token := Trim(parts[i], WHITESPACE);
            && TokensOf(parts[..i + 1]) == TokensOf(parts[..i]) + (if token != "" then [token] else [])
            && (token != "" ==> Named(TokensOf(parts[..i + 1])) == Named(TokensOf(parts[..i])) + [ReadUser(token)])
  {
    var token := Trim(parts[i], WHITESPACE);
    assert Map(Trimmed(), parts[..i + 1]) == Map(Trimmed(), parts[..i]) + [token];
    FilterConcat((t: string) => t != "", Map(Trimmed(), parts[..i]), [token]);
    assert [token][1..] == [];
  }

  /** What has been read so far is where the whole reading starts. */
  lemma {:induction false} TokensAhead(parts: seq<string>, i: nat)
    requires i <= |parts|
    ensures TokensOf(parts[..i]) <= TokensOf(parts)
    ensures Named(TokensOf(parts[..i])) <= Named(TokensOf(parts))
    decreases |parts| - i
  {
    if i < |parts| {
      TokensAhead(parts, i + 1);
      TokensSnoc(parts, i);
    } else {
      assert parts[..i] == parts;
    }
  }

  /** Where reading stands before a token that is not blank. */
  lemma NextToken(parts: seq<string>, i: nat, users: seq<User>, all: seq<User>)
    requires i < |parts| && Trim(parts[i], WHITESPACE) != ""
    requires users == Named(TokensOf(parts[..i])) && all == Named(TokensOf(parts))
    ensures |users| < |all| && all[..|users|] == users && all[|users|] == ReadUser(Trim(parts[i], WHITESPACE))
  {
    TokensSnoc(parts, i);
    TokensAhead(parts, i + 1);
    var next := Named(TokensOf(parts[..i + 1]));
    assert next == users + [ReadUser(Trim(parts[i], WHITESPACE))] && next <= all;
    assert all[|users|] == next[|users|] && all[..|users|] == next[..|users|];
  }

  /** The user read next, or what is wrong with them. */
  function Taken(users: seq<User>, u: User): Result<seq<User>, RosterError> {
    if !ValidName(u.name) then Err(InvalidName(u.name))
    else if u.name in UserNames(users) then Err(DuplicateName(u.name))
    else Ok(users + [u])
  }

  lemma TakenCases(users: seq<User>, u: User, all: seq<User>)
    requires ValidRoster(users) && |users| < |all| && all[..|users|] == users && all[|users|] == u
    ensures Taken(users, u).Ok? ==> ValidRoster(Taken(users, u).value)
    ensures Taken(users, u).Err? ==> FirstFault(all, |users|, Taken(users, u).error) && !ValidRoster(all)
  {
    RosterSnoc(users, u);
    if Taken(users, u).Err? { FaultSpoils(all, |users|, Taken(users, u).error); }
  }

  /**
   * It succeeds exactly on the rosters, with their users in order; otherwise it names what is wrong
   * with the first token that cannot be taken.
   */
  method ParseVpnUsers(raw: string) returns (r: Result<seq<User>, RosterError>)
    ensures r.Ok? <==> Parse(raw).Some?
    ensures r.Ok? ==> Parse(raw) == Some(r.value)
    ensures r.Err? ==> exists i :: FirstFault(Named(Tokens(raw)), i, r.error)
  {
    var parts := Split(raw, {','});
    var users: seq<User>, seen: set<string> := [], {};
    ghost var all := Named(Tokens(raw));
    for i := 0 to |parts|
      invariant users == Named(TokensOf(parts[..i])) && ValidRoster(users)
      invariant forall n :: n in seen <==> n in UserNames(users)
    {
      var token := Trim(parts[i], WHITESPACE);
      TokensSnoc(parts, i);
      if token == "" { continue; }
      NextToken(parts, i, users, all);
      TakenCases(users, ReadUser(token), all);
      var isAdmin := Starred(token);
      var name := Trim(if isAdmin then token[..|token| - 1] else token, WHITESPACE);
      if !ValidName(name) {
        assert FirstFault(all, |users|, InvalidName(name));
        return Err(InvalidName(name));
      }
      if name in seen {
        assert FirstFault(all, |users|, DuplicateName(name));
        return Err(DuplicateName(name));
      }
      RosterSnoc(users, ReadUser(token));
      seen, users := seen + {name}, users + [User(name, if isAdmin then Admin else Guest)];
    }
    assert parts[..|parts|] == parts;
    return Ok(users);
  }

  // ----- printing

  function Token(u: User): string { if u.role.Admin? then u.name + "+" else u.name }

  function Print(users: seq<User>): string { Join(Map(Token, users), ",") }

  lemma SolidChar(c: char)
    requires NameChar(c) || c == '+'
    ensures c !in WHITESPACE && c != ','
  {}

  lemma TokenSolid(u: User)
    requires ValidName(u.name)
    ensures forall c :: c in Token(u) ==> c !in WHITESPACE && c != ','
  {
    forall c | c in Token(u) ensures c !in WHITESPACE && c != ',' { SolidChar(c); }
  }

  lemma TokenTrimmed(u: User)
    requires ValidName(u.name)
    ensures Trim(Token(u), WHITESPACE) == Token(u) && Trim(u.name, WHITESPACE) == u.name
  {
    TokenSolid(u);
    forall c | c in u.name ensures c !in WHITESPACE { SolidChar(c); }
    TrimSolid(Token(u), WHITESPACE);
    TrimSolid(u.name, WHITESPACE);
  }

  lemma StarMeansAdmin(u: User)
    requires ValidName(u.name)
    ensures Starred(Token(u)) <==> u.role.Admin?
    ensures u.role.Admin? ==> Token(u)[..|Token(u)| - 1] == u.name
  {
    var t := Token(u);
    assert t[|t| - 1..] == [t[|t| - 1]];
    assert u.role.Guest? ==> NameChar(t[|t| - 1]);
  }

  lemma TokenReadsBack(u: User)
    requires ValidName(u.name)
    ensures ReadUser(Token(u)) == u
  {
    TokenTrimmed(u);
    StarMeansAdmin(u);
  }

  lemma PrintedTokens(users: seq<User>)
    requires forall u :: u in users ==> ValidName(u.name)
    ensures Tokens(Print(users)) == Map(Token, users)
  {
    var tokens := Map(Token, users);
    var solid := (t: string) => t != "";
    forall i | 0 <= i < |tokens| ensures ',' !in tokens[i] && Trim(tokens[i], WHITESPACE) == tokens[i] && tokens[i] != "" {
      assert users[i] in users;
      TokenSolid(users[i]);
      TokenTrimmed(users[i]);
    }
    if users == [] {
      NothingPrinted();
      assert tokens == [];
    } else {
      SplitJoin(tokens, ',');
      assert Map(Trimmed(), tokens) == tokens;
      FilterAll(solid, tokens);
    }
  }

  lemma NothingPrinted()
    ensures Tokens("") == []
  {
    assert Split("", {','}) == [""];
    assert Map(Trimmed(), [""]) == [""];
    assert [""][1..] == [];
  }

  /** What is printed reads back as the same roster, and whatever reads at all is a roster. */
  lemma PrintedIsRead(users: seq<User>, raw: string)
    ensures ValidRoster(users) ==> Parse(Print(users)) == Some(users)
    ensures Parse(raw).Some? ==> ValidRoster(Parse(raw).value) && Parse(Print(Parse(raw).value)) == Parse(raw)
  {
    if ValidRoster(users) { PrintedRoster(users); }
    if Parse(raw).Some? { PrintedRoster(Parse(raw).value); }
  }

  lemma PrintedRoster(users: seq<User>)
    requires ValidRoster(users)
    ensures Parse(Print(users)) == Some(users)
  {
    PrintedTokens(users);
    forall i | 0 <= i < |users| ensures ReadUser(Token(users[i])) == users[i] {
      assert users[i] in users;
      TokenReadsBack(users[i]);
    }
    assert Named(Map(Token, users)) == users;
  }

  // ----- a roster as it may be typed

  /** A letter of either case, by code point. */
  predicate LetterCode(v: int) { 65 <= v <= 90 || 97 <= v <= 122 }

  /** A name is a letter, and letters, digits, `_` (95) and `-` (45) behind it. */
  lemma NameSpelled(name: string)
    ensures ValidName(name) <==>
      && name != "" && LetterCode(name[0] as int)
      && forall c :: c in name ==> LetterCode(c as int) || 48 <= c as int <= 57 || c as int == 95 || c as int == 45
  {}

  /** Between two commas: nothing but white space, or a user with white space around the name. */
  datatype Item = Blank(white: string) | Someone(user: User, before: string, inside: string, behind: string)

  function AsPadded(i: Item): Padded {
    match i
    case Blank(white) => Padded(white, "", "")
    case Someone(user, before, inside, behind) =>
      Padded(before, if user.role.Admin? then user.name + inside + "+" else user.name, behind)
  }

  predicate Typed(i: Item) {
    match i
    case Blank(white) => AllWhite(white, WHITESPACE)
    case Someone(user, before, inside, behind) =>
      && AllWhite(before, WHITESPACE) && AllWhite(inside, WHITESPACE) && AllWhite(behind, WHITESPACE)
      && ValidName(user.name)
  }

  function UserOf(i: Item): seq<User> { if i.Someone? then [i.user] else [] }

  lemma WhiteHasNoComma(s: string)
    requires AllWhite(s, WHITESPACE)
    ensures ',' !in s
  {
    forall c | c in s ensures c != ',' {}
  }

  lemma NameEnds(name: string)
    requires ValidName(name)
    ensures name[0] !in WHITESPACE && name[|name| - 1] !in WHITESPACE && ',' !in name && name[|name| - 1] != '+'
    ensures Solid(name, WHITESPACE)
  {
    forall c | c in name ensures c !in WHITESPACE && c != ',' { SolidChar(c); }
    assert name[|name| - 1] in name;
  }

  lemma TypedIsClean(i: Item)
    requires Typed(i)
    ensures AsPadded(i).Clean(WHITESPACE, ',')
    ensures AsPadded(i).core == "" <==> i.Blank?
    ensures i.Someone? ==> ReadUser(AsPadded(i).core) == i.user
  {
    match i
    case Blank(white) => WhiteHasNoComma(white);
    case Someone(user, before, inside, behind) =>
      WhiteHasNoComma(before);
      WhiteHasNoComma(inside);
      WhiteHasNoComma(behind);
      NameEnds(user.name);
      TypedToken(user, inside);
  }

  lemma TypedToken(u: User, inside: string)
    requires ValidName(u.name) && AllWhite(inside, WHITESPACE)
    ensures ReadUser(if u.role.Admin? then u.name + inside + "+" else u.name) == u
  {
    NameEnds(u.name);
    if u.role.Admin? {
      var core := u.name + inside + "+";
      assert core[|core| - 1..] == "+" && core[..|core| - 1] == "" + u.name + inside;
      TrimPadded("", u.name, inside, WHITESPACE);
    } else {
      assert u.name[|u.name| - 1..] == [u.name[|u.name| - 1]];
      TrimPadded("", u.name, "", WHITESPACE);
      assert "" + u.name + "" == u.name;
    }
  }

  function PaddedOf(items: seq<Item>): seq<Padded> { Map(AsPadded, items) }

  function UsersOf(items: seq<Item>): seq<User> { FlatMap(UserOf, items) }

  lemma HeadKept(core: string, cores: seq<string>)
    ensures Filter((t: string) => t != "", [core] + cores)
         == (if core != "" then [core] else []) + Filter((t: string) => t != "", cores)
  {
    assert ([core] + cores)[1..] == cores;
  }

  lemma CoresCons(items: seq<Item>)
    requires items != []
    ensures Cores(PaddedOf(items)) == [AsPadded(items[0]).core] + Cores(PaddedOf(items[1..]))
  {}

  lemma {:induction false} TypedTokens(items: seq<Item>)
    requires forall i :: i in items ==> Typed(i)
    ensures Named(Filter((t: string) => t != "", Cores(PaddedOf(items)))) == UsersOf(items)
  {
    if items != [] {
      TypedTokens(items[1..]);
      TypedIsClean(items[0]);
      CoresCons(items);
      HeadKept(AsPadded(items[0]).core, Cores(PaddedOf(items[1..])));
    }
  }

  /** A roster reads as its users however its commas, names and stars are spaced, blanks between commas skipped. */
  lemma TypedIsRead(items: seq<Item>)
    requires items != [] && (forall i :: i in items ==> Typed(i)) && Distinct(UserNames(UsersOf(items)))
    ensures Parse(Join(Spell(PaddedOf(items)), ",")) == Some(UsersOf(items))
  {
    AllClean(items);
    PaddedList(PaddedOf(items), Trimmed(), WHITESPACE, ',');
    TypedTokens(items);
    AllNamed(items);
  }

  lemma AllClean(items: seq<Item>)
    requires forall i :: i in items ==> Typed(i)
    ensures forall p :: p in PaddedOf(items) ==> p.Clean(WHITESPACE, ',')
  {
    var padded := PaddedOf(items);
    forall p | p in padded ensures p.Clean(WHITESPACE, ',') {
      var k :| 0 <= k < |padded| && padded[k] == p;
      assert items[k] in items;
      TypedIsClean(items[k]);
    }
  }

  lemma AllNamed(items: seq<Item>)
    requires forall i :: i in items ==> Typed(i)
    ensures forall u :: u in UsersOf(items) ==> ValidName(u.name)
  {
    forall u | u in UsersOf(items) ensures ValidName(u.name) {
      FlatMapMember(UserOf, items, u);
      var k :| 0 <= k < |items| && u in UserOf(items[k]);
      assert items[k] in items;
    }
  }
}
