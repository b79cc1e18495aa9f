/**
 * The table a profile server answers from (packages/vpn/src/profiles.ts): a path for each user and
 * client, and the profile behind it. The digest in a path is a parameter.
 */
module Profiles {
  import opened Prelude
  import opened Text
  import opened Roster
  import P = Profile

  datatype Variant = Variant(suffix: string, client: P.Client)

  datatype Entry = Entry(user: User, client: P.Client, key: string)

  function Variants(nodes: seq<P.Node>): seq<Variant> {
    [Variant("", P.SingBox)] + if P.HasXhttp(nodes, P.Sbr) then [Variant(".sbr", P.Sbr)] else []
  }

  function EntryFor(user: User): Variant -> Entry {
    (v: Variant) => Entry(user, v.client, user.name + v.suffix)
  }

  function UserEntries(variants: seq<Variant>): User -> seq<Entry> {
    (user: User) => Map(EntryFor(user), variants)
  }

  function Entries(users: seq<User>, nodes: seq<P.Node>): seq<Entry> {
    FlatMap(UserEntries(Variants(nodes)), users)
  }

  /** The first 32 digits of the digest of the slug and the key; `digest` gives those digits. */
  function PathFor(slug: string, key: string, digest: string -> string): string {
    "/" + digest(slug + ":" + key) + ".json"
  }

  /** `Object.fromEntries`: a key given twice keeps its last value. */
  function FromEntries<K, V>(pairs: seq<(K, V)>): map<K, V> {
    if pairs == [] then map[]
    else FromEntries(pairs[..|pairs| - 1])[pairs[|pairs| - 1].0 := pairs[|pairs| - 1].1]
  }

  function Row(slug: string, nodes: seq<P.Node>, suffix: string, exits: seq<P.Exit>,
               digest: string -> string): Entry -> (string, P.Profile) {
    (e: Entry) => (PathFor(slug, e.key, digest), P.Compile(e.user, nodes, suffix, exits, e.client))
  }

  function Table(users: seq<User>, nodes: seq<P.Node>, slug: string, suffix: string, exits: seq<P.Exit>,
                 digest: string -> string): map<string, P.Profile>
  {
    FromEntries(Map(Row(slug, nodes, suffix, exits, digest), Entries(users, nodes)))
  }

  // ----- keys

  function KeyOf(e: Entry): string { e.key }

  function Keys(entries: seq<Entry>): seq<string> { Map(KeyOf, entries) }

  /** A key is its user's name up to the first full stop, and the rest says which client. */
  lemma KeyTaken(u: User, v: User, a: Variant, b: Variant, nodes: seq<P.Node>)
    requires ValidName(u.name) && ValidName(v.name) && a in Variants(nodes) && b in Variants(nodes)
    ensures EntryFor(u)(a).key == EntryFor(v)(b).key ==> u.name == v.name && a == b
  {
    NoStop(u);
    NoStop(v);
    if a.suffix == b.suffix {
      var n := |u.name + a.suffix| - |a.suffix|;
      assert (u.name + a.suffix)[..n] == u.name;
      if u.name + a.suffix == v.name + b.suffix { assert (v.name + b.suffix)[..n] == v.name; }
    } else if a.suffix == "" {
      assert '.' in v.name + ".sbr" by { assert (v.name + ".sbr")[|v.name|] == '.'; }
    } else {
      assert '.' in u.name + ".sbr" by { assert (u.name + ".sbr")[|u.name|] == '.'; }
    }
  }

  lemma NoStop(u: User)
    requires ValidName(u.name)
    ensures '.' !in u.name
  {}

  lemma VariantsApart(nodes: seq<P.Node>)
    ensures Distinct(Variants(nodes))
  {
    DistinctPairs(Variants(nodes));
  }

  lemma OwnKeysApart(u: User, nodes: seq<P.Node>)
    requires ValidName(u.name)
    ensures Distinct(Keys(UserEntries(Variants(nodes))(u)))
  {
    var vs := Variants(nodes);
    var keys := Keys(UserEntries(vs)(u));
    DistinctPairs(keys);
    VariantsApart(nodes);
    DistinctPairs(vs);
    forall i, j | 0 <= i < j < |keys| ensures keys[i] != keys[j] {
      KeyTaken(u, u, vs[i], vs[j], nodes);
    }
  }

  lemma KeyFrom(users: seq<User>, nodes: seq<P.Node>, key: string) returns (u: User, v: Variant)
    requires key in Keys(Entries(users, nodes))
    ensures u in users && v in Variants(nodes) && key == EntryFor(u)(v).key
  {
    var entries := Entries(users, nodes);
    var k :| 0 <= k < |entries| && Keys(entries)[k] == key;
    FlatMapMember(UserEntries(Variants(nodes)), users, entries[k]);
    var i :| 0 <= i < |users| && entries[k] in UserEntries(Variants(nodes))(users[i]);
    var j :| 0 <= j < |Variants(nodes)| && UserEntries(Variants(nodes))(users[i])[j] == entries[k];
    u, v := users[i], Variants(nodes)[j];
  }

  lemma KeysConcat(a: seq<Entry>, b: seq<Entry>)
    ensures Keys(a + b) == Keys(a) + Keys(b)
  {}

  /** No two users, and no two clients of one user, share a key. */
  lemma {:induction false} KeysApart(users: seq<User>, nodes: seq<P.Node>)
    requires ValidRoster(users)
    ensures Distinct(Keys(Entries(users, nodes)))
  {
    if users != [] {
      var u, rest := users[0], users[1..];
      RosterTail(users);
      KeysApart(rest, nodes);
      OwnKeysApart(u, nodes);
      var own, others := UserEntries(Variants(nodes))(u), Entries(rest, nodes);
      KeysConcat(own, others);
      DistinctConcat(Keys(own), Keys(others));
      ApartMembers(Keys(own), Keys(others));
      forall key | key in Keys(own) ensures key !in Keys(others) {
        var j :| 0 <= j < |own| && Keys(own)[j] == key;
        if key in Keys(others) {
          var v, b := KeyFrom(rest, nodes, key);
          NameInRest(users, v);
          KeyTaken(u, v, Variants(nodes)[j], b, nodes);
        }
      }
    }
  }

  lemma RosterTail(users: seq<User>)
    requires ValidRoster(users) && users != []
    ensures ValidRoster(users[1..]) && ValidName(users[0].name)
  {
    assert users[0] in users && forall u :: u in users[1..] ==> u in users;
    assert UserNames(users)[1..] == UserNames(users[1..]);
  }

  lemma NameInRest(users: seq<User>, v: User)
    requires ValidRoster(users) && users != [] && v in users[1..]
    ensures v.name != users[0].name && ValidName(v.name)
  {
    var i :| 0 <= i < |users[1..]| && users[1..][i] == v;
    assert UserNames(users)[1..][i] == v.name && v in users;
  }

  // ----- the table

  function PathOf(slug: string, digest: string -> string): Entry -> string {
    (e: Entry) => PathFor(slug, e.key, digest)
  }

  lemma {:induction false} FromDistinct<K, V>(pairs: seq<(K, V)>)
    requires forall i, j :: 0 <= i < j < |pairs| ==> pairs[i].0 != pairs[j].0
    ensures |FromEntries(pairs)| == |pairs|
    ensures forall k :: k in FromEntries(pairs) <==> exists i :: 0 <= i < |pairs| && pairs[i].0 == k
    ensures forall i :: 0 <= i < |pairs| ==> pairs[i].0 in FromEntries(pairs) && FromEntries(pairs)[pairs[i].0] == pairs[i].1
  {
    if pairs != [] {
      var n := |pairs| - 1;
      FromDistinct(pairs[..n]);
      var before := FromEntries(pairs[..n]);
      assert pairs[n].0 !in before;
      assert |before[pairs[n].0 := pairs[n].1]| == |before| + 1 by {
        assert before[pairs[n].0 := pairs[n].1].Keys == before.Keys + {pairs[n].0};
      }
      forall i | 0 <= i < n ensures pairs[..n][i] == pairs[i] {}
    }
  }

  /** Two different keys never share a digest. */
  ghost predicate Injective(slug: string, digest: string -> string, keys: seq<string>) {
    forall a, b :: a in keys && b in keys && digest(slug + ":" + a) == digest(slug + ":" + b) ==> a == b
  }

  lemma PathTaken(slug: string, digest: string -> string, a: string, b: string)
    ensures PathFor(slug, a, digest) == PathFor(slug, b, digest) <==> digest(slug + ":" + a) == digest(slug + ":" + b)
  {
    var x, y := digest(slug + ":" + a), digest(slug + ":" + b);
    if PathFor(slug, a, digest) == PathFor(slug, b, digest) {
      assert PathFor(slug, a, digest)[1..][..|x|] == x;
      assert PathFor(slug, b, digest)[1..][..|y|] == y;
      assert |x| == |y|;
    }
  }

  lemma FromRows<A, K, V>(f: A -> (K, V), xs: seq<A>)
    requires forall i, j :: 0 <= i < j < |xs| ==> f(xs[i]).0 != f(xs[j]).0
    ensures var table := FromEntries(Map(f, xs));
            && |table| == |xs|
            && (forall k :: k in table <==> exists x :: x in xs && k == f(x).0)
            && forall x :: x in xs ==> f(x).0 in table && table[f(x).0] == f(x).1
  {
    var rows := Map(f, xs);
    FromDistinct(rows);
    forall x | x in xs ensures exists i :: 0 <= i < |rows| && rows[i] == f(x) {
      var i :| 0 <= i < |xs| && xs[i] == x;
      assert rows[i] == f(x);
    }
    var table := FromEntries(rows);
    forall k ensures k in table <==> exists x :: x in xs && k == f(x).0 {
      if k in table {
        var i :| 0 <= i < |rows| && rows[i].0 == k;
        assert xs[i] in xs && k == f(xs[i]).0;
      }
    }
  }

  lemma PathsApart(slug: string, digest: string -> string, entries: seq<Entry>)
    requires Distinct(Keys(entries)) && Injective(slug, digest, Keys(entries))
    ensures forall i, j :: 0 <= i < j < |entries| ==> PathOf(slug, digest)(entries[i]) != PathOf(slug, digest)(entries[j])
  {
    var keys := Keys(entries);
    DistinctPairs(keys);
    forall i, j | 0 <= i < j < |entries| ensures PathOf(slug, digest)(entries[i]) != PathOf(slug, digest)(entries[j]) {
      assert keys[i] in keys && keys[j] in keys && keys[i] != keys[j];
      PathTaken(slug, digest, keys[i], keys[j]);
    }
  }

  lemma RowsApart<V>(row: Entry -> (string, V), path: Entry -> string, entries: seq<Entry>)
    requires forall e :: row(e).0 == path(e)
    requires forall i, j :: 0 <= i < j < |entries| ==> path(entries[i]) != path(entries[j])
    ensures forall i, j :: 0 <= i < j < |entries| ==> row(entries[i]).0 != row(entries[j]).0
  {}

  /**
   * The table of a valid roster has one path for each user and client, no other, and behind it that
   * user's own profile for that client.
   */
  lemma OnePathEach(users: seq<User>, nodes: seq<P.Node>, slug: string, suffix: string,
                    exits: seq<P.Exit>, digest: string -> string)
    requires ValidRoster(users) && Injective(slug, digest, Keys(Entries(users, nodes)))
    ensures var table, row := Table(users, nodes, slug, suffix, exits, digest), Row(slug, nodes, suffix, exits, digest);
            && |table| == |users| * |Variants(nodes)|
            && (forall path :: path in table <==> exists e :: e in Entries(users, nodes) && path == row(e).0)
            && (forall e :: e in Entries(users, nodes) ==> row(e).0 in table && table[row(e).0] == row(e).1)
  {
    var entries, row := Entries(users, nodes), Row(slug, nodes, suffix, exits, digest);
    EntryRowsApart(users, nodes, slug, suffix, exits, digest);
    FromRows(row, entries);
    EntriesCount(users, nodes);
  }

  lemma EntryRowsApart(users: seq<User>, nodes: seq<P.Node>, slug: string, suffix: string,
                       exits: seq<P.Exit>, digest: string -> string)
    requires ValidRoster(users) && Injective(slug, digest, Keys(Entries(users, nodes)))
    ensures var entries, row := Entries(users, nodes), Row(slug, nodes, suffix, exits, digest);
            forall i, j :: 0 <= i < j < |entries| ==> row(entries[i]).0 != row(entries[j]).0
  {
    KeysApart(users, nodes);
    PathsApart(slug, digest, Entries(users, nodes));
    RowsApart(Row(slug, nodes, suffix, exits, digest), PathOf(slug, digest), Entries(users, nodes));
  }

  lemma {:induction false} EntriesCount(users: seq<User>, nodes: seq<P.Node>)
    ensures |Entries(users, nodes)| == |users| * |Variants(nodes)|
  {
    if users != [] {
      EntriesCount(users[1..], nodes);
      assert |users| * |Variants(nodes)| == |Variants(nodes)| + |users[1..]| * |Variants(nodes)|;
    }
  }

  /** The names a path may be derived from: every user's, plain and for sbr. */
  function AllKeys(users: seq<User>): seq<string> {
    Map((u: User) => u.name, users) + Map((u: User) => u.name + ".sbr", users)
  }

  lemma KeysAmongAll(users: seq<User>, nodes: seq<P.Node>)
    ensures forall key :: key in Keys(Entries(users, nodes)) ==> key in AllKeys(users)
  {
    forall key | key in Keys(Entries(users, nodes)) ensures key in AllKeys(users) {
      var u, v := KeyFrom(users, nodes, key);
      NameAmongAll(users, u);
      assert v.suffix == "" ==> key == u.name;
    }
  }

  lemma NameAmongAll(users: seq<User>, u: User)
    requires u in users
    ensures u.name in AllKeys(users) && u.name + ".sbr" in AllKeys(users)
  {
    var i :| 0 <= i < |users| && users[i] == u;
    assert Map((u: User) => u.name, users)[i] == u.name && Map((u: User) => u.name + ".sbr", users)[i] == u.name + ".sbr";
  }

  lemma EntryOf(users: seq<User>, nodes: seq<P.Node>, u: User, v: Variant)
    requires u in users && v in Variants(nodes)
    ensures EntryFor(u)(v) in Entries(users, nodes)
  {
    var i :| 0 <= i < |users| && users[i] == u;
    var j :| 0 <= j < |Variants(nodes)| && Variants(nodes)[j] == v;
    assert UserEntries(Variants(nodes))(u)[j] == EntryFor(u)(v);
    assert EntryFor(u)(v) in UserEntries(Variants(nodes))(users[i]);
    FlatMapMember(UserEntries(Variants(nodes)), users, EntryFor(u)(v));
  }

  lemma InjectiveAmong(slug: string, digest: string -> string, all: seq<string>, some: seq<string>)
    requires Injective(slug, digest, all) && forall key :: key in some ==> key in all
    ensures Injective(slug, digest, some)
  {}

  lemma KeysInjective(users: seq<User>, nodes: seq<P.Node>, slug: string, digest: string -> string)
    requires Injective(slug, digest, AllKeys(users))
    ensures Injective(slug, digest, Keys(Entries(users, nodes)))
  {
    KeysAmongAll(users, nodes);
    InjectiveAmong(slug, digest, AllKeys(users), Keys(Entries(users, nodes)));
  }

  lemma EntryServed(users: seq<User>, nodes: seq<P.Node>, slug: string, suffix: string, exits: seq<P.Exit>,
                    digest: string -> string, u: User, v: Variant)
    requires ValidRoster(users) && u in users && v in Variants(nodes) && Injective(slug, digest, AllKeys(users))
    ensures var table, path := Table(users, nodes, slug, suffix, exits, digest), PathFor(slug, u.name + v.suffix, digest);
            path in table && table[path] == P.Compile(u, nodes, suffix, exits, v.client)
  {
    KeysInjective(users, nodes, slug, digest);
    OnePathEach(users, nodes, slug, suffix, exits, digest);
    EntryOf(users, nodes, u, v);
    var row, e := Row(slug, nodes, suffix, exits, digest), EntryFor(u)(v);
    assert row(e) == (PathFor(slug, u.name + v.suffix, digest), P.Compile(u, nodes, suffix, exits, v.client));
  }

  /** With no entry for it no path is derived from a name and `.sbr`. */
  lemma NoSbrKey(users: seq<User>, nodes: seq<P.Node>, slug: string, digest: string -> string, u: User, e: Entry)
    requires ValidRoster(users) && u in users && Injective(slug, digest, AllKeys(users))
    requires !P.HasXhttp(nodes, P.Sbr) && e in Entries(users, nodes)
    ensures PathFor(slug, e.key, digest) != PathFor(slug, u.name + ".sbr", digest)
  {
    var k :| 0 <= k < |Entries(users, nodes)| && Entries(users, nodes)[k] == e;
    assert Keys(Entries(users, nodes))[k] == e.key;
    var v, b := KeyFrom(users, nodes, e.key);
    assert e.key == v.name;
    NoStop(v);
    assert (u.name + ".sbr")[|u.name|] == '.';
    KeysAmongAll(users, nodes);
    NameAmongAll(users, u);
    PathTaken(slug, digest, e.key, u.name + ".sbr");
  }

  lemma NoSbrPath(users: seq<User>, nodes: seq<P.Node>, slug: string, suffix: string, exits: seq<P.Exit>,
                  digest: string -> string, u: User)
    requires ValidRoster(users) && u in users && Injective(slug, digest, AllKeys(users))
    requires !P.HasXhttp(nodes, P.Sbr)
    ensures PathFor(slug, u.name + ".sbr", digest) !in Table(users, nodes, slug, suffix, exits, digest)
  {
    KeysInjective(users, nodes, slug, digest);
    OnePathEach(users, nodes, slug, suffix, exits, digest);
    var row := Row(slug, nodes, suffix, exits, digest);
    forall e | e in Entries(users, nodes) ensures row(e).0 != PathFor(slug, u.name + ".sbr", digest) {
      NoSbrKey(users, nodes, slug, digest, u, e);
    }
  }

  /**
   * Behind the path of a user's name is the profile every client can use. Behind that of the name and
   * `.sbr` is the profile for sbr where some node has an entry for it; elsewhere there is no such path.
   */
  lemma ServedAtPaths(users: seq<User>, nodes: seq<P.Node>, slug: string, suffix: string, exits: seq<P.Exit>,
                      digest: string -> string, u: User)
    requires ValidRoster(users) && u in users && Injective(slug, digest, AllKeys(users))
    ensures var table := Table(users, nodes, slug, suffix, exits, digest);
            var plain := "/" + digest(slug + ":" + u.name) + ".json";
            var sbr := "/" + digest(slug + ":" + (u.name + ".sbr")) + ".json";
            && plain in table && table[plain] == P.Compile(u, nodes, suffix, exits, P.SingBox)
            && (sbr in table <==> exists n :: n in nodes && n.xhttp.Some?)
            && (sbr in table ==> table[sbr] == P.Compile(u, nodes, suffix, exits, P.Sbr))
  {
    assert u.name + "" == u.name;
    EntryServed(users, nodes, slug, suffix, exits, digest, u, Variant("", P.SingBox));
    if P.HasXhttp(nodes, P.Sbr) {
      EntryServed(users, nodes, slug, suffix, exits, digest, u, Variant(".sbr", P.Sbr));
    } else {
      NoSbrPath(users, nodes, slug, suffix, exits, digest, u);
    }
  }
}
