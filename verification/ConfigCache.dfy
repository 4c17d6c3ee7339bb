/**
 The write-through configuration cache: a map keyed by "account-player-config" in memory, and one
 pending statement per write for the database.
 */
module ConfigCache {
  import opened Optional

  datatype Name = Name(account: string, player: string, config: string)

  datatype Write = Write(name: Name, value: string)

  function Key(n: Name): string {
    n.account + "-" + n.player + "-" + n.config
  }

  /** The cache after one write. */
  function Store(cache: map<string, string>, w: Write): map<string, string> {
    cache[Key(w.name) := w.value]
  }

  /** The database after the pending statements, each of which sets one row. */
  function Replay(db: map<Name, string>, ws: seq<Write>): map<Name, string>
    decreases |ws|
  {
    if ws == [] then db else Replay(db, ws[..|ws| - 1])[ws[|ws| - 1].name := ws[|ws| - 1].value]
  }

  function StoreAll(cache: map<string, string>, ws: seq<Write>): map<string, string>
    decreases |ws|
  {
    if ws == [] then cache else Store(StoreAll(cache, ws[..|ws| - 1]), ws[|ws| - 1])
  }

  function Lookup<K>(m: map<K, string>, k: K): Option<string> {
    if k in m then Some(m[k]) else None
  }

  /** On the names in `u` the cache answers what the database holds. */
  ghost predicate Agree(cache: map<string, string>, db: map<Name, string>, u: set<Name>) {
    forall n :: n in u ==> Lookup(cache, Key(n)) == Lookup(db, n)
  }

  ghost predicate Within(ws: seq<Write>, u: set<Name>) {
    forall w :: w in ws ==> w.name in u
  }

  /** Different names in `u` have different keys. */
  ghost predicate KeyInjectiveOn(u: set<Name>) {
    forall m, n :: m in u && n in u && Key(m) == Key(n) ==> m == n
  }

  lemma {:induction false} WritesKeepAgreement(
    cache: map<string, string>, db: map<Name, string>, u: set<Name>, ws: seq<Write>)
    requires KeyInjectiveOn(u) && Agree(cache, db, u) && Within(ws, u)
    ensures Agree(StoreAll(cache, ws), Replay(db, ws), u)
    decreases |ws|
  {
    if ws != [] {
      var rest, w := ws[..|ws| - 1], ws[|ws| - 1];
      assert forall v :: v in rest ==> v in ws;
      WritesKeepAgreement(cache, db, u, rest);
      assert w in ws;
      forall n | n in u
        ensures Lookup(StoreAll(cache, ws), Key(n)) == Lookup(Replay(db, ws), n)
      {
        assert Lookup(StoreAll(cache, rest), Key(n)) == Lookup(Replay(db, rest), n);
        assert Key(n) == Key(w.name) ==> n == w.name;
      }
    }
  }

  /** Every run of writes over `u` from an empty start leaves cache and replayed database in agreement. */
  ghost predicate AlwaysAgrees(u: set<Name>) {
    forall ws: seq<Write> :: Within(ws, u) ==> Agree(StoreAll(map[], ws), Replay(map[], ws), u)
  }

  /** The cache refines the three-part map exactly on name sets without colliding keys. */
  lemma {:induction false} AgreesIffInjective(u: set<Name>)
    ensures AlwaysAgrees(u) <==> KeyInjectiveOn(u)
  {
    if KeyInjectiveOn(u) {
      forall ws: seq<Write> | Within(ws, u)
        ensures Agree(StoreAll(map[], ws), Replay(map[], ws), u)
      {
        WritesKeepAgreement(map[], map[], u, ws);
      }
    } else {
      var m, n :| m in u && n in u && Key(m) == Key(n) && m != n;
      var w1, w2 := Write(m, "a"), Write(n, "b");
      var ws := [w1, w2];
      assert ws[..1] == [w1] && [w1][..0] == [];
      assert StoreAll(map[], ws) == Store(StoreAll(map[], [w1]), w2);
      assert Replay(map[], ws) == Replay(map[], [w1])[n := "b"];
      assert Replay(map[], [w1]) == map[][m := "a"];
      assert Lookup(StoreAll(map[], ws), Key(m)) == Some("b");
      assert Lookup(Replay(map[], ws), m) == Some("a");
      assert Within(ws, u);
      assert !Agree(StoreAll(map[], ws), Replay(map[], ws), u);
    }
  }

  /** A key answers with the last value written under it, from any cache. */
  lemma {:induction false} LastWriteWins(cache: map<string, string>, ws: seq<Write>, k: string, i: nat)
    requires i < |ws| && Key(ws[i].name) == k && forall j :: i < j < |ws| ==> Key(ws[j].name) != k
    ensures Lookup(StoreAll(cache, ws), k) == Some(ws[i].value)
    decreases |ws|
  {
    if i < |ws| - 1 {
      LastWriteWins(cache, ws[..|ws| - 1], k, i);
    }
  }

  /** A key never written answers as before: with nothing, from an empty cache. */
  lemma {:induction false} NeverWritten(cache: map<string, string>, ws: seq<Write>, k: string)
    requires forall w :: w in ws ==> Key(w.name) != k
    ensures Lookup(StoreAll(cache, ws), k).Some? <==> k in cache
    ensures k in cache ==> Lookup(StoreAll(cache, ws), k) == Some(cache[k])
    decreases |ws|
  {
    if ws != [] {
      assert forall w :: w in ws[..|ws| - 1] ==> w in ws;
      assert ws[|ws| - 1] in ws;
      NeverWritten(cache, ws[..|ws| - 1], k);
    }
  }

  predicate DashFree(n: Name) {
    '-' !in n.account && '-' !in n.player
  }

  /** The text before the first dash is determined by the whole. */
  lemma {:induction false} SplitAtDash(a: string, r: string, b: string, s: string)
    requires '-' !in a && '-' !in b && a + "-" + r == b + "-" + s
    ensures a == b && r == s
  {
    var t := a + "-" + r;
    var u := b + "-" + s;
    assert t[|a|] == '-' && u[|b|] == '-';
    assert forall i :: 0 <= i < |a| ==> t[i] == a[i];
    assert forall i :: 0 <= i < |b| ==> u[i] == b[i];
    assert a == t[..|a|] && b == u[..|b|];
    assert r == t[|a| + 1..] && s == u[|b| + 1..];
  }

  /** Names whose account and player contain no dash never collide; the config part may contain any. */
  lemma {:induction false} DashFreeKeysAreInjective(m: Name, n: Name)
    requires DashFree(m) && DashFree(n) && Key(m) == Key(n)
    ensures m == n
  {
    var r, s := m.player + "-" + m.config, n.player + "-" + n.config;
    assert Key(m) == m.account + "-" + r && Key(n) == n.account + "-" + s;
    SplitAtDash(m.account, r, n.account, s);
    SplitAtDash(m.player, m.config, n.player, n.config);
  }

  /** Hence the cache is right for dash-free names, and a dash in the account can make it wrong. */
  lemma {:induction false} DashFreeNamesAgree(u: set<Name>)
    ensures (forall n :: n in u ==> DashFree(n)) ==> AlwaysAgrees(u)
    ensures !AlwaysAgrees({Name("a-b", "c", "d"), Name("a", "b-c", "d")})
  {
    if forall n :: n in u ==> DashFree(n) {
      forall m, n | m in u && n in u && Key(m) == Key(n)
        ensures m == n
      {
        DashFreeKeysAreInjective(m, n);
      }
      AgreesIffInjective(u);
    }
    var m, n := Name("a-b", "c", "d"), Name("a", "b-c", "d");
    assert Key(m) == "a-b-c-d" == Key(n);
    AgreesIffInjective({m, n});
  }

  class CloudConfig {
    var cache: map<string, string>
    var pending: seq<Write>

    constructor ()
      ensures cache == map[] && pending == []
    {
      cache, pending := map[], [];
    }

    method FindConfigValue(name: Name) returns (value: Option<string>)
      ensures value == Lookup(cache, Key(name))
    {
      if Key(name) in cache {
        return Some(cache[Key(name)]);
      }
      return None;
    }

    /** Inserts or overwrites the cached value, and queues the statement in either case. */
    method WriteConfigValue(name: Name, value: string)
      modifies this
      ensures cache == Store(old(cache), Write(name, value))
      ensures pending == old(pending) + [Write(name, value)]
    {
      var key := Key(name);
      if key !in cache {
        cache := cache[key := value];
      } else if cache[key] != value {
        cache := cache[key := value];
      } else {
        assert cache == cache[key := value];
      }
      pending := pending + [Write(name, value)];
    }

    /** A sequence of writes; agreement with the database after replay follows from the lemmas. */
    method WriteAll(ws: seq<Write>)
      modifies this
      ensures cache == StoreAll(old(cache), ws) && pending == old(pending) + ws
    {
      for i := 0 to |ws|
        invariant cache == StoreAll(old(cache), ws[..i]) && pending == old(pending) + ws[..i]
      {
        assert ws[..i + 1][..i] == ws[..i] && ws[..i + 1] == ws[..i] + [ws[i]];
        WriteConfigValue(ws[i].name, ws[i].value);
      }
      assert ws[..|ws|] == ws;
    }
  }
}
