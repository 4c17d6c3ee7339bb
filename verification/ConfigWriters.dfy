/**
 Concurrent writers of the configuration cache.  A write stores its value under the lock and queues
 its statement after the lock has been released, so statements may be queued in another order than
 the values were stored.
 */
module ConfigWriters {
  import opened Optional
  import opened ConfigCache

  /** `flying` holds the writes that are stored and not yet queued. */
  datatype Flow = Flow(cache: map<string, string>, pending: seq<Write>, flying: seq<Write>)

  datatype Event = Stores(w: Write) | Queues(i: nat)

  function Start(): Flow { Flow(map[], [], []) }

  function Next(s: Flow, e: Event): Flow {
    match e
    case Stores(w) => s.(cache := Store(s.cache, w), flying := s.flying + [w])
    case Queues(i) =>
      if i < |s.flying|
      then s.(pending := s.pending + [s.flying[i]], flying := s.flying[..i] + s.flying[i + 1..])
      else s
  }

  function Run(s: Flow, es: seq<Event>): Flow
    decreases |es|
  {
    if es == [] then s else Run(Next(s, es[0]), es[1..])
  }

  /** Writes go to names in `u`; two writes to one name may overlap only if it is one of `shared`. */
  ghost predicate Allowed(u: set<Name>, shared: set<Name>, s: Flow, e: Event) {
    e.Stores? ==>
      && e.w.name in u
      && (e.w.name !in shared ==> forall v :: v in s.flying ==> v.name != e.w.name)
  }

  ghost predicate AllowedRun(u: set<Name>, shared: set<Name>, s: Flow, es: seq<Event>)
    decreases |es|
  {
    es != [] ==> Allowed(u, shared, s, es[0]) && AllowedRun(u, shared, Next(s, es[0]), es[1..])
  }

  /** The cache answers what the database holds once the statements queued so far have been executed. */
  ghost predicate InStep(s: Flow, u: set<Name>) {
    Agree(s.cache, Replay(map[], s.pending), u)
  }

  /** Whenever every write has been queued, cache and database agree. */
  ghost predicate AgreesAtRest(u: set<Name>, shared: set<Name>) {
    forall es: seq<Event> ::
      AllowedRun(u, shared, Start(), es) && Run(Start(), es).flying == [] ==> InStep(Run(Start(), es), u)
  }

  ghost predicate OneEach(flying: seq<Write>) {
    forall i, j :: 0 <= i < j < |flying| ==> flying[i].name != flying[j].name
  }

  ghost predicate IsFlying(s: Flow, n: Name) {
    exists k :: 0 <= k < |s.flying| && s.flying[k].name == n
  }

  predicate Holds(cache: map<string, string>, w: Write) {
    Lookup(cache, Key(w.name)) == Some(w.value)
  }

  /** The cache holds the value in flight for a name, or else what the database will hold. */
  ghost predicate Inv(s: Flow, u: set<Name>) {
    && OneEach(s.flying)
    && (forall k :: 0 <= k < |s.flying| ==> s.flying[k].name in u && Holds(s.cache, s.flying[k]))
    && (forall n :: n in u && !IsFlying(s, n) ==> Lookup(s.cache, Key(n)) == Lookup(Replay(map[], s.pending), n))
  }

  lemma StoredStayFlying(s: Flow, w: Write, n: Name)
    ensures IsFlying(s, n) ==> IsFlying(Next(s, Stores(w)), n)
  {
    if IsFlying(s, n) {
      var k :| 0 <= k < |s.flying| && s.flying[k].name == n;
      assert Next(s, Stores(w)).flying[k].name == n;
    }
  }

  lemma OthersStayFlying(s: Flow, i: nat, n: Name)
    requires i < |s.flying|
    ensures IsFlying(s, n) && n != s.flying[i].name ==> IsFlying(Next(s, Queues(i)), n)
  {
    if IsFlying(s, n) && n != s.flying[i].name {
      var k :| 0 <= k < |s.flying| && s.flying[k].name == n;
      assert Next(s, Queues(i)).flying[if k < i then k else k - 1].name == n;
    }
  }

  lemma {:induction false} StoreKeepsInv(s: Flow, u: set<Name>, shared: set<Name>, w: Write)
    requires KeyInjectiveOn(u) && u !! shared && Inv(s, u) && Allowed(u, shared, s, Stores(w))
    ensures Inv(Next(s, Stores(w)), u)
  {
    var r := Next(s, Stores(w));
    forall k | 0 <= k < |s.flying|
      ensures r.flying[k].name != w.name && Key(r.flying[k].name) != Key(w.name)
    {
      assert s.flying[k] in s.flying;
    }
    forall n | n in u && !IsFlying(r, n)
      ensures Lookup(r.cache, Key(n)) == Lookup(Replay(map[], r.pending), n)
    {
      assert r.flying[|s.flying|].name != n;
      StoredStayFlying(s, w, n);
    }
  }

  lemma {:induction false} QueueKeepsInv(s: Flow, u: set<Name>, i: nat)
    requires KeyInjectiveOn(u) && Inv(s, u) && i < |s.flying|
    ensures Inv(Next(s, Queues(i)), u)
  {
    var r := Next(s, Queues(i));
    var w := s.flying[i];
    forall k | 0 <= k < |r.flying|
      ensures r.flying[k] == s.flying[if k < i then k else k + 1]
    {
    }
    assert r.pending[..|r.pending| - 1] == s.pending;
    assert Replay(map[], r.pending) == Replay(map[], s.pending)[w.name := w.value];
    forall n | n in u && !IsFlying(r, n)
      ensures Lookup(r.cache, Key(n)) == Lookup(Replay(map[], r.pending), n)
    {
      OthersStayFlying(s, i, n);
    }
  }

  lemma {:induction false} RunKeepsInv(s: Flow, u: set<Name>, shared: set<Name>, es: seq<Event>)
    requires KeyInjectiveOn(u) && u !! shared && Inv(s, u) && AllowedRun(u, shared, s, es)
    ensures Inv(Run(s, es), u)
    decreases |es|
  {
    if es != [] {
      match es[0] {
        case Stores(w) => StoreKeepsInv(s, u, shared, w);
        case Queues(i) =>
          if i < |s.flying| {
            QueueKeepsInv(s, u, i);
          }
      }
      RunKeepsInv(Next(s, es[0]), u, shared, es[1..]);
    }
  }

  /** A run of four events, with the state after each. */
  lemma {:induction false} RunFour(u: set<Name>, shared: set<Name>, es: seq<Event>, s: seq<Flow>)
    requires |es| == 4 && |s| == 5
    requires forall k :: 0 <= k < 4 ==> s[k + 1] == Next(s[k], es[k]) && Allowed(u, shared, s[k], es[k])
    ensures Run(s[0], es) == s[4] && AllowedRun(u, shared, s[0], es)
  {
    assert s[1] == Next(s[0], es[0]) && s[2] == Next(s[1], es[1]);
    assert s[3] == Next(s[2], es[2]) && s[4] == Next(s[3], es[3]);
    assert es[3..][1..] == [];
    assert Run(s[3], es[3..]) == s[4] && AllowedRun(u, shared, s[3], es[3..]);
    assert es[2..][1..] == es[3..];
    assert Run(s[2], es[2..]) == s[4] && AllowedRun(u, shared, s[2], es[2..]);
    assert es[1..][1..] == es[2..];
    assert Run(s[1], es[1..]) == s[4] && AllowedRun(u, shared, s[1], es[1..]);
  }

  lemma {:induction false} ReplayTwo(v: Write, w: Write)
    ensures Replay(map[], [v, w]) == map[][v.name := v.value][w.name := w.value]
  {
    assert [v, w][..1] == [v] && [v][..0] == [];
    assert Replay(map[], [v]) == map[][v.name := v.value];
  }

  /** Two writes to one name that are stored in one order and queued in the other. */
  lemma {:induction false} OverlapDisagrees(u: set<Name>, shared: set<Name>, n: Name) returns (es: seq<Event>)
    requires n in u && n in shared
    ensures AllowedRun(u, shared, Start(), es) && Run(Start(), es).flying == [] && !InStep(Run(Start(), es), u)
  {
    var a, b := Write(n, "a"), Write(n, "b");
    es := [Stores(a), Stores(b), Queues(1), Queues(0)];
    var c1 := Store(map[], a);
    var c2 := Store(c1, b);
    var s := [Start(), Flow(c1, [], [a]), Flow(c2, [], [a, b]), Flow(c2, [b], [a]), Flow(c2, [b, a], [])];
    assert s[1] == Next(s[0], es[0]) && s[2] == Next(s[1], es[1]);
    assert s[3] == Next(s[2], es[2]) && s[4] == Next(s[3], es[3]);
    RunFour(u, shared, es, s);
    assert c2[Key(n)] == "b";
    ReplayTwo(b, a);
  }

  /** Writes to two names with one key disagree even one after the other. */
  lemma {:induction false} CollisionDisagrees(u: set<Name>, shared: set<Name>, m: Name, n: Name)
    returns (es: seq<Event>)
    requires m in u && n in u && m != n && Key(m) == Key(n)
    ensures AllowedRun(u, shared, Start(), es) && Run(Start(), es).flying == [] && !InStep(Run(Start(), es), u)
  {
    var a, b := Write(m, "a"), Write(n, "b");
    es := [Stores(a), Queues(0), Stores(b), Queues(0)];
    var c1 := Store(map[], a);
    var c2 := Store(c1, b);
    var s := [Start(), Flow(c1, [], [a]), Flow(c1, [a], []), Flow(c2, [a], [b]), Flow(c2, [a, b], [])];
    assert s[1] == Next(s[0], es[0]) && s[2] == Next(s[1], es[1]);
    assert s[3] == Next(s[2], es[2]) && s[4] == Next(s[3], es[3]);
    RunFour(u, shared, es, s);
    assert c2[Key(m)] == "b";
    ReplayTwo(a, b);
  }

  lemma {:induction false} ExclusiveWritesAgree(u: set<Name>, shared: set<Name>)
    requires KeyInjectiveOn(u) && u !! shared
    ensures AgreesAtRest(u, shared)
  {
    forall es: seq<Event> | AllowedRun(u, shared, Start(), es) && Run(Start(), es).flying == []
      ensures InStep(Run(Start(), es), u)
    {
      RunKeepsInv(Start(), u, shared, es);
      assert forall n :: n in u ==> !IsFlying(Run(Start(), es), n);
    }
  }

  /**
   The exact condition under concurrency: once all writes are queued, cache and database agree in
   all runs if and only if no two names share a key and no two writes to one name may overlap.
   */
  lemma {:induction false} AgreesAtRestIff(u: set<Name>, shared: set<Name>)
    ensures AgreesAtRest(u, shared) <==> KeyInjectiveOn(u) && u !! shared
  {
    if KeyInjectiveOn(u) && u !! shared {
      ExclusiveWritesAgree(u, shared);
    } else if !KeyInjectiveOn(u) {
      var m, n :| m in u && n in u && Key(m) == Key(n) && m != n;
      var _ := CollisionDisagrees(u, shared, m, n);
    } else {
      var n :| n in u && n in shared;
      var _ := OverlapDisagrees(u, shared, n);
    }
  }
}
