/** Who holds a card over all runs of the server: takeover, claim after a restart, expiry, reload. */
module CardSessionProperties {
  import opened CardSession
  import opened Optional

  // ----- one event at a time

  lemma {:induction false} UpdateKeepsOthers(cards: seq<Card>, i: nat, c: Card, x: nat)
    requires i < |cards| && c.crc == cards[i].crc
    ensures CardAt(cards[i := c], x) == if FindCrc(cards, x) == Some(i) then Some(c) else CardAt(cards, x)
  {
    var r := cards[i := c];
    assert forall k :: 0 <= k < |cards| ==> r[k].crc == cards[k].crc;
    assert FindCrc(r, x) == FindCrc(cards, x);
  }

  lemma {:induction false} AppendKeepsFirst(cards: seq<Card>, c: Card, x: nat)
    ensures CardAt(cards + [c], x) ==
      if CardAt(cards, x).Some? then CardAt(cards, x) else if c.crc == x then Some(c) else None
  {
    var r := cards + [c];
    assert forall k :: 0 <= k < |cards| ==> r[k] == cards[k];
    match FindCrc(cards, x)
    case Some(i) => assert r[i].crc == x;
    case None => assert r[|cards|] == c;
  }

  /** In a keyed list the first card with checksum `x` is also the first with its number. */
  lemma {:induction false} FirstByNumber(cfg: Config, cards: seq<Card>, x: nat)
    requires Keyed(cfg, cards) && CardAt(cards, x).Some?
    ensures cfg.crcOf(CardAt(cards, x).value.no) == x
    ensures FindNo(cards, CardAt(cards, x).value.no) == FindCrc(cards, x)
  {
  }

  lemma {:induction false} MergedIsKeyed(cfg: Config, cards: seq<Card>, row: Card)
    requires Keyed(cfg, cards) && row.crc == cfg.crcOf(row.no)
    ensures Merged(cards, row).crc == cfg.crcOf(row.no)
  {
  }

  /** A merged row that answers to checksum `x` is the record in memory. */
  lemma {:induction false} MergedIsRecord(cfg: Config, cards: seq<Card>, row: Card, x: nat)
    requires Keyed(cfg, cards) && row.crc == cfg.crcOf(row.no) && NoCollision(cfg, cards, [row])
    requires CardAt(cards, x).Some? && Merged(cards, row).crc == x
    ensures Merged(cards, row) == CardAt(cards, x).value && row.no == CardAt(cards, x).value.no
  {
  }

  lemma {:induction false} OnlyRecordFound(cards: seq<Card>, x: nat, c: Card, j: nat)
    requires j < |cards| && cards[j].crc == x
    requires forall k :: 0 <= k < |cards| && cards[k].crc == x ==> cards[k] == c
    ensures CardAt(cards, x) == Some(c)
  {
  }

  /** A reload keeps the record of every card the database still lists: token, hours and ticks. */
  lemma {:induction false} RefreshKeepsRecords(cfg: Config, cards: seq<Card>, db: seq<Card>, x: nat)
    requires Keyed(cfg, cards) && Keyed(cfg, db) && NoCollision(cfg, cards, db)
    requires CardAt(cards, x).Some? && FindNo(db, CardAt(cards, x).value.no).Some?
    ensures CardAt(Merge(cards, db), x) == CardAt(cards, x)
  {
    var c := CardAt(cards, x).value;
    var r := Merge(cards, db);
    forall k | 0 <= k < |r| && r[k].crc == x
      ensures r[k] == c
    {
      assert db[k] in db;
      MergedIsRecord(cfg, cards, db[k], x);
    }
    var j := FindNo(db, c.no).value;
    assert db[j] in db;
    FirstByNumber(cfg, cards, x);
    MergedIsKeyed(cfg, cards, db[j]);
    OnlyRecordFound(r, x, c, j);
  }

  /** Record `i` is the first with number `no`. */
  ghost predicate IsFirst(cards: seq<Card>, no: string, i: nat) {
    i < |cards| && cards[i].no == no && forall j :: 0 <= j < i ==> cards[j].no != no
  }

  /** Each row of a reload is the first record in memory with its number, or else the row itself. */
  lemma {:induction false} MergedRow(cards: seq<Card>, db: seq<Card>, k: nat, i: nat)
    requires k < |db|
    ensures (forall c :: c in cards ==> c.no != db[k].no) ==> Merge(cards, db)[k] == db[k]
    ensures IsFirst(cards, db[k].no, i) ==> Merge(cards, db)[k] == cards[i]
  {
    match FindNo(cards, db[k].no)
    case None =>
    case Some(n) => assert cards[n] in cards;
  }

  /** The part of a record that only a reload or re-activation could replace. */
  ghost predicate SameRecord(a: Card, b: Card) {
    a.no == b.no && a.crc == b.crc && a.surplus == b.surplus && a.tick == b.tick
  }

  /** What one event makes of the token on card `x`. */
  function TokenAfter(cfg: Config, s: State, e: Event, x: nat, token: nat): nat {
    if Issues(cfg, s, e, x) then e.rnd
    else if token == 0 && Accepts(s, e, x) then s.clients[e.who].token
    else token
  }

  lemma {:induction false} LoginKeepsRecord(cfg: Config, s: State, e: Event, x: nat)
    requires e.Login? && CardAt(s.cards, x).Some?
    ensures
      var c, r := CardAt(s.cards, x).value, CardAt(Next(cfg, s, e).cards, x);
      r.Some? && SameRecord(c, r.value) && r.value.token == TokenAfter(cfg, s, e, x, c.token)
  {
    if e.who < |s.clients| && LoginOf(cfg, s, e).issued {
      var i := FindCrc(s.cards, cfg.crcOf(e.cardNo)).value;
      UpdateKeepsOthers(s.cards, i, s.cards[i].(token := e.rnd, keepALive := e.now), x);
    }
  }

  lemma {:induction false} BeatKeepsRecord(cfg: Config, s: State, e: Event, x: nat)
    requires e.Beat? && CardAt(s.cards, x).Some?
    ensures
      var c, r := CardAt(s.cards, x).value, CardAt(Next(cfg, s, e).cards, x);
      r.Some? && SameRecord(c, r.value) && r.value.token == TokenAfter(cfg, s, e, x, c.token)
  {
    if e.who < |s.clients| {
      var cl := s.clients[e.who];
      if KeepALive(s.cards, cl, e.now).accepted {
        var i := FindCrc(s.cards, cl.crc).value;
        UpdateKeepsOthers(s.cards, i, s.cards[i].(token := cl.token, keepALive := e.now), x);
        assert KeepALive(s.cards, cl, e.now).cards == s.cards[i := s.cards[i].(token := cl.token, keepALive := e.now)];
      }
    }
  }

  lemma {:induction false} CheckKeepsRecord(cfg: Config, s: State, e: Event, x: nat)
    requires e.Check? && CardAt(s.cards, x).Some?
    ensures
      var c, r := CardAt(s.cards, x).value, CardAt(Next(cfg, s, e).cards, x);
      r.Some? && SameRecord(c, r.value) && r.value.token == TokenAfter(cfg, s, e, x, c.token)
  {
    if e.who < |s.clients| {
      var cl := s.clients[e.who];
      if IsALive(s.cards, cl, e.now).accepted {
        var i := FindCrc(s.cards, cl.crc).value;
        UpdateKeepsOthers(s.cards, i, s.cards[i].(token := cl.token), x);
        assert IsALive(s.cards, cl, e.now).cards == s.cards[i := s.cards[i].(token := cl.token)];
      }
    }
  }

  /** Every event that keeps the record of `x` leaves its hours alone and treats its token as `TokenAfter` says. */
  lemma {:induction false} NextKeepsRecord(cfg: Config, s: State, e: Event, x: nat)
    requires Keyed(cfg, s.cards) && Keeps(cfg, s, e, x) && CardAt(s.cards, x).Some?
    ensures
      var c, r := CardAt(s.cards, x).value, CardAt(Next(cfg, s, e).cards, x);
      r.Some? && SameRecord(c, r.value) && r.value.token == TokenAfter(cfg, s, e, x, c.token)
  {
    match e
    case Login(_, _, _, _, _) => LoginKeepsRecord(cfg, s, e, x);
    case Beat(_, _) => BeatKeepsRecord(cfg, s, e, x);
    case Check(_, _) => CheckKeepsRecord(cfg, s, e, x);
    case Activate(card, _) => AppendKeepsFirst(s.cards, card, x);
    case Refresh(db) => RefreshKeepsRecords(cfg, s.cards, db, x);
  }

  lemma {:induction false} NextKeepsKeyed(cfg: Config, s: State, e: Event, x: nat)
    requires Keyed(cfg, s.cards) && Keeps(cfg, s, e, x)
    ensures Keyed(cfg, Next(cfg, s, e).cards) && |Next(cfg, s, e).clients| == |s.clients|
  {
  }

  // ----- whole runs

  /** The token on card `x` after a run, as a fold over its events. */
  function TokenAlong(cfg: Config, s: State, es: seq<Event>, x: nat, token: nat): nat
    decreases |es|
  {
    if es == [] then token
    else TokenAlong(cfg, Next(cfg, s, es[0]), es[1..], x, TokenAfter(cfg, s, es[0], x, token))
  }

  /** Over any run that keeps the record of `x`, its hours never change and its token is the fold. */
  lemma {:induction false} RunKeepsRecord(cfg: Config, s: State, es: seq<Event>, x: nat)
    requires Keyed(cfg, s.cards) && KeepsCard(cfg, s, es, x) && CardAt(s.cards, x).Some?
    ensures
      var c, r := CardAt(s.cards, x).value, CardAt(Run(cfg, s, es).cards, x);
      r.Some? && SameRecord(c, r.value) && r.value.token == TokenAlong(cfg, s, es, x, c.token)
    ensures Keyed(cfg, Run(cfg, s, es).cards) && |Run(cfg, s, es).clients| == |s.clients|
    decreases |es|
  {
    if es != [] {
      NextKeepsRecord(cfg, s, es[0], x);
      NextKeepsKeyed(cfg, s, es[0], x);
      RunKeepsRecord(cfg, Next(cfg, s, es[0]), es[1..], x);
    }
  }

  /** Without a login a token that is set stays. */
  lemma {:induction false} TokenStays(cfg: Config, s: State, es: seq<Event>, x: nat, token: nat)
    requires NoLogin(cfg, s, es, x) && token != 0
    ensures TokenAlong(cfg, s, es, x, token) == token
    decreases |es|
  {
    if es != [] {
      TokenStays(cfg, Next(cfg, s, es[0]), es[1..], x, token);
    }
  }

  /** An accepted client carries the card's token, or finds the card unclaimed. */
  lemma {:induction false} AcceptedHoldsToken(s: State, e: Event, x: nat)
    requires Accepts(s, e, x)
    ensures CardAt(s.cards, x).Some?
    ensures var t := CardAt(s.cards, x).value.token; t == 0 || t == s.clients[e.who].token
  {
  }

  /**
   Any two clients accepted on a card with no login between them carry the same token, provided
   the first one's token is not 0.
   */
  lemma {:induction false} AcceptedTokensAgree(cfg: Config, s: State, e: Event, es: seq<Event>, f: Event, x: nat)
    requires Keyed(cfg, s.cards) && KeepsCard(cfg, s, [e] + es, x) && NoLogin(cfg, s, [e] + es, x)
    requires Accepts(s, e, x) && s.clients[e.who].token != 0
    requires Accepts(Run(cfg, s, [e] + es), f, x)
    ensures Run(cfg, s, [e] + es).clients[f.who].token == s.clients[e.who].token
  {
    var all := [e] + es;
    assert all[0] == e && all[1..] == es;
    var t := s.clients[e.who].token;
    AcceptedHoldsToken(s, e, x);
    NextKeepsRecord(cfg, s, e, x);
    NextKeepsKeyed(cfg, s, e, x);
    var s1 := Next(cfg, s, e);
    RunKeepsRecord(cfg, s1, es, x);
    TokenStays(cfg, s1, es, x, t);
    AcceptedHoldsToken(Run(cfg, s, all), f, x);
  }

  /** The token of the first accepted client that has one: the claim of a card nobody holds. */
  function FirstClaim(cfg: Config, s: State, es: seq<Event>, x: nat): nat
    decreases |es|
  {
    if es == [] then 0
    else if Accepts(s, es[0], x) && s.clients[es[0].who].token != 0 then s.clients[es[0].who].token
    else FirstClaim(cfg, Next(cfg, s, es[0]), es[1..], x)
  }

  lemma {:induction false} FirstClaimSetsToken(cfg: Config, s: State, es: seq<Event>, x: nat)
    requires NoLogin(cfg, s, es, x)
    ensures TokenAlong(cfg, s, es, x, 0) == FirstClaim(cfg, s, es, x)
    decreases |es|
  {
    if es != [] {
      var e := es[0];
      if Accepts(s, e, x) && s.clients[e.who].token != 0 {
        TokenStays(cfg, Next(cfg, s, e), es[1..], x, s.clients[e.who].token);
      } else {
        FirstClaimSetsToken(cfg, Next(cfg, s, e), es[1..], x);
      }
    }
  }

  /**
   Claim after a restart: from token 0, as long as nobody logs in and reloads still list the card,
   the first client accepted with a token has claimed it, and everyone with another token is refused.
   */
  lemma {:induction false} ClaimAfterRestart(cfg: Config, s: State, es: seq<Event>, f: Event, x: nat)
    requires Keyed(cfg, s.cards) && KeepsCard(cfg, s, es, x) && NoLogin(cfg, s, es, x)
    requires CardAt(s.cards, x).Some? && CardAt(s.cards, x).value.token == 0
    ensures
      var r := Run(cfg, s, es);
      var claim := FirstClaim(cfg, s, es, x);
      && CardAt(r.cards, x).Some? && CardAt(r.cards, x).value.token == claim
      && (claim != 0 && Accepts(r, f, x) ==> r.clients[f.who].token == claim)
  {
    RunKeepsRecord(cfg, s, es, x);
    FirstClaimSetsToken(cfg, s, es, x);
    if Accepts(Run(cfg, s, es), f, x) {
      AcceptedHoldsToken(Run(cfg, s, es), f, x);
    }
  }

  predicate TickedAt(s: State, x: nat, now: nat) {
    CardAt(s.cards, x).Some? && CardAt(s.cards, x).value.keepALive == now
  }

  /**
   A heartbeat that is refused, also one for an absent card or without a login, changes nothing; and
   one that comes in a later clock tick than the last is accepted exactly when it sets the card's tick.
   */
  lemma {:induction false} TickMeansAccepted(cfg: Config, s: State, c: nat, x: nat, now: nat)
    requires c < |s.clients| && s.clients[c].crc == x
    ensures
      var r := Next(cfg, s, Beat(c, now));
      && (!Accepts(s, Beat(c, now), x) ==> r == s)
      && (Accepts(s, Beat(c, now), x) ==> TickedAt(r, x, now))
      && (!TickedAt(s, x, now) ==> (Accepts(s, Beat(c, now), x) <==> TickedAt(r, x, now)))
  {
    var k := KeepALive(s.cards, s.clients[c], now);
    if k.accepted {
      var i, p := FindCrc(s.cards, x).value, CardAt(s.cards, x).value.(token := s.clients[c].token, keepALive := now);
      assert k.cards == s.cards[i := p];
      UpdateKeepsOthers(s.cards, i, p, x);
    }
  }

  /** A refused login that is looked up at all leaves the client with the checksum of the number it named. */
  lemma {:induction false} RefusedLoginRecordsNumber(cfg: Config, s: State, e: Event)
    requires e.Login? && e.who < |s.clients| && !LoginOf(cfg, s, e).issued
    ensures
      var r := Next(cfg, s, e);
      && r.cards == s.cards && |r.clients| == |s.clients| && r.clients[e.who].token == s.clients[e.who].token
      && r.clients[e.who].crc ==
        if e.cardNo == "" || e.cardNo == "Empty" || e.version != cfg.version then s.clients[e.who].crc
        else cfg.crcOf(e.cardNo)
  {
  }

  /**
   A refused login costs the client the access it had, unless the login was turned away before the
   number was recorded or named a number with the same checksum.
   */
  lemma {:induction false} FailedLoginLosesCard(cfg: Config, s: State, e: Event, x: nat, f: Event)
    requires e.Login? && e.who < |s.clients| && !LoginOf(cfg, s, e).issued
    requires Accepts(s, f, x) && f.who == e.who
    ensures Next(cfg, s, e).cards == s.cards
    ensures
      Accepts(Next(cfg, s, e), f, x) <==>
      e.cardNo == "" || e.cardNo == "Empty" || e.version != cfg.version || cfg.crcOf(e.cardNo) == x
  {
    RefusedLoginRecordsNumber(cfg, s, e);
  }

  ghost predicate NoLoginBy(es: seq<Event>, c: nat) {
    forall e :: e in es && e.Login? ==> e.who != c
  }

  lemma {:induction false} ClientStays(cfg: Config, s: State, es: seq<Event>, c: nat)
    requires c < |s.clients| && NoLoginBy(es, c)
    ensures c < |Run(cfg, s, es).clients| && Run(cfg, s, es).clients[c] == s.clients[c]
    decreases |es|
  {
    if es != [] {
      assert es[0] in es && forall e :: e in es[1..] ==> e in es;
      ClientStays(cfg, Next(cfg, s, es[0]), es[1..], c);
    }
  }

  /**
   What a refused login has cost stays lost: until the client logs in again it is refused on every
   card but those with the checksum of the number it named, whatever happens to the cards.
   */
  lemma {:induction false} LostUntilNextLogin(cfg: Config, s: State, e: Event, es: seq<Event>, x: nat, f: Event)
    requires e.Login? && e.who < |s.clients| && !LoginOf(cfg, s, e).issued
    requires e.cardNo != "" && e.cardNo != "Empty" && e.version == cfg.version && cfg.crcOf(e.cardNo) != x
    requires NoLoginBy(es, e.who) && (f.Beat? || f.Check?) && f.who == e.who
    ensures !Accepts(Run(cfg, Next(cfg, s, e), es), f, x)
  {
    RefusedLoginRecordsNumber(cfg, s, e);
    ClientStays(cfg, Next(cfg, s, e), es, e.who);
  }

  // ----- takeover

  /** Later logins draw tokens other than `t`. */
  ghost predicate NeverDrawn(es: seq<Event>, t: nat) {
    forall e :: e in es && e.Login? ==> e.rnd != t
  }

  ghost predicate OnlyHolder(s: State, c: nat, t: nat) {
    forall d :: 0 <= d < |s.clients| && d != c ==> s.clients[d].token != t
  }

  lemma {:induction false} OnlyHolderStays(cfg: Config, s: State, es: seq<Event>, c: nat, t: nat)
    requires OnlyHolder(s, c, t) && NeverDrawn(es, t)
    ensures OnlyHolder(Run(cfg, s, es), c, t)
    decreases |es|
  {
    if es != [] {
      assert es[0] in es;
      OnlyHolderStays(cfg, Next(cfg, s, es[0]), es[1..], c, t);
    }
  }

  /** A granted login on card `x`, followed by a run that keeps the record and grants no other. */
  ghost predicate Takeover(cfg: Config, s: State, e: Event, es: seq<Event>, x: nat) {
    && Keyed(cfg, s.cards) && Issues(cfg, s, e, x) && e.rnd != 0
    && KeepsCard(cfg, Next(cfg, s, e), es, x) && NoLogin(cfg, Next(cfg, s, e), es, x)
  }

  /** Throughout, the card carries the token that was issued. */
  lemma {:induction false} AfterTakeover(cfg: Config, s: State, e: Event, es: seq<Event>, x: nat)
    requires Takeover(cfg, s, e, es, x)
    ensures
      var r := Run(cfg, Next(cfg, s, e), es);
      && |r.clients| == |s.clients| && CardAt(s.cards, x).Some? && CardAt(r.cards, x).Some?
      && SameRecord(CardAt(s.cards, x).value, CardAt(r.cards, x).value)
      && CardAt(r.cards, x).value.token == e.rnd
  {
    LoginIssuesToExistingCard(cfg, s, e, x);
    NextKeepsRecord(cfg, s, e, x);
    NextKeepsKeyed(cfg, s, e, x);
    RunKeepsRecord(cfg, Next(cfg, s, e), es, x);
    TokenStays(cfg, Next(cfg, s, e), es, x, e.rnd);
  }

  /** A client with another token than the card's is refused, and changes nothing. */
  lemma {:induction false} WrongTokenRefused(cfg: Config, s: State, f: Event, x: nat)
    requires (f.Beat? || f.Check?) && f.who < |s.clients| && s.clients[f.who].crc == x && CardAt(s.cards, x).Some?
    requires var t := CardAt(s.cards, x).value.token; t != 0 && t != s.clients[f.who].token
    ensures !Accepts(s, f, x) && Next(cfg, s, f) == s
  {
  }

  lemma {:induction false} RightTokenServed(s: State, f: Event, x: nat)
    requires (f.Beat? || f.Check?) && f.who < |s.clients| && s.clients[f.who].crc == x != 0 && CardAt(s.cards, x).Some?
    requires CardAt(s.cards, x).value.token == s.clients[f.who].token
    requires SurplusHour(CardAt(s.cards, x).value, f.now) > 0
    ensures Accepts(s, f, x)
  {
  }

  /**
   One holder per card: once client `e.who` has logged in on card `x` with a fresh token, then over
   every later run without another login on that card each other client is refused: its heartbeat
   changes nothing and its check fails.
   */
  lemma {:induction false} TakeoverRefusesOthers(cfg: Config, s: State, e: Event, es: seq<Event>, x: nat, f: Event)
    requires Takeover(cfg, s, e, es, x) && OnlyHolder(s, e.who, e.rnd) && NeverDrawn(es, e.rnd)
    requires (f.Beat? || f.Check?) && f.who < |s.clients| && f.who != e.who
    ensures
      var r := Run(cfg, Next(cfg, s, e), es);
      && f.who < |r.clients|
      && (r.clients[f.who].crc == x ==> !Accepts(r, f, x) && Next(cfg, r, f) == r)
  {
    AfterTakeover(cfg, s, e, es, x);
    OnlyHolderStays(cfg, Next(cfg, s, e), es, e.who, e.rnd);
    var r := Run(cfg, Next(cfg, s, e), es);
    if r.clients[f.who].crc == x {
      WrongTokenRefused(cfg, r, f, x);
    }
  }

  lemma {:induction false} LoginIssuesToExistingCard(cfg: Config, s: State, e: Event, x: nat)
    requires Issues(cfg, s, e, x)
    ensures CardAt(s.cards, x).Some? && SurplusHour(CardAt(s.cards, x).value, e.now) > 0
    ensures Next(cfg, s, e).clients[e.who].token == e.rnd && Next(cfg, s, e).clients[e.who].crc == x
  {
  }

  /** The holder itself keeps its access for as long as hours are left and it has not logged in elsewhere. */
  lemma {:induction false} HolderIsServed(cfg: Config, s: State, e: Event, es: seq<Event>, x: nat, f: Event, r: State)
    requires Takeover(cfg, s, e, es, x) && x != 0 && (f.Beat? || f.Check?) && f.who == e.who
    requires r == Run(cfg, Next(cfg, s, e), es)
    requires f.who < |r.clients| && r.clients[f.who].crc == x && r.clients[f.who].token == e.rnd
    requires CardAt(s.cards, x).Some? && SurplusHour(CardAt(s.cards, x).value, f.now) > 0
    ensures Accepts(r, f, x)
  {
    AfterTakeover(cfg, s, e, es, x);
    SameHours(CardAt(s.cards, x).value, CardAt(r.cards, x).value, f.now);
    RightTokenServed(r, f, x);
  }

  // ----- who is let in, exactly

  /** The login is complete, and its card is listed and has hours left.  Nothing asks who holds it. */
  ghost predicate Eligible(cfg: Config, s: State, e: Event, x: nat) {
    && e.Login? && e.who < |s.clients|
    && e.cardNo != "" && e.cardNo != "Empty" && e.version == cfg.version && cfg.crcOf(e.cardNo) == x
    && CardAt(s.cards, x).Some? && SurplusHour(CardAt(s.cards, x).value, e.now) > 0
  }

  /** A token is issued exactly to an eligible login, whoever holds the card. */
  lemma {:induction false} IssuedIffEligible(cfg: Config, s: State, e: Event, x: nat)
    ensures Issues(cfg, s, e, x) <==> Eligible(cfg, s, e, x)
  {
  }

  /** What a granted login changes: the token and tick of its card, and the client's own record. */
  lemma {:induction false} GrantedLogin(cfg: Config, s: State, e: Event, x: nat, y: nat, d: nat)
    requires Eligible(cfg, s, e, x) && d < |s.clients|
    ensures
      var r := Next(cfg, s, e);
      && CardAt(r.cards, y) == (if y == x then Some(CardAt(s.cards, x).value.(token := e.rnd, keepALive := e.now))
                                else CardAt(s.cards, y))
      && |r.clients| == |s.clients|
      && r.clients[d] == if d == e.who then Client(e.version, e.cardNo, e.rnd, x) else s.clients[d]
  {
    var i := FindCrc(s.cards, x).value;
    UpdateKeepsOthers(s.cards, i, s.cards[i].(token := e.rnd, keepALive := e.now), y);
  }

  /** A heartbeat is accepted on an unclaimed card, and by the token's owner while hours are left. */
  lemma {:induction false} BeatAcceptedIff(s: State, c: nat, x: nat, now: nat)
    requires c < |s.clients| && s.clients[c].crc == x
    ensures Accepts(s, Beat(c, now), x) <==>
      && x != 0 && CardAt(s.cards, x).Some?
      && var p := CardAt(s.cards, x).value;
         p.token == 0 || (p.token == s.clients[c].token && SurplusHour(p, now) > 0)
  {
  }

  /** A check is passed while hours are left, by the token's owner or on an unclaimed card. */
  lemma {:induction false} CheckAcceptedIff(s: State, c: nat, x: nat, now: nat)
    requires c < |s.clients| && s.clients[c].crc == x
    ensures Accepts(s, Check(c, now), x) <==>
      && CardAt(s.cards, x).Some?
      && var p := CardAt(s.cards, x).value;
         SurplusHour(p, now) > 0 && (p.token == 0 || p.token == s.clients[c].token)
  {
  }

  /**
   What an accepted request changes: it gives its card the client's token, which claims a card nobody
   held, and a heartbeat sets the tick; every other card and all clients stay as they are.
   */
  lemma {:induction false} AcceptedClaims(cfg: Config, s: State, f: Event, x: nat, y: nat)
    requires Accepts(s, f, x)
    ensures
      var r := Next(cfg, s, f);
      && r.clients == s.clients && CardAt(s.cards, x).Some?
      && CardAt(r.cards, y) ==
        if y != x then CardAt(s.cards, y)
        else if f.Beat? then Some(CardAt(s.cards, x).value.(token := s.clients[f.who].token, keepALive := f.now))
        else Some(CardAt(s.cards, x).value.(token := s.clients[f.who].token))
  {
    var cl := s.clients[f.who];
    var i := FindCrc(s.cards, x).value;
    var p := s.cards[i].(token := cl.token, keepALive := if f.Beat? then f.now else s.cards[i].keepALive);
    assert Next(cfg, s, f).cards == s.cards[i := p];
    UpdateKeepsOthers(s.cards, i, p, y);
  }

  /** A refused request changes nothing at all. */
  lemma {:induction false} RefusedChangesNothing(cfg: Config, s: State, f: Event)
    requires (f.Beat? || f.Check?) && f.who < |s.clients| && !Accepts(s, f, s.clients[f.who].crc)
    ensures Next(cfg, s, f) == s
  {
  }

  /**
   Takeover happens: client `d` holds card `x` and is let in.  If another client then makes an
   eligible login on it and draws another token, the next heartbeat and the next check of `d` fail
   and change nothing, and the newcomer is let in while hours are left.
   */
  lemma {:induction false} HolderIsDisplaced(cfg: Config, s: State, e: Event, x: nat, d: nat, f: Event, g: Event)
    requires Eligible(cfg, s, e, x) && e.rnd != 0 && e.who != d < |s.clients|
    requires s.clients[d].crc == x != 0 && CardAt(s.cards, x).value.token == s.clients[d].token != e.rnd
    requires (f.Beat? || f.Check?) && f.who == d && (g.Beat? || g.Check?) && g.who == e.who
    requires SurplusHour(CardAt(s.cards, x).value, f.now) > 0 && SurplusHour(CardAt(s.cards, x).value, g.now) > 0
    ensures Accepts(s, f, x)
    ensures var r := Next(cfg, s, e);
      !Accepts(r, f, x) && Next(cfg, r, f) == r && Accepts(r, g, x)
  {
    var r := Next(cfg, s, e);
    RightTokenServed(s, f, x);
    GrantedLogin(cfg, s, e, x, x, d);
    GrantedLogin(cfg, s, e, x, x, e.who);
    WrongTokenRefused(cfg, r, f, x);
    SameHours(CardAt(s.cards, x).value, CardAt(r.cards, x).value, g.now);
    RightTokenServed(r, g, x);
  }

  /** The run form: the displaced holder stays refused until another login on the card. */
  lemma {:induction false} EligibleLoginTakesOver(cfg: Config, s: State, e: Event, es: seq<Event>, x: nat, f: Event)
    requires Keyed(cfg, s.cards) && Eligible(cfg, s, e, x) && e.rnd != 0
    requires OnlyHolder(s, e.who, e.rnd) && NeverDrawn(es, e.rnd)
    requires KeepsCard(cfg, Next(cfg, s, e), es, x) && NoLogin(cfg, Next(cfg, s, e), es, x)
    requires (f.Beat? || f.Check?) && f.who < |s.clients| && f.who != e.who
    ensures
      var r := Run(cfg, Next(cfg, s, e), es);
      && CardAt(r.cards, x).Some? && CardAt(r.cards, x).value.token == e.rnd && !Accepts(r, f, x)
  {
    IssuedIffEligible(cfg, s, e, x);
    AfterTakeover(cfg, s, e, es, x);
    TakeoverRefusesOthers(cfg, s, e, es, x, f);
  }

  // ----- records that a reload drops

  /** A reload and then an activation, as a run. */
  lemma {:induction false} ReloadThenActivate(cfg: Config, s: State, db: seq<Card>, card: Card, now: nat)
    requires card.no != "" && SurplusHour(card, now) > 0
    ensures Run(cfg, s, [Refresh(db), Activate(card, now)]) == s.(cards := Merge(s.cards, db) + [card])
  {
    var s1 := Next(cfg, s, Refresh(db));
    var s2 := Next(cfg, s1, Activate(card, now));
    assert [Refresh(db), Activate(card, now)][1..] == [Activate(card, now)];
    assert Run(cfg, s1, [Activate(card, now)]) == Run(cfg, s2, []);
  }

  /** A reload loses the record of a card exactly when the database no longer lists its number. */
  lemma {:induction false} UnlistedIsDropped(cfg: Config, cards: seq<Card>, db: seq<Card>, x: nat)
    requires Keyed(cfg, cards) && Keyed(cfg, db) && NoCollision(cfg, cards, db) && CardAt(cards, x).Some?
    ensures CardAt(Merge(cards, db), x) ==
      if FindNo(db, CardAt(cards, x).value.no).Some? then CardAt(cards, x) else None
  {
    var no := CardAt(cards, x).value.no;
    if FindNo(db, no).Some? {
      RefreshKeepsRecords(cfg, cards, db, x);
    } else {
      forall k | 0 <= k < |db|
        ensures Merge(cards, db)[k].crc != x
      {
        assert db[k] in db && db[k].no != no;
        if Merged(cards, db[k]).crc == x {
          MergedIsRecord(cfg, cards, db[k], x);
        }
      }
    }
  }

  /**
   Why the record must be kept.  Card `x` is held, and client `d` carries another token.  After a
   reload and a new activation of the card the client is let in if and only if the reload did not
   list the card: the holder is forgotten with the record.
   */
  lemma {:induction false} DroppedRecordForgetsHolder(
      cfg: Config, s: State, db: seq<Card>, card: Card, d: nat, now: nat, x: nat)
    requires Keyed(cfg, s.cards) && Keyed(cfg, db) && NoCollision(cfg, s.cards, db)
    requires CardAt(s.cards, x).Some? && CardAt(s.cards, x).value.token != 0
    requires d < |s.clients| && s.clients[d].crc == x && s.clients[d].token != CardAt(s.cards, x).value.token
    requires card.no != "" && card.crc == x && card.token == 0 && SurplusHour(card, now) > 0
    ensures
      Accepts(Run(cfg, s, [Refresh(db), Activate(card, now)]), Check(d, now), x) <==>
      FindNo(db, CardAt(s.cards, x).value.no).None?
  {
    ReloadThenActivate(cfg, s, db, card, now);
    UnlistedIsDropped(cfg, s.cards, db, x);
    AppendKeepsFirst(Merge(s.cards, db), card, x);
    var r := Run(cfg, s, [Refresh(db), Activate(card, now)]);
    if FindNo(db, CardAt(s.cards, x).value.no).Some? {
      WrongTokenRefused(cfg, r, Check(d, now), x);
    }
  }

  // ----- expiry

  lemma DivisionsCompose(n: nat)
    ensures n / 1000 / 60 / 60 == n / MS_PER_HOUR
  {
  }

  lemma DivisionIsMonotone(m: nat, n: nat)
    requires m <= n
    ensures m / MS_PER_HOUR <= n / MS_PER_HOUR
  {
  }

  lemma {:induction false} HoursLeft(card: Card, now: nat)
    requires card.tick <= now < TICK_RANGE
    ensures
      var left := card.surplus - (now - card.tick) / MS_PER_HOUR;
      SurplusHour(card, now) == if left > 0 then left else 0
  {
    DivisionsCompose(now - card.tick);
  }

  /** The hours left are the initial hours minus the whole hours passed, never below 0, and never rise. */
  lemma {:induction false} SurplusOnlyFalls(card: Card, now: nat, later: nat)
    requires card.tick <= now <= later < TICK_RANGE
    ensures
      var left := card.surplus - (now - card.tick) / MS_PER_HOUR;
      SurplusHour(card, now) == if left > 0 then left else 0
    ensures SurplusHour(card, later) <= SurplusHour(card, now)
  {
    HoursLeft(card, now);
    HoursLeft(card, later);
    DivisionIsMonotone(now - card.tick, later - card.tick);
  }

  function TimeOf(e: Event): nat {
    match e
    case Login(_, _, _, _, now) => now
    case Beat(_, now) => now
    case Check(_, now) => now
    case Activate(_, now) => now
    case Refresh(_) => 0
  }

  /** An expired card gets no token and passes no check. */
  lemma {:induction false} ExpiredCardRefuses(cfg: Config, s: State, f: Event, x: nat)
    requires CardAt(s.cards, x).Some? && SurplusHour(CardAt(s.cards, x).value, TimeOf(f)) == 0
    ensures !Issues(cfg, s, f, x)
    ensures f.Check? ==> !Accepts(s, f, x)
    ensures Accepts(s, f, x) ==> CardAt(s.cards, x).value.token == 0
  {
  }

  lemma {:induction false} StaysExpired(cfg: Config, s: State, es: seq<Event>, x: nat, now: nat, later: nat)
    requires Keyed(cfg, s.cards) && KeepsCard(cfg, s, es, x) && CardAt(s.cards, x).Some?
    requires SurplusHour(CardAt(s.cards, x).value, now) == 0 && CardAt(s.cards, x).value.tick <= now
    requires now <= later < TICK_RANGE
    ensures var r := CardAt(Run(cfg, s, es).cards, x); r.Some? && SurplusHour(r.value, later) == 0
  {
    SurplusOnlyFalls(CardAt(s.cards, x).value, now, later);
    RunKeepsRecord(cfg, s, es, x);
    SameHours(CardAt(s.cards, x).value, CardAt(Run(cfg, s, es).cards, x).value, later);
  }

  lemma SameHours(a: Card, b: Card, now: nat)
    requires SameRecord(a, b)
    ensures SurplusHour(a, now) == SurplusHour(b, now)
  {
  }

  /**
   Expiry is permanent: after any run that keeps the record, no later login gets a token for the
   card and no later check of it succeeds; a heartbeat can still pass, but only while the token is 0.
   */
  lemma {:induction false} ExpiryIsPermanent(cfg: Config, s: State, es: seq<Event>, f: Event, x: nat, now: nat)
    requires Keyed(cfg, s.cards) && KeepsCard(cfg, s, es, x) && CardAt(s.cards, x).Some?
    requires SurplusHour(CardAt(s.cards, x).value, now) == 0 && CardAt(s.cards, x).value.tick <= now
    requires now <= TimeOf(f) < TICK_RANGE
    ensures
      var r := Run(cfg, s, es);
      && !Issues(cfg, r, f, x)
      && (f.Check? ==> !Accepts(r, f, x))
      && (Accepts(r, f, x) ==> CardAt(r.cards, x).value.token == 0)
  {
    StaysExpired(cfg, s, es, x, now, TimeOf(f));
    ExpiredCardRefuses(cfg, Run(cfg, s, es), f, x);
  }

  /** The gap: a heartbeat is accepted on an expired card exactly when the card's token is 0. */
  lemma {:induction false} ExpiredHeartbeat(s: State, c: nat, x: nat, now: nat)
    requires c < |s.clients| && s.clients[c].crc == x != 0 && CardAt(s.cards, x).Some?
    requires SurplusHour(CardAt(s.cards, x).value, now) == 0
    ensures Accepts(s, Beat(c, now), x) <==> CardAt(s.cards, x).value.token == 0
  {
  }
}
