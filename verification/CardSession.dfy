/**
 The card list of the licence server: login, heartbeat, liveness check, activation and reload,
 as functions on values.  `CardServer` holds the list as the program does and is proved against them.
 */
module CardSession {
  import opened Optional

  const MS_PER_HOUR: nat := 3600000
  const TICK_RANGE: nat := 0x1_0000_0000_0000_0000

  /** `token` 0 means that nobody holds the card; `tick` is when `surplus` hours were read. */
  datatype Card = Card(no: string, crc: nat, surplus: int, token: nat, tick: nat, keepALive: nat)

  /** What the server remembers about one connected client. */
  datatype Client = Client(version: string, cardNo: string, token: nat, crc: nat)

  /** The configured version and the checksum of a card number. */
  datatype Config = Config(version: string, crcOf: string -> nat)

  /** The hours left on a card: elapsed ticks are unsigned, and the result is never negative. */
  function SurplusHour(card: Card, now: nat): int {
    var hours := card.surplus - (now - card.tick) % TICK_RANGE / 1000 / 60 / 60;
    if hours <= 0 then 0 else hours
  }

  /** The position of the first card with checksum `x`. */
  function FindCrc(cards: seq<Card>, x: nat): (r: Option<nat>)
    ensures r.None? <==> forall k :: 0 <= k < |cards| ==> cards[k].crc != x
    ensures r.Some? ==> r.value < |cards| && cards[r.value].crc == x && forall k :: 0 <= k < r.value ==> cards[k].crc != x
  {
    if cards == [] then None
    else if cards[0].crc == x then Some(0)
    else match FindCrc(cards[1..], x)
      case None => None
      case Some(k) => Some(k + 1)
  }

  /** The position of the first card with number `no`. */
  function FindNo(cards: seq<Card>, no: string): (r: Option<nat>)
    ensures r.None? <==> forall k :: 0 <= k < |cards| ==> cards[k].no != no
    ensures r.Some? ==> r.value < |cards| && cards[r.value].no == no && forall k :: 0 <= k < r.value ==> cards[k].no != no
  {
    if cards == [] then None
    else if cards[0].no == no then Some(0)
    else match FindNo(cards[1..], no)
      case None => None
      case Some(k) => Some(k + 1)
  }

  /** The record that every lookup by checksum finds. */
  function CardAt(cards: seq<Card>, x: nat): Option<Card> {
    match FindCrc(cards, x)
    case None => None
    case Some(i) => Some(cards[i])
  }

  datatype LoginResult = LoginResult(cards: seq<Card>, client: Client, issued: bool)

  /** A login: the card number is recorded first, and a token is issued only to a live card. */
  function SetToken(cfg: Config, cards: seq<Card>, client: Client, rnd: nat, now: nat): LoginResult {
    if client.cardNo == "Empty" || client.cardNo == "" || client.version != cfg.version
    then LoginResult(cards, client, false)
    else
      var known := client.(crc := cfg.crcOf(client.cardNo));
      match FindCrc(cards, known.crc)
      case None => LoginResult(cards, known, false)
      case Some(i) =>
        if SurplusHour(cards[i], now) <= 0 then LoginResult(cards, known, false)
        else LoginResult(cards[i := cards[i].(token := rnd, keepALive := now)], known.(token := rnd), true)
  }

  datatype BeatResult = BeatResult(cards: seq<Card>, accepted: bool)

  /** A heartbeat; it is accepted when it updates the tick. */
  function KeepALive(cards: seq<Card>, client: Client, now: nat): BeatResult {
    if client.crc == 0 then BeatResult(cards, false)
    else match FindCrc(cards, client.crc)
      case None => BeatResult(cards, false)
      case Some(i) =>
        var p := cards[i];
        if p.token == 0 then BeatResult(cards[i := p.(token := client.token, keepALive := now)], true)
        else if p.token != client.token then BeatResult(cards, false)
        else if SurplusHour(p, now) <= 0 then BeatResult(cards, false)
        else BeatResult(cards[i := p.(keepALive := now)], true)
  }

  /** The liveness check made before every other request. */
  function IsALive(cards: seq<Card>, client: Client, now: nat): BeatResult {
    match FindCrc(cards, client.crc)
    case None => BeatResult(cards, false)
    case Some(i) =>
      var p := cards[i];
      if SurplusHour(p, now) <= 0 then BeatResult(cards, false)
      else if p.token == 0 then BeatResult(cards[i := p.(token := client.token)], true)
      else BeatResult(cards, p.token == client.token)
  }

  /** A reload: the database's numbers in order, with the record in memory where there is one. */
  function Merge(cards: seq<Card>, db: seq<Card>): (r: seq<Card>)
    ensures |r| == |db|
  {
    seq(|db|, k requires 0 <= k < |db| => Merged(cards, db[k]))
  }

  function Merged(cards: seq<Card>, row: Card): (r: Card)
    ensures r.no == row.no
  {
    match FindNo(cards, row.no)
    case None => row
    case Some(i) => cards[i]
  }

  // ----- runs of the server

  datatype State = State(cards: seq<Card>, clients: seq<Client>)

  datatype Event =
    | Login(who: nat, version: string, cardNo: string, rnd: nat, now: nat)
    | Beat(who: nat, now: nat)
    | Check(who: nat, now: nat)
    | Activate(card: Card, now: nat)
    | Refresh(db: seq<Card>)

  function LoginOf(cfg: Config, s: State, e: Event): LoginResult
    requires e.Login? && e.who < |s.clients|
  {
    SetToken(cfg, s.cards, s.clients[e.who].(version := e.version, cardNo := e.cardNo), e.rnd, e.now)
  }

  function Next(cfg: Config, s: State, e: Event): State {
    match e
    case Login(c, _, _, _, _) =>
      if c < |s.clients|
      then var r := LoginOf(cfg, s, e); State(r.cards, s.clients[c := r.client])
      else s
    case Beat(c, now) => if c < |s.clients| then s.(cards := KeepALive(s.cards, s.clients[c], now).cards) else s
    case Check(c, now) => if c < |s.clients| then s.(cards := IsALive(s.cards, s.clients[c], now).cards) else s
    case Activate(card, now) =>
      if card.no == "" || SurplusHour(card, now) <= 0 then s else s.(cards := s.cards + [card])
    case Refresh(db) => s.(cards := Merge(s.cards, db))
  }

  function Run(cfg: Config, s: State, es: seq<Event>): State
    decreases |es|
  {
    if es == [] then s else Run(cfg, Next(cfg, s, es[0]), es[1..])
  }

  /** A heartbeat or check of client `e.who` on card `x` that is accepted. */
  predicate Accepts(s: State, e: Event, x: nat) {
    match e
    case Beat(c, now) => c < |s.clients| && s.clients[c].crc == x && KeepALive(s.cards, s.clients[c], now).accepted
    case Check(c, now) => c < |s.clients| && s.clients[c].crc == x && IsALive(s.cards, s.clients[c], now).accepted
    case _ => false
  }

  /** A login that issues a token for card `x`. */
  predicate Issues(cfg: Config, s: State, e: Event, x: nat) {
    e.Login? && e.who < |s.clients| && LoginOf(cfg, s, e).issued && cfg.crcOf(e.cardNo) == x
  }

  /** Records carry the checksum of their number. */
  ghost predicate Keyed(cfg: Config, cards: seq<Card>) {
    forall c :: c in cards ==> c.crc == cfg.crcOf(c.no)
  }

  ghost predicate NoCollision(cfg: Config, a: seq<Card>, b: seq<Card>) {
    forall c, d :: c in a && d in b && cfg.crcOf(c.no) == cfg.crcOf(d.no) ==> c.no == d.no
  }

  /** Database rows are keyed, checksums of different numbers differ, and a reload still lists card `x`. */
  ghost predicate Keeps(cfg: Config, s: State, e: Event, x: nat) {
    match e
    case Activate(card, _) => card.crc == cfg.crcOf(card.no)
    case Refresh(db) =>
      && Keyed(cfg, db) && NoCollision(cfg, s.cards, db)
      && (CardAt(s.cards, x).Some? ==> FindNo(db, CardAt(s.cards, x).value.no).Some?)
    case _ => true
  }

  /** A run that never drops the record of card `x`. */
  ghost predicate KeepsCard(cfg: Config, s: State, es: seq<Event>, x: nat)
    decreases |es|
  {
    es != [] ==> Keeps(cfg, s, es[0], x) && KeepsCard(cfg, Next(cfg, s, es[0]), es[1..], x)
  }

  /** A run in which no login on card `x` is granted. */
  ghost predicate NoLogin(cfg: Config, s: State, es: seq<Event>, x: nat)
    decreases |es|
  {
    es != [] ==> !Issues(cfg, s, es[0], x) && NoLogin(cfg, Next(cfg, s, es[0]), es[1..], x)
  }
}
