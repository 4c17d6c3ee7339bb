/**
 The card list as the server holds it, behind one lock: records are found by checksum and updated
 in place, and a login also writes the client's own record.
 */
module CardServer {
  import opened CardSession
  import opened Optional

  /** A connected client; its fields are filled in when it logs in. */
  class ClientAccount {
    var version: string
    var cardNo: string
    var token: nat
    var crc: nat

    constructor ()
      ensures View() == Client("", "Empty", 0, 0)
    {
      version, cardNo, token, crc := "", "Empty", 0, 0;
    }

    function View(): Client
      reads this
    {
      Client(version, cardNo, token, crc)
    }
  }

  class CardManage {
    var cards: seq<Card>
    const cfg: Config

    constructor (cfg: Config)
      ensures this.cfg == cfg && cards == []
    {
      this.cfg := cfg;
      cards := [];
    }

    method Find(crc: nat) returns (p: Option<nat>)
      ensures p == FindCrc(cards, crc)
    {
      var i := 0;
      while i < |cards|
        invariant 0 <= i <= |cards|
        invariant forall k :: 0 <= k < i ==> cards[k].crc != crc
      {
        if cards[i].crc == crc {
          return Some(i);
        }
        i := i + 1;
      }
      return None;
    }

    /** Login with the drawn token `rnd` at tick `now`. */
    method SetToken(account: ClientAccount, rnd: nat, now: nat) returns (ghost issued: bool)
      modifies this, account
      ensures LoginResult(cards, account.View(), issued) == old(CardSession.SetToken(cfg, cards, account.View(), rnd, now))
    {
      issued := false;
      if account.cardNo == "Empty" || account.cardNo == "" {
        return;
      }
      if account.version != cfg.version {
        return;
      }
      account.crc := cfg.crcOf(account.cardNo);
      var p := Find(account.crc);
      if p.None? {
        return;
      }
      if SurplusHour(cards[p.value], now) <= 0 {
        return;
      }
      account.token := rnd;
      cards := cards[p.value := cards[p.value].(token := rnd)];
      cards := cards[p.value := cards[p.value].(keepALive := now)];
      issued := true;
    }

    /** Heartbeat: always answers TRUE; `accepted` says whether the tick was updated. */
    method KeepALive(account: ClientAccount, now: nat) returns (ret: bool, ghost accepted: bool)
      modifies this
      ensures ret
      ensures BeatResult(cards, accepted) == old(CardSession.KeepALive(cards, account.View(), now))
    {
      ret, accepted := true, false;
      if account.crc == 0 {
        return;
      }
      var p := Find(account.crc);
      if p.None? {
        return;
      }
      var i := p.value;
      if cards[i].token == 0 {
        cards := cards[i := cards[i].(token := account.token)];
      } else if cards[i].token != account.token {
        return;
      } else if SurplusHour(cards[i], now) <= 0 {
        return;
      }
      cards := cards[i := cards[i].(keepALive := now)];
      accepted := true;
    }

    method IsALive(account: ClientAccount, now: nat) returns (alive: bool)
      modifies this
      ensures BeatResult(cards, alive) == old(CardSession.IsALive(cards, account.View(), now))
    {
      alive := false;
      var p := Find(account.crc);
      if p.None? {
        return;
      }
      var i := p.value;
      if SurplusHour(cards[i], now) <= 0 {
        return;
      }
      if cards[i].token == 0 {
        cards := cards[i := cards[i].(token := account.token)];
      } else if cards[i].token != account.token {
        return;
      }
      alive := true;
    }

    /** Activation of the row the database returned for an unknown checksum, if it did. */
    method TryActiveCard(row: Option<Card>, now: nat) returns (active: bool)
      modifies this
      ensures active <==> row.Some? && row.value.no != "" && SurplusHour(row.value, now) > 0
      ensures cards == if active then old(cards) + [row.value] else old(cards)
      ensures row.Some? ==> cards == old(CardSession.Next(cfg, State(cards, []), Activate(row.value, now)).cards)
    {
      if row.None? || row.value.no == "" {
        return false;
      }
      if SurplusHour(row.value, now) <= 0 {
        return false;
      }
      cards := cards + [row.value];
      return true;
    }

    /** The reload: overwrite each fetched row by the record in memory, then take the fetched list. */
    method RefreshCard(db: seq<Card>)
      modifies this
      ensures cards == Merge(old(cards), db)
    {
      var tmpList := db;
      var k := 0;
      while k < |tmpList|
        invariant 0 <= k <= |tmpList| == |db|
        invariant forall j :: 0 <= j < k ==> tmpList[j] == Merged(cards, db[j])
        invariant forall j :: k <= j < |db| ==> tmpList[j] == db[j]
      {
        var i := 0;
        while i < |cards| && cards[i].no != tmpList[k].no
          invariant 0 <= i <= |cards|
          invariant forall j :: 0 <= j < i ==> cards[j].no != tmpList[k].no
        {
          i := i + 1;
        }
        if i < |cards| {
          assert FindNo(cards, db[k].no) == Some(i);
          tmpList := tmpList[k := cards[i]];
        }
        k := k + 1;
      }
      cards := tmpList;
    }
  }
}
