/**
 The captain's invite throttle: an invited player is not invited again for 15 seconds, and a
 current member is never invited.  The map lives in one call of the captain's script, so everything
 said here is about the looks of one call.
 */
module InviteThrottle {

  const QUIET_MS: nat := 15000

  /** One look at a registered player: its id, whether the team list shows it, and the three clock readings. */
  datatype Visit = Visit(id: nat, isMember: bool, checked: nat, invited: nat, noted: nat)

  datatype Invite = Invite(id: nat, at: nat, noted: nat)

  /** `disabled` maps an invited player to the time noted; `sent` is the history of invitations. */
  datatype Throttle = Throttle(disabled: map<nat, nat>, sent: seq<Invite>)

  function Fresh(): Throttle { Throttle(map[], []) }

  function Look(t: Throttle, v: Visit): Throttle {
    if v.id in t.disabled && v.checked - t.disabled[v.id] < QUIET_MS then t
    else
      var cleared := t.disabled - {v.id};
      if v.isMember then t.(disabled := cleared)
      else Throttle(cleared[v.id := v.noted], t.sent + [Invite(v.id, v.invited, v.noted)])
  }

  function Run(t: Throttle, vs: seq<Visit>): Throttle
    decreases |vs|
  {
    if vs == [] then t else Look(Run(t, vs[..|vs| - 1]), vs[|vs| - 1])
  }

  /** The clock never runs backwards, within a visit or from one visit to the next. */
  ghost predicate Ticking(vs: seq<Visit>) {
    && (forall i :: 0 <= i < |vs| ==> vs[i].checked <= vs[i].invited <= vs[i].noted)
    && (forall i, j :: 0 <= i < j < |vs| ==> vs[i].noted <= vs[j].checked)
  }

  /** The map holds the last invitation of every player it blocks; `now` is the time of the last reading. */
  ghost predicate Inv(t: Throttle, now: nat) {
    && (forall id :: id in t.disabled ==> t.disabled[id] <= now && NotedFor(t.sent, id, t.disabled[id]))
    && (forall i :: 0 <= i < |t.sent| ==> t.sent[i].at <= t.sent[i].noted && Blocked(t, t.sent[i], now))
    && (forall i, j :: 0 <= i < j < |t.sent| && t.sent[i].id == t.sent[j].id ==> Spaced(t.sent[i], t.sent[j]))
  }

  ghost predicate NotedFor(sent: seq<Invite>, id: nat, time: nat) {
    exists i :: 0 <= i < |sent| && sent[i].id == id && sent[i].noted == time
  }

  ghost predicate Blocked(t: Throttle, s: Invite, now: nat) {
    if s.id in t.disabled then s.noted <= t.disabled[s.id] else s.noted + QUIET_MS <= now
  }

  predicate Spaced(a: Invite, b: Invite) {
    a.at + QUIET_MS <= b.at
  }

  /** A visit that sends nothing. */
  lemma {:induction false} SilentLookKeepsInv(t: Throttle, v: Visit, now: nat)
    requires Inv(t, now) && now <= v.checked <= v.invited <= v.noted && Look(t, v).sent == t.sent
    ensures Inv(Look(t, v), v.noted)
  {
    var r := Look(t, v);
    forall i | 0 <= i < |r.sent|
      ensures Blocked(r, r.sent[i], v.noted)
    {
      assert Blocked(t, t.sent[i], now);
    }
  }

  lemma {:induction false} SendingLookKeepsInv(t: Throttle, v: Visit, now: nat)
    requires Inv(t, now) && now <= v.checked <= v.invited <= v.noted && Look(t, v).sent != t.sent
    ensures Inv(Look(t, v), v.noted)
  {
    var r := Look(t, v);
    var n := |t.sent|;
    assert r.sent[n] == Invite(v.id, v.invited, v.noted);
    forall id | id in r.disabled
      ensures r.disabled[id] <= v.noted && NotedFor(r.sent, id, r.disabled[id])
    {
      if id != v.id {
        var i :| 0 <= i < n && t.sent[i].id == id && t.sent[i].noted == t.disabled[id];
        assert r.sent[i] == t.sent[i];
      }
    }
    forall i | 0 <= i < n
      ensures Blocked(r, r.sent[i], v.noted) && (r.sent[i].id == v.id ==> Spaced(r.sent[i], r.sent[n]))
    {
      assert Blocked(t, t.sent[i], now);
    }
  }

  lemma {:induction false} RunKeepsInv(vs: seq<Visit>)
    requires Ticking(vs)
    ensures Inv(Run(Fresh(), vs), LastReading(vs))
    decreases |vs|
  {
    if vs != [] {
      var ws, v := vs[..|vs| - 1], vs[|vs| - 1];
      RunKeepsInv(ws);
      if Look(Run(Fresh(), ws), v).sent == Run(Fresh(), ws).sent {
        SilentLookKeepsInv(Run(Fresh(), ws), v, LastReading(ws));
      } else {
        SendingLookKeepsInv(Run(Fresh(), ws), v, LastReading(ws));
      }
    }
  }

  function LastReading(vs: seq<Visit>): nat {
    if vs == [] then 0 else vs[|vs| - 1].noted
  }

  /** In every run two invitations to one player are at least 15 s apart. */
  lemma {:induction false} InvitationsAreSpaced(vs: seq<Visit>, i: nat, j: nat)
    requires Ticking(vs) && i < j < |Run(Fresh(), vs).sent|
    ensures
      var sent := Run(Fresh(), vs).sent;
      sent[i].id == sent[j].id ==> sent[j].at - sent[i].at >= 15000
  {
    RunKeepsInv(vs);
    var sent := Run(Fresh(), vs).sent;
    assert sent[i].id == sent[j].id ==> Spaced(sent[i], sent[j]);
  }

  /** Whether the captain invites at a visit, told from the history of invitations alone. */
  ghost predicate Due(sent: seq<Invite>, v: Visit) {
    !v.isMember && forall i :: 0 <= i < |sent| && sent[i].id == v.id ==> sent[i].noted + 15000 <= v.checked
  }

  /**
   Nobody is invited too early or forgotten: after any run the captain invites the player it looks
   at exactly if the team does not show it and every earlier invitation was noted 15 s ago or more.
   */
  lemma {:induction false} InvitesIffDue(vs: seq<Visit>, v: Visit)
    requires Ticking(vs + [v])
    ensures
      var before, after := Run(Fresh(), vs).sent, Run(Fresh(), vs + [v]).sent;
      after == if Due(before, v) then before + [Invite(v.id, v.invited, v.noted)] else before
  {
    var all := vs + [v];
    assert all[..|vs|] == vs && all[|vs|] == v;
    assert Ticking(vs) by {
      assert forall i :: 0 <= i < |vs| ==> all[i] == vs[i];
    }
    RunKeepsInv(vs);
    assert vs != [] ==> all[|vs| - 1].noted <= all[|vs|].checked;
    LooksIffDue(Run(Fresh(), vs), v, LastReading(vs));
  }

  lemma {:induction false} LooksIffDue(t: Throttle, v: Visit, now: nat)
    requires Inv(t, now) && now <= v.checked
    ensures Look(t, v).sent == if Due(t.sent, v) then t.sent + [Invite(v.id, v.invited, v.noted)] else t.sent
  {
    if v.id in t.disabled && v.checked - t.disabled[v.id] < QUIET_MS {
      var i :| 0 <= i < |t.sent| && t.sent[i].id == v.id && t.sent[i].noted == t.disabled[v.id];
      assert !Due(t.sent, v);
    } else {
      forall i | 0 <= i < |t.sent| && t.sent[i].id == v.id
        ensures t.sent[i].noted + 15000 <= v.checked
      {
        assert Blocked(t, t.sent[i], now);
      }
    }
  }

  /** The captain's loop over the registered players, with its map updated in place. */
  class Captain {
    var disabled: map<nat, nat>
    ghost var sent: seq<Invite>

    ghost function View(): Throttle
      reads this
    {
      Throttle(disabled, sent)
    }

    constructor ()
      ensures View() == Fresh()
    {
      disabled, sent := map[], [];
    }

    method LookAt(v: Visit)
      modifies this
      ensures View() == Look(old(View()), v)
    {
      if v.id in disabled {
        if v.checked - disabled[v.id] >= QUIET_MS {
          disabled := disabled - {v.id};
        } else {
          return;
        }
      }
      assert disabled == old(disabled) - {v.id};
      if v.isMember {
        return;
      }
      sent := sent + [Invite(v.id, v.invited, v.noted)];
      disabled := disabled[v.id := v.noted];
    }

    /** One pass, or any number of passes, over the players. */
    method Sweep(vs: seq<Visit>)
      modifies this
      ensures View() == old(Run(View(), vs))
    {
      var i := 0;
      while i < |vs|
        invariant 0 <= i <= |vs|
        invariant View() == old(Run(View(), vs[..i]))
      {
        LookAt(vs[i]);
        assert vs[..i + 1][..i] == vs[..i];
        i := i + 1;
      }
      assert vs[..|vs|] == vs;
    }
  }
}
