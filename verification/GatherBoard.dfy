/**
 The shared board as the program holds it: an array of slots and a counter, updated in place.
 Every atomic action is a method proved against the step system of `TeamGather`.
 */
module GatherBoard {
  import opened TeamGather
  import opened TeamGatherProgress

  lemma LostBelowNext(lost: set<nat>, i: nat)
    ensures |LostBelow(lost, i + 1)| == |LostBelow(lost, i)| + if i in lost then 1 else 0
  {
    assert LostBelow(lost, i + 1) == LostBelow(lost, i) + if i in lost then {i} else {};
  }

  /** A formation that nobody disturbs, from the call to its end. */
  lemma {:induction false} WholeFormation(b: Board, me: nat, env: Env)
    requires b.Shape() && me < b.count && b.members[me].phase == Outside
    ensures Solo(Next(b, Form(me)), me, env, b.count + 1) ==
      b.(published := seq(b.count, _ => 0) + b.published[b.count..], passes := [])
  {
    var r := Next(b, Form(me));
    FormationZeroesAll(r, me, env);
    assert Put(r, me, r.members[me].(phase := Outside)) == b;
  }

  class SharedBoard {
    const published: array<nat>
    const members: array<Member>
    var count: nat
    var names: seq<string>
    ghost var passes: seq<Pass>

    ghost predicate Valid()
      reads this, published, members
    {
      && published.Length == CAPACITY && members.Length == CAPACITY
      && count == |names| <= CAPACITY
      && (forall j :: count <= j < CAPACITY ==> members[j].phase == Outside)
      && (forall i, j :: 0 <= i < j < |names| ==> names[i] != names[j])
    }

    ghost function Contents(): Board
      reads this, published, members
    {
      Board(published[..], count, members[..], passes)
    }

    constructor ()
      ensures Valid() && fresh(published) && fresh(members)
      ensures Contents() == Empty() && names == []
    {
      published := new nat[CAPACITY](_ => 0);
      members := new Member[CAPACITY](_ => Newcomer());
      count := 0;
      names := [];
      passes := [];
    }

    /** Takes the next free slot for a new name. */
    method Join(name: string)
      requires Valid() && name !in names && count < CAPACITY
      modifies this, published, members
      ensures Valid() && names == old(names) + [name] && Contents() == Next(old(Contents()), Event.Register)
    {
      published[count] := 0;
      members[count] := Newcomer();
      names := names + [name];
      count := count + 1;
    }

    /** Finds the caller's slot by name or takes the next free one; a known name keeps its stage. */
    method Attach(name: string) returns (slot: Pointer)
      requires Valid()
      modifies this, published, members
      ensures Valid()
      ensures slot.Slot? ==> slot.index < count && names[slot.index] == name
      ensures name in old(names) ==>
        slot.Slot? && names == old(names) && Contents() == Next(old(Contents()), Abandon(slot.index))
      ensures name !in old(names) && old(count) < CAPACITY ==>
        slot == Slot(old(count)) && names == old(names) + [name] && Contents() == Next(old(Contents()), Event.Register)
      ensures name !in old(names) && old(count) == CAPACITY ==> slot == Null && Contents() == old(Contents())
    {
      var i := 0;
      while i < count
        invariant 0 <= i <= count
        invariant name !in names[..i]
      {
        if names[i] == name {
          members[i] := members[i].(phase := Outside);
          return Slot(i);
        }
        i := i + 1;
      }
      assert names[..count] == names;
      if count == CAPACITY {
        return Null;
      }
      slot := Slot(count);
      Join(name);
    }

    /** One read of a slot, or one local decision, inside the scan. */
    method ActInScan(j: nat, o: Observation)
      requires Valid() && j < count && (members[j].phase.Scanning? || members[j].phase.Taking?)
      modifies members
      ensures Valid() && Contents() == StepBy(old(Contents()), j, o)
    {
      var m := members[j];
      match m.phase {
        case Scanning(entry, i, max) =>
          if i >= count {
            members[j] := m.(phase := if entry then EntryTest else Checking(0, {}));
          } else if published[i] >= max {
            members[j] := m.(phase := Taking(entry, i, max));
          } else {
            members[j] := m.(phase := Scanning(entry, i + 1, max));
          }
        case Taking(entry, i, max) =>
          if i < count {
            members[j] := m.(phase := Scanning(entry, i + 1, published[i]), best := Slot(i));
          }
      }
    }

    /** One question, or one read of a slot, inside the check. */
    method ActInCheck(j: nat, o: Observation)
      requires Valid() && j < count
      requires members[j].phase.Checking? || members[j].phase.TestingZero? || members[j].phase.Comparing?
      modifies members
      ensures Valid() && Contents() == StepBy(old(Contents()), j, o)
    {
      var m := members[j];
      match m.phase {
        case Checking(i, lost) =>
          if i >= count {
            members[j] := m.(phase := Deciding(count, lost, true));
          } else if o.lost {
            members[j] := m.(phase := Checking(i + 1, lost + {i}));
          } else {
            members[j] := m.(phase := TestingZero(i, lost));
          }
        case TestingZero(i, lost) =>
          if i < count && published[i] == 0 {
            members[j] := m.(phase := Deciding(i, lost, false));
          } else {
            members[j] := m.(phase := Comparing(i, lost, Nothing));
          }
        case Comparing(i, lost, loaded) =>
          if i < count && m.best != Null && m.best.index < count {
            match loaded {
              case Nothing =>
                members[j] := m.(phase := Comparing(i, lost,
                  if o.bestFirst then Best(published[m.best.index]) else Item(published[i])));
              case Item(v) => members[j] := Compared(m, i, lost, v, published[m.best.index]);
              case Best(v) => members[j] := Compared(m, i, lost, published[i], v);
            }
          }
      }
    }

    /** One atomic action of one member.  Inside the call it writes at most its own slot and local state. */
    method Act(j: nat, o: Observation)
      requires Valid() && j < count
      modifies this`passes, published, members
      ensures Valid() && Contents() == StepBy(old(Contents()), j, o)
    {
      var m := members[j];
      match m.phase {
        case Outside =>
        case Forming(i) =>
          if i < count {
            published[i] := 0;
            passes := [];
            members[j] := m.(phase := Forming(i + 1));
          } else {
            members[j] := m.(phase := Outside);
          }
        case Attending =>
          if count >= m.least {
            members[j] := m.(phase := Scanning(true, 0, 0));
          } else if o.down {
            members[j] := m.(phase := Scanning(true, 0, 0), rushed := true);
          }
        case EntryTest =>
          if m.best == Null || m.best.index >= count || published[m.best.index] > m.stage {
            members[j] := m.(phase := Outside);
          } else {
            members[j] := m.(phase := Publishing);
          }
        case Publishing =>
          published[j] := m.stage;
          members[j] := m.(phase := Published);
        case Published =>
          members[j] := m.(phase := if o.timedOut then Publishing else Scanning(false, 0, 0));
        case Deciding(saw, lost, same) =>
          if BelowQuorum(o.team, |lost|, m.least) {
            members[j] := m.(phase := Outside);
          } else if same {
            passes := passes + [Pass(j, m.stage, saw, lost)];
            members[j] := m.(phase := Outside);
          } else {
            members[j] := m.(phase := Publishing);
          }
        case Scanning(_, _, _) => ActInScan(j, o);
        case Taking(_, _, _) => ActInScan(j, o);
        case Checking(_, _) => ActInCheck(j, o);
        case TestingZero(_, _) => ActInCheck(j, o);
        case Comparing(_, _, _) => ActInCheck(j, o);
      }
    }

    /** Any event but a registration. */
    method Play(e: Event)
      requires Valid() && !e.Register?
      modifies this`passes, published, members
      ensures Valid() && Contents() == Next(old(Contents()), e)
    {
      match e {
        case Enter(j, stage, least) =>
          if j < count && members[j].phase == Outside {
            members[j] := Member(Attending, stage, least, Null, false);
          }
        case Form(j) =>
          if j < count && members[j].phase == Outside {
            members[j] := members[j].(phase := Forming(0));
          }
        case Abandon(j) =>
          if j < count {
            members[j] := members[j].(phase := Outside);
          }
        case Step(j, o) =>
          if j < count {
            Act(j, o);
          }
      }
    }

    /** Any schedule; `arrivals[n]` is the new name if event `n` is a registration. */
    method Replay(es: seq<Event>, arrivals: seq<string>)
      requires Valid() && |arrivals| == |es|
      requires forall i :: 0 <= i < |arrivals| ==> arrivals[i] !in names
      requires forall i, j :: 0 <= i < j < |arrivals| ==> arrivals[i] != arrivals[j]
      modifies this, published, members
      ensures Valid() && Contents() == Run(old(Contents()), es)
    {
      assert Contents().Shape();
      for n := 0 to |es|
        invariant Valid()
        invariant Contents() == Run(old(Contents()), es[..n])
        invariant forall i :: n <= i < |arrivals| ==> arrivals[i] !in names
      {
        ghost var before := Contents();
        if es[n].Register? {
          if count < CAPACITY {
            Join(arrivals[n]);
          }
        } else {
          Play(es[n]);
        }
        assert Contents() == Next(before, es[n]);
        RunLast(old(Contents()), es[..n + 1]);
        assert es[..n + 1][..n] == es[..n];
      }
      assert es[..|es|] == es;
    }

    /** The loop over the registered slots. */
    method ZeroSlots()
      requires Valid()
      modifies published
      ensures Valid() && published[..] == seq(count, _ => 0) + old(published[count..])
    {
      var i := 0;
      while i < count
        invariant 0 <= i <= count
        invariant forall k :: 0 <= k < i ==> published[k] == 0
        invariant published[i..] == old(published[i..])
      {
        published[i] := 0;
        i := i + 1;
      }
    }

    /**
     The end of a team formation while nobody else moves: member `me` zeroes every registered slot.
     On the step system this is the formation's pass from its first slot to its end.
     */
    method ResetAll(me: nat, env: Env)
      requires Valid() && me < count && members[me].phase == Outside
      modifies this`passes, published
      ensures Valid() && published[..] == seq(count, _ => 0) + old(published[count..])
      ensures Contents() == Solo(Next(old(Contents()), Form(me)), me, env, count + 1)
    {
      ghost var before := Contents();
      ZeroSlots();
      passes := [];
      WholeFormation(before, me, env);
    }

    /** The scan for the largest stage: of equal slots the last one wins. */
    method FindByMaxScheduleIndex() returns (best: Pointer)
      requires Valid()
      ensures count == 0 ==> best == Null
      ensures count > 0 ==> best.Slot? && IsTop(published[..], count, best.index)
      ensures count > 0 ==> forall q :: best.index < q < count ==> published[q] < published[best.index]
    {
      best := Null;
      var max := 0;
      var i := 0;
      while i < count
        invariant 0 <= i <= count
        invariant i == 0 ==> best == Null && max == 0
        invariant i > 0 ==> best.Slot? && best.index < i && published[best.index] == max
        invariant forall q :: 0 <= q < i ==> published[q] <= max
        invariant best.Slot? ==> forall q :: best.index < q < i ==> published[q] < max
      {
        if published[i] >= max {
          max := published[i];
          best := Slot(i);
        }
        i := i + 1;
      }
    }

    /** The comparison of every slot with the largest, stopping at the first that is unset or behind. */
    method CheckSlots(top: nat, lost: set<nat>) returns (same: bool, loseCount: nat)
      requires Valid() && top < count
      ensures same <==> forall q :: 0 <= q < count && q !in lost ==> published[q] != 0 && published[top] <= published[q]
      ensures loseCount == |LostBelow(lost, StopAt(published[..], count, lost, published[top], 0))|
      ensures same ==> loseCount == |LostBelow(lost, count)|
    {
      ghost var p := published[..];
      same, loseCount := true, 0;
      var i := 0;
      while i < count && same
        invariant 0 <= i <= count
        invariant loseCount == |LostBelow(lost, i)|
        invariant StopAt(p, count, lost, p[top], i) == StopAt(p, count, lost, p[top], 0)
        invariant forall q :: 0 <= q < i && q !in lost ==> p[q] != 0 && p[top] <= p[q]
        invariant !same ==> i < count && i !in lost && (p[i] == 0 || p[i] < p[top])
        decreases count - i, same
      {
        if i in lost {
          LostBelowNext(lost, i);
          loseCount := loseCount + 1;
          i := i + 1;
        } else if published[i] == 0 {
          same := false;
        } else if published[i] < published[top] {
          same := false;
        } else {
          LostBelowNext(lost, i);
          i := i + 1;
        }
      }
    }

    /** Publishes, scans, checks all slots and tests the quorum. */
    method PublishAndDecide(me: nat, stage: nat, least: nat, lost: set<nat>, team: nat) returns (outcome: Outcome)
      requires Valid() && me < count
      modifies published
      ensures Valid() && published[..] == old(published[..])[me := stage]
      ensures outcome == Verdict(published[..], count, lost, team, least)
    {
      published[me] := stage;
      var best := FindByMaxScheduleIndex();
      ghost var p := published[..];
      assert p[best.index] == TopStage(p, count);
      var same, loseCount := CheckSlots(best.index, lost);
      StopIsFirst(p, count, lost, p[best.index], 0);
      if BelowQuorum(team, loseCount, least) {
        return LeaveShort;
      }
      return if same then LeaveAgreed else WaitMore;
    }

    /**
     One iteration of the waiting loop while nobody else moves.  The step system, moving member `me`
     alone for some number of steps, ends it in the same way.
     */
    method GatherIteration(me: nat, env: Env) returns (outcome: Outcome)
      requires Valid() && me < count && members[me].phase == Publishing
      modifies this`passes, published, members
      ensures Valid() && Ends(old(Contents()), Contents(), me, env.lost, outcome)
      ensures exists n :: Ends(old(Contents()), Solo(old(Contents()), me, env, n), me, env.lost, outcome)
      ensures outcome == Verdict(published[..], count, env.lost, env.team, old(members[me].least))
    {
      ghost var before := Contents();
      ghost var n := UndisturbedIterationDecides(before, me, env);
      var m := members[me];
      outcome := PublishAndDecide(me, m.stage, m.least, env.lost, env.team);
      if outcome == LeaveAgreed {
        passes := passes + [Pass(me, m.stage, count, LostBelow(env.lost, count))];
      }
      members[me] := m.(phase := if outcome == WaitMore then Publishing else Outside);
    }
  }
}
