/**
 When a waiting member can still get away by agreement: exactly as long as no slot is above its
 stage; and when with fewer characters than it asked for.
 */
module TeamGatherEscape {
  import opened TeamGather
  import opened TeamGatherSafety
  import opened TeamGatherProgress
  import opened TeamGatherStall

  /** Nobody has published a stage above that of the waiter. */
  ghost predicate Unpassed(b: Board, w: nat)
    requires b.Shape() && w < b.count
  {
    forall q :: 0 <= q < b.count ==> b.published[q] <= b.members[w].stage
  }

  /** A patient run in which nobody is seen disconnected. */
  ghost predicate Peaceful(b: Board, es: seq<Event>, w: nat)
    requires b.Shape()
    decreases |es|
  {
    es != [] ==>
      && Harmless(b, es[0], w) && (es[0].Step? ==> !es[0].sees.lost)
      && Peaceful(Next(b, es[0]), es[1..], w)
  }

  /** In some continuation in which `w` stays in its call it stands before leaving by agreement. */
  ghost predicate CanLeave(b: Board, w: nat)
    requires b.Shape() && w < b.count
  {
    exists es: seq<Event>, o: Observation :: Patient(b, es, w) && Agrees(Run(b, es).members[w], o)
  }

  ghost predicate CanLeavePeacefully(b: Board, w: nat)
    requires b.Shape() && w < b.count
  {
    exists es: seq<Event>, o: Observation :: Peaceful(b, es, w) && Agrees(Run(b, es).members[w], o)
  }

  /** The same with a check that covered fewer characters than the member asked for. */
  ghost predicate CanLeaveShort(b: Board, w: nat)
    requires b.Shape() && w < b.count
  {
    exists es: seq<Event>, o: Observation :: Patient(b, es, w) && AgreesShort(Run(b, es).members[w], o)
  }

  predicate AgreesShort(m: Member, o: Observation) {
    Agrees(m, o) && m.phase.saw < m.least
  }

  lemma {:induction false} PeacefulIsPatient(b: Board, es: seq<Event>, w: nat)
    requires b.Shape() && Peaceful(b, es, w)
    ensures Patient(b, es, w)
    decreases |es|
  {
    if es != [] {
      PeacefulIsPatient(Next(b, es[0]), es[1..], w);
    }
  }

  lemma {:induction false} PeacefulAppend(b: Board, es: seq<Event>, fs: seq<Event>, w: nat)
    requires b.Shape() && Peaceful(b, es, w) && Peaceful(Run(b, es), fs, w)
    ensures Peaceful(b, es + fs, w)
    decreases |es|
  {
    if es == [] {
      assert es + fs == fs;
    } else {
      assert (es + fs)[0] == es[0] && (es + fs)[1..] == es[1..] + fs;
      PeacefulAppend(Next(b, es[0]), es[1..], fs, w);
    }
  }

  lemma {:induction false} PeacefulFirst(b: Board, e: Event, es: seq<Event>, w: nat)
    requires b.Shape() && Harmless(b, e, w) && (e.Step? ==> !e.sees.lost) && Peaceful(Next(b, e), es, w)
    ensures Run(b, [e] + es) == Run(Next(b, e), es)
    ensures Peaceful(b, [e] + es, w)
  {
    assert ([e] + es)[1..] == es;
  }

  lemma {:induction false} SoloIsPeaceful(b: Board, j: nat, env: Env, n: nat, w: nat)
    requires b.Shape() && j < b.count && env.lost == {} && !b.members[j].phase.Forming?
    ensures Peaceful(b, SoloEvents(b, j, env, n), w)
    decreases n
  {
    if n > 0 {
      var o := Sees(b.members[j], env);
      var r := StepBy(b, j, o);
      StepNeverForms(b, j, o);
      SoloIsPeaceful(r, j, env, n - 1, w);
      PeacefulFirst(b, Step(j, o), SoloEvents(r, j, env, n - 1), w);
    }
  }

  /** Every other member shows the stage of `w`. */
  ghost predicate OthersAt(b: Board, w: nat, bound: nat)
    requires b.Shape() && w < b.count
  {
    forall q :: 0 <= q < b.count && q < bound && q != w ==> b.published[q] == b.members[w].stage
  }

  /** Member `q` gives up what it was doing, enters for the stage of `w` and publishes it. */
  lemma {:induction false} OneFollows(b: Board, w: nat, q: nat) returns (es: seq<Event>)
    requires b.Shape() && w < b.count && q < b.count && q != w && Unpassed(b, w)
    ensures Peaceful(b, es, w)
    ensures var r := Run(b, es);
      r.count == b.count && r.members[w] == b.members[w] && r.published == b.published[q := b.members[w].stage]
  {
    var k := b.members[w].stage;
    var env := Env({}, 0, false);
    var b1 := Next(b, Abandon(q));
    var b2 := Next(b1, Enter(q, k, 0));
    var n, best := Arrives(b1, q, k, 0, env);
    SoloIsRun(b2, q, env, n);
    SoloIsPeaceful(b2, q, env, n, w);
    var fs := SoloEvents(b2, q, env, n);
    PeacefulFirst(b1, Enter(q, k, 0), fs, w);
    PeacefulFirst(b, Abandon(q), [Enter(q, k, 0)] + fs, w);
    es := [Abandon(q)] + ([Enter(q, k, 0)] + fs);
  }

  /** One after the other all members come to the stage of `w`. */
  lemma {:induction false} EveryoneFollows(b: Board, w: nat, i: nat) returns (es: seq<Event>)
    requires b.Shape() && w < b.count && i <= b.count && Unpassed(b, w) && OthersAt(b, w, i)
    ensures Peaceful(b, es, w)
    ensures var r := Run(b, es);
      r.count == b.count && r.members[w] == b.members[w] && OthersAt(r, w, r.count)
    decreases b.count - i
  {
    if i == b.count {
      es := [];
    } else if i == w {
      es := EveryoneFollows(b, w, i + 1);
    } else {
      var fs := OneFollows(b, w, i);
      var gs := EveryoneFollows(Run(b, fs), w, i + 1);
      RunAppend(b, fs, gs);
      PeacefulAppend(b, fs, gs, w);
      es := fs + gs;
    }
  }

  /** With all others at its stage the waiter scans, checks, and agrees. */
  lemma {:induction false} LeavesTogether(b: Board, w: nat) returns (es: seq<Event>, o: Observation)
    requires b.Shape() && w < b.count && OthersAt(b, w, b.count)
    requires b.members[w].phase == Publishing && b.members[w].stage > 0 && b.members[w].least < DWORD_RANGE
    ensures Peaceful(b, es, w)
    ensures var m := Run(b, es).members[w];
      Agrees(m, o) && m.phase.saw == b.count && m.least == b.members[w].least
  {
    var m := b.members[w];
    var env := Env({}, m.least, false);
    var k, r := PublishesAndChecks(b, w, env, 0);
    assert Level(b.published[w := m.stage], b.count, {}, 0);
    assert LostBelow({}, b.count) == {};
    SoloIsRun(b, w, env, k);
    SoloIsPeaceful(b, w, env, k, w);
    es := SoloEvents(b, w, env, k);
    assert Run(b, es).members[w] == r;
    o := Sees(r, env);
  }

  /** No continuation in which the waiter stays in its call frees it once it is overtaken. */
  lemma {:induction false} EscapeNeedsUnpassed(b: Board, w: nat, es: seq<Event>, o: Observation)
    requires b.Shape() && Inv(b) && w < b.count && b.members[w].phase == Publishing
    requires Patient(b, es, w) && Agrees(Run(b, es).members[w], o)
    ensures Unpassed(b, w)
  {
    if !Unpassed(b, w) {
      var q :| 0 <= q < b.count && b.published[q] > b.members[w].stage;
      assert Sound(b.published, b.count, w, b.members[w]);
      assert Overtaken(b, w, q);
      OvertakenNeverAgrees(b, es, w, q, o);
    }
  }

  lemma {:induction false} UnpassedEscapes(b: Board, w: nat) returns (es: seq<Event>, o: Observation)
    requires b.Shape() && w < b.count && Unpassed(b, w)
    requires b.members[w].phase == Publishing && b.members[w].stage > 0 && b.members[w].least < DWORD_RANGE
    ensures Peaceful(b, es, w)
    ensures var m := Run(b, es).members[w];
      Agrees(m, o) && m.phase.saw == b.count && m.least == b.members[w].least
  {
    var fs := EveryoneFollows(b, w, 0);
    var gs;
    gs, o := LeavesTogether(Run(b, fs), w);
    RunAppend(b, fs, gs);
    PeacefulAppend(b, fs, gs, w);
    es := fs + gs;
  }

  /**
   A waiter about to publish can still leave by agreement if and only if nobody has published a
   later stage; and if it can, then also in a run in which nobody is seen disconnected.
   */
  lemma {:induction false} CanLeaveIffUnpassed(b: Board, w: nat)
    requires b.Shape() && Inv(b) && w < b.count
    requires b.members[w].phase == Publishing && b.members[w].stage > 0 && b.members[w].least < DWORD_RANGE
    ensures CanLeave(b, w) <==> Unpassed(b, w)
    ensures CanLeavePeacefully(b, w) <==> Unpassed(b, w)
  {
    if CanLeave(b, w) {
      var es: seq<Event>, o: Observation :| Patient(b, es, w) && Agrees(Run(b, es).members[w], o);
      EscapeNeedsUnpassed(b, w, es, o);
    }
    if CanLeavePeacefully(b, w) {
      var es: seq<Event>, o: Observation :| Peaceful(b, es, w) && Agrees(Run(b, es).members[w], o);
      PeacefulIsPatient(b, es, w);
      EscapeNeedsUnpassed(b, w, es, o);
    }
    if Unpassed(b, w) {
      var es, o := UnpassedEscapes(b, w);
      PeacefulIsPatient(b, es, w);
    }
  }

  /** A check of `w` that has agreed covers at least the first `c` slots. */
  predicate CoversFirst(phase: Phase, c: nat) {
    phase.Deciding? && phase.same ==> c <= phase.saw
  }

  /** A check that ends later covers at least the characters registered now, and `w` asks for as many as before. */
  lemma {:induction false} LaterChecksCover(b: Board, es: seq<Event>, w: nat, c: nat)
    requires b.Shape() && w < b.count && c <= b.count && Patient(b, es, w) && CoversFirst(b.members[w].phase, c)
    ensures CoversFirst(Run(b, es).members[w].phase, c) && Run(b, es).members[w].least == b.members[w].least
    decreases |es|
  {
    if es != [] {
      var r := Next(b, es[0]);
      assert r.members[w].least == b.members[w].least && CoversFirst(r.members[w].phase, c);
      LaterChecksCover(r, es[1..], w, c);
    }
  }

  /**
   A waiter about to publish can leave by agreement with fewer characters covered than it asked for
   if and only if no slot is above its stage and fewer than that are registered now.
   */
  lemma {:induction false} CanLeaveShortIff(b: Board, w: nat)
    requires b.Shape() && Inv(b) && w < b.count
    requires b.members[w].phase == Publishing && b.members[w].stage > 0 && b.members[w].least < DWORD_RANGE
    ensures CanLeaveShort(b, w) <==> Unpassed(b, w) && b.count < b.members[w].least
  {
    if CanLeaveShort(b, w) {
      var es: seq<Event>, o: Observation :| Patient(b, es, w) && AgreesShort(Run(b, es).members[w], o);
      EscapeNeedsUnpassed(b, w, es, o);
      LaterChecksCover(b, es, w, b.count);
    }
    if Unpassed(b, w) && b.count < b.members[w].least {
      var es, o := UnpassedEscapes(b, w);
      PeacefulIsPatient(b, es, w);
      assert AgreesShort(Run(b, es).members[w], o);
    }
  }
}
