/**
 When being passed is final: a member in the call that another has passed can still leave by
 agreement from some program points, and from the others never.
 */
module TeamGatherPassed {
  import opened TeamGather
  import opened TeamGatherSafety
  import opened TeamGatherProgress
  import opened TeamGatherStall
  import opened TeamGatherEscape
  import opened TeamGatherWitness

  /** Member `w` is in its call, and another member shows a later stage. */
  ghost predicate Passed(b: Board, w: nat, q: nat)
    requires b.Shape()
  {
    w < b.count && q < b.count && q != w && InCall(b.members[w].phase) && b.members[w].stage < b.published[q]
  }

  /** Though passed, `w` stays in its call and comes to leave by agreement. */
  ghost predicate GetsAway(b: Board, w: nat, q: nat, es: seq<Event>, o: Observation)
    requires b.Shape()
  {
    Passed(b, w, q) && Patient(b, es, w) && Agrees(Run(b, es).members[w], o)
  }

  /** No member that is passed at one of the points gets away. */
  ghost predicate PassedIsFinal(policy: Policy, points: set<Point>) {
    forall b: Board, w: nat, q: nat, es: seq<Event>, o: Observation ::
      b.Shape() && Reachable(policy, b) && GetsAway(b, w, q, es, o) ==> PointOf(b.members[w].phase) !in points
  }

  /** Outside the scan and the check that lead to an agreement. */
  function FinalPoints(): set<Point> {
    {AtAttending, AtEntryScan, AtEntryTake, AtEntryTest, AtPublishing, AtPublished, AtUndecided}
  }

  lemma PassedIsOvertaken(b: Board, w: nat, q: nat)
    requires b.Shape() && Passed(b, w, q) && PointOf(b.members[w].phase) in FinalPoints()
    ensures Overtaken(b, w, q)
  {
  }

  // From the other points.  Both members show stage 1, and member 1 has begun to look when member 0
  // leaves and announces stage 2: the pointer of member 1 is, or comes to be, on its own slot.

  function LookPoints(): set<Point> { {AtTake, AtScan, AtCheck, AtZeroTest, AtCompare} }

  function LookStop(m: Member, x: Point): Member
    requires x in LookPoints()
  {
    match x
    case AtTake => m.(phase := Taking(false, 1, 1), best := Slot(0))
    case AtScan => m.(phase := Scanning(false, 2, 1), best := Slot(1))
    case AtCheck => m.(phase := Checking(0, {}), best := Slot(1))
    case AtZeroTest => m.(phase := TestingZero(0, {}), best := Slot(1))
    case AtCompare => m.(phase := Comparing(0, {}, Nothing), best := Slot(1))
  }

  /** The point before `x` on the way. */
  function Before(x: Point): Point
    requires x in LookPoints() && x != AtTake
    ensures Before(x) in LookPoints()
  {
    match x
    case AtScan => AtTake
    case AtCheck => AtScan
    case AtZeroTest => AtCheck
    case AtCompare => AtZeroTest
  }

  function After(x: Point): Point
    requires x in LookPoints() && x != AtCompare
    ensures After(x) in LookPoints() && After(x) != AtTake && Before(After(x)) == x
  {
    match x
    case AtTake => AtScan
    case AtScan => AtCheck
    case AtCheck => AtZeroTest
    case AtZeroTest => AtCompare
  }

  function Rank(x: Point): nat
    requires x in LookPoints()
  {
    match x
    case AtTake => 0
    case AtScan => 1
    case AtCheck => 2
    case AtZeroTest => 3
    case AtCompare => 4
  }

  /** The slots of two members. */
  ghost predicate ShowTwo(p: seq<nat>, x: nat, y: nat) {
    |p| == CAPACITY && p[0] == x && p[1] == y
  }

  /** What member 0 shows makes no difference to the step from one stop to the next. */
  lemma {:induction false} NextLookStop(p: seq<nat>, m: Member, x: Point)
    requires ShowTwo(p, 1, 1) || ShowTwo(p, 2, 1)
    requires x in LookPoints() && x != AtTake
    ensures
      var before := LookStop(m, Before(x));
      IsLocal(before) && Advance(p, 2, before, Sees(before, Calm())) == LookStop(m, x)
  {
  }

  lemma {:induction false} WalkToTake(p: seq<nat>, m: Member) returns (n: nat)
    requires ShowTwo(p, 1, 1) && m.phase == Published
    ensures Walks(p, 2, Calm(), m, n, LookStop(m, AtTake))
  {
    var m1 := m.(phase := Scanning(false, 0, 0));
    var m2 := m.(phase := Taking(false, 0, 0));
    var m3 := m.(phase := Scanning(false, 1, 1), best := Slot(0));
    var m4 := LookStop(m, AtTake);
    WalkStep(p, 2, Calm(), m3, m4, 0, m4);
    WalkStep(p, 2, Calm(), m2, m3, 1, m4);
    WalkStep(p, 2, Calm(), m1, m2, 2, m4);
    WalkStep(p, 2, Calm(), m, m1, 3, m4);
    n := 4;
  }

  lemma {:induction false} WalkToLookStop(p: seq<nat>, m: Member, x: Point) returns (n: nat)
    requires ShowTwo(p, 1, 1) && m.phase == Published && x in LookPoints()
    ensures Walks(p, 2, Calm(), m, n, LookStop(m, x))
    decreases Rank(x)
  {
    if x == AtTake {
      n := WalkToTake(p, m);
    } else {
      n := WalkToLookStop(p, m, Before(x));
      NextLookStop(p, m, x);
      WalkOn(p, 2, Calm(), m, n, LookStop(m, Before(x)), LookStop(m, x));
      n := n + 1;
    }
  }

  /** With the pointer on its own slot, member 1 passes the slot of member 0 and then its own. */
  lemma {:induction false} WalkFromCompare(p: seq<nat>, m: Member) returns (n: nat)
    requires ShowTwo(p, 2, 1)
    ensures Walks(p, 2, Calm(), LookStop(m, AtCompare), n, m.(phase := Deciding(2, {}, true), best := Slot(1)))
  {
    var m0 := LookStop(m, AtCompare);
    var m1 := m0.(phase := Comparing(0, {}, Item(2)));
    var m2 := m0.(phase := Checking(1, {}));
    var m3 := m0.(phase := Checking(2, {}));
    var m4 := m0.(phase := Deciding(2, {}, true));
    n := WalkCompare(p, 2, Calm(), m2);
    WalkOn(p, 2, Calm(), m2, n, m3, m4);
    WalkStep(p, 2, Calm(), m1, m2, n + 1, m4);
    WalkStep(p, 2, Calm(), m0, m1, n + 2, m4);
    n := n + 3;
  }

  lemma {:induction false} WalkFromLookStop(p: seq<nat>, m: Member, x: Point) returns (n: nat)
    requires ShowTwo(p, 2, 1) && x in LookPoints()
    ensures Walks(p, 2, Calm(), LookStop(m, x), n, m.(phase := Deciding(2, {}, true), best := Slot(1)))
    decreases 4 - Rank(x)
  {
    if x == AtCompare {
      n := WalkFromCompare(p, m);
    } else {
      var y := After(x);
      n := WalkFromLookStop(p, m, y);
      NextLookStop(p, m, y);
      WalkStep(p, 2, Calm(), LookStop(m, x), LookStop(m, y), n, m.(phase := Deciding(2, {}, true), best := Slot(1)));
      n := n + 1;
    }
  }

  /** Member 0 has gone on to stage 2 while member 1 stands at one of the points with stage 1. */
  lemma {:induction false} ReachPassed(x: Point) returns (b: Board, m: Member)
    requires x in LookPoints()
    ensures b.Shape() && Reachable(Calmest(), b) && b.count == 2 && ShowTwo(b.published, 2, 1)
    ensures b.members[1] == LookStop(m, x) && m.stage == 1 && m.least == 2
  {
    var b1 := BothArrive(Calmest());
    m := b1.members[1];
    var n := WalkToLookStop(b1.published, m, x);
    ReachWalk(Calmest(), b1, 1, Calm(), n, LookStop(m, x));
    var best;
    b, best := ReachGoesOn(Calmest(), Put(b1, 1, LookStop(m, x)), 0);
  }

  /** Member 1 walks on undisturbed, and agrees. */
  lemma {:induction false} AgreesFromLookStop(b: Board, m: Member, x: Point) returns (es: seq<Event>, o: Observation)
    requires b.Shape() && b.count == 2 && ShowTwo(b.published, 2, 1) && x in LookPoints()
    requires b.members[1] == LookStop(m, x) && m.least == 2
    ensures Peaceful(b, es, 1) && Agrees(Run(b, es).members[1], o)
  {
    var n := WalkFromLookStop(b.published, m, x);
    var r := m.(phase := Deciding(2, {}, true), best := Slot(1));
    WalkIsSolo(b, 1, Calm(), b.members[1], n, r, 0);
    SoloIsRun(b, 1, Calm(), n);
    SoloIsPeaceful(b, 1, Calm(), n, 1);
    es, o := SoloEvents(b, 1, Calm(), n), Sees(r, Calm());
    assert Run(b, es).members[1] == r;
  }

  lemma {:induction false} LookingGetsAway(x: Point) returns (b: Board, es: seq<Event>, o: Observation)
    requires x in LookPoints()
    ensures b.Shape() && Reachable(Calmest(), b) && b.count == 2 && StandsAt(b.members[1].phase, x)
    ensures GetsAway(b, 1, 0, es, o) && Peaceful(b, es, 1)
  {
    var m;
    b, m := ReachPassed(x);
    es, o := AgreesFromLookStop(b, m, x);
    PeacefulIsPatient(b, es, 1);
  }

  /** Or member 1 has agreed when member 0 announces stage 2. */
  lemma {:induction false} AgreedGetsAway() returns (b: Board, es: seq<Event>, o: Observation)
    ensures b.Shape() && Reachable(Calmest(), b) && b.count == 2 && StandsAt(b.members[1].phase, AtAgreed)
    ensures GetsAway(b, 1, 0, es, o) && Peaceful(b, es, 1)
  {
    var b1 := BothArrive(Calmest());
    assert LostBelow({}, 2) == {};
    var m := ReachLevel(Calmest(), b1, 1, Calm());
    var best;
    b, best := ReachGoesOn(Calmest(), Put(b1, 1, m), 0);
    es, o := [], Sees(m, Calm());
  }

  /** From every point but the final ones, in calm runs: passed, and away by agreement all the same. */
  lemma {:induction false} PassedGetsAway(x: Point) returns (b: Board, es: seq<Event>, o: Observation)
    requires x !in FinalPoints()
    ensures b.Shape() && Reachable(Calmest(), b) && b.count == 2 && StandsAt(b.members[1].phase, x)
    ensures GetsAway(b, 1, 0, es, o) && Peaceful(b, es, 1)
  {
    if x == AtAgreed {
      b, es, o := AgreedGetsAway();
    } else {
      b, es, o := LookingGetsAway(x);
    }
  }

  lemma {:induction false} FinalPointsHold(policy: Policy, points: set<Point>)
    requires policy.resets <= SafePoints() && points <= FinalPoints()
    ensures PassedIsFinal(policy, points)
  {
    forall b: Board, w: nat, q: nat, es: seq<Event>, o: Observation
      | b.Shape() && Reachable(policy, b) && GetsAway(b, w, q, es, o)
      ensures PointOf(b.members[w].phase) !in points
    {
      ReachableIsSound(policy, b);
      if PointOf(b.members[w].phase) in FinalPoints() {
        PassedIsOvertaken(b, w, q);
        OvertakenNeverAgrees(b, es, w, q, o);
      }
    }
  }

  /**
   The exact condition: whoever is passed at one of the points can never leave by agreement, if and
   only if none of the points lies between the first read after a publication and the departure.
   */
  lemma {:induction false} PassedIsFinalIff(policy: Policy, points: set<Point>)
    requires policy.resets <= SafePoints()
    ensures PassedIsFinal(policy, points) <==> points <= FinalPoints()
  {
    if points <= FinalPoints() {
      FinalPointsHold(policy, points);
    }
    if PassedIsFinal(policy, points) {
      forall x | x in points
        ensures x in FinalPoints()
      {
        if x !in FinalPoints() {
          var b, es, o := PassedGetsAway(x);
          ReachableAtMore(Calmest(), policy, b);
        }
      }
    }
  }
}
