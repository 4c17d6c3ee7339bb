/**
 Building concrete runs of the barrier, and three of them in which nobody zeroes a slot: the stall
 that healthy members reach, a departure that misses a character registered too late, and one with
 fewer characters than the member asked for.
 */
module TeamGatherWitness {
  import opened TeamGather
  import opened TeamGatherSafety
  import opened TeamGatherProgress
  import opened TeamGatherStall

  function Calm(): Env { Env({}, 2, false) }

  /** Calm runs in which characters register only while nobody is in the call. */
  function Calmest(): Policy { Policy({}, {}, true) }

  // ----- what follows a reachable board is reachable

  lemma {:induction false} Reach(policy: Policy, b: Board, fs: seq<Event>)
    requires b.Shape() && Reachable(policy, b) && Admissible(policy, b, fs)
    ensures Reachable(policy, Run(b, fs))
  {
    var es: seq<Event> :| Admissible(policy, Empty(), es) && Run(Empty(), es) == b;
    AdmissibleAppend(policy, Empty(), es, fs);
    RunAppend(Empty(), es, fs);
    assert Admissible(policy, Empty(), es + fs);
  }

  lemma {:induction false} AdmissibleAppend(policy: Policy, b: Board, es: seq<Event>, fs: seq<Event>)
    requires b.Shape() && Admissible(policy, b, es) && Admissible(policy, Run(b, es), fs)
    ensures Admissible(policy, b, es + fs)
    decreases |es|
  {
    if es == [] {
      assert es + fs == fs;
    } else {
      assert (es + fs)[0] == es[0] && (es + fs)[1..] == es[1..] + fs;
      AdmissibleAppend(policy, Next(b, es[0]), es[1..], fs);
    }
  }

  lemma {:induction false} ReachNext(policy: Policy, b: Board, e: Event)
    requires b.Shape() && Reachable(policy, b) && Permitted(policy, b, e)
    ensures Reachable(policy, Next(b, e))
  {
    assert Run(b, [e]) == Run(Next(b, e), []);
    Reach(policy, b, [e]);
  }

  lemma {:induction false} ReachSolo(policy: Policy, b: Board, j: nat, env: Env, n: nat)
    requires b.Shape() && Reachable(policy, b) && j < b.count
    requires !b.members[j].phase.Forming? && (policy.calm ==> env.lost == {})
    ensures Reachable(policy, Solo(b, j, env, n))
  {
    SoloIsRun(b, j, env, n);
    SoloIsAdmissible(policy, b, j, env, n);
    Reach(policy, b, SoloEvents(b, j, env, n));
  }

  lemma {:induction false} ReachWalk(policy: Policy, b: Board, j: nat, env: Env, n: nat, r: Member)
    requires b.Shape() && Reachable(policy, b) && j < b.count && Walks(b.published, b.count, env, b.members[j], n, r)
    requires !b.members[j].phase.Forming? && (policy.calm ==> env.lost == {})
    ensures Reachable(policy, Put(b, j, r))
  {
    WalkIsSolo(b, j, env, b.members[j], n, r, 0);
    ReachSolo(policy, b, j, env, n);
  }

  /** A number of registered members. */
  function Team(c: nat): Board
    requires c <= CAPACITY
  {
    Empty().(count := c)
  }

  lemma {:induction false} ReachTeam(policy: Policy, c: nat)
    requires c <= CAPACITY
    ensures Reachable(policy, Team(c))
  {
    if c == 0 {
      assert Admissible(policy, Empty(), []) && Run(Empty(), []) == Team(0);
    } else {
      ReachTeam(policy, c - 1);
      ReachNext(policy, Team(c - 1), Event.Register);
      assert Next(Team(c - 1), Event.Register) == Team(c);
    }
  }

  /** A member outside enters for a stage nobody is beyond, and publishes it. */
  lemma {:induction false} ReachArrival(policy: Policy, b: Board, j: nat, k: nat, least: nat) returns (best: Pointer)
    requires b.Shape() && Reachable(policy, b)
    requires j < b.count && least <= b.count && b.members[j].phase == Outside
    requires forall q :: 0 <= q < b.count ==> b.published[q] <= k
    ensures b.Shape() && Reachable(policy, Arrived(b, j, k, least, best))
  {
    var n;
    n, best := Arrives(b, j, k, least, Calm());
    ReachNext(policy, b, Enter(j, k, least));
    ReachSolo(policy, Next(b, Enter(j, k, least)), j, Calm(), n);
  }

  /** After its publication a member finds the connected slots level. */
  lemma {:induction false} ReachLevel(policy: Policy, b: Board, j: nat, env: Env) returns (r: Member)
    requires b.Shape() && Reachable(policy, b) && j < b.count && b.members[j].phase == Published
    requires Level(b.published, b.count, env.lost, 0) && (policy.calm ==> env.lost == {})
    ensures Reachable(policy, Put(b, j, r))
    ensures r == b.members[j].(phase := Deciding(b.count, LostBelow(env.lost, b.count), true), best := r.best)
  {
    var n;
    n, r := WalkIteration(b.published, b.count, env, b.members[j]);
    ReachWalk(policy, b, j, env, n, r);
  }

  /** Of two members at stage 1, member `j` leaves by agreement and announces stage 2. */
  lemma {:induction false} ReachGoesOn(policy: Policy, b: Board, j: nat)
    returns (r: Board, best: Pointer)
    requires b.Shape() && Reachable(policy, b) && j < b.count == 2
    requires b.members[j].phase == Published && b.members[j].stage == 1 && b.members[j].least == 2
    requires b.published[0] == b.published[1] == 1
    ensures r.Shape() && Reachable(policy, r) && r == Arrived(b, j, 2, 2, best).(passes := r.passes)
  {
    assert LostBelow({}, 2) == {};
    var m := ReachLevel(policy, b, j, Calm());
    var b1 := Put(b, j, m);
    var o := Sees(m, Calm());
    ReachNext(policy, b1, Step(j, o));
    var b2 := StepBy(b1, j, o);
    best := ReachArrival(policy, b2, j, 2, 2);
    r := Arrived(b2, j, 2, 2, best);
  }

  /** The less a policy restricts, the more runs there are. */
  predicate AtMost(few: Policy, many: Policy) {
    few.resets <= many.resets && few.joins <= many.joins && (many.calm ==> few.calm)
  }

  lemma {:induction false} AdmissibleAtMore(few: Policy, many: Policy, b: Board, es: seq<Event>)
    requires b.Shape() && AtMost(few, many) && Admissible(few, b, es)
    ensures Admissible(many, b, es)
    decreases |es|
  {
    if es != [] {
      AdmissibleAtMore(few, many, Next(b, es[0]), es[1..]);
    }
  }

  lemma {:induction false} ReachableAtMore(few: Policy, many: Policy, b: Board)
    requires AtMost(few, many) && Reachable(few, b)
    ensures Reachable(many, b)
  {
    var es: seq<Event> :| Admissible(few, Empty(), es) && Run(Empty(), es) == b;
    AdmissibleAtMore(few, many, Empty(), es);
  }

  // ----- the runs

  /** Both members arrive at stage 1. */
  lemma {:induction false} BothArrive(policy: Policy) returns (b: Board)
    ensures b.Shape() && Reachable(policy, b) && b.count == 2 && b.published[0] == b.published[1] == 1
    ensures forall j :: 0 <= j < 2 ==>
      b.members[j].phase == Published && b.members[j].stage == 1 && b.members[j].least == 2
  {
    ReachTeam(policy, 2);
    var best0 := ReachArrival(policy, Team(2), 0, 1, 2);
    var b1 := Arrived(Team(2), 0, 1, 2, best0);
    var best1 := ReachArrival(policy, b1, 1, 1, 2);
    b := Arrived(b1, 1, 1, 2, best1);
  }

  /**
   The stall is reachable without any failure, reset or interruption: both members gather at stage
   1, member 1 leaves by agreement and announces stage 2 before member 0 has scanned.
   */
  lemma {:induction false} StallIsReachable() returns (b: Board)
    ensures b.Shape() && Reachable(Calmest(), b) && b.count == 2 && Inv(b)
    ensures Stalled(b, 0, 1) && Connected(b, 0) && b.members[0].stage < b.members[1].stage
  {
    var b1 := BothArrive(Calmest());
    var best;
    b, best := ReachGoesOn(Calmest(), b1, 1);
    ReachableIsSound(Calmest(), b);
  }

  /**
   A character that registers after the check has ended is not waited for: member 0 leaves stage 1
   by agreement while member 1, registered and connected, has published nothing.
   */
  lemma {:induction false} LateRegistrationIsMissed() returns (b: Board, o: Observation)
    ensures b.Shape() && Reachable(Policy({}, {AtAgreed}, true), b)
    ensures b.count == 2 && Agrees(b.members[0], o) && b.members[0].stage == 1
    ensures b.members[0].phase.saw == 1 && b.members[0].phase.lost == {} && b.published[1] == 0
  {
    var policy := Policy({}, {AtAgreed}, true);
    ReachTeam(policy, 1);
    var best := ReachArrival(policy, Team(1), 0, 1, 1);
    var b1 := Arrived(Team(1), 0, 1, 1, best);
    var m := ReachLevel(policy, b1, 0, Calm());
    assert LostBelow({}, 1) == {};
    ReachNext(policy, Put(b1, 0, m), Event.Register);
    b, o := Next(Put(b1, 0, m), Event.Register), Sees(m, Calm());
  }

  /** A member alone on the board, found dead while it waits for a second one, goes on to the scan. */
  lemma {:induction false} DeadMemberRushes(policy: Policy) returns (b: Board)
    requires !policy.calm
    ensures b.Shape() && Reachable(policy, b) && b.count == 1 && b.published[0] == 0
    ensures b.members[0] == Member(Scanning(true, 0, 0), 1, 2, Null, true)
  {
    var d := Observation(false, false, true, 2, false);
    ReachTeam(policy, 1);
    ReachNext(policy, Team(1), Enter(0, 1, 2));
    b := Next(Team(1), Enter(0, 1, 2));
    ReachNext(policy, b, Step(0, d));
    b := StepBy(b, 0, d);
  }

  lemma {:induction false} RevivedMemberPublishes(policy: Policy) returns (b: Board)
    requires !policy.calm
    ensures b.Shape() && Reachable(policy, b) && b.count == 1
    ensures b.members[0] == Member(Publishing, 1, 2, b.members[0].best, true)
  {
    var b1 := DeadMemberRushes(policy);
    var n, r := WalkEntryScan(b1.published, 1, Calm(), b1.members[0]);
    ReachWalk(policy, b1, 0, Calm(), n, r);
    b := Put(b1, 0, r);
  }

  /**
   Dying in the wait for registrations skips it: the revived member leaves by agreement although
   fewer characters have registered than it asked for.
   */
  lemma {:induction false} RevivedMemberLeavesShort() returns (b: Board, o: Observation)
    ensures b.Shape() && Reachable(Policy({}, {}, false), b) && b.count == 1
    ensures Agrees(b.members[0], o) && b.members[0].stage == 1 && b.members[0].least == 2
    ensures b.members[0].rushed && b.members[0].phase.saw == 1
  {
    var policy := Policy({}, {}, false);
    var b1 := RevivedMemberPublishes(policy);
    var k, r := PublishesAndChecks(b1, 0, Calm(), 0);
    assert LostBelow({}, 1) == {};
    ReachSolo(policy, b1, 0, Calm(), k);
    b, o := Solo(b1, 0, Calm(), k), Sees(r, Calm());
    assert b.members[0] == r;
  }
}
