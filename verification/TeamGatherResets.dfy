/**
 When slots may be zeroed and characters may register: the exact conditions under which departures
 are safe in all runs.

 Slots are zeroed by a member outside the call, one by one and in order, as a team formation ends.
 For every program point but three there is a run in which all slots are zeroed only while members
 stand at that point or outside the call, and somebody covered and connected is left behind.
 */
module TeamGatherResets {
  import opened TeamGather
  import opened TeamGatherSafety
  import opened TeamGatherHistory
  import opened TeamGatherProgress
  import opened TeamGatherWitness

  /** Member `j` leaves by agreement, with another member that its check covered at an earlier stage. */
  ghost predicate LeavesBehind(b: Board, j: nat, q: nat, o: Observation)
    requires b.Shape()
  {
    && j < b.count && q < b.count && q != j && Agrees(b.members[j], o)
    && q < b.members[j].phase.saw && q !in b.members[j].phase.lost && b.published[q] < b.members[j].stage
  }

  ghost predicate AlwaysSafe(policy: Policy) {
    forall b: Board, j: nat, o: Observation ::
      b.Shape() && Reachable(policy, b) && j < b.count && Agrees(b.members[j], o) ==> SafeDeparture(b, j)
  }

  /** The same judged by the other members alone. */
  ghost predicate AlwaysSparesOthers(policy: Policy) {
    forall b: Board, j: nat, q: nat, o: Observation ::
      b.Shape() && Reachable(policy, b) ==> !LeavesBehind(b, j, q, o)
  }

  /** No registered character that was not seen disconnected is ever left behind, covered or not. */
  ghost predicate AlwaysLeavesNobody(policy: Policy) {
    forall b: Board, j: nat, o: Observation ::
      b.Shape() && Reachable(policy, b) && j < b.count && Agrees(b.members[j], o) ==> LeavesNobody(b, j)
  }

  /** Slots are zeroed only with members at point `x`, and nobody registers while anyone is in the call. */
  function Only(x: Point): Policy { Policy({x}, {}, false) }

  // ----- pieces of runs

  /** A visit: member `j` announces stage `k` and is interrupted. */
  function Visited(b: Board, j: nat, k: nat, best: Pointer): Board
    requires b.Shape() && j < b.count
  {
    b.(published := b.published[j := k], members := b.members[j := Member(Outside, k, 1, best, false)])
  }

  lemma {:induction false} ReachVisit(policy: Policy, b: Board, j: nat, k: nat) returns (best: Pointer)
    requires b.Shape() && Reachable(policy, b) && j < b.count && b.members[j].phase == Outside && !policy.calm
    requires forall q :: 0 <= q < b.count ==> b.published[q] <= k
    ensures b.Shape() && Reachable(policy, Visited(b, j, k, best))
  {
    best := ReachArrival(policy, b, j, k, 1);
    var b1 := Arrived(b, j, k, 1, best);
    ReachNext(policy, b1, Abandon(j));
    assert Next(b1, Abandon(j)) == Visited(b, j, k, best);
  }

  /** Member `j` in its formation, having zeroed the slots below `i`. */
  function FormingAt(b: Board, j: nat, i: nat): Board
    requires b.Shape() && j < b.count
  {
    b.(members := b.members[j := b.members[j].(phase := Forming(i))])
  }

  lemma {:induction false} ReachForming(policy: Policy, b: Board, j: nat)
    requires b.Shape() && Reachable(policy, b) && j < b.count && b.members[j].phase == Outside && !policy.calm
    ensures Reachable(policy, FormingAt(b, j, 0))
  {
    ReachNext(policy, b, Form(j));
  }

  /** A forming member zeroes the next slot. */
  function Zeroed(b: Board, j: nat): Board
    requires b.Shape() && Zeroing(b, j)
  {
    var i := b.members[j].phase.i;
    FormingAt(b, j, i + 1).(published := b.published[i := 0], passes := [])
  }

  lemma {:induction false} ReachZeroed(policy: Policy, b: Board, j: nat)
    requires b.Shape() && Reachable(policy, b) && Zeroing(b, j) && Quiet(policy.resets, b) && !policy.calm
    ensures Reachable(policy, Zeroed(b, j))
  {
    ReachNext(policy, b, Step(j, Sees(b.members[j], Calm())));
  }

  /** A forming member past the last slot is done. */
  lemma {:induction false} ReachFormed(policy: Policy, b: Board, j: nat)
    requires b.Shape() && Reachable(policy, b) && j < b.count && !policy.calm
    requires b.members[j].phase.Forming? && b.members[j].phase.i >= b.count
    ensures Reachable(policy, Put(b, j, b.members[j].(phase := Outside)))
  {
    ReachNext(policy, b, Step(j, Sees(b.members[j], Calm())));
  }

  /** A whole formation on a board with two members. */
  lemma {:induction false} ReachPass(policy: Policy, b: Board, j: nat)
    requires b.Shape() && Reachable(policy, b) && j < b.count == 2 && b.members[j].phase == Outside
    requires Quiet(policy.resets, b) && !policy.calm
    ensures Reachable(policy, b.(published := b.published[0 := 0][1 := 0], passes := []))
  {
    ReachForming(policy, b, j);
    var b1 := FormingAt(b, j, 0);
    ReachZeroed(policy, b1, j);
    var b2 := Zeroed(b1, j);
    ReachZeroed(policy, b2, j);
    var b3 := Zeroed(b2, j);
    ReachFormed(policy, b3, j);
    assert Put(b3, j, b3.members[j].(phase := Outside)) == b.(published := b.published[0 := 0][1 := 0], passes := []);
  }

  ghost predicate Shows(p: seq<nat>, x: nat, y: nat, z: nat) {
    |p| == CAPACITY && p[0] == x && p[1] == y && p[2] == z
  }

  // ----- zeroing in mid-check
  // The slots show 2 and 1.  Member 0 has found its own slot in order and looks at slot 1 when
  // member 1 zeroes slot 0, which the pointer is on.

  function CheckPoints(): set<Point> { {AtCheck, AtZeroTest, AtCompare} }

  function CheckStop(m: Member, x: Point): Member
    requires x in CheckPoints()
  {
    match x
    case AtCheck => m.(phase := Checking(1, {}), best := Slot(0))
    case AtZeroTest => m.(phase := TestingZero(1, {}), best := Slot(0))
    case AtCompare => m.(phase := Comparing(1, {}, Nothing), best := Slot(0))
  }

  lemma {:induction false} WalkToCheckStop(p: seq<nat>, m: Member, x: Point) returns (n: nat)
    requires Shows(p, 2, 1, 0) && m.phase == Published && x in CheckPoints()
    ensures Walks(p, 2, Calm(), m, n, CheckStop(m, x))
  {
    var m1 := m.(phase := Scanning(false, 0, 0));
    var k, top := WalkScan(p, 2, Calm(), m1);
    assert top == 0 by { assert p[0] == 2 && p[1] == 1; }
    var m2 := Scanned(m1, 0);
    var l := WalkCompare(p, 2, Calm(), m2);
    WalkAppend(p, 2, Calm(), m1, k, m2, l, CheckStop(m, AtCheck));
    WalkStep(p, 2, Calm(), m, m1, k + l, CheckStop(m, AtCheck));
    n := k + l + 1;
    if x != AtCheck {
      WalkOn(p, 2, Calm(), m, n, CheckStop(m, AtCheck), CheckStop(m, AtZeroTest));
      n := n + 1;
      if x != AtZeroTest {
        WalkOn(p, 2, Calm(), m, n, CheckStop(m, AtZeroTest), CheckStop(m, AtCompare));
        n := n + 1;
      }
    }
  }

  lemma {:induction false} WalkFromCheckStop(p: seq<nat>, m: Member, x: Point) returns (n: nat)
    requires Shows(p, 0, 1, 0) && x in CheckPoints()
    ensures Walks(p, 2, Calm(), CheckStop(m, x), n, m.(phase := Deciding(2, {}, true), best := Slot(0)))
  {
    var m0 := CheckStop(m, AtCompare);
    var m1 := m0.(phase := Comparing(1, {}, Item(1)));
    var m2 := m0.(phase := Checking(2, {}));
    var r := m0.(phase := Deciding(2, {}, true));
    WalkStep(p, 2, Calm(), m2, r, 0, r);
    WalkStep(p, 2, Calm(), m1, m2, 1, r);
    WalkStep(p, 2, Calm(), m0, m1, 2, r);
    n := 3;
    if x != AtCompare {
      WalkStep(p, 2, Calm(), CheckStop(m, AtZeroTest), m0, n, r);
      n := n + 1;
      if x != AtZeroTest {
        WalkStep(p, 2, Calm(), CheckStop(m, AtCheck), CheckStop(m, AtZeroTest), n, r);
        n := n + 1;
      }
    }
  }

  lemma {:induction false} ReachCheckStop(x: Point) returns (b: Board, m: Member)
    requires x in CheckPoints()
    ensures b.Shape() && Reachable(Only(x), b) && b.count == 2 && Shows(b.published, 2, 1, 0)
    ensures b.members[0] == CheckStop(m, x) && m.stage == m.least == 2 && b.members[1].phase == Outside
  {
    ReachTeam(Only(x), 2);
    var best1 := ReachVisit(Only(x), Team(2), 1, 1);
    var b1 := Visited(Team(2), 1, 1, best1);
    var best0 := ReachArrival(Only(x), b1, 0, 2, 2);
    var b2 := Arrived(b1, 0, 2, 2, best0);
    m := b2.members[0];
    var n := WalkToCheckStop(b2.published, m, x);
    ReachWalk(Only(x), b2, 0, Calm(), n, CheckStop(m, x));
    b := Put(b2, 0, CheckStop(m, x));
  }

  lemma {:induction false} CheckResetIsUnsafe(x: Point) returns (b: Board, o: Observation)
    requires x in CheckPoints()
    ensures b.Shape() && Reachable(Only(x), b) && LeavesBehind(b, 0, 1, o)
    ensures b.members[0].stage == 2 && b.published[1] == 1
  {
    var b1, m := ReachCheckStop(x);
    ReachForming(Only(x), b1, 1);
    var b2 := FormingAt(b1, 1, 0);
    ReachZeroed(Only(x), b2, 1);
    var b3 := Zeroed(b2, 1);
    var n := WalkFromCheckStop(b3.published, m, x);
    var r := m.(phase := Deciding(2, {}, true), best := Slot(0));
    ReachWalk(Only(x), b3, 0, Calm(), n, r);
    b, o := Put(b3, 0, r), Observation(false, false, false, 2, false);
  }

  // ----- zeroing in mid-scan
  // Here the owner of the zeroed slot is seen disconnected, so that its 0 does not stop the check.

  /** The slots show 3, 2, 1; member 1 waits at stage 2 and has scanned them all. */
  function AfterScan(m: Member): Member { m.(phase := Scanning(false, 3, 3), best := Slot(0)) }

  lemma {:induction false} WalkThroughScan(p: seq<nat>, m: Member) returns (n: nat)
    requires Shows(p, 3, 2, 1) && m.phase == Published
    ensures Walks(p, 3, Calm(), m, n, AfterScan(m))
  {
    var m1 := m.(phase := Scanning(false, 0, 0));
    var m2 := m.(phase := Taking(false, 0, 0));
    var m3 := m.(phase := Scanning(false, 1, 3), best := Slot(0));
    var m4 := m3.(phase := Scanning(false, 2, 3));
    var r := AfterScan(m);
    WalkStep(p, 3, Calm(), m4, r, 0, r);
    WalkStep(p, 3, Calm(), m3, m4, 1, r);
    WalkStep(p, 3, Calm(), m2, m3, 2, r);
    WalkStep(p, 3, Calm(), m1, m2, 3, r);
    WalkStep(p, 3, Calm(), m, m1, 4, r);
    n := 5;
  }

  /** With slot 0 zeroed and its owner lost, the pointer on it lets slots 1 and 2 pass. */
  lemma {:induction false} WalkPastLost(p: seq<nat>, m: Member) returns (n: nat)
    requires Shows(p, 0, 2, 1)
    ensures Walks(p, 3, Env({0}, 3, false), AfterScan(m), n, m.(phase := Deciding(3, {0}, true), best := Slot(0)))
  {
    var env := Env({0}, 3, false);
    var m0 := AfterScan(m);
    var m1 := m0.(phase := Checking(0, {}));
    var m2 := m0.(phase := Checking(1, {0}));
    var m3 := m0.(phase := Checking(2, {0}));
    var m4 := m0.(phase := Checking(3, {0}));
    var r := m0.(phase := Deciding(3, {0}, true));
    var k := WalkCompare(p, 3, env, m2);
    var l := WalkCompare(p, 3, env, m3);
    WalkOn(p, 3, env, m3, l, m4, r);
    WalkAppend(p, 3, env, m2, k, m3, l + 1, r);
    assert {} + {0} == {0};
    WalkStep(p, 3, env, m1, m2, k + l + 1, r);
    WalkStep(p, 3, env, m0, m1, k + l + 2, r);
    n := k + l + 3;
  }

  lemma {:induction false} ReachAfterScan() returns (b: Board, m: Member)
    ensures b.Shape() && Reachable(Only(AtScan), b) && b.count == 3 && Shows(b.published, 3, 2, 1)
    ensures b.members[1] == AfterScan(m) && m.stage == m.least == 2
    ensures b.members[0].phase == b.members[2].phase == Outside
  {
    ReachTeam(Only(AtScan), 3);
    var best2 := ReachVisit(Only(AtScan), Team(3), 2, 1);
    var b1 := Visited(Team(3), 2, 1, best2);
    var best1 := ReachArrival(Only(AtScan), b1, 1, 2, 2);
    var b2 := Arrived(b1, 1, 2, 2, best1);
    var best0 := ReachVisit(Only(AtScan), b2, 0, 3);
    var b3 := Visited(b2, 0, 3, best0);
    m := b3.members[1];
    var n := WalkThroughScan(b3.published, m);
    ReachWalk(Only(AtScan), b3, 1, Calm(), n, AfterScan(m));
    b := Put(b3, 1, AfterScan(m));
  }

  lemma {:induction false} ScanResetIsUnsafe() returns (b: Board, o: Observation)
    ensures b.Shape() && Reachable(Only(AtScan), b) && LeavesBehind(b, 1, 2, o)
    ensures b.members[1].stage == 2 && b.published[2] == 1
  {
    var b1, m := ReachAfterScan();
    ReachForming(Only(AtScan), b1, 2);
    var b2 := FormingAt(b1, 2, 0);
    ReachZeroed(Only(AtScan), b2, 2);
    var b3 := Zeroed(b2, 2);
    var n := WalkPastLost(b3.published, m);
    var r := m.(phase := Deciding(3, {0}, true), best := Slot(0));
    ReachWalk(Only(AtScan), b3, 1, Env({0}, 3, false), n, r);
    b, o := Put(b3, 1, r), Observation(false, false, false, 3, false);
  }

  /** The slots show 2, 2, 1; member 0 waits at stage 2 and is about to take slot 1. */
  function TakingOne(m: Member): Member { m.(phase := Taking(false, 1, 2), best := Slot(0)) }

  lemma {:induction false} WalkToTake(p: seq<nat>, m: Member) returns (n: nat)
    requires Shows(p, 2, 2, 1) && m.phase == Published
    ensures Walks(p, 3, Calm(), m, n, TakingOne(m))
  {
    var m1 := m.(phase := Scanning(false, 0, 0));
    var m2 := m.(phase := Taking(false, 0, 0));
    var m3 := m.(phase := Scanning(false, 1, 2), best := Slot(0));
    var r := TakingOne(m);
    WalkStep(p, 3, Calm(), m3, r, 0, r);
    WalkStep(p, 3, Calm(), m2, m3, 1, r);
    WalkStep(p, 3, Calm(), m1, m2, 2, r);
    WalkStep(p, 3, Calm(), m, m1, 3, r);
    n := 4;
  }

  /** It takes the 0 for the maximum, and so ends with the pointer on slot 2, which shows 1. */
  lemma {:induction false} WalkTakingZero(p: seq<nat>, env: Env, m: Member) returns (n: nat)
    requires Shows(p, 2, 0, 1)
    ensures Walks(p, 3, env, TakingOne(m), n, m.(phase := Checking(0, {}), best := Slot(2)))
  {
    var m1 := m.(phase := Scanning(false, 2, 0), best := Slot(1));
    var m2 := m.(phase := Taking(false, 2, 0), best := Slot(1));
    var m3 := m.(phase := Scanning(false, 3, 1), best := Slot(2));
    var r := m.(phase := Checking(0, {}), best := Slot(2));
    WalkStep(p, 3, env, m3, r, 0, r);
    WalkStep(p, 3, env, m2, m3, 1, r);
    WalkStep(p, 3, env, m1, m2, 2, r);
    WalkStep(p, 3, env, TakingOne(m), m1, 3, r);
    n := 4;
  }

  lemma {:induction false} WalkPastLostOne(p: seq<nat>, m: Member) returns (n: nat)
    requires Shows(p, 2, 0, 1)
    ensures Walks(p, 3, Env({1}, 3, false), TakingOne(m), n, m.(phase := Deciding(3, {1}, true), best := Slot(2)))
  {
    var env := Env({1}, 3, false);
    var m0 := m.(phase := Checking(0, {}), best := Slot(2));
    var m1 := m0.(phase := Checking(1, {}));
    var m2 := m0.(phase := Checking(2, {1}));
    var m3 := m0.(phase := Checking(3, {1}));
    var r := m0.(phase := Deciding(3, {1}, true));
    var j := WalkTakingZero(p, env, m);
    var k := WalkCompare(p, 3, env, m0);
    var l := WalkCompare(p, 3, env, m2);
    WalkOn(p, 3, env, m2, l, m3, r);
    assert {} + {1} == {1};
    WalkStep(p, 3, env, m1, m2, l + 1, r);
    WalkAppend(p, 3, env, m0, k, m1, l + 2, r);
    WalkAppend(p, 3, env, TakingOne(m), j, m0, k + l + 2, r);
    n := j + k + l + 2;
  }

  /** Member 2 has zeroed slot 0 in its formation when members 0 and 1 announce stage 2. */
  lemma {:induction false} ReachThree() returns (b: Board)
    ensures b.Shape() && Reachable(Only(AtTake), b) && b.count == 3 && Shows(b.published, 2, 2, 1)
    ensures b.members[0].phase == Published && b.members[0].stage == b.members[0].least == 2
    ensures b.members[1].phase == Outside && b.members[2].phase == Forming(1)
  {
    ReachTeam(Only(AtTake), 3);
    var best2 := ReachVisit(Only(AtTake), Team(3), 2, 1);
    var b1 := Visited(Team(3), 2, 1, best2);
    ReachForming(Only(AtTake), b1, 2);
    var b2 := FormingAt(b1, 2, 0);
    ReachZeroed(Only(AtTake), b2, 2);
    var b3 := Zeroed(b2, 2);
    var best0 := ReachArrival(Only(AtTake), b3, 0, 2, 2);
    var b4 := Arrived(b3, 0, 2, 2, best0);
    var best1 := ReachVisit(Only(AtTake), b4, 1, 2);
    b := Visited(b4, 1, 2, best1);
  }

  lemma {:induction false} TakeResetIsUnsafe() returns (b: Board, o: Observation)
    ensures b.Shape() && Reachable(Only(AtTake), b) && LeavesBehind(b, 0, 2, o)
    ensures b.members[0].stage == 2 && b.published[2] == 1
  {
    var b1 := ReachThree();
    var m := b1.members[0];
    var n := WalkToTake(b1.published, m);
    ReachWalk(Only(AtTake), b1, 0, Calm(), n, TakingOne(m));
    var b2 := Put(b1, 0, TakingOne(m));
    ReachZeroed(Only(AtTake), b2, 2);
    var b3 := Zeroed(b2, 2);
    var k := WalkPastLostOne(b3.published, m);
    var r := m.(phase := Deciding(3, {1}, true), best := Slot(2));
    ReachWalk(Only(AtTake), b3, 0, Env({1}, 3, false), k, r);
    b, o := Put(b3, 0, r), Observation(false, false, false, 3, false);
  }

  // ----- zeroing during an entry
  // Both slots show 2 from an earlier call; member 0 comes back for stage 1 and must turn back, but
  // its pointer is on slot 1 when member 1 zeroes that slot.

  function EntryPoints(): set<Point> { {AtEntryTake, AtEntryScan, AtEntryTest} }

  function EntryStop(m: Member, x: Point): Member
    requires x in EntryPoints()
  {
    match x
    case AtEntryTake => m.(phase := Taking(true, 1, 2), best := Slot(0))
    case AtEntryScan => m.(phase := Scanning(true, 2, 2), best := Slot(1))
    case AtEntryTest => m.(phase := EntryTest, best := Slot(1))
  }

  lemma {:induction false} WalkToEntryStop(p: seq<nat>, m: Member, x: Point) returns (n: nat)
    requires Shows(p, 2, 2, 0) && m.phase == Attending && m.least <= 2 && x in EntryPoints()
    ensures Walks(p, 2, Calm(), m, n, EntryStop(m, x))
  {
    var m1 := m.(phase := Scanning(true, 0, 0));
    var m2 := m.(phase := Taking(true, 0, 0));
    var m3 := m.(phase := Scanning(true, 1, 2), best := Slot(0));
    var m4 := EntryStop(m, AtEntryTake);
    WalkStep(p, 2, Calm(), m3, m4, 0, m4);
    WalkStep(p, 2, Calm(), m2, m3, 1, m4);
    WalkStep(p, 2, Calm(), m1, m2, 2, m4);
    WalkStep(p, 2, Calm(), m, m1, 3, m4);
    n := 4;
    if x != AtEntryTake {
      WalkOn(p, 2, Calm(), m, n, m4, EntryStop(m, AtEntryScan));
      n := n + 1;
      if x != AtEntryScan {
        WalkOn(p, 2, Calm(), m, n, EntryStop(m, AtEntryScan), EntryStop(m, AtEntryTest));
        n := n + 1;
      }
    }
  }

  lemma {:induction false} WalkFromEntryStop(p: seq<nat>, m: Member, x: Point) returns (n: nat)
    requires Shows(p, 2, 0, 0) && x in EntryPoints()
    ensures Walks(p, 2, Calm(), EntryStop(m, x), n, m.(phase := Publishing, best := Slot(1)))
  {
    var r := m.(phase := Publishing, best := Slot(1));
    WalkStep(p, 2, Calm(), EntryStop(m, AtEntryTest), r, 0, r);
    n := 1;
    if x == AtEntryScan {
      WalkStep(p, 2, Calm(), EntryStop(m, AtEntryScan), EntryStop(m, AtEntryTest), 1, r);
      n := 2;
    } else if x == AtEntryTake {
      var m1 := m.(phase := Scanning(true, 2, 0), best := Slot(1));
      WalkStep(p, 2, Calm(), m1, EntryStop(m, AtEntryTest), 1, r);
      WalkStep(p, 2, Calm(), EntryStop(m, AtEntryTake), m1, 2, r);
      n := 3;
    }
  }

  /** Both members have announced stage 2; member 1 zeroed slot 0 before member 0 came. */
  lemma {:induction false} ReachBothVisited(policy: Policy) returns (b: Board)
    requires !policy.calm
    ensures b.Shape() && Reachable(policy, b) && b.count == 2 && Shows(b.published, 2, 2, 0)
    ensures b.members[0].phase == Outside && b.members[1].phase == Forming(1)
  {
    ReachTeam(policy, 2);
    var best1 := ReachVisit(policy, Team(2), 1, 2);
    var b1 := Visited(Team(2), 1, 2, best1);
    ReachForming(policy, b1, 1);
    var b2 := FormingAt(b1, 1, 0);
    ReachZeroed(policy, b2, 1);
    var b3 := Zeroed(b2, 1);
    var best0 := ReachVisit(policy, b3, 0, 2);
    b := Visited(b3, 0, 2, best0);
  }

  lemma {:induction false} ReachEntryStop(x: Point) returns (b: Board, m: Member)
    requires x in EntryPoints()
    ensures b.Shape() && Reachable(Only(x), b) && b.count == 2 && Shows(b.published, 2, 2, 0)
    ensures b.members[0] == EntryStop(m, x) && m.stage == 1 && b.members[1].phase == Forming(1)
  {
    var b1 := ReachBothVisited(Only(x));
    m := Member(Attending, 1, 2, Null, false);
    ReachNext(Only(x), b1, Enter(0, 1, 2));
    var b2 := Put(b1, 0, m);
    var n := WalkToEntryStop(b2.published, m, x);
    ReachWalk(Only(x), b2, 0, Calm(), n, EntryStop(m, x));
    b := Put(b2, 0, EntryStop(m, x));
  }

  /** Member 0 slips in at stage 1 while its own slot still shows 2, and member 1 ends its formation. */
  lemma {:induction false} ReachStaleEntry(x: Point) returns (b: Board)
    requires x in EntryPoints()
    ensures b.Shape() && Reachable(Only(x), b) && b.count == 2 && Shows(b.published, 2, 0, 0)
    ensures b.members[0].phase == Publishing && b.members[0].stage == 1 && b.members[1].phase == Outside
  {
    var b1, m := ReachEntryStop(x);
    ReachZeroed(Only(x), b1, 1);
    var b2 := Zeroed(b1, 1);
    ReachFormed(Only(x), b2, 1);
    var b3 := Put(b2, 1, b2.members[1].(phase := Outside));
    var k := WalkFromEntryStop(b3.published, m, x);
    ReachWalk(Only(x), b3, 0, Calm(), k, m.(phase := Publishing, best := Slot(1)));
    b := Put(b3, 0, m.(phase := Publishing, best := Slot(1)));
  }

  lemma {:induction false} EntryResetIsUnsafe(x: Point) returns (b: Board, o: Observation)
    requires x in EntryPoints()
    ensures b.Shape() && Reachable(Only(x), b) && LeavesBehind(b, 1, 0, o)
    ensures b.members[1].stage == 2 && b.published[0] == 1
  {
    var b1 := ReachStaleEntry(x);
    var best := ReachArrival(Only(x), b1, 1, 2, 2);
    var b2 := Arrived(b1, 1, 2, 2, best);
    var r := ReachLevel(Only(x), b2, 1, Calm());
    assert LostBelow({}, 2) == {};
    o := Observation(false, false, false, 2, false);
    ReachNext(Only(x), Put(b2, 1, r), Step(0, o));
    b := StepBy(Put(b2, 1, r), 0, o);
  }

  // ----- zeroing after a publication, and after an agreement

  /** Member 0 has published stage 2, both slots have been zeroed, and member 1 has announced stage 1. */
  lemma {:induction false} ReachLostPublication() returns (b: Board)
    ensures b.Shape() && Reachable(Only(AtPublished), b) && b.count == 2 && Shows(b.published, 0, 1, 0)
    ensures b.members[0].phase == Published && b.members[0].stage == 2 && b.members[0].least == 1
  {
    var policy := Only(AtPublished);
    ReachTeam(policy, 2);
    var best0 := ReachArrival(policy, Team(2), 0, 2, 1);
    var b1 := Arrived(Team(2), 0, 2, 1, best0);
    ReachPass(policy, b1, 1);
    var b2 := b1.(published := b1.published[0 := 0][1 := 0], passes := []);
    var best1 := ReachArrival(policy, b2, 1, 1, 1);
    b := Arrived(b2, 1, 1, 1, best1);
  }

  /** Between publishing and scanning it harms a member that sees itself disconnected. */
  lemma {:induction false} PublishedResetIsUnsafe() returns (b: Board, o: Observation)
    ensures b.Shape() && Reachable(Only(AtPublished), b) && LeavesBehind(b, 0, 1, o)
    ensures b.members[0].stage == 2 && b.published[1] == 1
  {
    var b1 := ReachLostPublication();
    var r := ReachLevel(Only(AtPublished), b1, 0, Env({0}, 2, false));
    assert LostBelow({0}, 2) == {0};
    b := Put(b1, 0, r);
    o := Observation(false, false, false, 2, false);
  }

  /** Both members show stage 2, and member 0 has agreed but not left. */
  lemma {:induction false} ReachAgreed(policy: Policy) returns (b: Board)
    requires !policy.calm
    ensures b.Shape() && Reachable(policy, b) && b.count == 2 && b.members[1].phase == Outside
    ensures var m := b.members[0]; m.phase == Deciding(2, {}, true) && m.stage == 2 && m.least == 1
  {
    ReachTeam(policy, 2);
    var best1 := ReachVisit(policy, Team(2), 1, 2);
    var b1 := Visited(Team(2), 1, 2, best1);
    var best0 := ReachArrival(policy, b1, 0, 2, 1);
    var b2 := Arrived(b1, 0, 2, 1, best0);
    var r := ReachLevel(policy, b2, 0, Calm());
    assert LostBelow({}, 2) == {};
    b := Put(b2, 0, r);
  }

  lemma {:induction false} AgreedResetIsUnsafe() returns (b: Board, o: Observation)
    ensures b.Shape() && Reachable(Only(AtAgreed), b) && LeavesBehind(b, 0, 1, o)
    ensures b.members[0].stage == 2 && b.published[1] == 1
  {
    var b1 := ReachAgreed(Only(AtAgreed));
    ReachPass(Only(AtAgreed), b1, 1);
    var b2 := b1.(published := b1.published[0 := 0][1 := 0], passes := []);
    var best := ReachArrival(Only(AtAgreed), b2, 1, 1, 1);
    b := Arrived(b2, 1, 1, 1, best);
    o := Observation(false, false, false, 2, false);
  }

  // ----- the exact conditions

  /**
   For every point but the three safe ones: a run in which slots are zeroed only while members stand
   there or outside, and a member leaves stage 2 by agreement with another it covered at stage 1.
   */
  lemma {:induction false} ResetInMidGatherIsUnsafe(x: Point) returns (b: Board, j: nat, q: nat, o: Observation)
    requires x !in SafePoints()
    ensures b.Shape() && Reachable(Only(x), b) && LeavesBehind(b, j, q, o)
    ensures b.members[j].stage == 2 && b.published[q] == 1
  {
    if x in CheckPoints() {
      j, q := 0, 1;
      b, o := CheckResetIsUnsafe(x);
    } else if x in EntryPoints() {
      j, q := 1, 0;
      b, o := EntryResetIsUnsafe(x);
    } else if x == AtScan {
      j, q := 1, 2;
      b, o := ScanResetIsUnsafe();
    } else if x == AtTake {
      j, q := 0, 2;
      b, o := TakeResetIsUnsafe();
    } else if x == AtPublished {
      j, q := 0, 1;
      b, o := PublishedResetIsUnsafe();
    } else {
      j, q := 0, 1;
      b, o := AgreedResetIsUnsafe();
    }
  }

  lemma {:induction false} SafePointsSuffice(policy: Policy)
    requires policy.resets <= SafePoints()
    ensures AlwaysSafe(policy)
  {
    forall b: Board, j: nat, o: Observation
      | b.Shape() && Reachable(policy, b) && j < b.count && Agrees(b.members[j], o)
      ensures SafeDeparture(b, j)
    {
      var es: seq<Event> :| Admissible(policy, Empty(), es) && Run(Empty(), es) == b;
      AgreementIsSafe(policy, es, j, o);
    }
  }

  lemma LeavingBehindIsUnsafe(b: Board, j: nat, q: nat, o: Observation)
    requires b.Shape()
    ensures LeavesBehind(b, j, q, o) ==> !SafeDeparture(b, j) && !LeavesNobody(b, j)
  {
  }

  lemma {:induction false} SafeSparesOthers(policy: Policy)
    requires AlwaysSafe(policy)
    ensures AlwaysSparesOthers(policy)
  {
    forall b: Board, j: nat, q: nat, o: Observation | b.Shape() && Reachable(policy, b)
      ensures !LeavesBehind(b, j, q, o)
    {
      LeavingBehindIsUnsafe(b, j, q, o);
    }
  }

  lemma {:induction false} LeavingNobodySparesOthers(policy: Policy)
    requires AlwaysLeavesNobody(policy)
    ensures AlwaysSparesOthers(policy)
  {
    forall b: Board, j: nat, q: nat, o: Observation | b.Shape() && Reachable(policy, b)
      ensures !LeavesBehind(b, j, q, o)
    {
      LeavingBehindIsUnsafe(b, j, q, o);
    }
  }

  lemma {:induction false} SparingNeedsSafePoints(policy: Policy)
    requires AlwaysSparesOthers(policy) && !policy.calm
    ensures policy.resets <= SafePoints()
  {
    forall x | x in policy.resets
      ensures x in SafePoints()
    {
      if x !in SafePoints() {
        var b, j, q, o := ResetInMidGatherIsUnsafe(x);
        ReachableAtMore(Only(x), policy, b);
      }
    }
  }

  /**
   The exact condition on zeroing slots, whenever characters register, and also when only harm to
   others counts.
   */
  lemma {:induction false} SafeIffResetsAreQuiet(resets: set<Point>, joins: set<Point>)
    ensures AlwaysSafe(Policy(resets, joins, false)) <==> resets <= SafePoints()
    ensures AlwaysSparesOthers(Policy(resets, joins, false)) <==> resets <= SafePoints()
  {
    var policy := Policy(resets, joins, false);
    if resets <= SafePoints() {
      SafePointsSuffice(policy);
    }
    if AlwaysSafe(policy) {
      SafeSparesOthers(policy);
    }
    if AlwaysSparesOthers(policy) {
      SparingNeedsSafePoints(policy);
    }
  }

  lemma {:induction false} NobodyMissedIfJoinsAreEarly(policy: Policy)
    requires policy.resets <= SafePoints() && AtAgreed !in policy.joins
    ensures AlwaysLeavesNobody(policy)
  {
    forall b: Board, j: nat, o: Observation
      | b.Shape() && Reachable(policy, b) && j < b.count && Agrees(b.members[j], o)
      ensures LeavesNobody(b, j)
    {
      AgreementLeavesNobody(policy, b, j, o);
    }
  }

  lemma {:induction false} JoinsMustBeEarly(policy: Policy)
    requires AlwaysLeavesNobody(policy)
    ensures AtAgreed !in policy.joins
  {
    if AtAgreed in policy.joins {
      var b, o := LateRegistrationIsMissed();
      ReachableAtMore(Policy({}, {AtAgreed}, true), policy, b);
    }
  }

  /**
   The exact condition for the barrier to leave no registered, connected character behind at all:
   slots are zeroed at safe points only, and nobody registers while a member that has agreed has yet
   to leave.
   */
  lemma {:induction false} NobodyMissedIff(resets: set<Point>, joins: set<Point>)
    ensures AlwaysLeavesNobody(Policy(resets, joins, false)) <==> resets <= SafePoints() && AtAgreed !in joins
  {
    var policy := Policy(resets, joins, false);
    if resets <= SafePoints() && AtAgreed !in joins {
      NobodyMissedIfJoinsAreEarly(policy);
    }
    if AlwaysLeavesNobody(policy) {
      JoinsMustBeEarly(policy);
      LeavingNobodySparesOthers(policy);
      SparingNeedsSafePoints(policy);
    }
  }
}
