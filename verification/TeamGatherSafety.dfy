/**
 Safety of the barrier over every interleaving: who leaves a stage by agreement leaves nobody of
 those its check covered behind, as long as slots are zeroed only while no member stands at a
 program point where it relies on them.
 */
module TeamGatherSafety {
  import opened TeamGather

  /** Where a member inside the call can stand. */
  datatype Point =
    | AtAttending | AtEntryScan | AtEntryTake | AtEntryTest | AtPublishing | AtPublished
    | AtScan | AtTake | AtCheck | AtZeroTest | AtCompare | AtUndecided | AtAgreed

  /** Inside the call of the barrier. */
  predicate InCall(phase: Phase) { !phase.Outside? && !phase.Forming? }

  function PointOf(phase: Phase): Point
    requires InCall(phase)
  {
    match phase
    case Attending => AtAttending
    case Scanning(entry, _, _) => if entry then AtEntryScan else AtScan
    case Taking(entry, _, _) => if entry then AtEntryTake else AtTake
    case EntryTest => AtEntryTest
    case Publishing => AtPublishing
    case Published => AtPublished
    case Checking(_, _) => AtCheck
    case TestingZero(_, _) => AtZeroTest
    case Comparing(_, _, _) => AtCompare
    case Deciding(_, _, same) => if same then AtAgreed else AtUndecided
  }

  predicate StandsAt(phase: Phase, x: Point) { InCall(phase) && PointOf(phase) == x }

  /** Points at which a member relies on no slot: before its entry scan, and before it publishes. */
  function SafePoints(): set<Point> { {AtAttending, AtPublishing, AtUndecided} }

  /** Every registered member is outside the call or at one of the points. */
  ghost predicate Quiet(points: set<Point>, b: Board)
    requires b.Shape()
  {
    forall j :: 0 <= j < b.count && InCall(b.members[j].phase) ==> PointOf(b.members[j].phase) in points
  }

  /**
   Where members inside the call may stand while a slot is zeroed, and where while a character
   registers; and whether the run is calm.  The original restricts nothing.
   */
  datatype Policy = Policy(resets: set<Point>, joins: set<Point>, calm: bool)

  /** Nobody dies, is interrupted, times out or is seen disconnected, and no formation begins. */
  predicate IsCalm(e: Event) {
    match e
    case Register => true
    case Enter(_, _, _) => true
    case Form(_) => false
    case Abandon(_) => false
    case Step(_, o) => !o.lost && !o.timedOut && !o.down
  }

  ghost predicate Permitted(policy: Policy, b: Board, e: Event)
    requires b.Shape()
  {
    && (e.Step? && Zeroing(b, e.who) ==> Quiet(policy.resets, b))
    && (e.Register? ==> Quiet(policy.joins, b))
    && (policy.calm ==> IsCalm(e))
  }

  ghost predicate Admissible(policy: Policy, b: Board, es: seq<Event>)
    requires b.Shape()
    decreases |es|
  {
    es != [] ==> Permitted(policy, b, es[0]) && Admissible(policy, Next(b, es[0]), es[1..])
  }

  /** The boards that runs from the empty board reach. */
  ghost predicate Reachable(policy: Policy, b: Board) {
    exists es: seq<Event> :: Admissible(policy, Empty(), es) && Run(Empty(), es) == b
  }

  /** Every registered member outside `lost` and below `saw` has published at least `k`. */
  ghost predicate Reached(published: seq<nat>, saw: nat, lost: set<nat>, k: nat)
    requires saw <= |published|
  {
    forall q :: 0 <= q < saw && q !in lost ==> k <= published[q]
  }

  ghost predicate PointsAtLeast(published: seq<nat>, count: nat, best: Pointer, bound: nat)
    requires count <= |published|
  {
    best.Slot? && best.index < count && bound <= published[best.index]
  }

  /** What one member's local state says about the shared slots. */
  ghost predicate Sound(published: seq<nat>, count: nat, me: nat, m: Member)
    requires me < count <= |published|
  {
    match m.phase
    case Outside => true
    case Forming(_) => true
    case Attending => true
    case Scanning(entry, i, max) => ScanSound(published, count, me, m, entry, i, max)
    case Taking(entry, i, max) =>
      i < count && max <= published[i] && ScanSound(published, count, me, m, entry, i, max)
    case EntryTest => PointsAtLeast(published, count, m.best, published[me])
    case Publishing => published[me] <= m.stage
    case Published => published[me] == m.stage
    case Checking(i, lost) => CheckSound(published, count, me, m, i, lost)
    case TestingZero(i, lost) => i < count && CheckSound(published, count, me, m, i, lost)
    case Comparing(i, lost, loaded) =>
      && i < count && CheckSound(published, count, me, m, i, lost)
      && (loaded.Item? ==> loaded.value <= published[i])
      && (loaded.Best? ==> m.stage <= loaded.value)
    case Deciding(saw, lost, same) =>
      && saw <= count
      && (if same then me < saw && published[me] == m.stage && Reached(published, saw, lost, m.stage)
          else published[me] <= m.stage)
  }

  ghost predicate ScanSound(published: seq<nat>, count: nat, me: nat, m: Member, entry: bool, i: nat, max: nat)
    requires me < count <= |published|
  {
    && i <= count
    && (i == 0 ==> max == 0)
    && (i > 0 ==> PointsAtLeast(published, count, m.best, max))
    && (i > me ==> published[me] <= max)
    && (!entry ==> published[me] == m.stage)
  }

  ghost predicate CheckSound(published: seq<nat>, count: nat, me: nat, m: Member, i: nat, lost: set<nat>)
    requires me < count <= |published|
  {
    && i <= count
    && published[me] == m.stage
    && PointsAtLeast(published, count, m.best, m.stage)
    && Reached(published, i, lost, m.stage)
  }

  /** The run invariant: local states are sound, and no slot has fallen below a stage it was passed at. */
  ghost predicate Inv(b: Board)
    requires b.Shape()
  {
    && (forall j :: 0 <= j < b.count ==> Sound(b.published, b.count, j, b.members[j]))
    && (forall j :: 0 <= j < b.count ==> Attended(b.count, b.members[j]))
    && (forall n :: 0 <= n < |b.passes| ==> PassHolds(b, b.passes[n]))
  }

  /**
   Nobody goes on from the entry before as many characters as it asked for have registered, unless
   it was found dead while waiting; and an agreement covers as many.
   */
  ghost predicate Attended(count: nat, m: Member) {
    || !InCall(m.phase) || m.phase == Attending || m.rushed
    || (m.least <= count && (m.phase.Deciding? && m.phase.same ==> m.least <= m.phase.saw))
  }

  ghost predicate PassHolds(b: Board, p: Pass)
    requires b.Shape()
  {
    p.member < p.saw <= b.count && Reached(b.published, p.saw, p.lost, p.stage)
  }

  /** Other members' slots only grow, so what a member has established stays true. */
  lemma {:induction false} SoundIsStable(p: seq<nat>, q: seq<nat>, c: nat, d: nat, me: nat, m: Member)
    requires me < c <= d <= |p| == |q|
    requires q[me] == p[me] && forall j :: 0 <= j < c ==> p[j] <= q[j]
    requires Sound(p, c, me, m)
    ensures Sound(q, d, me, m)
  {
  }

  /** One step of the maximum scan. */
  lemma {:induction false} ScanStepIsSound(p: seq<nat>, c: nat, me: nat, m: Member, o: Observation)
    requires me < c <= |p| && Sound(p, c, me, m) && (m.phase.Scanning? || m.phase.Taking?)
    ensures Sound(p, c, me, Advance(p, c, m, o))
  {
  }

  /** One step of the check of a slot. */
  lemma {:induction false} CheckStepIsSound(p: seq<nat>, c: nat, me: nat, m: Member, o: Observation)
    requires me < c <= |p| && Sound(p, c, me, m)
    requires m.phase.Checking? || m.phase.TestingZero? || m.phase.Comparing?
    ensures Sound(p, c, me, Advance(p, c, m, o))
  {
  }

  /** One step of a member re-establishes its own soundness, and never lowers its slot. */
  lemma {:induction false} AdvanceIsSound(p: seq<nat>, c: nat, me: nat, m: Member, o: Observation)
    requires me < c <= |p| && Sound(p, c, me, m)
    ensures
      var q := if m.phase == Publishing then p[me := m.stage] else p;
      Sound(q, c, me, Advance(p, c, m, o))
    ensures m.phase == Publishing ==> p[me] <= m.stage
  {
    if m.phase.Scanning? || m.phase.Taking? {
      ScanStepIsSound(p, c, me, m, o);
    } else if m.phase.Checking? || m.phase.TestingZero? || m.phase.Comparing? {
      CheckStepIsSound(p, c, me, m, o);
    }
  }

  lemma {:induction false} AdvanceStaysAttended(p: seq<nat>, c: nat, m: Member, o: Observation)
    requires c <= |p| && Attended(c, m)
    ensures Attended(c, Advance(p, c, m, o))
  {
  }

  lemma {:induction false} StepKeepsInv(b: Board, j: nat, o: Observation)
    requires b.Shape() && Inv(b) && j < b.count && !Zeroing(b, j)
    ensures Inv(StepBy(b, j, o))
  {
    var r := StepBy(b, j, o);
    var m := b.members[j];
    AdvanceIsSound(b.published, b.count, j, m, o);
    AdvanceStaysAttended(b.published, b.count, m, o);
    assert forall q :: 0 <= q < CAPACITY ==> b.published[q] <= r.published[q];
    forall k | 0 <= k < r.count
      ensures Sound(r.published, r.count, k, r.members[k])
    {
      if k != j {
        SoundIsStable(b.published, r.published, b.count, r.count, k, b.members[k]);
      }
    }
    forall n | 0 <= n < |r.passes|
      ensures PassHolds(r, r.passes[n])
    {
      if n < |b.passes| {
        assert PassHolds(b, b.passes[n]);
      }
    }
  }

  lemma {:induction false} RegisterKeepsInv(b: Board)
    requires b.Shape() && Inv(b) && b.count < CAPACITY
    ensures Inv(Next(b, Event.Register))
  {
    var r := Next(b, Event.Register);
    forall k | 0 <= k < r.count
      ensures Sound(r.published, r.count, k, r.members[k])
    {
      if k < b.count {
        SoundIsStable(b.published, r.published, b.count, r.count, k, b.members[k]);
      }
    }
    forall n | 0 <= n < |r.passes|
      ensures PassHolds(r, r.passes[n])
    {
      assert PassHolds(b, b.passes[n]);
    }
  }

  lemma {:induction false} ZeroingKeepsInv(b: Board, j: nat, o: Observation)
    requires b.Shape() && Inv(b) && Quiet(SafePoints(), b) && Zeroing(b, j)
    ensures Inv(StepBy(b, j, o))
  {
    var r := StepBy(b, j, o);
    forall k | 0 <= k < r.count
      ensures Sound(r.published, r.count, k, r.members[k])
    {
      assert Sound(b.published, b.count, k, b.members[k]);
    }
  }

  lemma {:induction false} NextKeepsInv(b: Board, e: Event)
    requires b.Shape() && Inv(b) && (e.Step? && Zeroing(b, e.who) ==> Quiet(SafePoints(), b))
    ensures Inv(Next(b, e))
  {
    var r := Next(b, e);
    match e
    case Step(j, o) =>
      if Zeroing(b, j) {
        ZeroingKeepsInv(b, j, o);
      } else if j < b.count {
        StepKeepsInv(b, j, o);
      }
    case Register =>
      if b.count < CAPACITY { RegisterKeepsInv(b); }
    case Enter(j, stage, least) =>
      assert forall n :: 0 <= n < |r.passes| ==> PassHolds(b, b.passes[n]);
    case Abandon(j) =>
      assert forall n :: 0 <= n < |r.passes| ==> PassHolds(b, b.passes[n]);
    case Form(j) =>
      assert forall n :: 0 <= n < |r.passes| ==> PassHolds(b, b.passes[n]);
  }

  /** Nobody can pull down what a past agreement rested on: the invariant holds in every run. */
  lemma {:induction false} RunKeepsInv(policy: Policy, b: Board, es: seq<Event>)
    requires b.Shape() && Inv(b) && Admissible(policy, b, es) && policy.resets <= SafePoints()
    ensures Inv(Run(b, es))
    decreases |es|
  {
    if es != [] {
      NextKeepsInv(b, es[0]);
      RunKeepsInv(policy, Next(b, es[0]), es[1..]);
    }
  }

  lemma {:induction false} ReachableIsSound(policy: Policy, b: Board)
    requires Reachable(policy, b) && policy.resets <= SafePoints()
    ensures b.Shape() && Inv(b)
  {
    var es: seq<Event> :| Admissible(policy, Empty(), es) && Run(Empty(), es) == b;
    RunKeepsInv(policy, Empty(), es);
  }

  /** A departure by agreement from stage k is safe when every member its check covered is at k or beyond. */
  ghost predicate SafeDeparture(b: Board, j: nat)
    requires b.Shape() && j < b.count && b.members[j].phase.Deciding?
  {
    var d := b.members[j].phase;
    d.saw <= b.count && Reached(b.published, d.saw, d.lost, b.members[j].stage)
  }

  /** Barrier safety: whoever leaves stage k by agreement leaves nobody that its check covered behind. */
  lemma {:induction false} AgreementIsSafe(policy: Policy, es: seq<Event>, j: nat, o: Observation)
    requires Admissible(policy, Empty(), es) && policy.resets <= SafePoints()
    requires j < Run(Empty(), es).count && Agrees(Run(Empty(), es).members[j], o)
    ensures SafeDeparture(Run(Empty(), es), j)
    ensures
      var m := Run(Empty(), es).members[j];
      j < m.phase.saw && (m.rushed || m.least <= m.phase.saw)
  {
    RunKeepsInv(policy, Empty(), es);
    var b := Run(Empty(), es);
    assert Sound(b.published, b.count, j, b.members[j]);
  }

  /** The history form: a stage passed by agreement is never above what the members it covered show. */
  lemma {:induction false} PassedStagesStayReached(policy: Policy, es: seq<Event>, n: nat)
    requires Admissible(policy, Empty(), es) && policy.resets <= SafePoints() && n < |Run(Empty(), es).passes|
    ensures
      var b := Run(Empty(), es);
      var p := b.passes[n];
      p.member < p.saw <= b.count && Reached(b.published, p.saw, p.lost, p.stage)
  {
    RunKeepsInv(policy, Empty(), es);
    assert PassHolds(Run(Empty(), es), Run(Empty(), es).passes[n]);
  }

  /** From the first slot on, a member's pointer is on a registered slot. */
  ghost predicate Pointed(count: nat, m: Member) {
    match m.phase
    case Scanning(_, i, max) => if i == 0 then max == 0 else IsSet(count, m.best)
    case Taking(_, i, max) => true
    case EntryTest => IsSet(count, m.best)
    case Checking(_, _) => IsSet(count, m.best)
    case TestingZero(_, _) => IsSet(count, m.best)
    case Comparing(_, _, _) => IsSet(count, m.best)
    case _ => true
  }

  predicate IsSet(count: nat, best: Pointer) {
    best.Slot? && best.index < count
  }

  lemma {:induction false} StepKeepsPointed(b: Board, e: Event)
    requires b.Shape() && forall j :: 0 <= j < b.count ==> Pointed(b.count, b.members[j])
    ensures forall j :: 0 <= j < Next(b, e).count ==> Pointed(Next(b, e).count, Next(b, e).members[j])
  {
    var r := Next(b, e);
    forall j | 0 <= j < r.count
      ensures Pointed(r.count, r.members[j])
    {
      if j < b.count {
        assert Pointed(b.count, b.members[j]);
      }
    }
  }

  lemma {:induction false} RunKeepsPointed(b: Board, es: seq<Event>)
    requires b.Shape() && forall j :: 0 <= j < b.count ==> Pointed(b.count, b.members[j])
    ensures forall j :: 0 <= j < Run(b, es).count ==> Pointed(Run(b, es).count, Run(b, es).members[j])
    decreases |es|
  {
    if es != [] {
      StepKeepsPointed(b, es[0]);
      RunKeepsPointed(Next(b, es[0]), es[1..]);
    }
  }

  /**
   The pointer is never null when it is used, whenever slots are reset: the message for that case is
   unreachable.
   */
  lemma {:induction false} PointerIsSet(es: seq<Event>, j: nat)
    requires j < Run(Empty(), es).count
    ensures
      var m := Run(Empty(), es).members[j];
      m.phase.EntryTest? || m.phase.Comparing? ==> IsSet(Run(Empty(), es).count, m.best)
  {
    RunKeepsPointed(Empty(), es);
    assert Pointed(Run(Empty(), es).count, Run(Empty(), es).members[j]);
  }
}
