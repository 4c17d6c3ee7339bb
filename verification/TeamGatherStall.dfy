/**
 A defect of the barrier: a member that has left stage k may publish its next stage before a
 slower peer has looked.  The peer can then never leave by agreement, and nobody at a later stage
 can either, unless it sees the peer disconnected.
 */
module TeamGatherStall {
  import opened TeamGather
  import opened TeamGatherSafety
  import opened TeamGatherProgress

  /** In event `e` no slot is zeroed, and `w` stays in its call and does not see itself disconnected. */
  ghost predicate Harmless(b: Board, e: Event, w: nat)
    requires b.Shape()
  {
    match e
    case Register => true
    case Enter(j, _, _) => j != w
    case Form(j) => j != w
    case Abandon(j) => j != w
    case Step(j, o) => !Zeroing(b, j) && (j == w && Looks(b, j, w) ==> !o.lost)
  }

  /** Member `j` is about to ask whether the owner of slot `w` is connected. */
  ghost predicate Looks(b: Board, j: nat, w: nat)
    requires b.Shape()
  {
    j < b.count && b.members[j].phase.Checking? && b.members[j].phase.i == w
  }

  ghost predicate Patient(b: Board, es: seq<Event>, w: nat)
    requires b.Shape()
    decreases |es|
  {
    es != [] ==> Harmless(b, es[0], w) && Patient(Next(b, es[0]), es[1..], w)
  }

  ghost predicate Above(b: Board, m: Member, bound: nat)
    requires b.Shape()
  {
    m.stage < bound && PointsAtLeast(b.published, b.count, m.best, bound)
  }

  /** Waiter `w` cannot get past its own slot, because the slot of `q` is higher. */
  ghost predicate Overtaken(b: Board, w: nat, q: nat)
    requires b.Shape() && w < b.count
  {
    var m := b.members[w];
    q < b.count && q != w && m.stage < b.published[q] &&
    match m.phase
    case Scanning(entry, i, max) => !entry && i > q ==> Above(b, m, max)
    case Taking(entry, i, max) => !entry ==> i < b.count && max <= b.published[i] && (i > q ==> Above(b, m, max))
    case Checking(i, lost) => i <= w && Above(b, m, m.stage + 1)
    case TestingZero(i, lost) => i <= w && Above(b, m, m.stage + 1)
    case Comparing(i, lost, loaded) =>
      && i <= w && Above(b, m, m.stage + 1)
      && (loaded.Best? ==> m.stage < loaded.value)
      && (loaded.Item? && i == w ==> loaded.value == m.stage)
    case Deciding(saw, lost, same) => !same
    case _ => true
  }

  /** `w` is overtaken, shows its stage, and is among the slots of every check that has agreed. */
  ghost predicate Stalled(b: Board, w: nat, q: nat)
    requires b.Shape() && w < b.count
  {
    && Overtaken(b, w, q) && b.published[w] == b.members[w].stage
    && forall j :: 0 <= j < b.count ==> Covers(b.members[j].phase, w)
  }

  predicate Covers(phase: Phase, w: nat) {
    phase.Deciding? && phase.same ==> w < phase.saw
  }

  /** A step of anybody else leaves the waiter overtaken: slots only grow. */
  lemma {:induction false} OvertakenByOthers(b: Board, r: Board, w: nat, q: nat)
    requires b.Shape() && r.Shape() && w < b.count <= r.count && Overtaken(b, w, q)
    requires r.members[w] == b.members[w] && r.published[w] == b.published[w]
    requires forall k :: 0 <= k < b.count ==> b.published[k] <= r.published[k]
    ensures Overtaken(r, w, q)
  {
  }

  lemma {:induction false} OvertakenScans(b: Board, w: nat, q: nat, o: Observation)
    requires b.Shape() && w < b.count && Overtaken(b, w, q) && Sound(b.published, b.count, w, b.members[w])
    requires b.members[w].phase.Scanning? || b.members[w].phase.Taking?
    ensures Overtaken(StepBy(b, w, o), w, q)
  {
  }

  lemma {:induction false} OvertakenChecks(b: Board, w: nat, q: nat, o: Observation)
    requires b.Shape() && w < b.count && Overtaken(b, w, q) && Harmless(b, Step(w, o), w)
    requires Sound(b.published, b.count, w, b.members[w])
    requires b.members[w].phase.Checking? || b.members[w].phase.TestingZero?
    ensures Overtaken(StepBy(b, w, o), w, q)
  {
    var m := b.members[w];
    assert StepBy(b, w, o) == Put(b, w, Advance(b.published, b.count, m, o));
    assert CheckSound(b.published, b.count, w, m, m.phase.i, m.phase.lost);
  }

  lemma {:induction false} OvertakenCompares(b: Board, w: nat, q: nat, o: Observation)
    requires b.Shape() && w < b.count && Overtaken(b, w, q)
    requires Sound(b.published, b.count, w, b.members[w]) && b.members[w].phase.Comparing?
    ensures Overtaken(StepBy(b, w, o), w, q)
  {
    var m := b.members[w];
    assert StepBy(b, w, o) == Put(b, w, Advance(b.published, b.count, m, o));
    assert CheckSound(b.published, b.count, w, m, m.phase.i, m.phase.lost);
  }

  /** The waiter's own step leaves it overtaken. */
  lemma {:induction false} OvertakenByOwnStep(b: Board, w: nat, q: nat, o: Observation)
    requires b.Shape() && w < b.count && Overtaken(b, w, q) && Harmless(b, Step(w, o), w)
    requires Sound(b.published, b.count, w, b.members[w])
    ensures Overtaken(StepBy(b, w, o), w, q)
  {
    var m := b.members[w];
    if m.phase.Scanning? || m.phase.Taking? {
      OvertakenScans(b, w, q, o);
    } else if m.phase.Checking? || m.phase.TestingZero? {
      OvertakenChecks(b, w, q, o);
    } else if m.phase.Comparing? {
      OvertakenCompares(b, w, q, o);
    }
  }

  /** A harmless event leaves every slot where it was or higher, and others' events leave `w` alone. */
  lemma {:induction false} OthersOnlyRaise(b: Board, e: Event, w: nat)
    requires b.Shape() && Inv(b) && w < b.count && Harmless(b, e, w) && (e.Step? ==> e.who != w)
    ensures
      var r := Next(b, e);
      && b.count <= r.count && r.members[w] == b.members[w] && r.published[w] == b.published[w]
      && forall k :: 0 <= k < b.count ==> b.published[k] <= r.published[k]
  {
  }

  lemma {:induction false} OvertakenStep(b: Board, e: Event, w: nat, q: nat)
    requires b.Shape() && Inv(b) && w < b.count && Overtaken(b, w, q) && Harmless(b, e, w)
    ensures w < Next(b, e).count && Overtaken(Next(b, e), w, q)
    ensures Next(b, e).members[w].stage == b.members[w].stage
    ensures b.published[w] == b.members[w].stage ==> Next(b, e).published[w] == b.published[w]
  {
    if e.Step? && e.who == w {
      assert Sound(b.published, b.count, w, b.members[w]);
      OvertakenByOwnStep(b, w, q, e.sees);
    } else {
      OthersOnlyRaise(b, e, w);
      OvertakenByOthers(b, Next(b, e), w, q);
    }
  }

  /** An overtaken waiter never leaves its stage by agreement, however the rest of the run goes. */
  lemma {:induction false} OvertakenNeverAgrees(b: Board, es: seq<Event>, w: nat, q: nat, o: Observation)
    requires b.Shape() && Inv(b) && w < b.count && Overtaken(b, w, q) && Patient(b, es, w)
    ensures var r := Run(b, es); w < r.count && Overtaken(r, w, q) && !Agrees(r.members[w], o)
    decreases |es|
  {
    if es != [] {
      OvertakenStep(b, es[0], w, q);
      NextKeepsInv(b, es[0]);
      OvertakenNeverAgrees(Next(b, es[0]), es[1..], w, q, o);
    }
  }

  /** A check that ends now covers everybody registered now. */
  lemma {:induction false} ChecksKeepCovering(b: Board, e: Event, w: nat)
    requires b.Shape() && w < b.count && forall j :: 0 <= j < b.count ==> Covers(b.members[j].phase, w)
    ensures forall j :: 0 <= j < Next(b, e).count ==> Covers(Next(b, e).members[j].phase, w)
  {
    var r := Next(b, e);
    forall j | 0 <= j < r.count
      ensures Covers(r.members[j].phase, w)
    {
      if j < b.count {
        assert Covers(b.members[j].phase, w);
      }
    }
  }

  lemma {:induction false} StalledStep(b: Board, e: Event, w: nat, q: nat)
    requires b.Shape() && Inv(b) && w < b.count && Stalled(b, w, q) && Harmless(b, e, w)
    ensures w < Next(b, e).count && Stalled(Next(b, e), w, q)
    ensures Next(b, e).members[w].stage == b.members[w].stage
  {
    OvertakenStep(b, e, w, q);
    ChecksKeepCovering(b, e, w);
  }

  /** In a stalled board a member beyond the waiter agrees only if it saw the waiter disconnected. */
  lemma {:induction false} BeyondNeedsLost(b: Board, w: nat, q: nat, j: nat, o: Observation)
    requires b.Shape() && Inv(b) && w < b.count && Stalled(b, w, q)
    requires j < b.count && b.members[j].stage > b.members[w].stage && Agrees(b.members[j], o)
    ensures w in b.members[j].phase.lost
  {
    assert Sound(b.published, b.count, j, b.members[j]);
    assert Covers(b.members[j].phase, w);
  }

  /**
   The stall is for ever: from a stalled board the waiter never leaves by agreement, and a member
   at a later stage leaves by agreement only if it has seen the waiter disconnected.
   */
  lemma {:induction false} StallIsForEver(b: Board, es: seq<Event>, w: nat, q: nat, j: nat, o: Observation)
    requires b.Shape() && Inv(b) && w < b.count && Stalled(b, w, q) && Patient(b, es, w)
    ensures var r := Run(b, es);
      && w < r.count && Stalled(r, w, q) && r.members[w].stage == b.members[w].stage
      && !Agrees(r.members[w], o)
      && (j < r.count && r.members[j].stage > r.members[w].stage && Agrees(r.members[j], o)
          ==> w in r.members[j].phase.lost)
    decreases |es|
  {
    if es != [] {
      StalledStep(b, es[0], w, q);
      NextKeepsInv(b, es[0]);
      StallIsForEver(Next(b, es[0]), es[1..], w, q, j, o);
    } else if j < b.count && b.members[j].stage > b.members[w].stage && Agrees(b.members[j], o) {
      BeyondNeedsLost(b, w, q, j, o);
    }
  }

  function LostOf(phase: Phase): set<nat> {
    match phase
    case Checking(_, lost) => lost
    case TestingZero(_, lost) => lost
    case Comparing(_, lost, _) => lost
    case Deciding(_, lost, _) => lost
    case _ => {}
  }

  /** Nobody counts `w` among the disconnected. */
  ghost predicate Connected(b: Board, w: nat)
    requires b.Shape()
  {
    forall j :: 0 <= j < b.count ==> w !in LostOf(b.members[j].phase)
  }

  ghost predicate StaysConnected(b: Board, es: seq<Event>, w: nat)
    requires b.Shape()
    decreases |es|
  {
    es != [] ==>
      && (es[0].Step? && Looks(b, es[0].who, w) ==> !es[0].sees.lost)
      && StaysConnected(Next(b, es[0]), es[1..], w)
  }

  lemma {:induction false} ConnectedStep(b: Board, e: Event, w: nat)
    requires b.Shape() && Connected(b, w) && (e.Step? && Looks(b, e.who, w) ==> !e.sees.lost)
    ensures Connected(Next(b, e), w)
  {
    var r := Next(b, e);
    forall j | 0 <= j < r.count
      ensures w !in LostOf(r.members[j].phase)
    {
      if j < b.count {
        assert w !in LostOf(b.members[j].phase);
      }
    }
  }

  lemma {:induction false} RunStaysConnected(b: Board, es: seq<Event>, w: nat)
    requires b.Shape() && Connected(b, w) && StaysConnected(b, es, w)
    ensures Connected(Run(b, es), w)
    decreases |es|
  {
    if es != [] {
      ConnectedStep(b, es[0], w);
      RunStaysConnected(Next(b, es[0]), es[1..], w);
    }
  }

  /** As long as the stalled waiter is seen connected, it holds back everybody beyond its stage. */
  lemma {:induction false} StallHoldsEveryone(b: Board, es: seq<Event>, w: nat, q: nat, j: nat, o: Observation)
    requires b.Shape() && Inv(b) && w < b.count && Stalled(b, w, q) && Connected(b, w)
    requires Patient(b, es, w) && StaysConnected(b, es, w)
    ensures var r := Run(b, es);
      w < r.count && (j < r.count && r.members[j].stage > r.members[w].stage ==> !Agrees(r.members[j], o))
  {
    StallIsForEver(b, es, w, q, j, o);
    RunStaysConnected(b, es, w);
    var r := Run(b, es);
    assert j < r.count ==> w !in LostOf(r.members[j].phase);
  }
}
