/** When the search without hazards succeeds, exactly, and in how many steps. */
module SafePathCompleteness {
  import opened Geometry
  import opened SafePath

  /** The distance from `d` to the nearest multiple of the step. */
  function Residue(d: int): int {
    if d % STEP <= STEP / 2 then d % STEP else STEP - d % STEP
  }

  /** The least squared distance to the target on the lattice through `start`. */
  function Floor(start: Point, target: Point): int {
    Sq(Residue(start.x - target.x)) + Sq(Residue(start.y - target.y)) + Sq(start.z - target.z)
  }

  /** The neighbour along the axis on which the target is farther away. */
  function Toward(p: Point, target: Point): Point {
    if Abs(p.x - target.x) >= Abs(p.y - target.y)
    then if target.x > p.x then East(p) else West(p)
    else if target.y > p.y then North(p) else South(p)
  }

  /** The target can be reached on this lattice, and the first step lies inside the disc. */
  predicate Reachable(start: Point, target: Point) {
    || D2(start, target) <= M2(2)
    || (Floor(start, target) <= M2(2) && D2(Toward(start, target), target) < M2(30))
  }

  lemma ResidueFacts(origin: int, t: int, v: int)
    requires (v - origin) % STEP == 0
    ensures Residue(origin - t) <= Abs(v - t)
    ensures Abs(v - t) <= STEP / 2 ==> Abs(v - t) == Residue(origin - t)
  {
  }

  /** No lattice point is nearer than `Floor`; one within half a step on both axes attains it. */
  lemma FloorIsLeast(start: Point, target: Point, p: Point)
    requires OnLattice(start, p)
    ensures Floor(start, target) <= D2(p, target)
    ensures Farther(p, target) <= STEP / 2 ==> Floor(start, target) == D2(p, target)
  {
    ResidueFacts(start.x, target.x, p.x);
    ResidueFacts(start.y, target.y, p.y);
    SqMonotone(Residue(start.x - target.x), p.x - target.x);
    SqMonotone(Residue(start.y - target.y), p.y - target.y);
    if Farther(p, target) <= STEP / 2 {
      SqMonotone(p.x - target.x, Residue(start.x - target.x));
      SqMonotone(p.y - target.y, Residue(start.y - target.y));
    }
  }

  /** The same for a ground: `floor` is the least distance on the lattice. */
  ghost predicate Floored(g: Ground, target: Point, start: Point, floor: int) {
    forall p {:trigger OnLattice(start, p)} :: OnLattice(start, p) ==>
      floor <= g.dist(p) && (Farther(p, target) <= STEP / 2 ==> g.dist(p) == floor)
  }

  lemma {:induction false} GroundIsFloored(hazards: seq<Point>, target: Point, start: Point)
    ensures Floored(SearchGround(hazards, start, target), target, start, Floor(start, target))
  {
    forall p | OnLattice(start, p)
      ensures Floor(start, target) <= D2(p, target)
      ensures Farther(p, target) <= STEP / 2 ==> D2(p, target) == Floor(start, target)
    {
      FloorIsLeast(start, target, p);
    }
  }

  /** Going along the farther axis is the best of the four moves. */
  lemma TowardIsBest(g: Ground, target: Point, p: Point)
    requires Squared(g, target)
    ensures Adjacent(p, Toward(p, target))
    ensures g.dist(Toward(p, target)) == g.dist(p) - 100 * Farther(p, target) + 2500
    ensures forall n :: Adjacent(p, n) ==> g.dist(Toward(p, target)) <= g.dist(n)
  {
  }

  /** Whole steps still needed on one axis to come within half a step. */
  function StepsLeft(d: int): int { (Abs(d) + STEP / 2 - 1) / STEP }

  function Potential(p: Point, target: Point): int {
    StepsLeft(p.x - target.x) + StepsLeft(p.y - target.y)
  }

  function Manhattan(p: Point, target: Point): int {
    Abs(p.x - target.x) + Abs(p.y - target.y)
  }

  lemma StepsLeftFalls(d: int, e: int)
    requires Abs(d) > STEP / 2 && e == if d > 0 then d - STEP else d + STEP
    ensures StepsLeft(e) == StepsLeft(d) - 1
    ensures Abs(d) >= STEP ==> Abs(e) == Abs(d) - STEP
  {
  }

  /** A move as good as the best one goes towards the target on the farther axis. */
  lemma {:induction false} BestMoveGoesToward(g: Ground, target: Point, p: Point, q: Point)
    requires Squared(g, target)
    requires Adjacent(p, q) && g.dist(q) == g.dist(Toward(p, target)) && Farther(p, target) > STEP / 2
    ensures
      var dx, dy := p.x - target.x, p.y - target.y;
      || (Abs(dx) == Farther(p, target) && q == if dx > 0 then West(p) else East(p))
      || (Abs(dy) == Farther(p, target) && q == if dy > 0 then South(p) else North(p))
  {
  }

  /** ... and brings the walk one step nearer on it. */
  lemma {:induction false} BestMoveCounts(p: Point, target: Point, q: Point)
    requires Farther(p, target) > STEP / 2
    requires
      var dx, dy := p.x - target.x, p.y - target.y;
      || (Abs(dx) == Farther(p, target) && q == if dx > 0 then West(p) else East(p))
      || (Abs(dy) == Farther(p, target) && q == if dy > 0 then South(p) else North(p))
    ensures Potential(q, target) == Potential(p, target) - 1
    ensures Farther(p, target) >= STEP ==> Manhattan(q, target) == Manhattan(p, target) - STEP
  {
    var dx, dy := p.x - target.x, p.y - target.y;
    if Abs(dx) == Farther(p, target) && q == (if dx > 0 then West(p) else East(p)) {
      assert q.y == p.y && q.x - target.x == if dx > 0 then dx - STEP else dx + STEP;
      StepsLeftFalls(dx, q.x - target.x);
    } else {
      assert q.x == p.x && q.y - target.y == if dy > 0 then dy - STEP else dy + STEP;
      StepsLeftFalls(dy, q.y - target.y);
    }
  }

  /** A ground without hazards, with the facts about distances on the lattice through `start`. */
  ghost predicate Bare(g: Ground, target: Point, start: Point, floor: int) {
    Squared(g, target) && Floored(g, target, start, floor) && forall p :: g.clear(p)
  }

  /** `Reachable` in terms of a ground. */
  ghost predicate Attainable(g: Ground, target: Point, start: Point, floor: int) {
    Near(g, start) || (floor <= M2(ARRIVED) && InDisc(g, Toward(start, target)))
  }

  /** The point after `i` steps is nearer than all before it. */
  ghost predicate Nearest(g: Ground, start: Point, w: seq<Point>, i: nat)
    requires i <= |w|
  {
    forall j :: 0 <= j < i ==> g.dist(At(start, w, i)) < g.dist(At(start, w, j))
  }

  /** A point nearer than the present one has not been taken. */
  lemma {:induction false} NearerIsNew(g: Ground, start: Point, w: seq<Point>, i: nat, q: Point)
    requires GreedyWalk(g, start, w) && i <= |w| && Nearest(g, start, w, i)
    requires q.z == start.z && g.dist(q) < g.dist(At(start, w, i))
    ensures !Visited(w[..i], q)
  {
    forall j | 0 <= j < i
      ensures w[j].x != q.x || w[j].y != q.y
    {
      WalkOnLattice(g, start, w, j + 1);
      assert At(start, w, j + 1) == w[j] && w[j].z == q.z;
      assert g.dist(At(start, w, i)) <= g.dist(w[j]);
    }
  }

  /** As long as the target is not near, the move along the farther axis is open and nearer. */
  lemma {:induction false} TowardIsOpen(g: Ground, target: Point, start: Point, floor: int, w: seq<Point>, i: nat)
    requires Bare(g, target, start, floor) && Attainable(g, target, start, floor)
    requires GreedyWalk(g, start, w) && i <= |w| && !Near(g, At(start, w, i)) && Nearest(g, start, w, i)
    ensures
      var p := At(start, w, i);
      && Farther(p, target) > STEP / 2
      && g.dist(Toward(p, target)) < g.dist(p)
      && Open(g, w[..i], Toward(p, target))
  {
    var p := At(start, w, i);
    WalkOnLattice(g, start, w, i);
    TowardIsBest(g, target, p);
    if i > 0 {
      assert GreedyStep(g, start, w, 0) && GreedyStep(g, start, w, i - 1);
    }
    NearerIsNew(g, start, w, i, Toward(p, target));
  }

  /** A step without hazards is as good as the move along the farther axis. */
  lemma {:induction false} StepsAreBest(g: Ground, target: Point, start: Point, floor: int, w: seq<Point>, i: nat)
    requires Bare(g, target, start, floor) && Attainable(g, target, start, floor)
    requires GreedyWalk(g, start, w) && i < |w| && Nearest(g, start, w, i)
    ensures
      var p := At(start, w, i);
      && Adjacent(p, w[i]) && Farther(p, target) > STEP / 2
      && g.dist(w[i]) == g.dist(Toward(p, target)) < g.dist(p)
  {
    var p := At(start, w, i);
    assert GreedyStep(g, start, w, i);
    TowardIsOpen(g, target, start, floor, w, i);
    TowardIsBest(g, target, p);
  }

  lemma NearestExtends(g: Ground, start: Point, w: seq<Point>, i: nat)
    requires i < |w| && Nearest(g, start, w, i) && g.dist(w[i]) < g.dist(At(start, w, i))
    ensures Nearest(g, start, w, i + 1)
  {
  }

  /** Without hazards the squared distance falls at every step. */
  lemma {:induction false} Descends(g: Ground, target: Point, start: Point, floor: int, w: seq<Point>, i: nat)
    requires Bare(g, target, start, floor) && Attainable(g, target, start, floor)
    requires GreedyWalk(g, start, w) && i <= |w|
    ensures Nearest(g, start, w, i)
    decreases i
  {
    if i > 0 {
      Descends(g, target, start, floor, w, i - 1);
      StepsAreBest(g, target, start, floor, w, i - 1);
      NearestExtends(g, start, w, i - 1);
    }
  }

  /** One best step is counted, on both measures. */
  lemma {:induction false} CountsOnce(g: Ground, target: Point, p: Point, q: Point)
    requires Squared(g, target) && !Near(g, p)
    requires Adjacent(p, q) && g.dist(q) == g.dist(Toward(p, target)) && Farther(p, target) > STEP / 2
    ensures Potential(q, target) == Potential(p, target) - 1
    ensures Abs(p.z - target.z) <= STEP ==> Manhattan(q, target) == Manhattan(p, target) - STEP
  {
    BestMoveGoesToward(g, target, p, q);
    BestMoveCounts(p, target, q);
  }

  /** The steps taken so far and those still needed add up. */
  ghost predicate Counted(target: Point, start: Point, p: Point, i: nat) {
    && p.z == start.z
    && Potential(p, target) == Potential(start, target) - i
    && (Abs(start.z - target.z) <= STEP ==> Manhattan(p, target) == Manhattan(start, target) - STEP * i)
  }

  lemma {:induction false} Counts(g: Ground, target: Point, start: Point, floor: int, w: seq<Point>, i: nat)
    requires Bare(g, target, start, floor) && Attainable(g, target, start, floor)
    requires GreedyWalk(g, start, w) && i <= |w|
    ensures Counted(target, start, At(start, w, i), i)
    decreases i
  {
    if i > 0 {
      Counts(g, target, start, floor, w, i - 1);
      Descends(g, target, start, floor, w, i - 1);
      StepsAreBest(g, target, start, floor, w, i - 1);
      StillFar(g, start, w, i - 1);
      CountsOnce(g, target, At(start, w, i - 1), w[i - 1]);
      CountedExtends(target, start, At(start, w, i - 1), w[i - 1], i - 1);
    }
  }

  lemma StillFar(g: Ground, start: Point, w: seq<Point>, i: nat)
    requires GreedyWalk(g, start, w) && i < |w|
    ensures !Near(g, At(start, w, i))
  {
    assert GreedyStep(g, start, w, i);
  }

  lemma CountedExtends(target: Point, start: Point, p: Point, q: Point, i: nat)
    requires Counted(target, start, p, i) && Adjacent(p, q)
    requires Potential(q, target) == Potential(p, target) - 1
    requires Abs(p.z - target.z) <= STEP ==> Manhattan(q, target) == Manhattan(p, target) - STEP
    ensures Counted(target, start, q, i + 1)
  {
  }

  /** Whatever hazards there are, success implies that the target is attainable. */
  lemma {:induction false} SuccessMeansAttainable(g: Ground, target: Point, start: Point, floor: int, w: seq<Point>)
    requires Squared(g, target) && Floored(g, target, start, floor)
    requires GreedyWalk(g, start, w) && Near(g, At(start, w, |w|))
    ensures Attainable(g, target, start, floor)
  {
    if w != [] {
      WalkOnLattice(g, start, w, |w|);
      assert GreedyStep(g, start, w, 0);
      TowardIsBest(g, target, start);
    }
  }

  /** Without hazards an attainable target is reached: the walk is never stuck. */
  lemma {:induction false} NeverStuck(g: Ground, target: Point, start: Point, floor: int, w: seq<Point>)
    requires Bare(g, target, start, floor) && Attainable(g, target, start, floor) && GreedyWalk(g, start, w)
    ensures !Stuck(g, start, w)
  {
    Descends(g, target, start, floor, w, |w|);
    if !Near(g, At(start, w, |w|)) {
      TowardIsOpen(g, target, start, floor, w, |w|);
      TowardIsBest(g, target, At(start, w, |w|));
      assert w[..|w|] == w;
    }
  }

  /** On any bare ground: success if and only if the target is attainable. */
  lemma {:induction false} SucceedsIffAttainable(
    g: Ground, target: Point, start: Point, floor: int, ret: seq<Point>, running: nat -> bool)
    requires Bare(g, target, start, floor) && Outcome(g, target, start, ret, running) && Uninterrupted(running)
    ensures ret != [] <==> Attainable(g, target, start, floor)
  {
    if ret != [] {
      SuccessMeansAttainable(g, target, start, floor, WalkOf(ret));
    } else if Attainable(g, target, start, floor) {
      var w :| GreedyWalk(g, start, w) && Stuck(g, start, w);
      NeverStuck(g, target, start, floor, w);
    }
  }

  lemma AttainableIsReachable(hazards: seq<Point>, target: Point, start: Point)
    ensures Attainable(SearchGround(hazards, start, target), target, start, Floor(start, target)) <==> Reachable(start, target)
  {
  }

  /** Every hazard is within 4 m of the start or of the target. */
  ghost predicate AtTheEnds(hazards: seq<Point>, start: Point, target: Point) {
    forall h :: h in hazards ==> D2(start, h) <= M2(4) || D2(target, h) <= M2(4)
  }

  lemma BareGround(hazards: seq<Point>, target: Point, start: Point)
    requires AtTheEnds(hazards, start, target)
    ensures Bare(SearchGround(hazards, start, target), target, start, Floor(start, target))
  {
    SearchIsSquared(hazards, start, target);
    GroundIsFloored(hazards, target, start);
  }

  /**
   Completeness, exactly: when all hazards are within 4 m of the player or of the target and nothing
   interrupts, the search finds a path if and only if the target is reachable on the lattice; then it
   takes at most `Potential` steps.
   */
  lemma {:induction false} FindsPathIffReachable(
    hazards: seq<Point>, target: Point, start: Point, ret: seq<Point>, running: nat -> bool)
    requires AtTheEnds(hazards, start, target)
    requires Outcome(SearchGround(hazards, start, target), target, start, ret, running) && Uninterrupted(running)
    ensures ret != [] <==> Reachable(start, target)
    ensures |ret| <= Potential(start, target) + 1
  {
    var g := SearchGround(hazards, start, target);
    BareGround(hazards, target, start);
    AttainableIsReachable(hazards, target, start);
    SucceedsIffAttainable(g, target, start, Floor(start, target), ret, running);
    if ret != [] {
      Counts(g, target, start, Floor(start, target), WalkOf(ret), |ret| - 1);
    }
  }

  /** Hazards only take paths away: with any hazards, an uninterrupted success implies reachability. */
  lemma {:induction false} HazardsOnlyRemovePaths(
    hazards: seq<Point>, target: Point, start: Point, ret: seq<Point>, running: nat -> bool)
    requires Outcome(SearchGround(hazards, start, target), target, start, ret, running)
    requires Uninterrupted(running) && ret != []
    ensures Reachable(start, target)
  {
    SearchIsSquared(hazards, start, target);
    GroundIsFloored(hazards, target, start);
    SuccessMeansAttainable(SearchGround(hazards, start, target), target, start, Floor(start, target), WalkOf(ret));
    AttainableIsReachable(hazards, target, start);
  }

  lemma LevelStartIsReachable(target: Point, start: Point)
    requires D2(start, target) <= M2(30) && Abs(start.z - target.z) <= STEP
    ensures Reachable(start, target)
  {
    SqMonotone(Residue(start.x - target.x), STEP / 2);
    SqMonotone(Residue(start.y - target.y), STEP / 2);
    SqMonotone(start.z - target.z, STEP);
    if D2(start, target) > M2(ARRIVED) {
      GroundIsSquared([], target);
      TowardIsBest(GroundOf([], target), target, start);
      LevelMeansFar(start, target);
    }
  }

  /** From within 30 m and nearly level ground the walk succeeds in at most (|dx| + |dy|) / 50 steps. */
  lemma {:induction false} LevelStartSucceeds(
    hazards: seq<Point>, target: Point, start: Point, ret: seq<Point>, running: nat -> bool)
    requires AtTheEnds(hazards, start, target)
    requires Outcome(SearchGround(hazards, start, target), target, start, ret, running) && Uninterrupted(running)
    requires D2(start, target) <= M2(30) && Abs(start.z - target.z) <= STEP
    ensures ret != [] && STEP * (|ret| - 1) <= Manhattan(start, target)
    ensures forall i :: 0 < i < |ret| ==> D2(At(start, ret, i), target) < D2(At(start, ret, i - 1), target)
  {
    var g, floor := SearchGround(hazards, start, target), Floor(start, target);
    LevelStartIsReachable(target, start);
    FindsPathIffReachable(hazards, target, start, ret, running);
    BareGround(hazards, target, start);
    AttainableIsReachable(hazards, target, start);
    var w := WalkOf(ret);
    Counts(g, target, start, floor, w, |w|);
    forall i | 0 < i < |ret|
      ensures D2(At(start, ret, i), target) < D2(At(start, ret, i - 1), target)
    {
      Descends(g, target, start, floor, w, i);
      assert g.dist(At(start, w, i)) < g.dist(At(start, w, i - 1));
      assert At(start, w, i) == At(start, ret, i) && At(start, w, i - 1) == At(start, ret, i - 1);
    }
  }
}
