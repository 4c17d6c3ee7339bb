/**
 The hazard-avoiding search: a greedy walk over a lattice of 50-unit steps that keeps inside a
 disc of 30 m around the target, outside the hazards, and off the points already taken.

 The walk uses the ground only through two questions, the squared distance of a point from the
 target and whether the point is clear of the hazards; the lemmas about walks are stated for any
 such `Ground`, and `Squared` lists the facts about squared distances that they need.
 */
module SafePath {
  import opened Geometry
  import opened Pigeonhole

  const RANGE: int := 30
  const HAZARD: int := 4
  const ARRIVED: int := 2
  const SIDE: nat := 60

  datatype Ground = Ground(dist: Point -> int, clear: Point -> bool)

  /** `h` lies within 4 m of `p`. */
  predicate Within(p: Point, h: Point) { D2(p, h) <= M2(4) }

  /**
   The ground of a search: a point is clear if it is at least 4 m from every hazard, not counting
   those within 4 m of the player or of the target.
   */
  function SearchGround(hazards: seq<Point>, person: Point, target: Point): Ground {
    Ground(p => D2(p, target),
           p => forall h :: h in hazards && !Within(person, h) && !Within(target, h) ==> M2(4) <= D2(p, h))
  }

  function GroundOf(hazards: seq<Point>, target: Point): Ground {
    Ground(p => D2(p, target), p => ClearBy(hazards, p, HAZARD))
  }

  /** The hazards farther than 4 m from `p`. */
  function Drop(hazards: seq<Point>, p: Point): seq<Point> {
    Keep(hazards, h => M2(HAZARD) < D2(p, h))
  }

  /** The hazards left after those within 4 m of the player and of the target are dropped. */
  function Remaining(hazards: seq<Point>, person: Point, target: Point): seq<Point> {
    Drop(Drop(hazards, person), target)
  }

  /** `visited` is compared by x and y only. */
  predicate Visited(visited: seq<Point>, q: Point) {
    exists v :: v in visited && v.x == q.x && v.y == q.y
  }

  /** Inside the open disc around the target. */
  predicate InDisc(g: Ground, p: Point) {
    g.dist(p) < M2(RANGE)
  }

  /** A point the walk may step on. */
  predicate Open(g: Ground, visited: seq<Point>, q: Point) {
    InDisc(g, q) && g.clear(q) && !Visited(visited, q)
  }

  predicate Near(g: Ground, p: Point) {
    g.dist(p) <= M2(ARRIVED)
  }

  function At(start: Point, w: seq<Point>, i: nat): Point
    requires i <= |w|
  {
    if i == 0 then start else w[i - 1]
  }

  /** `q` is an open neighbour of `p`, and none is nearer to the target. */
  ghost predicate BestStep(g: Ground, visited: seq<Point>, p: Point, q: Point) {
    && Adjacent(p, q) && Open(g, visited, q)
    && forall n :: Adjacent(p, n) && Open(g, visited, n) ==> g.dist(q) <= g.dist(n)
  }

  /** Step `i` leaves a point not yet near the target for a best open neighbour. */
  ghost predicate GreedyStep(g: Ground, start: Point, w: seq<Point>, i: nat)
    requires i < |w|
  {
    !Near(g, At(start, w, i)) && BestStep(g, w[..i], At(start, w, i), w[i])
  }

  ghost predicate GreedyWalk(g: Ground, start: Point, w: seq<Point>) {
    forall i :: 0 <= i < |w| ==> GreedyStep(g, start, w, i)
  }

  /** The walk ends away from the target with no open neighbour. */
  ghost predicate Stuck(g: Ground, start: Point, w: seq<Point>) {
    var p := At(start, w, |w|);
    !Near(g, p) && forall n :: Adjacent(p, n) ==> !Open(g, w, n)
  }

  /** Some greedy walk ends with nowhere to go. */
  ghost predicate GetsStuck(g: Ground, start: Point) {
    exists w :: GreedyWalk(g, start, w) && Stuck(g, start, w)
  }

  /** The walk before the target in a path that was found. */
  function WalkOf(ret: seq<Point>): seq<Point>
    requires ret != []
  {
    ret[..|ret| - 1]
  }

  /**
   What the search returns: nothing if it got stuck, or else a greedy walk and the target, the walk
   ending near the target unless the game was found stopped there.
   */
  ghost predicate Outcome(g: Ground, target: Point, start: Point, ret: seq<Point>, running: nat -> bool) {
    if ret == [] then GetsStuck(g, start)
    else
      && ret[|ret| - 1] == target && GreedyWalk(g, start, WalkOf(ret))
      && (Near(g, At(start, WalkOf(ret), |ret| - 1)) || !running(|ret| - 1))
  }

  ghost predicate Uninterrupted(running: nat -> bool) {
    forall i :: running(i)
  }

  // ----- facts about squared distances

  function Farther(p: Point, target: Point): int {
    if Abs(p.x - target.x) >= Abs(p.y - target.y) then Abs(p.x - target.x) else Abs(p.y - target.y)
  }

  ghost predicate Squared(g: Ground, target: Point) {
    && (forall p {:trigger InDisc(g, p)} :: InDisc(g, p) ==>
          Abs(p.x - target.x) < METRE * RANGE && Abs(p.y - target.y) < METRE * RANGE)
    && (forall p {:trigger Near(g, p), Farther(p, target)} :: !Near(g, p) && Abs(p.z - target.z) <= STEP ==>
          STEP <= Farther(p, target))
    && (forall p {:trigger East(p)} {:trigger West(p)} {:trigger North(p)} {:trigger South(p)} :: StepFacts(g, target, p))
  }

  /** The distances of the four adjacent points. */
  ghost predicate StepFacts(g: Ground, target: Point, p: Point) {
    && g.dist(East(p)) == g.dist(p) + 100 * (p.x - target.x) + 2500
    && g.dist(West(p)) == g.dist(p) - 100 * (p.x - target.x) + 2500
    && g.dist(North(p)) == g.dist(p) + 100 * (p.y - target.y) + 2500
    && g.dist(South(p)) == g.dist(p) - 100 * (p.y - target.y) + 2500
  }

  lemma LevelMeansFar(p: Point, target: Point)
    requires D2(p, target) > M2(ARRIVED) && Abs(p.z - target.z) <= STEP
    ensures STEP <= Farther(p, target)
  {
    if Farther(p, target) < STEP {
      SqMonotone(p.x - target.x, STEP);
      SqMonotone(p.y - target.y, STEP);
      SqMonotone(p.z - target.z, STEP);
    }
  }

  lemma InsideTheSquare(p: Point, target: Point)
    requires D2(p, target) < M2(RANGE)
    ensures Abs(p.x - target.x) < METRE * RANGE && Abs(p.y - target.y) < METRE * RANGE
  {
    SqMonotone(0, p.x - target.x);
    SqMonotone(0, p.y - target.y);
    SqMonotone(0, p.z - target.z);
    assert Sq(p.x - target.x) < M2(RANGE) && Sq(p.y - target.y) < M2(RANGE);
    SqBelow(p.x - target.x, METRE * RANGE);
    SqBelow(p.y - target.y, METRE * RANGE);
  }

  lemma {:induction false} InsideEverywhere(target: Point)
    ensures forall p :: D2(p, target) < M2(RANGE) ==>
      Abs(p.x - target.x) < METRE * RANGE && Abs(p.y - target.y) < METRE * RANGE
    ensures forall p :: M2(ARRIVED) < D2(p, target) && Abs(p.z - target.z) <= STEP ==> STEP <= Farther(p, target)
  {
    forall p | D2(p, target) < M2(RANGE)
      ensures Abs(p.x - target.x) < METRE * RANGE && Abs(p.y - target.y) < METRE * RANGE
    {
      InsideTheSquare(p, target);
    }
    forall p | M2(ARRIVED) < D2(p, target) && Abs(p.z - target.z) <= STEP
      ensures STEP <= Farther(p, target)
    {
      LevelMeansFar(p, target);
    }
  }

  lemma {:induction false} GroundIsSquared(hazards: seq<Point>, target: Point)
    ensures Squared(GroundOf(hazards, target), target)
  {
    InsideEverywhere(target);
    forall p: Point
      ensures StepFacts(GroundOf(hazards, target), target, p)
    {
      AdjacentDistances(p, target);
    }
  }

  // ----- lattice and size bound

  predicate OnLattice(start: Point, p: Point) {
    (p.x - start.x) % STEP == 0 && (p.y - start.y) % STEP == 0 && p.z == start.z
  }

  lemma NeighbourOnLattice(start: Point, p: Point, q: Point)
    requires OnLattice(start, p) && Adjacent(p, q)
    ensures OnLattice(start, q)
  {
  }

  lemma {:induction false} WalkOnLattice(g: Ground, start: Point, w: seq<Point>, i: nat)
    requires GreedyWalk(g, start, w) && i <= |w|
    ensures OnLattice(start, At(start, w, i))
    decreases i
  {
    if i > 0 {
      WalkOnLattice(g, start, w, i - 1);
      assert GreedyStep(g, start, w, i - 1);
      NeighbourOnLattice(start, At(start, w, i - 1), w[i - 1]);
    }
  }

  /** The number of the lattice column (or row) of `v`, counted from the edge of the disc. */
  function Column(v: int, centre: int, origin: int): int {
    (v - origin) / STEP - ((centre - METRE * RANGE - origin) / STEP + 1)
  }

  lemma ColumnBound(v: int, centre: int, origin: int)
    requires (v - origin) % STEP == 0 && centre - METRE * RANGE < v < centre + METRE * RANGE
    ensures 0 <= Column(v, centre, origin) < SIDE
  {
  }

  lemma ColumnIsInjective(u: int, v: int, centre: int, origin: int)
    requires (u - origin) % STEP == 0 && (v - origin) % STEP == 0
    requires Column(u, centre, origin) == Column(v, centre, origin)
    ensures u == v
  {
  }

  function Cell(start: Point, target: Point, p: Point): int {
    Column(p.x, target.x, start.x) * SIDE + Column(p.y, target.y, start.y)
  }

  ghost predicate InSquare(start: Point, target: Point, p: Point) {
    OnLattice(start, p) && Abs(p.x - target.x) < METRE * RANGE && Abs(p.y - target.y) < METRE * RANGE
  }

  lemma CellBound(start: Point, target: Point, p: Point)
    requires InSquare(start, target, p)
    ensures 0 <= Column(p.x, target.x, start.x) < SIDE && 0 <= Column(p.y, target.y, start.y) < SIDE
    ensures 0 <= Cell(start, target, p) < SIDE * SIDE
  {
    ColumnBound(p.x, target.x, start.x);
    ColumnBound(p.y, target.y, start.y);
  }

  lemma Digits(a: int, b: int, c: int, d: int)
    requires 0 <= b < SIDE && 0 <= d < SIDE && a * SIDE + b == c * SIDE + d
    ensures a == c && b == d
  {
  }

  lemma CellIsInjective(start: Point, target: Point, p: Point, q: Point)
    requires InSquare(start, target, p) && InSquare(start, target, q)
    ensures Cell(start, target, p) == Cell(start, target, q) ==> p.x == q.x && p.y == q.y
  {
    if Cell(start, target, p) == Cell(start, target, q) {
      var a, b := Column(p.x, target.x, start.x), Column(p.y, target.y, start.y);
      var c, d := Column(q.x, target.x, start.x), Column(q.y, target.y, start.y);
      CellBound(start, target, p);
      CellBound(start, target, q);
      Digits(a, b, c, d);
      ColumnIsInjective(p.x, q.x, target.x, start.x);
      ColumnIsInjective(p.y, q.y, target.y, start.y);
    }
  }

  ghost predicate NoRepeats(w: seq<Point>) {
    forall i, j :: 0 <= i < j < |w| ==> w[i].x != w[j].x || w[i].y != w[j].y
  }

  lemma {:induction false} WalkNeverRepeats(g: Ground, start: Point, w: seq<Point>)
    requires GreedyWalk(g, start, w)
    ensures NoRepeats(w)
  {
    forall i, j | 0 <= i < j < |w|
      ensures w[i].x != w[j].x || w[i].y != w[j].y
    {
      assert GreedyStep(g, start, w, j);
      assert w[..j][i] == w[i] && w[i] in w[..j];
    }
  }

  /** A walk never repeats a point, stays in the disc and on one lattice, and so has at most 60 * 60 points. */
  lemma {:induction false} WalkIsBounded(g: Ground, target: Point, start: Point, w: seq<Point>)
    requires GreedyWalk(g, start, w) && Squared(g, target)
    ensures NoRepeats(w) && |w| <= SIDE * SIDE
    ensures forall i :: 0 <= i < |w| ==> InDisc(g, w[i]) && OnLattice(start, w[i])
  {
    WalkNeverRepeats(g, start, w);
    forall i | 0 <= i < |w|
      ensures InDisc(g, w[i]) && OnLattice(start, w[i])
    {
      WalkOnLattice(g, start, w, i + 1);
      assert GreedyStep(g, start, w, i);
    }
    var cells := seq(|w|, i requires 0 <= i < |w| => Cell(start, target, w[i]));
    forall i, j | 0 <= i < |w| && 0 <= j < |w|
      ensures 0 <= cells[i] < SIDE * SIDE && (i < j ==> cells[i] != cells[j])
    {
      CellBound(start, target, w[i]);
      CellIsInjective(start, target, w[i], w[j]);
    }
    AtMost(cells, SIDE * SIDE);
  }

  // ----- the search

  lemma {:induction false} NearestExists(g: Ground, dirs: seq<Point>) returns (q: Point)
    requires dirs != []
    ensures q in dirs && forall n :: n in dirs ==> g.dist(q) <= g.dist(n)
  {
    q := dirs[0];
    if |dirs| > 1 {
      var r := NearestExists(g, dirs[1..]);
      q := if g.dist(r) < g.dist(q) then r else q;
      assert forall n :: n in dirs ==> n == dirs[0] || n in dirs[1..];
    }
  }

  lemma {:induction false} GreedyWalkExtends(g: Ground, start: Point, w: seq<Point>, q: Point)
    requires GreedyWalk(g, start, w) && !Near(g, At(start, w, |w|))
    requires BestStep(g, w, At(start, w, |w|), q)
    ensures GreedyWalk(g, start, w + [q])
  {
    var r := w + [q];
    forall i | 0 <= i < |r|
      ensures GreedyStep(g, start, r, i)
    {
      if i < |w| {
        assert GreedyStep(g, start, w, i);
        assert r[..i] == w[..i] && At(start, r, i) == At(start, w, i);
      } else {
        assert r[..i] == w && At(start, r, i) == At(start, w, |w|);
      }
    }
  }

  /** The open neighbours of `cur`: inside the disc, clear of hazards, and not visited. */
  method OpenNeighbours(g: Ground, cur: Point, visited: seq<Point>) returns (dirs: seq<Point>)
    ensures forall n :: n in dirs <==> Adjacent(cur, n) && Open(g, visited, n)
  {
    dirs := Neighbours(cur);
    dirs := Keep(dirs, p => InDisc(g, p));
    dirs := Keep(dirs, p => g.clear(p));
    dirs := Keep(dirs, p => !Visited(visited, p));
  }

  /** The loop of the search on a given ground. */
  method WalkToTarget(g: Ground, person: Point, target: Point, running: nat -> bool) returns (ret: seq<Point>)
    requires Squared(g, target)
    ensures Outcome(g, target, person, ret, running)
  {
    var cur := person;
    ret := [];
    while running(|ret|) && !Near(g, cur)
      invariant GreedyWalk(g, person, ret)
      invariant cur == At(person, ret, |ret|)
      invariant |ret| <= SIDE * SIDE
      decreases SIDE * SIDE - |ret|
    {
      var dirs := OpenNeighbours(g, cur, ret);
      if |dirs| == 0 {
        assert Stuck(g, person, ret);
        ret := [];
        return;
      }
      var _ := NearestExists(g, dirs);
      var next :| next in dirs && forall n :: n in dirs ==> g.dist(next) <= g.dist(n);
      GreedyWalkExtends(g, person, ret, next);
      cur := next;
      ret := ret + [cur];
      WalkIsBounded(g, target, person, ret);
    }
    assert WalkOf(ret + [target]) == ret;
    ret := ret + [target];
  }

  // ----- the search counts exactly the hazards away from player and target

  /** Two grounds that answer alike. */
  ghost predicate SameGround(g: Ground, h: Ground) {
    forall p {:trigger g.dist(p)} {:trigger g.clear(p)} {:trigger h.dist(p)} {:trigger h.clear(p)} ::
      g.dist(p) == h.dist(p) && g.clear(p) == h.clear(p)
  }

  lemma {:induction false} SameWalks(g: Ground, h: Ground, start: Point, w: seq<Point>)
    requires SameGround(g, h) && GreedyWalk(g, start, w)
    ensures GreedyWalk(h, start, w) && (Stuck(g, start, w) ==> Stuck(h, start, w))
  {
    forall i | 0 <= i < |w|
      ensures GreedyStep(h, start, w, i)
    {
      assert GreedyStep(g, start, w, i);
      SameSteps(g, h, w[..i], At(start, w, i), w[i]);
    }
    if Stuck(g, start, w) {
      var p := At(start, w, |w|);
      forall n | Adjacent(p, n)
        ensures !Open(h, w, n)
      {
        assert !Open(g, w, n);
      }
    }
  }

  lemma {:induction false} SameSteps(g: Ground, h: Ground, visited: seq<Point>, p: Point, q: Point)
    requires SameGround(g, h) && BestStep(g, visited, p, q)
    ensures BestStep(h, visited, p, q)
  {
    forall n | Adjacent(p, n) && Open(h, visited, n)
      ensures h.dist(q) <= h.dist(n)
    {
      assert Open(g, visited, n);
    }
  }

  lemma {:induction false} SameOutcome(
    g: Ground, h: Ground, target: Point, start: Point, ret: seq<Point>, running: nat -> bool)
    requires SameGround(g, h) && Outcome(g, target, start, ret, running)
    ensures Outcome(h, target, start, ret, running)
  {
    if ret == [] {
      var w :| GreedyWalk(g, start, w) && Stuck(g, start, w);
      SameWalks(g, h, start, w);
    } else {
      SameWalks(g, h, start, WalkOf(ret));
    }
  }

  lemma {:induction false} RemainingIsSearched(hazards: seq<Point>, person: Point, target: Point)
    ensures SameGround(GroundOf(Remaining(hazards, person, target), target), SearchGround(hazards, person, target))
  {
    var rest := Remaining(hazards, person, target);
    assert forall h :: h in rest <==> h in hazards && !Within(person, h) && !Within(target, h);
  }

  lemma {:induction false} SearchIsSquared(hazards: seq<Point>, person: Point, target: Point)
    ensures Squared(SearchGround(hazards, person, target), target)
  {
    InsideEverywhere(target);
    forall p: Point
      ensures StepFacts(SearchGround(hazards, person, target), target, p)
    {
      AdjacentDistances(p, target);
    }
  }

  /**
   The search.  `running(i)` is what the loop guard reads before step `i` about the game running.
   The loop ends on every input: the lattice points not yet taken become fewer.
   */
  method FindSafePath(turbidGround: seq<Point>, person: Point, target: Point, running: nat -> bool)
    returns (ret: seq<Point>)
    ensures Outcome(SearchGround(turbidGround, person, target), target, person, ret, running)
  {
    var hazards := Drop(turbidGround, person);
    hazards := Drop(hazards, target);
    GroundIsSquared(hazards, target);
    ret := WalkToTarget(GroundOf(hazards, target), person, target, running);
    RemainingIsSearched(turbidGround, person, target);
    SameOutcome(GroundOf(hazards, target), SearchGround(turbidGround, person, target), target, person, ret, running);
  }

  /** Every path the search returns: bounded, free of repetitions, one lattice, one disc. */
  lemma {:induction false} PathIsBounded(
    hazards: seq<Point>, target: Point, start: Point, ret: seq<Point>, running: nat -> bool)
    requires Outcome(SearchGround(hazards, start, target), target, start, ret, running) && ret != []
    ensures |ret| <= 60 * 60 + 1 && NoRepeats(WalkOf(ret))
    ensures forall p :: p in WalkOf(ret) ==> D2(p, target) < M2(30) && OnLattice(start, p)
  {
    var g, w := SearchGround(hazards, start, target), WalkOf(ret);
    SearchIsSquared(hazards, start, target);
    WalkIsBounded(g, target, start, w);
    forall p | p in w
      ensures D2(p, target) < M2(RANGE) && OnLattice(start, p)
    {
      var i :| 0 <= i < |w| && w[i] == p;
      assert InDisc(g, w[i]);
    }
  }
}
