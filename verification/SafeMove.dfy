/** Choosing a safe point, and the melee move that walks to it. */
module SafeMove {
  import opened Geometry
  import opened Optional
  import opened SafePath

  /** What `MeleeMove` decides: follow a path, close in on the boss, or stay. */
  datatype Move = Follow(path: seq<Point>) | Approach | Stay

  const ARENA: int := 15
  const FIRST_RING: int := 12
  const LAST_RING: int := 30
  const BEST_LEVEL: int := 14
  const WORST_LEVEL: int := 10
  const BODY_SIZE: int := 2

  /** The first hazard in the list that is nearer than 4 m to `p`. */
  ghost predicate IsFirstHit(hazards: seq<Point>, p: Point, hit: Option<Point>) {
    match hit
    case None => ClearBy(hazards, p, 4)
    case Some(h) =>
      exists i :: 0 <= i < |hazards| && hazards[i] == h && D2(p, h) < M2(4) && ClearBy(hazards[..i], p, 4)
  }

  method ContainTurbidGround(hazards: seq<Point>, p: Point) returns (hit: Option<Point>)
    ensures IsFirstHit(hazards, p, hit)
  {
    for i := 0 to |hazards|
      invariant ClearBy(hazards[..i], p, HAZARD)
    {
      if D2(p, hazards[i]) < M2(HAZARD) {
        return Some(hazards[i]);
      }
      assert hazards[..i + 1] == hazards[..i] + [hazards[i]];
    }
    assert hazards[..|hazards|] == hazards;
    return None;
  }

  /** `p` lies on one of the rings around the hazard and inside the arena. */
  ghost predicate Candidate(arena: Point, ring: int -> seq<Point>, radius: int, p: Point) {
    12 <= radius <= 30 && p in ring(radius) && D2(arena, p) < M2(15)
  }

  /** No candidate on a ring of radius below `radius` is clear by `level` metres. */
  ghost predicate NoneBelow(hazards: seq<Point>, arena: Point, ring: int -> seq<Point>, level: int, radius: int) {
    forall r, p :: Candidate(arena, ring, r, p) && r < radius ==> !ClearBy(hazards, p, level)
  }

  /** Of the points of one ring `p` is the first inside the arena that is clear by `level`. */
  ghost predicate FirstOfRing(hazards: seq<Point>, arena: Point, round: seq<Point>, level: int, p: Point) {
    exists k :: 0 <= k < |round| && round[k] == p && NoneBefore(hazards, arena, round, level, k)
  }

  ghost predicate NoneBefore(hazards: seq<Point>, arena: Point, round: seq<Point>, level: int, k: nat)
    requires k <= |round|
  {
    forall j :: 0 <= j < k ==> D2(arena, round[j]) >= M2(15) || !ClearBy(hazards, round[j], level)
  }

  /** `p` is the first candidate clear by `level` on the innermost ring that has one. */
  ghost predicate InnermostAt(hazards: seq<Point>, arena: Point, ring: int -> seq<Point>, level: int, p: Point) {
    ClearBy(hazards, p, level) && exists r ::
      && Candidate(arena, ring, r, p) && NoneBelow(hazards, arena, ring, level, r)
      && FirstOfRing(hazards, arena, ring(r), level, p)
  }

  /** No candidate on any ring is clear by `level`. */
  ghost predicate NoCandidate(hazards: seq<Point>, arena: Point, ring: int -> seq<Point>, level: int) {
    NoneBelow(hazards, arena, ring, level, 31)
  }

  /** The inner search of `FindSafePoint`: the first candidate on the innermost ring that is clear by `level`. */
  method FindAtLevel(hazards: seq<Point>, arena: Point, ring: int -> seq<Point>, level: int, running: (int, int) -> bool)
    returns (found: Option<Point>)
    ensures found.Some? ==> InnermostAt(hazards, arena, ring, level, found.value)
    ensures found.None? ==>
      || NoCandidate(hazards, arena, ring, level)
      || exists r :: 12 <= r <= 30 && !running(level, r) && NoneBelow(hazards, arena, ring, level, r)
  {
    var i := FIRST_RING;
    while i <= LAST_RING && running(level, i)
      invariant FIRST_RING <= i <= LAST_RING + 1
      invariant NoneBelow(hazards, arena, ring, level, i)
    {
      var round := ring(i);
      for k := 0 to |round|
        invariant NoneBefore(hazards, arena, round, level, k)
      {
        if D2(arena, round[k]) >= M2(ARENA) {
          continue;
        }
        var contained := IsContained(hazards, round[k], level);
        if !contained {
          assert Candidate(arena, ring, i, round[k]) && FirstOfRing(hazards, arena, round, level, round[k]);
          return Some(round[k]);
        }
      }
      i := i + 1;
    }
    return None;
  }

  method IsContained(hazards: seq<Point>, p: Point, level: int) returns (contained: bool)
    ensures contained <==> !ClearBy(hazards, p, level)
  {
    for i := 0 to |hazards|
      invariant forall j :: 0 <= j < i ==> M2(level) <= D2(p, hazards[j])
    {
      if D2(p, hazards[i]) < M2(level) {
        return true;
      }
    }
    return false;
  }

  ghost predicate NeverStopped(running: (int, int) -> bool) {
    forall l, r :: running(l, r)
  }

  /** `p` is clear by `level`, from 14 down to 10, and no candidate reaches a higher level. */
  ghost predicate BestAt(hazards: seq<Point>, arena: Point, ring: int -> seq<Point>, level: int, p: Point, complete: bool) {
    && 10 <= level <= 14
    && InnermostAt(hazards, arena, ring, level, p)
    && (complete ==> forall c :: level < c <= 14 ==> NoCandidate(hazards, arena, ring, c))
  }

  /**
   Tries the clearance levels 14 to 10.  `ring(i)` is the list of points at `i` metres around the
   hazard.  The answer has the best level any candidate reaches.
   */
  method FindSafePoint(hazards: seq<Point>, arena: Point, ring: int -> seq<Point>, running: (int, int) -> bool)
    returns (found: Option<Point>)
    ensures found.Some? ==> exists level :: BestAt(hazards, arena, ring, level, found.value, NeverStopped(running))
    ensures found.None? && NeverStopped(running) ==>
      forall c :: 10 <= c <= 14 ==> NoCandidate(hazards, arena, ring, c)
  {
    var i := BEST_LEVEL;
    while i >= WORST_LEVEL
      invariant WORST_LEVEL - 1 <= i <= BEST_LEVEL
      invariant NeverStopped(running) ==> forall c :: i < c <= BEST_LEVEL ==> NoCandidate(hazards, arena, ring, c)
    {
      found := FindAtLevel(hazards, arena, ring, i, running);
      if found.Some? {
        assert BestAt(hazards, arena, ring, i, found.value, NeverStopped(running));
        return;
      }
      i := i - 1;
    }
    found := None;
  }

  lemma ClearanceIsMonotone(hazards: seq<Point>, p: Point, high: int, low: int)
    requires ClearBy(hazards, p, high) && 0 <= low <= high
    ensures ClearBy(hazards, p, low)
  {
  }

  lemma FarFromTarget(hazards: seq<Point>, target: Point)
    requires ClearBy(hazards, target, WORST_LEVEL)
    ensures forall h :: h in hazards ==> !Within(target, h)
  {
  }

  /** At 10 m clearance the removal of hazards around the target removes nothing. */
  lemma {:induction false} TargetKeepsHazards(hazards: seq<Point>, person: Point, target: Point)
    requires ClearBy(hazards, target, WORST_LEVEL)
    ensures Remaining(hazards, person, target) == Drop(hazards, person)
    ensures forall h :: h in Remaining(hazards, person, target) <==> h in hazards && M2(HAZARD) < D2(person, h)
  {
    var rest := Drop(hazards, person);
    FarFromTarget(rest, target);
    KeepAll(rest, h => M2(HAZARD) < D2(target, h));
  }

  /** Consecutive points differ by one step on one axis, starting next to `start`. */
  ghost predicate IsChain(start: Point, w: seq<Point>) {
    forall i :: 0 <= i < |w| ==> Adjacent(At(start, w, i), w[i])
  }

  /** A path is a chain of steps followed by the target, clear of every hazard the start was clear of. */
  ghost predicate SafeRoute(hazards: seq<Point>, person: Point, path: seq<Point>) {
    path != [] ==>
      && IsChain(person, WalkOf(path))
      && forall p, h :: p in path && h in hazards && M2(4) < D2(person, h) ==> M2(4) <= D2(p, h)
  }

  /** Composition: the path to a point with 10 m clearance is safe all the way. */
  lemma {:induction false} PathToSafePointIsSafe(
    hazards: seq<Point>, person: Point, target: Point, path: seq<Point>, running: nat -> bool)
    requires ClearBy(hazards, target, WORST_LEVEL)
    requires Outcome(SearchGround(hazards, person, target), target, person, path, running)
    ensures SafeRoute(hazards, person, path)
  {
    if path != [] {
      var g, w := SearchGround(hazards, person, target), WalkOf(path);
      FarFromTarget(hazards, target);
      ClearanceIsMonotone(hazards, target, WORST_LEVEL, HAZARD);
      forall i | 0 <= i < |w|
        ensures Adjacent(At(person, w, i), w[i]) && g.clear(w[i])
      {
        assert GreedyStep(g, person, w, i) && g.clear(w[i]);
      }
      forall p, h | p in path && h in hazards && M2(HAZARD) < D2(person, h)
        ensures M2(HAZARD) <= D2(p, h)
      {
        if p != target {
          assert p in w;
        }
      }
    }
  }

  /** The hazard the move escapes from: one at the player's feet, or else one at the boss's. */
  ghost predicate IsTrouble(hazards: seq<Point>, person: Point, boss: Point, hit: Option<Point>) {
    if ClearBy(hazards, person, 4) then IsFirstHit(hazards, boss, hit) else IsFirstHit(hazards, person, hit)
  }

  /**
   The melee move.  `rings(c)` gives the rings around a hazard `c`; the two oracles say when the
   game is found stopped.  `hit` is the hazard it escapes from.
   */
  method MeleeMove(hazards: seq<Point>, person: Point, boss: Point, arena: Point, rings: Point -> int -> seq<Point>,
                   searching: (int, int) -> bool, walking: nat -> bool)
    returns (move: Move, ghost hit: Option<Point>)
    ensures IsTrouble(hazards, person, boss, hit)
    ensures move.Follow? ==> hit.Some? && SafeRoute(hazards, person, move.path)
    ensures move.Follow? ==> exists target, level ::
      && BestAt(hazards, arena, rings(hit.value), level, target, NeverStopped(searching))
      && Outcome(SearchGround(hazards, person, target), target, person, move.path, walking)
    ensures !move.Follow? ==> move == if D2(person, boss) > M2(7) then Approach else Stay
    ensures !move.Follow? && hit.Some? && NeverStopped(searching) ==>
      NoCandidate(hazards, arena, rings(hit.value), 10)
  {
    var found := ContainTurbidGround(hazards, person);
    if found.None? {
      found := ContainTurbidGround(hazards, boss);
    }
    hit := found;
    if found.Some? {
      var safe := FindSafePoint(hazards, arena, rings(found.value), searching);
      if safe.Some? {
        ghost var level :| BestAt(hazards, arena, rings(found.value), level, safe.value, NeverStopped(searching));
        ClearanceIsMonotone(hazards, safe.value, level, WORST_LEVEL);
        var path := FindSafePath(hazards, person, safe.value, walking);
        PathToSafePointIsSafe(hazards, person, safe.value, path, walking);
        return Follow(path), hit;
      }
    }
    move := if D2(person, boss) > M2(5 + BODY_SIZE) then Approach else Stay;
  }
}
