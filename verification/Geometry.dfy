/** Integer points, 50 units to the metre, compared by squared distance. */
module Geometry {

  const METRE: int := 50
  const STEP: int := 50

  datatype Point = Point(x: int, y: int, z: int)

  function Sq(n: int): int { n * n }

  /** The squared length of `m` metres. */
  function M2(m: int): int { Sq(METRE * m) }

  function D2(p: Point, q: Point): int {
    Sq(p.x - q.x) + Sq(p.y - q.y) + Sq(p.z - q.z)
  }

  function Abs(n: int): int { if n < 0 then -n else n }

  function East(p: Point): Point { p.(x := p.x + STEP) }
  function West(p: Point): Point { p.(x := p.x - STEP) }
  function North(p: Point): Point { p.(y := p.y + STEP) }
  function South(p: Point): Point { p.(y := p.y - STEP) }

  /** `q` is one step away from `p` on one axis. */
  predicate Adjacent(p: Point, q: Point) {
    q == East(p) || q == West(p) || q == North(p) || q == South(p)
  }

  /** The adjacent points, in the order the program lists them. */
  function Neighbours(p: Point): (r: seq<Point>)
    ensures forall q :: q in r <==> Adjacent(p, q)
  {
    [East(p), West(p), North(p), South(p)]
  }

  /** Every hazard is at least `m` metres away from `p`. */
  predicate ClearBy(hazards: seq<Point>, p: Point, m: int) {
    forall h :: h in hazards ==> M2(m) <= D2(p, h)
  }

  function Keep(ps: seq<Point>, f: Point -> bool): (r: seq<Point>)
    ensures forall p :: p in r <==> p in ps && f(p)
    ensures |r| <= |ps|
  {
    if ps == [] then []
    else if f(ps[0]) then [ps[0]] + Keep(ps[1..], f) else Keep(ps[1..], f)
  }

  lemma {:induction false} KeepAll(ps: seq<Point>, f: Point -> bool)
    requires forall p :: p in ps ==> f(p)
    ensures Keep(ps, f) == ps
  {
    if ps != [] {
      KeepAll(ps[1..], f);
    }
  }

  lemma SqMonotone(a: int, b: int)
    requires Abs(a) <= Abs(b)
    ensures Sq(a) <= Sq(b)
  {
  }

  lemma SqBelow(a: int, b: int)
    requires b >= 0 && Sq(a) < Sq(b)
    ensures Abs(a) < b
  {
  }

  lemma SqShift(a: int)
    ensures Sq(a + 50) == Sq(a) + 100 * a + 2500
    ensures Sq(a - 50) == Sq(a) - 100 * a + 2500
  {
  }

  /** The adjacent points' squared distances, written out. */
  lemma AdjacentDistances(p: Point, t: Point)
    ensures D2(East(p), t) == D2(p, t) + 100 * (p.x - t.x) + 2500
    ensures D2(West(p), t) == D2(p, t) - 100 * (p.x - t.x) + 2500
    ensures D2(North(p), t) == D2(p, t) + 100 * (p.y - t.y) + 2500
    ensures D2(South(p), t) == D2(p, t) - 100 * (p.y - t.y) + 2500
  {
    SqShift(p.x - t.x);
    SqShift(p.y - t.y);
    assert p.x + STEP - t.x == p.x - t.x + 50 && p.y + STEP - t.y == p.y - t.y + 50;
  }
}
