/**
 The patrol shared by the farming functions: walk out along the points doing a job at each, walk
 back doing it again, until the job reports completion; then only walk back.
 */
module Patrol {

  /** The n-th call of the job, made after `visits` moves while standing at `point`. */
  datatype Call = Call(point: nat, visits: nat, done: bool)

  /** The moves made and the calls of the job, in order. */
  datatype Trace = Trace(visits: seq<nat>, calls: seq<Call>)

  /** Moves go to the same or a neighbouring point, starting from point 0. */
  ghost predicate Smooth(visits: seq<nat>) {
    && (visits != [] ==> visits[0] == 0)
    && forall k :: 0 < k < |visits| ==> ShortMove(visits, k)
  }

  ghost predicate ShortMove(visits: seq<nat>, k: nat)
    requires 0 < k < |visits|
  {
    visits[k - 1] <= visits[k] + 1 && visits[k] <= visits[k - 1] + 1
  }

  /** Calls are made at the point just moved to, answer as the oracle says, and end with the first success. */
  ghost predicate Orderly(t: Trace, oracle: nat -> bool) {
    forall k :: 0 <= k < |t.calls| ==>
      && 0 < t.calls[k].visits <= |t.visits| && t.calls[k].point == t.visits[t.calls[k].visits - 1]
      && t.calls[k].done == oracle(k)
      && (t.calls[k].done ==> k == |t.calls| - 1)
  }

  predicate Finished(t: Trace) {
    t.calls != [] && t.calls[|t.calls| - 1].done
  }

  ghost predicate StandsAt(t: Trace, p: nat) {
    t.visits != [] && t.visits[|t.visits| - 1] == p
  }

  function Go(t: Trace, p: nat): Trace { t.(visits := t.visits + [p]) }

  function Ask(t: Trace, p: nat, done: bool): Trace { t.(calls := t.calls + [Call(p, |t.visits|, done)]) }

  /** What holds between rounds: the walker has not moved yet or is back at point 0. */
  ghost predicate AtHome(t: Trace, oracle: nat -> bool) {
    Smooth(t.visits) && Orderly(t, oracle) && (t.visits != [] ==> StandsAt(t, 0))
  }

  ghost predicate Extends(t0: Trace, t: Trace) {
    t0.visits <= t.visits && t0.calls <= t.calls
  }

  lemma Moved(t: Trace, p: nat, oracle: nat -> bool)
    requires Smooth(t.visits) && Orderly(t, oracle)
    requires t.visits == [] ==> p == 0
    requires t.visits != [] ==> var q := t.visits[|t.visits| - 1]; q <= p + 1 && p <= q + 1
    ensures Smooth(Go(t, p).visits) && Orderly(Go(t, p), oracle) && StandsAt(Go(t, p), p)
    ensures Extends(t, Go(t, p)) && Finished(Go(t, p)) == Finished(t)
  {
    var r := Go(t, p);
    forall k | 0 < k < |r.visits|
      ensures ShortMove(r.visits, k)
    {
      assert k < |t.visits| ==> ShortMove(t.visits, k);
    }
  }

  lemma Asked(t: Trace, p: nat, oracle: nat -> bool)
    requires Orderly(t, oracle) && StandsAt(t, p) && !Finished(t)
    ensures
      var r := Ask(t, p, oracle(|t.calls|));
      Orderly(r, oracle) && Extends(t, r) && Finished(r) == oracle(|t.calls|)
  {
  }

  /** Move to `p`, call the job there, and move to `p` again: the body of the way out. */
  lemma {:induction false} OutStep(t: Trace, p: nat, oracle: nat -> bool)
    requires Smooth(t.visits) && Orderly(t, oracle) && !Finished(t)
    requires if t.visits == [] then p == 0 else StandsAt(t, p) || (p > 0 && StandsAt(t, p - 1))
    ensures
      var r := Go(Ask(Go(t, p), p, oracle(|t.calls|)), p);
      Smooth(r.visits) && Orderly(r, oracle) && StandsAt(r, p) && Extends(t, r) && Finished(r) == oracle(|t.calls|)
  {
    Moved(t, p, oracle);
    Asked(Go(t, p), p, oracle);
    Moved(Ask(Go(t, p), p, oracle(|t.calls|)), p, oracle);
  }

  /** Move to `p` and call the job there, moving again if it succeeds: the body of the way back. */
  function BackStep(t: Trace, p: nat, oracle: nat -> bool): Trace {
    var r := Go(t, p);
    if Finished(t) then r
    else
      var asked := Ask(r, p, oracle(|t.calls|));
      if oracle(|t.calls|) then Go(asked, p) else asked
  }

  lemma {:induction false} BackStepKeeps(t: Trace, p: nat, oracle: nat -> bool)
    requires Smooth(t.visits) && Orderly(t, oracle) && (StandsAt(t, p) || StandsAt(t, p + 1))
    ensures
      var r := BackStep(t, p, oracle);
      && Smooth(r.visits) && Orderly(r, oracle) && StandsAt(r, p) && Extends(t, r)
      && (if Finished(t) then r.calls == t.calls else |r.calls| == |t.calls| + 1)
      && Finished(r) == (Finished(t) || oracle(|t.calls|))
  {
    Moved(t, p, oracle);
    if !Finished(t) {
      Asked(Go(t, p), p, oracle);
      if oracle(|t.calls|) {
        Moved(Ask(Go(t, p), p, true), p, oracle);
      }
    }
  }

  /** Where call `j` of a round over `n` points is made: out over 0 .. n - 1, back over n - 1 .. 0. */
  function PointOfCall(n: nat, j: nat): int {
    if j < n then j else 2 * n - 1 - j
  }

  /** How many moves of the round come before call `j`: two for each point out, one for each point back. */
  function MovesBefore(n: nat, j: nat): nat {
    if j < n then 2 * j + 1 else n + j + 1
  }

  /** Call `k + j`, in a round that began with `k` calls and `v` moves, is call `j` of the round. */
  ghost predicate CallInRound(t: Trace, n: nat, k: nat, v: nat, j: nat)
    requires k + j < |t.calls|
  {
    t.calls[k + j].point == PointOfCall(n, j) && t.calls[k + j].visits == v + MovesBefore(n, j)
  }

  /** The round has made `upTo` calls, each where and when it should be. */
  ghost predicate InOrder(t: Trace, n: nat, k: nat, v: nat, upTo: nat) {
    k + upTo == |t.calls| && forall j :: 0 <= j < upTo ==> CallInRound(t, n, k, v, j)
  }

  /** The moves after a successful call `j` of the round: one more to its point, and back to point 0. */
  function MovesLeft(n: nat, j: nat): int {
    if j < n then j + 2 else 2 * n - j
  }

  lemma {:induction false} InOrderGoes(t: Trace, n: nat, k: nat, v: nat, upTo: nat, p: nat)
    requires InOrder(t, n, k, v, upTo)
    ensures InOrder(Go(t, p), n, k, v, upTo)
  {
    forall j | 0 <= j < upTo
      ensures CallInRound(Go(t, p), n, k, v, j)
    {
      assert CallInRound(t, n, k, v, j);
    }
  }

  lemma {:induction false} InOrderAsks(t: Trace, n: nat, k: nat, v: nat, upTo: nat, done: bool)
    requires InOrder(t, n, k, v, upTo) && PointOfCall(n, upTo) >= 0 && |t.visits| == v + MovesBefore(n, upTo)
    ensures InOrder(Ask(t, PointOfCall(n, upTo), done), n, k, v, upTo + 1)
  {
    var r := Ask(t, PointOfCall(n, upTo), done);
    forall j | 0 <= j < upTo + 1
      ensures CallInRound(r, n, k, v, j)
    {
      if j < upTo {
        assert CallInRound(t, n, k, v, j);
      }
    }
  }

  /** The way out: one call at each point until one succeeds; `nIndex` is the loop variable afterwards. */
  method WalkOut(n: nat, oracle: nat -> bool, t0: Trace) returns (t: Trace, nIndex: nat)
    requires n > 0 && AtHome(t0, oracle) && !Finished(t0)
    ensures Smooth(t.visits) && Orderly(t, oracle) && Extends(t0, t)
    ensures 0 < nIndex <= n && StandsAt(t, nIndex - 1) && (!Finished(t) ==> nIndex == n)
    ensures InOrder(t, n, |t0.calls|, |t0.visits|, nIndex) && |t.visits| == |t0.visits| + 2 * nIndex
  {
    t, nIndex := t0, 0;
    ghost var k, v := |t0.calls|, |t0.visits|;
    var complete := false;
    while nIndex < n && !complete
      invariant 0 <= nIndex <= n && Smooth(t.visits) && Orderly(t, oracle) && Extends(t0, t)
      invariant if nIndex == 0 then t == t0 else StandsAt(t, nIndex - 1)
      invariant complete == Finished(t) && (complete ==> nIndex > 0)
      invariant InOrder(t, n, k, v, nIndex) && |t.visits| == v + 2 * nIndex
    {
      OutStep(t, nIndex, oracle);
      InOrderGoes(t, n, k, v, nIndex, nIndex);
      t := Go(t, nIndex);
      var done := oracle(|t.calls|);
      InOrderAsks(t, n, k, v, nIndex, done);
      t := Ask(t, nIndex, done);
      if done {
        complete := true;
      }
      InOrderGoes(t, n, k, v, nIndex + 1, nIndex);
      t := Go(t, nIndex);
      nIndex := nIndex + 1;
    }
  }

  /** The moves of a round whose walker has come back to point `i + 1`. */
  ghost predicate Paced(t: Trace, n: nat, k: nat, v: nat, i: int) {
    && |t.calls| > k
    && var m := |t.calls| - k;
       && m <= 2 * n
       && if Finished(t) then |t.visits| == v + MovesBefore(n, m - 1) + MovesLeft(n, m - 1) - (i + 1)
          else m == 2 * n - 1 - i && |t.visits| == v + n + m
  }

  /** What one step of the way back makes of the round. */
  lemma {:induction false} BackStepInRound(t: Trace, n: nat, k: nat, v: nat, i: nat, oracle: nat -> bool)
    requires i < n && Orderly(t, oracle) && k < |t.calls|
    requires InOrder(t, n, k, v, |t.calls| - k) && Paced(t, n, k, v, i)
    ensures var r := BackStep(t, i, oracle);
      k < |r.calls| && InOrder(r, n, k, v, |r.calls| - k) && Paced(r, n, k, v, i - 1)
  {
    var m := |t.calls| - k;
    InOrderGoes(t, n, k, v, m, i);
    if !Finished(t) {
      var done := oracle(|t.calls|);
      assert i == PointOfCall(n, m);
      InOrderAsks(Go(t, i), n, k, v, m, done);
      if done {
        InOrderGoes(Ask(Go(t, i), i, done), n, k, v, m + 1, i);
      }
    }
  }

  /** One step of the way back. */
  method StepBack(i: nat, oracle: nat -> bool, t0: Trace, complete0: bool) returns (t: Trace, complete: bool)
    requires complete0 == Finished(t0)
    ensures t == BackStep(t0, i, oracle) && complete == Finished(t)
  {
    t, complete := Go(t0, i), complete0;
    if !complete {
      var done := oracle(|t.calls|);
      t := Ask(t, i, done);
      if done {
        complete := true;
        t := Go(t, i);
      }
    }
  }

  /** On the way back, with the points above `i` behind. */
  ghost predicate Returning(t: Trace, n: nat, oracle: nat -> bool, k: nat, v: nat, i: int) {
    && Smooth(t.visits) && Orderly(t, oracle)
    && (i >= 0 ==> StandsAt(t, i + 1) || StandsAt(t, i))
    && k < |t.calls| && InOrder(t, n, k, v, |t.calls| - k) && Paced(t, n, k, v, i)
  }

  lemma {:induction false} ReturningStep(t: Trace, n: nat, oracle: nat -> bool, k: nat, v: nat, i: nat)
    requires i < n && Returning(t, n, oracle, k, v, i)
    ensures var r := BackStep(t, i, oracle);
      Returning(r, n, oracle, k, v, i - 1) && StandsAt(r, i) && Extends(t, r) && (Finished(t) ==> r.calls == t.calls)
  {
    BackStepKeeps(t, i, oracle);
    BackStepInRound(t, n, k, v, i, oracle);
  }

  lemma ExtendsTwice(t0: Trace, t: Trace, r: Trace)
    requires Extends(t0, t) && Extends(t, r)
    ensures Extends(t0, r)
  {
  }

  /** The way back from point `nIndex - 1`: one call at each point, unless the job has succeeded. */
  method WalkBack(n: nat, nIndex: nat, oracle: nat -> bool, t0: Trace, ghost k: nat, ghost v: nat) returns (t: Trace)
    requires 0 < nIndex <= n && Smooth(t0.visits) && Orderly(t0, oracle) && StandsAt(t0, nIndex - 1)
    requires InOrder(t0, n, k, v, nIndex) && |t0.visits| == v + 2 * nIndex && (!Finished(t0) ==> nIndex == n)
    ensures AtHome(t, oracle) && StandsAt(t, 0) && Extends(t0, t)
    ensures k < |t.calls| && InOrder(t, n, k, v, |t.calls| - k) && Paced(t, n, k, v, -1)
    ensures Finished(t0) ==> t.calls == t0.calls
  {
    t := t0;
    var complete := Finished(t0);
    var i: int := nIndex - 1;
    while i >= 0
      invariant -1 <= i < nIndex && complete == Finished(t)
      invariant Returning(t, n, oracle, k, v, i) && Extends(t0, t)
      invariant i < nIndex - 1 ==> StandsAt(t, i + 1)
      invariant Finished(t0) ==> t.calls == t0.calls
    {
      ghost var before := t;
      ReturningStep(t, n, oracle, k, v, i);
      t, complete := StepBack(i, oracle, t, complete);
      ExtendsTwice(t0, before, t);
      i := i - 1;
    }
  }

  /** One round over `n` points: out until the job succeeds or the points end, and back to point 0. */
  method Round(n: nat, oracle: nat -> bool, t0: Trace) returns (t: Trace, complete: bool)
    requires n > 0 && AtHome(t0, oracle) && !Finished(t0)
    ensures AtHome(t, oracle) && StandsAt(t, 0) && Extends(t0, t)
    ensures complete <==> Finished(t)
    ensures |t0.calls| < |t.calls| <= |t0.calls| + 2 * n
    ensures InOrder(t, n, |t0.calls|, |t0.visits|, |t.calls| - |t0.calls|)
    ensures Paced(t, n, |t0.calls|, |t0.visits|, -1)
  {
    var out, nIndex := WalkOut(n, oracle, t0);
    t := WalkBack(n, nIndex, oracle, out, |t0.calls|, |t0.visits|);
    complete := Finished(t);
  }

  /** Call `q` of the whole patrol, in round `q / (2n)`. */
  ghost predicate CallInPatrol(t: Trace, n: nat, q: nat)
    requires n > 0 && q < |t.calls|
  {
    var j := q % (2 * n);
    t.calls[q].point == PointOfCall(n, j) && t.calls[q].visits == q / (2 * n) * (3 * n) + MovesBefore(n, j)
  }

  lemma PlaceInRounds(n: nat, r: nat, j: nat)
    requires n > 0 && j < 2 * n
    ensures (r * (2 * n) + j) % (2 * n) == j && (r * (2 * n) + j) / (2 * n) == r
  {
    var d := 2 * n;
    DivisionIsUnique(r * d + j, d, r, j);
  }

  lemma DivisionIsUnique(a: nat, d: nat, r: nat, j: nat)
    requires d > 0 && a == r * d + j && j < d
    ensures a / d == r && a % d == j
  {
    var q := a / d;
    assert a == q * d + a % d;
    if q < r {
      Scale(q + 1, r, d);
    } else if r < q {
      Scale(r + 1, q, d);
    }
  }

  lemma Scale(p: nat, q: nat, d: nat)
    requires p <= q
    ensures p * d <= q * d
  {
  }

  /** A round adds its calls to a patrol of whole rounds. */
  lemma {:induction false} RoundInPatrol(t0: Trace, t: Trace, n: nat, r: nat)
    requires n > 0 && |t0.calls| == r * (2 * n) && |t0.visits| == r * (3 * n) && Extends(t0, t)
    requires forall q :: 0 <= q < |t0.calls| ==> CallInPatrol(t0, n, q)
    requires |t0.calls| < |t.calls| <= |t0.calls| + 2 * n
    requires InOrder(t, n, |t0.calls|, |t0.visits|, |t.calls| - |t0.calls|)
    ensures forall q :: 0 <= q < |t.calls| ==> CallInPatrol(t, n, q)
  {
    forall q | 0 <= q < |t.calls|
      ensures CallInPatrol(t, n, q)
    {
      if q < |t0.calls| {
        assert CallInPatrol(t0, n, q) && t.calls[q] == t0.calls[q];
      } else {
        var j := q - |t0.calls|;
        PlaceInRounds(n, r, j);
        assert CallInRound(t, n, |t0.calls|, |t0.visits|, j);
      }
    }
  }

  /** The moves of a whole patrol of `r` rounds. */
  ghost predicate PacedPatrol(t: Trace, n: nat, r: nat, complete: bool)
    requires n > 0
  {
    if complete then
      && t.calls != []
      && |t.visits| == t.calls[|t.calls| - 1].visits + MovesLeft(n, (|t.calls| - 1) % (2 * n))
    else |t.calls| == r * (2 * n) && |t.visits| == r * (3 * n)
  }

  lemma {:induction false} RoundPaces(t0: Trace, t: Trace, n: nat, r: nat)
    requires n > 0 && |t0.calls| == r * (2 * n) && |t0.visits| == r * (3 * n)
    requires |t0.calls| < |t.calls| <= |t0.calls| + 2 * n
    requires InOrder(t, n, |t0.calls|, |t0.visits|, |t.calls| - |t0.calls|)
    requires Paced(t, n, |t0.calls|, |t0.visits|, -1)
    ensures PacedPatrol(t, n, r + 1, Finished(t))
    ensures |t.calls| <= (r + 1) * (2 * n)
  {
    var j := |t.calls| - |t0.calls| - 1;
    PlaceInRounds(n, r, j);
    assert CallInRound(t, n, |t0.calls|, |t0.visits|, j);
    assert (r + 1) * (2 * n) == r * (2 * n) + 2 * n && (r + 1) * (3 * n) == r * (3 * n) + 3 * n;
  }

  /** What holds after `r` rounds. */
  ghost predicate Patrolled(t: Trace, n: nat, oracle: nat -> bool, r: nat, complete: bool)
    requires n > 0
  {
    && AtHome(t, oracle) && complete == Finished(t) && |t.calls| <= r * (2 * n) && (r > 0 ==> StandsAt(t, 0))
    && (forall q :: 0 <= q < |t.calls| ==> CallInPatrol(t, n, q))
    && PacedPatrol(t, n, r, complete)
  }

  lemma {:induction false} SucceedsIffOracle(t: Trace, n: nat, oracle: nat -> bool, r: nat, rounds: nat, complete: bool)
    requires n > 0 && Patrolled(t, n, oracle, r, complete) && r <= rounds && (complete || r == rounds)
    ensures complete <==> exists q :: 0 <= q < rounds * (2 * n) && oracle(q)
  {
    Scale(r, rounds, 2 * n);
    if complete {
      assert oracle(|t.calls| - 1);
    } else {
      forall q | 0 <= q < rounds * (2 * n)
        ensures !oracle(q)
      {
        assert t.calls[q].done == oracle(q);
      }
    }
  }

  /**
   Up to `rounds` rounds.  `already` is the check some callers make before setting out.  Call q is
   made at the point where a walk to and fro over the points stands, and after the moves such a walk
   makes; the job is never called again after it reported completion, and the walker goes straight
   back to where it started.
   */
  method FarmAround(n: nat, oracle: nat -> bool, already: bool, rounds: nat) returns (t: Trace, complete: bool)
    requires n > 0
    ensures AtHome(t, oracle)
    ensures already ==> complete && t == Trace([], [])
    ensures !already && rounds > 0 ==> StandsAt(t, 0)
    ensures forall q :: 0 <= q < |t.calls| ==> CallInPatrol(t, n, q)
    ensures !already ==> PacedPatrol(t, n, rounds, complete)
    ensures !already ==> (complete <==> exists q :: 0 <= q < rounds * (2 * n) && oracle(q))
  {
    t, complete := Trace([], []), already;
    if already {
      return;
    }
    var r := 0;
    while r < rounds && !complete
      invariant 0 <= r <= rounds && Patrolled(t, n, oracle, r, complete)
      invariant r == 0 ==> !complete
    {
      ghost var t0 := t;
      t, complete := Round(n, oracle, t);
      RoundInPatrol(t0, t, n, r);
      RoundPaces(t0, t, n, r);
      r := r + 1;
    }
    SucceedsIffOracle(t, n, oracle, r, rounds, complete);
  }
}
