/**
 Progress of the barrier: what a member decides in a stretch of steps in which nobody else moves.
 */
module TeamGatherProgress {
  import opened TeamGather
  import opened TeamGatherSafety

  /** A fixed environment: which slots are seen disconnected, and the size of the team. */
  datatype Env = Env(lost: set<nat>, team: nat, bestFirst: bool)

  function Sees(m: Member, env: Env): Observation {
    Observation(m.phase.Checking? && m.phase.i in env.lost, false, false, env.team, env.bestFirst)
  }

  /** `n` consecutive steps of member `j` while nobody else moves. */
  function Solo(b: Board, j: nat, env: Env, n: nat): (r: Board)
    requires b.Shape() && j < b.count
    ensures r.Shape() && r.count == b.count
    decreases n
  {
    if n == 0 then b else Solo(StepBy(b, j, Sees(b.members[j], env)), j, env, n - 1)
  }

  function SoloEvents(b: Board, j: nat, env: Env, n: nat): seq<Event>
    requires b.Shape() && j < b.count
    decreases n
  {
    if n == 0 then []
    else [Step(j, Sees(b.members[j], env))] + SoloEvents(StepBy(b, j, Sees(b.members[j], env)), j, env, n - 1)
  }

  /** A solo stretch is one of the interleavings. */
  lemma {:induction false} SoloIsRun(b: Board, j: nat, env: Env, n: nat)
    requires b.Shape() && j < b.count
    ensures Run(b, SoloEvents(b, j, env, n)) == Solo(b, j, env, n)
    decreases n
  {
    if n > 0 {
      var o := Sees(b.members[j], env);
      var es := SoloEvents(b, j, env, n);
      SoloIsRun(StepBy(b, j, o), j, env, n - 1);
      assert es[0] == Step(j, o) && es[1..] == SoloEvents(StepBy(b, j, o), j, env, n - 1);
    }
  }

  lemma StepNeverForms(b: Board, j: nat, o: Observation)
    requires b.Shape() && j < b.count && !b.members[j].phase.Forming?
    ensures !StepBy(b, j, o).members[j].phase.Forming? && !Zeroing(b, j)
  {
  }

  lemma {:induction false} AdmissibleFirst(policy: Policy, b: Board, e: Event, es: seq<Event>)
    requires b.Shape() && Permitted(policy, b, e) && Admissible(policy, Next(b, e), es)
    ensures Admissible(policy, b, [e] + es)
  {
    assert ([e] + es)[1..] == es;
  }

  /** A solo stretch inside the call zeroes no slot, and is calm if nobody is seen disconnected. */
  lemma {:induction false} SoloIsAdmissible(policy: Policy, b: Board, j: nat, env: Env, n: nat)
    requires b.Shape() && j < b.count && !b.members[j].phase.Forming? && (policy.calm ==> env.lost == {})
    ensures Admissible(policy, b, SoloEvents(b, j, env, n))
    decreases n
  {
    if n > 0 {
      var o := Sees(b.members[j], env);
      var r := StepBy(b, j, o);
      StepNeverForms(b, j, o);
      SoloIsAdmissible(policy, r, j, env, n - 1);
      AdmissibleFirst(policy, b, Step(j, o), SoloEvents(r, j, env, n - 1));
    }
  }

  function Put(b: Board, j: nat, m: Member): Board
    requires b.Shape() && j < b.count
  {
    b.(members := b.members[j := m])
  }

  /** Steps in between publishing and deciding change the member's local state only. */
  predicate IsLocal(m: Member) {
    InCall(m.phase) && m.phase != Publishing && !m.phase.Deciding?
  }

  /** Member state `m` becomes `r` in `n` undisturbed local steps, the slots standing still. */
  ghost predicate Walks(p: seq<nat>, c: nat, env: Env, m: Member, n: nat, r: Member)
    requires c <= |p|
    decreases n
  {
    if n == 0 then m == r else IsLocal(m) && Walks(p, c, env, Advance(p, c, m, Sees(m, env)), n - 1, r)
  }

  lemma {:induction false} WalkStep(p: seq<nat>, c: nat, env: Env, m: Member, next: Member, n: nat, r: Member)
    requires c <= |p| && IsLocal(m) && next == Advance(p, c, m, Sees(m, env)) && Walks(p, c, env, next, n, r)
    ensures Walks(p, c, env, m, n + 1, r)
  {
  }

  lemma {:induction false} WalkAppend(p: seq<nat>, c: nat, env: Env, m: Member, n: nat, mid: Member, k: nat, r: Member)
    requires c <= |p| && Walks(p, c, env, m, n, mid) && Walks(p, c, env, mid, k, r)
    ensures Walks(p, c, env, m, n + k, r)
    decreases n
  {
    if n > 0 {
      var next := Advance(p, c, m, Sees(m, env));
      WalkAppend(p, c, env, next, n - 1, mid, k, r);
      WalkStep(p, c, env, m, next, n - 1 + k, r);
    }
  }

  /** One more local step at the end of a walk. */
  lemma {:induction false} WalkOn(p: seq<nat>, c: nat, env: Env, m: Member, n: nat, mid: Member, r: Member)
    requires c <= |p| && Walks(p, c, env, m, n, mid) && IsLocal(mid) && r == Advance(p, c, mid, Sees(mid, env))
    ensures Walks(p, c, env, m, n + 1, r)
  {
    WalkStep(p, c, env, mid, r, 0, r);
    WalkAppend(p, c, env, m, n, mid, 1, r);
  }

  /** The first step of a local walk changes the member alone. */
  lemma {:induction false} FirstOfWalk(b: Board, j: nat, env: Env, n: nat, r: Member) returns (next: Member)
    requires b.Shape() && j < b.count && n > 0 && Walks(b.published, b.count, env, b.members[j], n, r)
    ensures Put(b, j, next).Shape() && Walks(b.published, b.count, env, next, n - 1, r)
    ensures Solo(b, j, env, n) == Solo(Put(b, j, next), j, env, n - 1)
  {
    next := Advance(b.published, b.count, b.members[j], Sees(b.members[j], env));
    assert StepBy(b, j, Sees(b.members[j], env)) == Put(b, j, next);
  }

  lemma PutTwice(b: Board, j: nat, m: Member, r: Member)
    requires b.Shape() && j < b.count && Put(b, j, m).Shape()
    ensures Put(Put(b, j, m), j, r) == Put(b, j, r) && Put(b, j, m).members[j] == m
  {
  }

  lemma PutBack(b: Board, j: nat)
    requires b.Shape() && j < b.count
    ensures Put(b, j, b.members[j]) == b
  {
  }

  lemma {:induction false} WalkAlone(b: Board, j: nat, env: Env, m: Member, n: nat, r: Member)
    requires b.Shape() && j < b.count && m == b.members[j] && Walks(b.published, b.count, env, m, n, r)
    ensures Put(b, j, r).Shape() && Solo(b, j, env, n) == Put(b, j, r)
    decreases n
  {
    if n == 0 {
      PutBack(b, j);
    } else {
      var next := FirstOfWalk(b, j, env, n, r);
      PutTwice(b, j, next, r);
      WalkAlone(Put(b, j, next), j, env, next, n - 1, r);
    }
  }

  ghost function Iterate<T>(f: T -> T, x: T, n: nat): T
    decreases n
  {
    if n == 0 then x else Iterate(f, f(x), n - 1)
  }

  lemma {:induction false} IterateAppend<T>(f: T -> T, x: T, n: nat, k: nat)
    ensures Iterate(f, x, n + k) == Iterate(f, Iterate(f, x, n), k)
    decreases n
  {
    if n > 0 {
      IterateAppend(f, f(x), n - 1, k);
    }
  }

  /** One step of member `j` as a function on boards. */
  ghost function Stepping(j: nat, env: Env): Board -> Board {
    (b: Board) => if b.Shape() && j < b.count then StepBy(b, j, Sees(b.members[j], env)) else b
  }

  lemma {:induction false} SoloIterates(b: Board, j: nat, env: Env, n: nat)
    requires b.Shape() && j < b.count
    ensures Solo(b, j, env, n) == Iterate(Stepping(j, env), b, n)
    decreases n
  {
    if n > 0 {
      var r := StepBy(b, j, Sees(b.members[j], env));
      assert Stepping(j, env)(b) == r;
      SoloIterates(r, j, env, n - 1);
    }
  }

  lemma {:induction false} SoloAppend(b: Board, j: nat, env: Env, n: nat, k: nat)
    requires b.Shape() && j < b.count
    ensures Solo(b, j, env, n + k) == Solo(Solo(b, j, env, n), j, env, k)
  {
    SoloIterates(b, j, env, n + k);
    SoloIterates(b, j, env, n);
    SoloIterates(Solo(b, j, env, n), j, env, k);
    IterateAppend(Stepping(j, env), b, n, k);
  }

  /** A local walk is a solo stretch of the step system. */
  lemma {:induction false} WalkIsSolo(b: Board, j: nat, env: Env, m: Member, n: nat, r: Member, k: nat)
    requires b.Shape() && j < b.count && m == b.members[j] && Walks(b.published, b.count, env, m, n, r)
    ensures Put(b, j, r).Shape()
    ensures Solo(b, j, env, n + k) == Solo(Put(b, j, r), j, env, k)
  {
    WalkAlone(b, j, env, m, n, r);
    SoloAppend(b, j, env, n, k);
  }

  ghost predicate IsTop(p: seq<nat>, c: nat, t: nat)
    requires c <= |p|
  {
    t < c && forall q :: 0 <= q < c ==> p[q] <= p[t]
  }

  function Scanned(m: Member, top: nat): Member
    requires m.phase.Scanning?
  {
    m.(phase := if m.phase.entry then EntryTest else Checking(0, {}), best := Slot(top))
  }

  /** An undisturbed scan points at a slot with the largest stage. */
  lemma {:induction false} WalkScan(p: seq<nat>, c: nat, env: Env, m: Member) returns (n: nat, top: nat)
    requires c <= |p| && m.phase.Scanning? && m.phase.i <= c && c > 0
    requires m.phase.i == 0 ==> m.phase.max == 0
    requires m.phase.i > 0 ==> m.best.Slot? && m.best.index < c && p[m.best.index] == m.phase.max
    requires forall q :: 0 <= q < m.phase.i ==> p[q] <= m.phase.max
    ensures IsTop(p, c, top) && Walks(p, c, env, m, n, Scanned(m, top))
    decreases c - m.phase.i
  {
    var Scanning(entry, i, max) := m.phase;
    if i == c {
      n, top := 1, m.best.index;
      WalkStep(p, c, env, m, Scanned(m, top), 0, Scanned(m, top));
    } else if p[i] >= max {
      var m1 := m.(phase := Taking(entry, i, max));
      var m2 := m.(phase := Scanning(entry, i + 1, p[i]), best := Slot(i));
      n, top := WalkScan(p, c, env, m2);
      WalkStep(p, c, env, m1, m2, n, Scanned(m, top));
      WalkStep(p, c, env, m, m1, n + 1, Scanned(m, top));
      n := n + 2;
    } else {
      var m1 := m.(phase := Scanning(entry, i + 1, max));
      n, top := WalkScan(p, c, env, m1);
      WalkStep(p, c, env, m, m1, n, Scanned(m, top));
      n := n + 1;
    }
  }

  /** From the entry scan on: the member turns back exactly when somebody is already at a later stage. */
  lemma {:induction false} WalkEntryScan(p: seq<nat>, c: nat, env: Env, m: Member) returns (n: nat, r: Member)
    requires 0 < c <= |p| && m.phase == Scanning(true, 0, 0)
    ensures Walks(p, c, env, m, n, r) && r == m.(phase := r.phase, best := r.best)
    ensures r.phase == if exists q :: 0 <= q < c && p[q] > m.stage then Outside else Publishing
  {
    var k, top := WalkScan(p, c, env, m);
    var m2 := Scanned(m, top);
    r := m2.(phase := if p[top] > m.stage then Outside else Publishing);
    WalkStep(p, c, env, m2, r, 0, r);
    WalkAppend(p, c, env, m, k, m2, 1, r);
    n := k + 1;
  }

  /** An undisturbed entry with enough characters registered. */
  lemma {:induction false} WalkEntry(p: seq<nat>, c: nat, env: Env, m: Member) returns (n: nat, r: Member)
    requires 0 < c <= |p| && m.phase == Attending && m.least <= c
    ensures Walks(p, c, env, m, n, r) && r == m.(phase := r.phase, best := r.best)
    ensures r.phase == if exists q :: 0 <= q < c && p[q] > m.stage then Outside else Publishing
  {
    var m1 := m.(phase := Scanning(true, 0, 0));
    n, r := WalkEntryScan(p, c, env, m1);
    WalkStep(p, c, env, m, m1, n, r);
    n := n + 1;
  }

  /** The quorum test in unsigned arithmetic: it can stop nobody once more are lost than the team has. */
  lemma QuorumIsUnsigned(team: nat, lost: nat, least: nat)
    requires team < DWORD_RANGE && lost <= CAPACITY && least <= DWORD_RANGE - CAPACITY
    ensures BelowQuorum(team, lost, least) <==> lost <= team && team - lost < least
  {
  }

  /** Every connected slot from `i` on is initialised and not behind the largest stage. */
  ghost predicate Level(p: seq<nat>, c: nat, lost: set<nat>, i: nat)
    requires c <= |p|
  {
    forall q :: i <= q < c && q !in lost ==> p[q] != 0 && IsTop(p, c, q)
  }

  function LostBelow(lost: set<nat>, i: nat): set<nat> {
    set q | q in lost && q < i
  }

  /** The largest stage shown. */
  function TopStage(p: seq<nat>, c: nat): (r: nat)
    requires c <= |p|
    ensures forall q :: 0 <= q < c ==> p[q] <= r
    ensures c > 0 ==> exists t :: 0 <= t < c && p[t] == r
  {
    if c == 0 then 0
    else
      var r := TopStage(p, c - 1);
      if c == 1 || p[c - 1] > r then p[c - 1] else r
  }

  /** The slot at which the check stops: the first connected one that is unset or behind `top`. */
  function StopAt(p: seq<nat>, c: nat, lost: set<nat>, top: nat, i: nat): (r: nat)
    requires i <= c <= |p|
    ensures i <= r <= c
    decreases c - i
  {
    if i == c || (i !in lost && (p[i] == 0 || p[i] < top)) then i else StopAt(p, c, lost, top, i + 1)
  }

  lemma {:induction false} StopIsFirst(p: seq<nat>, c: nat, lost: set<nat>, top: nat, i: nat)
    requires i <= c <= |p|
    ensures
      var stop := StopAt(p, c, lost, top, i);
      && (forall q :: i <= q < stop && q !in lost ==> p[q] != 0 && top <= p[q])
      && (stop < c ==> stop !in lost && (p[stop] == 0 || p[stop] < top))
    decreases c - i
  {
    if i < c && (i in lost || (p[i] != 0 && top <= p[i])) {
      StopIsFirst(p, c, lost, top, i + 1);
    }
  }

  /** How one iteration of the waiting loop ends. */
  datatype Outcome = LeaveShort | LeaveAgreed | WaitMore

  /** The quorum is tested first, on the slots seen lost before the check stopped. */
  function Verdict(p: seq<nat>, c: nat, lost: set<nat>, team: nat, least: nat): Outcome
    requires c <= |p|
  {
    var stop := StopAt(p, c, lost, TopStage(p, c), 0);
    if BelowQuorum(team, |LostBelow(lost, stop)|, least) then LeaveShort
    else if stop == c then LeaveAgreed
    else WaitMore
  }

  /** `r` is `b` after an iteration of member `j` that ended in `outcome`. */
  ghost predicate Ends(b: Board, r: Board, j: nat, lost: set<nat>, outcome: Outcome)
    requires b.Shape() && j < b.count
  {
    var k := b.members[j].stage;
    && r.count == b.count && r.published == b.published[j := k] && |r.members| == |b.members|
    && (forall q :: 0 <= q < |b.members| && q != j ==> r.members[q] == b.members[q])
    && r.members[j].phase == (if outcome == WaitMore then Publishing else Outside)
    && r.passes == if outcome == LeaveAgreed then b.passes + [Pass(j, k, b.count, LostBelow(lost, b.count))] else b.passes
  }

  lemma {:induction false} LevelIffNoStop(p: seq<nat>, c: nat, lost: set<nat>)
    requires 0 < c <= |p|
    ensures Level(p, c, lost, 0) <==> StopAt(p, c, lost, TopStage(p, c), 0) == c
  {
    var top := TopStage(p, c);
    var stop := StopAt(p, c, lost, top, 0);
    StopIsFirst(p, c, lost, top, 0);
    assert forall q: nat :: q < c ==> (IsTop(p, c, q) <==> top <= p[q]);
    if stop < c {
      assert !(p[stop] != 0 && IsTop(p, c, stop));
    }
  }

  /** What checking one connected slot leads to. */
  function SlotVerdict(p: seq<nat>, m: Member, i: nat, lost: set<nat>): Phase
    requires i < |p| && m.best.Slot? && m.best.index < |p|
  {
    if p[i] == 0 || p[i] < p[m.best.index] then Deciding(i, lost, false) else Checking(i + 1, lost)
  }

  /** Two or four undisturbed steps check one connected slot. */
  lemma {:induction false} WalkCompare(p: seq<nat>, c: nat, env: Env, m: Member) returns (n: nat)
    requires c <= |p| && m.phase.Checking? && m.phase.i < c && m.phase.i !in env.lost
    requires m.best.Slot? && m.best.index < c
    ensures Walks(p, c, env, m, n, m.(phase := SlotVerdict(p, m, m.phase.i, m.phase.lost)))
  {
    var i, lost := m.phase.i, m.phase.lost;
    var m1 := m.(phase := TestingZero(i, lost));
    var m4 := m.(phase := SlotVerdict(p, m, i, lost));
    if p[i] == 0 {
      n := 2;
      WalkStep(p, c, env, m1, m4, 0, m4);
      WalkStep(p, c, env, m, m1, 1, m4);
    } else {
      n := 4;
      var m2 := m.(phase := Comparing(i, lost, Nothing));
      var m3 := m.(phase := Comparing(i, lost, if env.bestFirst then Best(p[m.best.index]) else Item(p[i])));
      WalkStep(p, c, env, m3, m4, 0, m4);
      WalkStep(p, c, env, m2, m3, 1, m4);
      WalkStep(p, c, env, m1, m2, 2, m4);
      WalkStep(p, c, env, m, m1, 3, m4);
    }
  }

  /**
   The verdict in terms of the slots: short exactly if the team without those seen lost before the
   first slot that is unset or behind is below the quorum; agreed exactly if the connected slots are
   level and the quorum is met.
   */
  lemma {:induction false} VerdictMeans(p: seq<nat>, c: nat, lost: set<nat>, team: nat, least: nat, stop: nat)
    requires 0 < c <= |p| && stop <= c
    requires forall q :: 0 <= q < stop && q !in lost ==> p[q] != 0 && IsTop(p, c, q)
    requires stop < c ==> stop !in lost && !(p[stop] != 0 && IsTop(p, c, stop))
    ensures Verdict(p, c, lost, team, least) == LeaveShort <==> BelowQuorum(team, |LostBelow(lost, stop)|, least)
    ensures Verdict(p, c, lost, team, least) == LeaveAgreed <==>
      Level(p, c, lost, 0) && !BelowQuorum(team, |LostBelow(lost, c)|, least)
  {
    var top := TopStage(p, c);
    StopIsFirst(p, c, lost, top, 0);
    LevelIffNoStop(p, c, lost);
    assert forall q: nat :: q < c ==> (IsTop(p, c, q) <==> top <= p[q]);
    var found := StopAt(p, c, lost, top, 0);
    assert found == stop;
  }

  /** An undisturbed check stops at the first connected slot that is unset or behind, or agrees. */
  lemma {:induction false} WalkCheck(p: seq<nat>, c: nat, env: Env, m: Member) returns (n: nat, d: Phase)
    requires c <= |p| && m.phase.Checking? && m.phase.i <= c && m.phase.lost == LostBelow(env.lost, m.phase.i)
    requires m.best.Slot? && m.best.index < c
    ensures Walks(p, c, env, m, n, m.(phase := d))
    ensures
      var stop := StopAt(p, c, env.lost, p[m.best.index], m.phase.i);
      d == Deciding(stop, LostBelow(env.lost, stop), stop == c)
    decreases c - m.phase.i
  {
    var Checking(i, lost) := m.phase;
    if i == c {
      n, d := 1, Deciding(c, lost, true);
      WalkStep(p, c, env, m, m.(phase := d), 0, m.(phase := d));
    } else if i in env.lost {
      assert lost + {i} == LostBelow(env.lost, i + 1);
      var m1 := m.(phase := Checking(i + 1, lost + {i}));
      n, d := WalkCheck(p, c, env, m1);
      WalkStep(p, c, env, m, m1, n, m.(phase := d));
      n := n + 1;
    } else {
      var k := WalkCompare(p, c, env, m);
      var d1 := SlotVerdict(p, m, i, lost);
      if d1.Deciding? {
        n, d := k, d1;
      } else {
        assert lost == LostBelow(env.lost, i + 1);
        n, d := WalkCheck(p, c, env, m.(phase := d1));
        WalkAppend(p, c, env, m, k, m.(phase := d1), n, m.(phase := d));
        n := k + n;
      }
    }
  }

  /** Where an undisturbed check stands before the decision. */
  function Checked(p: seq<nat>, c: nat, lost: set<nat>): Phase
    requires c <= |p|
  {
    var stop := StopAt(p, c, lost, TopStage(p, c), 0);
    Deciding(stop, LostBelow(lost, stop), stop == c)
  }

  /** An undisturbed iteration after publishing: scan, check, and stand before the decision. */
  lemma {:induction false} WalkIteration(p: seq<nat>, c: nat, env: Env, m: Member) returns (n: nat, r: Member)
    requires 0 < c <= |p| && m.phase == Published
    ensures Walks(p, c, env, m, n, r)
    ensures r == m.(phase := Checked(p, c, env.lost), best := r.best)
    ensures r.phase.same == Level(p, c, env.lost, 0)
  {
    var m1 := m.(phase := Scanning(false, 0, 0));
    var k, top := WalkScan(p, c, env, m1);
    var m2 := Scanned(m1, top);
    assert LostBelow(env.lost, 0) == {};
    var l, d := WalkCheck(p, c, env, m2);
    r := m2.(phase := d);
    assert p[top] == TopStage(p, c);
    LevelIffNoStop(p, c, env.lost);
    WalkAppend(p, c, env, m1, k, m2, l, r);
    WalkStep(p, c, env, m, m1, k + l, r);
    n := k + l + 1;
  }

  /** A member about to publish, undisturbed up to its decision; `k` further steps may follow. */
  lemma {:induction false} PublishesAndChecks(b: Board, j: nat, env: Env, k: nat) returns (n: nat, r: Member)
    requires b.Shape() && j < b.count && b.members[j].phase == Publishing
    ensures
      var p := b.published[j := b.members[j].stage];
      && Solo(b, j, env, n + k) == Solo(b.(published := p, members := b.members[j := r]), j, env, k)
      && r == b.members[j].(phase := Checked(p, b.count, env.lost), best := r.best)
      && r.phase.same == Level(p, b.count, env.lost, 0)
  {
    var m := b.members[j];
    var p := b.published[j := m.stage];
    var m1 := m.(phase := Published);
    var b1 := b.(published := p, members := b.members[j := m1]);
    assert StepBy(b, j, Sees(m, env)) == b1;
    n, r := WalkIteration(p, b.count, env, m1);
    WalkIsSolo(b1, j, env, m1, n, r, k);
    assert Put(b1, j, r) == b.(published := p, members := b.members[j := r]);
    n := n + 1;
  }

  /** The decision itself. */
  lemma {:induction false} DecisionEnds(b: Board, j: nat, env: Env, r: Member)
    requires b.Shape() && j < b.count
    requires
      var p := b.published[j := b.members[j].stage];
      r == b.members[j].(phase := Checked(p, b.count, env.lost), best := r.best)
    ensures
      var p := b.published[j := b.members[j].stage];
      Ends(b, StepBy(b.(published := p, members := b.members[j := r]), j, Sees(r, env)), j, env.lost,
        Verdict(p, b.count, env.lost, env.team, r.least))
  {
  }

  /**
   What an undisturbed iteration does.  It publishes, and then leaves short exactly when the team
   without those seen lost before the check stopped is below the quorum; else leaves by agreement
   exactly when the connected slots are level; else is about to publish again.
   */
  lemma {:induction false} UndisturbedIterationDecides(b: Board, j: nat, env: Env) returns (n: nat)
    requires b.Shape() && j < b.count && b.members[j].phase == Publishing
    ensures
      var p := b.published[j := b.members[j].stage];
      Ends(b, Solo(b, j, env, n), j, env.lost, Verdict(p, b.count, env.lost, env.team, b.members[j].least))
  {
    var r;
    n, r := PublishesAndChecks(b, j, env, 1);
    n := n + 1;
    var p := b.published[j := b.members[j].stage];
    var b2 := b.(published := p, members := b.members[j := r]);
    assert Solo(b2, j, env, 1) == Solo(StepBy(b2, j, Sees(r, env)), j, env, 0) == StepBy(b2, j, Sees(r, env));
    DecisionEnds(b, j, env, r);
  }

  /** If every registered member shows stage k and is connected, an undisturbed iteration leaves by agreement. */
  lemma {:induction false} EveryoneArrivedLeaves(b: Board, j: nat, team: nat, bestFirst: bool) returns (n: nat)
    requires b.Shape() && j < b.count && b.members[j].phase == Publishing
    requires b.members[j].stage > 0 && b.members[j].least <= team < DWORD_RANGE
    requires forall q :: 0 <= q < b.count && q != j ==> b.published[q] == b.members[j].stage
    ensures
      var r := Solo(b, j, Env({}, team, bestFirst), n);
      r.passes == b.passes + [Pass(j, b.members[j].stage, b.count, {})] && r.members[j].phase == Outside
  {
    n := UndisturbedIterationDecides(b, j, Env({}, team, bestFirst));
    var p := b.published[j := b.members[j].stage];
    assert LostBelow({}, b.count) == {};
    assert Level(p, b.count, {}, 0);
    VerdictMeans(p, b.count, {}, team, b.members[j].least, b.count);
  }

  function Arrived(b: Board, j: nat, k: nat, least: nat, best: Pointer): Board
    requires b.Shape() && j < b.count
  {
    b.(published := b.published[j := k], members := b.members[j := Member(Published, k, least, best, false)])
  }

  /** A member that enters for a stage nobody is beyond, with enough members registered, publishes it. */
  lemma {:induction false} Arrives(b: Board, j: nat, k: nat, least: nat, env: Env) returns (n: nat, best: Pointer)
    requires b.Shape() && j < b.count && b.members[j].phase == Outside && least <= b.count
    requires forall q :: 0 <= q < b.count ==> b.published[q] <= k
    ensures Solo(Next(b, Enter(j, k, least)), j, env, n) == Arrived(b, j, k, least, best)
  {
    var m0 := Member(Attending, k, least, Null, false);
    var s, m1 := WalkEntry(b.published, b.count, env, m0);
    var b0 := Next(b, Enter(j, k, least));
    WalkIsSolo(b0, j, env, m0, s, m1, 1);
    best := m1.best;
    n := s + 1;
    var b1 := Put(b0, j, m1);
    assert StepBy(b1, j, Sees(m1, env)) == Arrived(b, j, k, least, best);
    assert Solo(b1, j, env, 1) == Solo(Arrived(b, j, k, least, best), j, env, 0);
  }

  /** The board when member `j` has zeroed all slots from `i` on and is done. */
  function Formed(b: Board, j: nat, i: nat): Board
    requires b.Shape() && j < b.count && i <= b.count
  {
    Put(b, j, b.members[j].(phase := Outside)).(
      published := b.published[..i] + seq(b.count - i, _ => 0) + b.published[b.count..],
      passes := if i < b.count then [] else b.passes)
  }

  lemma {:induction false} FormingStep(b: Board, j: nat, i: nat, o: Observation)
    requires b.Shape() && j < b.count && i < b.count && b.members[j].phase == Forming(i)
    ensures StepBy(b, j, o).members[j].phase == Forming(i + 1)
    ensures Formed(StepBy(b, j, o), j, i + 1) == Formed(b, j, i)
  {
    var r := StepBy(b, j, o);
    PutTwice(b, j, r.members[j], r.members[j].(phase := Outside));
    assert Formed(r, j, i + 1).published == Formed(b, j, i).published;
  }

  /** An undisturbed formation, from slot `i` on. */
  lemma {:induction false} FormationGoesOn(b: Board, j: nat, env: Env, i: nat)
    requires b.Shape() && j < b.count && i <= b.count && b.members[j].phase == Forming(i)
    ensures Solo(b, j, env, b.count - i + 1) == Formed(b, j, i)
    decreases b.count - i
  {
    var o := Sees(b.members[j], env);
    var r := StepBy(b, j, o);
    if i == b.count {
      assert Solo(b, j, env, 1) == Solo(r, j, env, 0);
      assert b.published[..i] + seq(0, _ => 0) + b.published[b.count..] == b.published;
    } else {
      FormingStep(b, j, i, o);
      FormationGoesOn(r, j, env, i + 1);
    }
  }

  /** An undisturbed formation zeroes every registered slot and no other. */
  lemma {:induction false} FormationZeroesAll(b: Board, j: nat, env: Env)
    requires b.Shape() && j < b.count && b.members[j].phase == Forming(0)
    ensures Solo(b, j, env, b.count + 1) ==
      Put(b, j, b.members[j].(phase := Outside)).(
        published := seq(b.count, _ => 0) + b.published[b.count..], passes := [])
  {
    FormationGoesOn(b, j, env, 0);
    assert b.published[..0] + seq(b.count, _ => 0) == seq(b.count, _ => 0);
  }
}
