/**
 The team-gather barrier as a step system.

 Every character owns one slot of a shared array.  Inside the barrier call it publishes its
 stage there, scans the array for the largest stage and remembers that slot through a live
 pointer, then compares every slot with whatever the pointer shows at that moment.  Each read
 or write of shared memory is one step, and the steps of all members interleave freely.

 Character `j` owns slot `j`; `published[j]` is its slot's schedule index and `count` the number
 of registered characters.  Registration and re-attachment are single steps.
 */
module TeamGather {

  const CAPACITY: nat := 10
  const DWORD_RANGE: nat := 0x1_0000_0000

  /** The pointer to the slot with the largest schedule index. */
  datatype Pointer = Null | Slot(index: nat)

  /** What one comparison has loaded so far: `<` does not fix which operand is read first. */
  datatype Loaded = Nothing | Item(value: nat) | Best(value: nat)

  /**
   Where a member stands, with the loop variables that are live there.  `Forming` is the loop that
   ends a team formation: it zeroes the slots one by one, in order.
   */
  datatype Phase =
    | Outside
    | Forming(i: nat)
    | Attending
    | Scanning(entry: bool, i: nat, max: nat)
    | Taking(entry: bool, i: nat, max: nat)
    | EntryTest
    | Publishing
    | Published
    | Checking(i: nat, lost: set<nat>)
    | TestingZero(i: nat, lost: set<nat>)
    | Comparing(i: nat, lost: set<nat>, loaded: Loaded)
    | Deciding(saw: nat, lost: set<nat>, same: bool)

  /** `rushed`: the wait for registrations was broken off because the character was found dead. */
  datatype Member = Member(phase: Phase, stage: nat, least: nat, best: Pointer, rushed: bool)

  /** A departure by agreement: who left, from which stage, and what its check covered. */
  datatype Pass = Pass(member: nat, stage: nat, saw: nat, lost: set<nat>)

  /** `passes` is the history since a slot was last zeroed. */
  datatype Board = Board(published: seq<nat>, count: nat, members: seq<Member>, passes: seq<Pass>) {
    ghost predicate Shape() {
      && |published| == CAPACITY
      && |members| == CAPACITY
      && count <= CAPACITY
      && forall j :: count <= j < CAPACITY ==> members[j].phase == Outside
    }
  }

  /**
   What the environment answers during one step of a member.  `down` is the guard of the loop that
   waits for registrations finding the character dead or the game closed.
   */
  datatype Observation = Observation(lost: bool, timedOut: bool, down: bool, team: nat, bestFirst: bool)

  datatype Event =
    | Register
    | Enter(who: nat, stage: nat, least: nat)
    | Form(who: nat)
    | Abandon(who: nat)
    | Step(who: nat, sees: Observation)

  function Newcomer(): Member { Member(Outside, 0, 0, Null, false) }

  function Empty(): Board {
    Board(seq(CAPACITY, _ => 0), 0, seq(CAPACITY, _ => Newcomer()), [])
  }

  /** Unsigned arithmetic: more lost members than the team has wraps around. */
  predicate BelowQuorum(team: nat, lost: nat, least: nat) {
    (team as int - lost as int) % DWORD_RANGE < least
  }

  predicate Agrees(m: Member, o: Observation) {
    m.phase.Deciding? && !BelowQuorum(o.team, |m.phase.lost|, m.least) && m.phase.same
  }

  /** The local state of member `me` after its next step. */
  function Advance(published: seq<nat>, count: nat, m: Member, o: Observation): Member
    requires count <= |published|
  {
    match m.phase
    case Outside => m
    case Forming(i) => m.(phase := if i < count then Forming(i + 1) else Outside)
    case Attending =>
      if count >= m.least then m.(phase := Scanning(true, 0, 0))
      else if o.down then m.(phase := Scanning(true, 0, 0), rushed := true)
      else m
    case Scanning(entry, i, max) =>
      if i >= count then m.(phase := if entry then EntryTest else Checking(0, {}))
      else if published[i] >= max then m.(phase := Taking(entry, i, max))
      else m.(phase := Scanning(entry, i + 1, max))
    case Taking(entry, i, max) =>
      if i >= count then m
      else m.(phase := Scanning(entry, i + 1, published[i]), best := Slot(i))
    case EntryTest =>
      if m.best == Null || m.best.index >= count || published[m.best.index] > m.stage
      then m.(phase := Outside)
      else m.(phase := Publishing)
    case Publishing => m.(phase := Published)
    case Published => m.(phase := if o.timedOut then Publishing else Scanning(false, 0, 0))
    case Checking(i, lost) =>
      if i >= count then m.(phase := Deciding(count, lost, true))
      else if o.lost then m.(phase := Checking(i + 1, lost + {i}))
      else m.(phase := TestingZero(i, lost))
    case TestingZero(i, lost) =>
      if i < count && published[i] == 0 then m.(phase := Deciding(i, lost, false))
      else m.(phase := Comparing(i, lost, Nothing))
    case Comparing(i, lost, loaded) =>
      if i >= count || m.best == Null || m.best.index >= count then m
      else
        var itm, top := published[i], published[m.best.index];
        (match loaded
         case Nothing => m.(phase := Comparing(i, lost, if o.bestFirst then Best(top) else Item(itm)))
         case Item(v) => Compared(m, i, lost, v, top)
         case Best(v) => Compared(m, i, lost, itm, v))
    case Deciding(saw, lost, same) =>
      m.(phase := if BelowQuorum(o.team, |lost|, m.least) || same then Outside else Publishing)
  }

  function Compared(m: Member, i: nat, lost: set<nat>, itm: nat, top: nat): Member {
    m.(phase := if itm < top then Deciding(i, lost, false) else Checking(i + 1, lost))
  }

  /** Member `j` is about to zero a slot. */
  predicate Zeroing(b: Board, j: nat)
    requires b.Shape()
  {
    j < b.count && b.members[j].phase.Forming? && b.members[j].phase.i < b.count
  }

  function StepBy(b: Board, j: nat, o: Observation): Board
    requires b.Shape() && j < b.count
  {
    var m := b.members[j];
    b.(published :=
         if m.phase == Publishing then b.published[j := m.stage]
         else if Zeroing(b, j) then b.published[m.phase.i := 0]
         else b.published,
       members := b.members[j := Advance(b.published, b.count, m, o)],
       passes :=
         if Agrees(m, o) then b.passes + [Pass(j, m.stage, m.phase.saw, m.phase.lost)]
         else if Zeroing(b, j) then []
         else b.passes)
  }

  function Next(b: Board, e: Event): (r: Board)
    requires b.Shape()
    ensures r.Shape()
  {
    match e
    case Register =>
      if b.count < CAPACITY
      then b.(count := b.count + 1, published := b.published[b.count := 0], members := b.members[b.count := Newcomer()])
      else b
    case Enter(j, stage, least) =>
      if j < b.count && b.members[j].phase == Outside
      then b.(members := b.members[j := Member(Attending, stage, least, Null, false)])
      else b
    case Form(j) =>
      if j < b.count && b.members[j].phase == Outside
      then b.(members := b.members[j := b.members[j].(phase := Forming(0))])
      else b
    case Abandon(j) =>
      if j < b.count then b.(members := b.members[j := b.members[j].(phase := Outside)]) else b
    case Step(j, o) => if j < b.count then StepBy(b, j, o) else b
  }

  function Run(b: Board, es: seq<Event>): (r: Board)
    requires b.Shape()
    ensures r.Shape()
    decreases |es|
  {
    if es == [] then b else Run(Next(b, es[0]), es[1..])
  }

  lemma {:induction false} RunAppend(b: Board, es: seq<Event>, fs: seq<Event>)
    requires b.Shape()
    ensures Run(b, es + fs) == Run(Run(b, es), fs)
    decreases |es|
  {
    if es == [] {
      assert es + fs == fs;
    } else {
      assert (es + fs)[0] == es[0] && (es + fs)[1..] == es[1..] + fs;
      RunAppend(Next(b, es[0]), es[1..], fs);
    }
  }

  /** A run ends with its last event. */
  lemma {:induction false} RunLast(b: Board, es: seq<Event>)
    requires b.Shape() && es != []
    ensures Run(b, es) == Next(Run(b, es[..|es| - 1]), es[|es| - 1])
  {
    var n := |es| - 1;
    assert es == es[..n] + [es[n]];
    RunAppend(b, es[..n], [es[n]]);
    var c := Run(b, es[..n]);
    assert Run(c, [es[n]]) == Run(Next(c, es[n]), []);
  }
}
