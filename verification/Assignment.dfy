/**
 Leaderless assignment: every team member lists the same objects, sorts them by id and takes the
 one at its own team index, without talking to the others.
 */
module Assignment {
  import opened Optional

  const NO_TEAM: nat := 0xFFFF_FFFF
  const TEAM_SIZE: nat := 6

  datatype Target = Target(id: nat, name: string)

  ghost predicate DistinctIds(s: seq<Target>) {
    forall i, j :: 0 <= i < j < |s| ==> s[i].id != s[j].id
  }

  ghost predicate Sorted(s: seq<Target>) {
    forall i, j :: 0 <= i < j < |s| ==> s[i].id <= s[j].id
  }

  /** Two members see the same objects, each in its own order. */
  ghost predicate SameObjects(s: seq<Target>, t: seq<Target>) {
    multiset(s) == multiset(t)
  }

  function Insert(x: Target, s: seq<Target>): (r: seq<Target>)
    ensures multiset(r) == multiset(s) + multiset{x} && |r| == |s| + 1
  {
    if s == [] || x.id <= s[0].id then [x] + s
    else assert s == [s[0]] + s[1..]; [s[0]] + Insert(x, s[1..])
  }

  lemma {:induction false} InsertSorts(x: Target, s: seq<Target>)
    requires Sorted(s)
    ensures Sorted(Insert(x, s))
  {
    if s != [] && x.id > s[0].id {
      InsertSorts(x, s[1..]);
      var r := Insert(x, s[1..]);
      forall k | 0 <= k < |r|
        ensures s[0].id <= r[k].id
      {
        assert r[k] in multiset(r);
        assert r[k] == x || r[k] in s[1..];
      }
    }
  }

  /** The list sorted by id; `SortIsUnique` shows that any sorting procedure gives the same list. */
  function SortById(s: seq<Target>): (r: seq<Target>)
    ensures SameObjects(s, r) && |r| == |s|
  {
    if s == [] then [] else assert s == [s[0]] + s[1..]; Insert(s[0], SortById(s[1..]))
  }

  lemma {:induction false} SortSorts(s: seq<Target>)
    ensures Sorted(SortById(s))
  {
    if s != [] {
      SortSorts(s[1..]);
      InsertSorts(s[0], SortById(s[1..]));
    }
  }

  lemma {:induction false} SameObjectsKeepDistinct(s: seq<Target>, t: seq<Target>)
    requires SameObjects(s, t) && DistinctIds(s)
    ensures DistinctIds(t)
  {
    forall i, j | 0 <= i < j < |t|
      ensures t[i].id != t[j].id
    {
      assert t[i] in multiset(t) && t[j] in multiset(t);
      var k :| 0 <= k < |s| && s[k] == t[i];
      var l :| 0 <= l < |s| && s[l] == t[j];
      if k == l {
        assert t == t[..i] + [t[i]] + t[i + 1..j] + [t[j]] + t[j + 1..];
        assert multiset(t)[t[i]] >= 2;
        OccursOnce(s, k);
      }
    }
  }

  lemma {:induction false} OccursOnce(s: seq<Target>, k: nat)
    requires DistinctIds(s) && k < |s|
    ensures multiset(s)[s[k]] == 1
  {
    assert s == s[..k] + [s[k]] + s[k + 1..];
    assert s[k] !in s[..k] && s[k] !in s[k + 1..];
  }

  lemma {:induction false} SameHead(s: seq<Target>, t: seq<Target>)
    requires SameObjects(s, t) && Sorted(s) && Sorted(t) && DistinctIds(s) && s != [] && t != []
    ensures s[0] == t[0]
  {
    SameObjectsKeepDistinct(s, t);
    assert s[0] in multiset(s) && t[0] in multiset(t);
    var k :| 0 <= k < |t| && t[k] == s[0];
    var l :| 0 <= l < |s| && s[l] == t[0];
    assert t[0].id <= t[k].id && s[0].id <= s[l].id;
  }

  lemma {:induction false} SameTail(s: seq<Target>, t: seq<Target>)
    requires SameObjects(s, t) && s != [] && t != [] && s[0] == t[0]
    ensures SameObjects(s[1..], t[1..])
  {
    assert s == [s[0]] + s[1..] && t == [t[0]] + t[1..];
    assert multiset(s[1..]) == multiset(s) - multiset{s[0]};
    assert multiset(t[1..]) == multiset(t) - multiset{t[0]};
  }

  /** Two sorted lists of the same distinct objects are equal: the order seen does not matter. */
  lemma {:induction false} SortIsUnique(s: seq<Target>, t: seq<Target>)
    requires SameObjects(s, t) && Sorted(s) && Sorted(t) && DistinctIds(s)
    ensures s == t
    decreases |s|
  {
    assert |s| == |multiset(s)| == |multiset(t)| == |t|;
    if s != [] {
      SameHead(s, t);
      SameTail(s, t);
      SortIsUnique(s[1..], t[1..]);
      assert s == [s[0]] + s[1..] && t == [t[0]] + t[1..];
    }
  }

  /** What any two members compute from their own views of the same objects. */
  lemma {:induction false} MembersAgree(s: seq<Target>, t: seq<Target>)
    requires SameObjects(s, t) && DistinctIds(s)
    ensures SortById(s) == SortById(t) && DistinctIds(SortById(s)) && |s| == |t|
  {
    SortSorts(s);
    SortSorts(t);
    SameObjectsKeepDistinct(s, SortById(s));
    SortIsUnique(SortById(s), SortById(t));
  }

  // ----- the three rules

  /** Flowers: with fewer than six the captain is excused and the others move up one place. */
  function FlowerFor(flowers: seq<Target>, member: nat): Option<Target> {
    if flowers == [] || member == NO_TEAM then None
    else if |flowers| < TEAM_SIZE && member == 0 then None
    else
      var index := if |flowers| < TEAM_SIZE then member - 1 else member;
      var sorted := SortById(flowers);
      if index >= |flowers| then None else Some(sorted[index])
  }

  /** Shadows: members share in pairs, and only when at least three shadows are present. */
  function ShadowFor(shadows: seq<Target>, member: nat): Option<Target> {
    var sorted := SortById(shadows);
    if |shadows| < 3 || member >= TEAM_SIZE then None else Some(sorted[member / 2])
  }

  /** Shields: one each, if there are at least `needed`. */
  function ShieldFor(shields: seq<Target>, needed: nat, member: nat): Option<Target> {
    var sorted := SortById(shields);
    if member == NO_TEAM || |shields| < needed || member >= |sorted| then None else Some(sorted[member])
  }

  /** One round of the flower loop for the member with team index `member`. */
  method StepOnFlower(flowers: seq<Target>, member: nat) returns (goal: Option<Target>)
    ensures goal == FlowerFor(flowers, member)
  {
    if |flowers| == 0 || member == NO_TEAM {
      return None;
    }
    var index := member;
    if |flowers| < TEAM_SIZE {
      if index == 0 {
        return None;
      }
      index := index - 1;
    }
    if index >= |flowers| {
      return None;
    }
    var list := SortById(flowers);
    return Some(list[index]);
  }

  method ChooseShadow(shadows: seq<Target>, member: nat) returns (goal: Option<Target>)
    ensures goal == ShadowFor(shadows, member)
  {
    var list := SortById(shadows);
    if |list| < 3 {
      return None;
    }
    match member {
      case 0 => return Some(list[0]);
      case 1 => return Some(list[0]);
      case 2 => return Some(list[1]);
      case 3 => return Some(list[1]);
      case 4 => return Some(list[2]);
      case 5 => return Some(list[2]);
      case _ => return None;
    }
  }

  method TakeShield(shields: seq<Target>, needed: nat, member: nat) returns (goal: Option<Target>)
    ensures goal == ShieldFor(shields, needed, member)
  {
    var list := SortById(shields);
    if member == NO_TEAM {
      return None;
    } else if |list| < needed || member >= |list| {
      return None;
    }
    return Some(list[member]);
  }

  // ----- what the team as a whole does

  /** How many of the listed objects have a smaller id. */
  function Lower(s: seq<Target>, id: nat): nat {
    if s == [] then 0 else (if s[0].id < id then 1 else 0) + Lower(s[1..], id)
  }

  lemma {:induction false} InsertKeepsLower(x: Target, s: seq<Target>, id: nat)
    ensures Lower(Insert(x, s), id) == (if x.id < id then 1 else 0) + Lower(s, id)
  {
    if s == [] || x.id <= s[0].id {
      assert ([x] + s)[1..] == s;
    } else {
      InsertKeepsLower(x, s[1..], id);
      assert ([s[0]] + Insert(x, s[1..]))[1..] == Insert(x, s[1..]);
    }
  }

  lemma {:induction false} SortKeepsLower(s: seq<Target>, id: nat)
    ensures Lower(SortById(s), id) == Lower(s, id)
  {
    if s != [] {
      SortKeepsLower(s[1..], id);
      InsertKeepsLower(s[0], SortById(s[1..]), id);
    }
  }

  lemma {:induction false} NoneLower(s: seq<Target>, id: nat)
    requires forall k :: 0 <= k < |s| ==> id <= s[k].id
    ensures Lower(s, id) == 0
  {
    if s != [] {
      NoneLower(s[1..], id);
    }
  }

  lemma {:induction false} PlaceInSorted(s: seq<Target>, i: nat)
    requires Sorted(s) && DistinctIds(s) && i < |s|
    ensures Lower(s, s[i].id) == i
    decreases i
  {
    if i == 0 {
      NoneLower(s, s[0].id);
    } else {
      assert s[0].id < s[i].id;
      PlaceInSorted(s[1..], i - 1);
    }
  }

  /** Place `i` of the sorted list holds the object that `i` others come before. */
  lemma {:induction false} PlaceMeans(s: seq<Target>, f: Target, i: nat)
    requires DistinctIds(s)
    ensures i < |s| && SortById(s)[i] == f <==> f in s && Lower(s, f.id) == i
  {
    SortSorts(s);
    MembersAgree(s, s);
    if i < |s| && SortById(s)[i] == f {
      PlaceInSorted(SortById(s), i);
      SortKeepsLower(s, f.id);
      assert f in multiset(SortById(s));
    }
    if f in s && Lower(s, f.id) == i {
      var k := PlaceOf(s, f);
      PlaceInSorted(SortById(s), k);
      SortKeepsLower(s, f.id);
    }
  }

  /** Which flower a member goes for, told from what it sees: with fewer than six the others move up one place. */
  lemma {:induction false} GoesForFlowerIff(flowers: seq<Target>, member: nat, f: Target)
    requires DistinctIds(flowers)
    ensures FlowerFor(flowers, member) == Some(f) <==>
      && member != NO_TEAM && f in flowers
      && member == Lower(flowers, f.id) + if |flowers| < TEAM_SIZE then 1 else 0
  {
    PlaceMeans(flowers, f, Lower(flowers, f.id));
    if FlowerFor(flowers, member) == Some(f) {
      PlaceMeans(flowers, f, if |flowers| < TEAM_SIZE then member - 1 else member);
    }
  }

  /** Members 2k and 2k + 1 take the shadow that k others come before. */
  lemma {:induction false} GoesForShadowIff(shadows: seq<Target>, member: nat, f: Target)
    requires DistinctIds(shadows)
    ensures ShadowFor(shadows, member) == Some(f) <==>
      member < TEAM_SIZE && |shadows| >= 3 && f in shadows && Lower(shadows, f.id) == member / 2
  {
    PlaceMeans(shadows, f, member / 2);
  }

  /** If there are as many shields as needed, member i takes the one that i others come before. */
  lemma {:induction false} TakesShieldIff(shields: seq<Target>, needed: nat, member: nat, f: Target)
    requires DistinctIds(shields)
    ensures ShieldFor(shields, needed, member) == Some(f) <==>
      member != NO_TEAM && |shields| >= needed && f in shields && Lower(shields, f.id) == member
  {
    PlaceMeans(shields, f, member);
  }

  /** Two different members never go for the same flower, whatever order each sees them in. */
  lemma {:induction false} FlowersAreNotShared(s: seq<Target>, t: seq<Target>, i: nat, j: nat)
    requires SameObjects(s, t) && DistinctIds(s) && i != j
    requires FlowerFor(s, i).Some? && FlowerFor(t, j).Some?
    ensures FlowerFor(s, i).value.id != FlowerFor(t, j).value.id
  {
    MembersAgree(s, t);
  }

  /** All members see the listed objects, each in an order of its own. */
  ghost predicate AllSee(view: nat -> seq<Target>, list: seq<Target>) {
    forall m :: SameObjects(list, view(m))
  }

  lemma {:induction false} ViewIsTheSame(view: nat -> seq<Target>, list: seq<Target>, m: nat)
    requires AllSee(view, list) && DistinctIds(list)
    ensures SortById(view(m)) == SortById(list) && |view(m)| == |list|
    ensures FlowerFor(view(m), m) == FlowerFor(list, m)
    ensures ShadowFor(view(m), m) == ShadowFor(list, m)
  {
    assert SameObjects(list, view(m));
    MembersAgree(list, view(m));
  }

  lemma {:induction false} PlaceOf(list: seq<Target>, f: Target) returns (k: nat)
    requires f in list
    ensures k < |list| && SortById(list)[k] == f
  {
    assert f in multiset(SortById(list));
    k :| k < |list| && SortById(list)[k] == f;
  }

  /** With fewer than six flowers some member from 1 to n goes for `f`. */
  lemma {:induction false} SomeoneTakes(view: nat -> seq<Target>, flowers: seq<Target>, f: Target) returns (m: nat)
    requires 0 < |flowers| < TEAM_SIZE && DistinctIds(flowers) && AllSee(view, flowers) && f in flowers
    ensures 1 <= m <= |flowers| && FlowerFor(view(m), m) == Some(f)
  {
    var i := PlaceOf(flowers, f);
    m := i + 1;
    ViewIsTheSame(view, flowers, m);
  }

  /** ... and nobody else does. */
  lemma {:induction false} OnlyOneTakes(view: nat -> seq<Target>, flowers: seq<Target>, f: Target, m: nat, k: nat)
    requires DistinctIds(flowers) && AllSee(view, flowers)
    requires FlowerFor(view(m), m) == Some(f) && FlowerFor(view(k), k) == Some(f)
    ensures m == k
  {
    ViewIsTheSame(view, flowers, m);
    ViewIsTheSame(view, flowers, k);
    if m != k {
      FlowersAreNotShared(flowers, flowers, m, k);
    }
  }

  /** Fewer than six flowers: the captain stays, and members 1..n take all n flowers, one each. */
  lemma {:induction false} FewFlowersAreCovered(view: nat -> seq<Target>, flowers: seq<Target>, f: Target) returns (m: nat)
    requires 0 < |flowers| < TEAM_SIZE && DistinctIds(flowers) && AllSee(view, flowers) && f in flowers
    ensures FlowerFor(view(0), 0).None?
    ensures 1 <= m <= |flowers| && FlowerFor(view(m), m) == Some(f)
    ensures forall k: nat :: FlowerFor(view(k), k) == Some(f) ==> k == m
  {
    ViewIsTheSame(view, flowers, 0);
    m := SomeoneTakes(view, flowers, f);
    forall k: nat | FlowerFor(view(k), k) == Some(f)
      ensures k == m
    {
      OnlyOneTakes(view, flowers, f, m, k);
    }
  }

  /** Six or more flowers: every one of the six members has one. */
  lemma {:induction false} ManyFlowersForEveryone(view: nat -> seq<Target>, flowers: seq<Target>, member: nat)
    requires |flowers| >= TEAM_SIZE && DistinctIds(flowers) && AllSee(view, flowers) && member < TEAM_SIZE
    ensures FlowerFor(view(member), member) == Some(SortById(flowers)[member])
  {
    ViewIsTheSame(view, flowers, member);
  }

  lemma DistinctAt(s: seq<Target>, i: nat, k: nat)
    requires DistinctIds(s) && i < |s| && k < |s|
    ensures s[i] == s[k] <==> i == k
  {
  }

  lemma {:induction false} PairOf(view: nat -> seq<Target>, shadows: seq<Target>, f: Target, k: nat, m: nat)
    requires |shadows| == 3 && DistinctIds(shadows) && AllSee(view, shadows) && m < TEAM_SIZE
    requires k < 3 && SortById(shadows)[k] == f
    ensures ShadowFor(view(m), m) == Some(f) <==> m == 2 * k || m == 2 * k + 1
  {
    ViewIsTheSame(view, shadows, m);
    MembersAgree(shadows, shadows);
    DistinctAt(SortById(shadows), m / 2, k);
  }

  /** Exactly three shadows: each gets exactly two of the six members, numbers 2k and 2k + 1. */
  lemma {:induction false} EachShadowGetsTwo(view: nat -> seq<Target>, shadows: seq<Target>, f: Target) returns (k: nat)
    requires |shadows| == 3 && DistinctIds(shadows) && AllSee(view, shadows) && f in shadows
    ensures k < 3
    ensures forall m: nat :: m < TEAM_SIZE ==> (ShadowFor(view(m), m) == Some(f) <==> m == 2 * k || m == 2 * k + 1)
  {
    k := PlaceOf(shadows, f);
    forall m: nat | m < TEAM_SIZE
      ensures ShadowFor(view(m), m) == Some(f) <==> m == 2 * k || m == 2 * k + 1
    {
      PairOf(view, shadows, f, k, m);
    }
  }

  /** Different members take different shields, and with enough shields all six members have one. */
  lemma {:induction false} ShieldsAreNotShared(s: seq<Target>, t: seq<Target>, needed: nat, i: nat, j: nat)
    requires SameObjects(s, t) && DistinctIds(s) && i != j
    ensures ShieldFor(s, needed, i).Some? && ShieldFor(t, needed, j).Some?
      ==> ShieldFor(s, needed, i).value.id != ShieldFor(t, needed, j).value.id
    ensures i < TEAM_SIZE <= needed <= |s| ==> ShieldFor(s, needed, i).Some?
  {
    MembersAgree(s, t);
  }
}
