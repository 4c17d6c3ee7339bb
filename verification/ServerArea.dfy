/** The relation "same server area", looked up in a table of groups of server ids. */
module ServerArea {
  import opened Optional

  type Table = seq<seq<nat>>

  /** The first group that lists `a`. */
  function GroupOf(table: Table, a: nat): (g: Option<seq<nat>>)
    ensures g.Some? ==> a in g.value && g.value in table
    ensures g.Some? ==> exists i: nat :: IsFirstWith(table, a, i) && table[i] == g.value
    ensures g.None? ==> forall h :: h in table ==> a !in h
  {
    if table == [] then None
    else if a in table[0] then assert IsFirstWith(table, a, 0); Some(table[0])
    else
      var g := GroupOf(table[1..], a);
      FirstWithLater(table, a);
      g
  }

  /** Group `i` lists `a`, and no group before it does. */
  ghost predicate IsFirstWith(table: Table, a: nat, i: nat) {
    i < |table| && a in table[i] && forall j :: 0 <= j < i ==> a !in table[j]
  }

  lemma FirstWithLater(table: Table, a: nat)
    requires table != [] && a !in table[0]
    ensures forall i: nat :: IsFirstWith(table[1..], a, i) ==> IsFirstWith(table, a, i + 1) && table[i + 1] == table[1..][i]
  {
    forall i: nat | IsFirstWith(table[1..], a, i)
      ensures IsFirstWith(table, a, i + 1)
    {
      forall j | 0 <= j < i + 1
        ensures a !in table[j]
      {
        assert j > 0 ==> table[j] == table[1..][j - 1];
      }
    }
  }

  predicate IsSame(table: Table, a: nat, b: nat) {
    a == b || (GroupOf(table, a).Some? && b in GroupOf(table, a).value)
  }

  ghost predicate IsEquivalence(table: Table) {
    && (forall a :: IsSame(table, a, a))
    && (forall a, b :: IsSame(table, a, b) ==> IsSame(table, b, a))
    && (forall a, b, c :: IsSame(table, a, b) && IsSame(table, b, c) ==> IsSame(table, a, c))
  }

  /** Whoever appears in the group that answers for `a` is answered for by a group with the same ids. */
  ghost predicate Consistent(table: Table) {
    forall a, b :: GroupOf(table, a).Some? && b in GroupOf(table, a).value ==> SameIds(GroupOf(table, a), GroupOf(table, b))
  }

  ghost predicate SameIds(g: Option<seq<nat>>, h: Option<seq<nat>>) {
    g.Some? && h.Some? && forall c :: c in g.value <==> c in h.value
  }

  /** The relation is an equivalence over all ids exactly for consistent tables. */
  lemma {:induction false} EquivalenceIffConsistent(table: Table)
    ensures IsEquivalence(table) <==> Consistent(table)
  {
    if IsEquivalence(table) {
      forall a, b | GroupOf(table, a).Some? && b in GroupOf(table, a).value
        ensures SameIds(GroupOf(table, a), GroupOf(table, b))
      {
        EquivalentGroups(table, a, b);
      }
    }
    if Consistent(table) {
      forall a, b, c | IsSame(table, a, b) && IsSame(table, b, c)
        ensures IsSame(table, b, a) && IsSame(table, a, c)
      {
        if a != b {
          assert SameIds(GroupOf(table, a), GroupOf(table, b));
        }
      }
      forall a, b | IsSame(table, a, b)
        ensures IsSame(table, b, a)
      {
        assert IsSame(table, b, b);
      }
    }
  }

  lemma {:induction false} EquivalentGroups(table: Table, a: nat, b: nat)
    requires IsEquivalence(table) && GroupOf(table, a).Some? && b in GroupOf(table, a).value
    ensures SameIds(GroupOf(table, a), GroupOf(table, b))
  {
    assert IsSame(table, a, b);
    assert IsSame(table, b, a);
    assert GroupOf(table, b).Some? by {
      if GroupOf(table, b).None? {
        assert GroupOf(table, a).value in table;
      }
    }
    var g, h := GroupOf(table, a).value, GroupOf(table, b).value;
    forall c
      ensures c in g <==> c in h
    {
      if c in g { assert IsSame(table, a, c) && IsSame(table, b, c); }
      if c in h { assert IsSame(table, b, c) && IsSame(table, a, c); }
    }
  }

  /** No id is listed in two groups. */
  ghost predicate Disjoint(table: Table) {
    forall i, j, a :: 0 <= i < |table| && 0 <= j < |table| && a in table[i] && a in table[j] ==> i == j
  }

  lemma {:induction false} DisjointIsConsistent(table: Table)
    requires Disjoint(table)
    ensures Consistent(table)
  {
  }

  /** The shipped table of server ids. */
  function Shipped(): Table {
    [[0x3], [0x2E], [0x4, 0x17, 0x10], [0x5, 0x1A, 0x19], [0x34, 0x1F, 0x16], [0x1, 0x7, 0x14],
     [0x9, 0x6, 0xF], [0x2, 0xE, 0x15], [0x11, 0x12, 0x18, 0x1C], [0x8, 0xA, 0xB, 0xC], [0xD, 0x13, 0x1B, 0x1D]]
  }

  function ShippedGroup(a: nat): nat {
    if a == 0x3 then 0 else if a == 0x2E then 1
    else if a in {0x4, 0x17, 0x10} then 2 else if a in {0x5, 0x1A, 0x19} then 3
    else if a in {0x34, 0x1F, 0x16} then 4 else if a in {0x1, 0x7, 0x14} then 5
    else if a in {0x9, 0x6, 0xF} then 6 else if a in {0x2, 0xE, 0x15} then 7
    else if a in {0x11, 0x12, 0x18, 0x1C} then 8 else if a in {0x8, 0xA, 0xB, 0xC} then 9 else 10
  }

  lemma ShippedGroupOfMember(i: nat, a: nat)
    requires i < |Shipped()| && a in Shipped()[i]
    ensures ShippedGroup(a) == i
  {
  }

  lemma {:induction false} ShippedIsDisjoint()
    ensures Disjoint(Shipped())
  {
    var t := Shipped();
    forall i, j, a | 0 <= i < |t| && 0 <= j < |t| && a in t[i] && a in t[j]
      ensures i == j
    {
      ShippedGroupOfMember(i, a);
      ShippedGroupOfMember(j, a);
    }
  }

  /** The shipped table gives an equivalence relation over all server ids. */
  lemma {:induction false} ShippedIsEquivalence()
    ensures IsEquivalence(Shipped())
  {
    ShippedIsDisjoint();
    DisjointIsConsistent(Shipped());
    EquivalenceIffConsistent(Shipped());
  }

  class BnsArea {
    var area: Table

    constructor ()
      ensures area == []
    {
      area := [];
    }

    method Initialize()
      modifies this
      ensures area == Shipped()
    {
      area := [];
      area := area + [[0x3]];
      area := area + [[0x2E]];
      area := area + [[0x4, 0x17, 0x10]];
      area := area + [[0x5, 0x1A, 0x19]];
      area := area + [[0x34, 0x1F, 0x16]];
      area := area + [[0x1, 0x7, 0x14]];
      area := area + [[0x9, 0x6, 0xF]];
      area := area + [[0x2, 0xE, 0x15]];
      area := area + [[0x11, 0x12, 0x18, 0x1C]];
      area := area + [[0x8, 0xA, 0xB, 0xC]];
      area := area + [[0xD, 0x13, 0x1B, 0x1D]];
    }

    method IsSameArea(a: nat, b: nat) returns (same: bool)
      ensures same <==> IsSame(area, a, b)
    {
      if a == b {
        return true;
      }
      var i := 0;
      while i < |area|
        invariant 0 <= i <= |area|
        invariant GroupOf(area, a) == GroupOf(area[i..], a)
      {
        if a in area[i] {
          return b in area[i];
        }
        assert area[i..][1..] == area[i + 1..];
        i := i + 1;
      }
      return false;
    }
  }
}
