/**
 Moving stacks between containers: the wardrobe pull with its quantity limit and the warehouse
 pull by a list of names.
 */
module Transfer {
  import opened Optional
  import opened Pigeonhole
  import opened SlotAllocator

  const RAW_LIMIT: nat := 0x1_0000

  /** `raw` is the 16-bit count stored with an item. */
  datatype Stack = Stack(name: string, raw: nat)

  type Slots = seq<Option<Stack>>

  /** The count the program sees: an implausible or zero count reads as 1. */
  function GetCount(raw: nat): (c: nat)
    ensures c >= 1
    ensures 1 <= raw < RAW_LIMIT ==> c <= raw
    ensures 1 <= raw <= 10000 ==> c == raw
    ensures 10000 < raw < RAW_LIMIT || raw == 0 ==> c == 1
  {
    var count := raw % RAW_LIMIT;
    if count > 10000 || count == 0 then 1 else count
  }

  function Amount(s: Option<Stack>, name: string): nat {
    if s.Some? && s.value.name == name then s.value.raw else 0
  }

  /** How many items called `name` a container holds. */
  function Total(slots: Slots, name: string): nat {
    if slots == [] then 0 else Amount(slots[0], name) + Total(slots[1..], name)
  }

  function Load(s: Option<Stack>): nat { if s.Some? then s.value.raw else 0 }

  /** How many items a container holds. */
  function TotalLoad(slots: Slots): nat {
    if slots == [] then 0 else Load(slots[0]) + TotalLoad(slots[1..])
  }

  /** How many stacks a container holds. */
  function Used(slots: Slots): nat {
    if slots == [] then 0 else (if slots[0].Some? then 1 else 0) + Used(slots[1..])
  }

  lemma {:induction false} UpdateUsed(slots: Slots, i: nat, s: Option<Stack>)
    requires i < |slots|
    ensures Used(slots[i := s]) == Used(slots) - (if slots[i].Some? then 1 else 0) + if s.Some? then 1 else 0
    decreases i
  {
    if i == 0 {
      assert slots[i := s][1..] == slots[1..];
    } else {
      assert slots[i := s][1..] == slots[1..][i - 1 := s];
      UpdateUsed(slots[1..], i - 1, s);
    }
  }

  /** The program reads every stack's count as it is. */
  ghost predicate Readable(slots: Slots) {
    forall k :: 0 <= k < |slots| ==> slots[k].Some? ==> slots[k].value.raw <= 10000
  }

  lemma {:induction false} UpdateTotals(slots: Slots, i: nat, s: Option<Stack>, name: string)
    requires i < |slots|
    ensures Total(slots[i := s], name) == Total(slots, name) - Amount(slots[i], name) + Amount(s, name)
    ensures TotalLoad(slots[i := s]) == TotalLoad(slots) - Load(slots[i]) + Load(s)
    decreases i
  {
    if i == 0 {
      assert slots[i := s][1..] == slots[1..];
    } else {
      assert slots[i := s][1..] == slots[1..][i - 1 := s];
      UpdateTotals(slots[1..], i - 1, s, name);
    }
  }

  lemma {:induction false} AbsentMeansZero(slots: Slots, name: string)
    requires forall k :: 0 <= k < |slots| ==> slots[k] == None || slots[k].value.name != name
    ensures Total(slots, name) == 0
  {
    if slots != [] {
      AbsentMeansZero(slots[1..], name);
    }
  }

  /** Every stack holds at least one item and fits its 16-bit field. */
  ghost predicate Stocked(slots: Slots) {
    forall k :: 0 <= k < |slots| ==> slots[k].Some? ==> 1 <= slots[k].value.raw < RAW_LIMIT
  }

  /** The zero-based positions of the occupied slots, in order. */
  function Occupied(slots: Slots): (r: seq<int>)
    ensures DistinctBelow(r, |slots|)
    ensures forall k :: 0 <= k < |slots| ==> (slots[k].Some? <==> k in r)
  {
    if slots == [] then []
    else
      var n := |slots| - 1;
      var r := Occupied(slots[..n]);
      if slots[n].Some? then r + [n] else r
  }

  /** The bag takes nothing more: no slot but possibly the last is free. */
  ghost predicate Refuses(bag: Slots) { !HasRoom(Occupied(bag), |bag|) }

  function Sum(ns: seq<nat>): nat {
    if ns == [] then 0 else Sum(ns[..|ns| - 1]) + ns[|ns| - 1]
  }

  lemma {:induction false} SumAtLeastLength(ns: seq<nat>)
    requires forall k :: 0 <= k < |ns| ==> ns[k] >= 1
    ensures |ns| <= Sum(ns)
  {
    if ns != [] {
      SumAtLeastLength(ns[..|ns| - 1]);
    }
  }

  /** Request `k` is for the whole stack found, or for what is still missing if that is less. */
  ghost predicate AsksFor(requests: seq<nat>, uCount: nat, found: nat -> Option<nat>, k: nat)
    requires k < |requests|
  {
    var missing := uCount - Sum(requests[..k]);
    found(k).Some? && requests[k] == if GetCount(found(k).value) > missing then missing else GetCount(found(k).value)
  }

  lemma {:induction false} RequestsGrow(requests: seq<nat>, uCount: nat, found: nat -> Option<nat>, count: nat)
    requires forall k :: 0 <= k < |requests| ==> AsksFor(requests, uCount, found, k)
    ensures (requests + [count])[..|requests|] == requests
    ensures forall k :: 0 <= k < |requests| ==> AsksFor(requests + [count], uCount, found, k)
  {
    var r := requests + [count];
    assert r[..|requests|] == requests;
    forall k | 0 <= k < |requests|
      ensures AsksFor(r, uCount, found, k)
    {
      assert AsksFor(requests, uCount, found, k);
      assert r[..k] == requests[..k];
    }
  }

  /**
   The wardrobe pull against an arbitrary environment: `found(n)` is the raw count of the stack the
   n-th look finds and `room(n)` whether the bag then has room.  Whatever they answer, the loop ends
   and asks for no more than was requested.
   */
  method PullRequests(uCount: nat, found: nat -> Option<nat>, room: nat -> bool) returns (requests: seq<nat>)
    ensures |requests| <= uCount && Sum(requests) <= uCount
    ensures forall k :: 0 <= k < |requests| ==> found(k).Some? && requests[k] >= 1
    ensures forall k :: 0 <= k < |requests| ==> AsksFor(requests, uCount, found, k)
    ensures Sum(requests) == uCount || found(|requests|).None? || !room(|requests|)
  {
    requests := [];
    var uTotal := 0;
    while uTotal < uCount && found(|requests|).Some?
      invariant uTotal == Sum(requests) <= uCount
      invariant forall k :: 0 <= k < |requests| ==> found(k).Some? && requests[k] >= 1
      invariant forall k :: 0 <= k < |requests| ==> AsksFor(requests, uCount, found, k)
      decreases uCount - uTotal
    {
      if !room(|requests|) {
        break;
      }
      var raw := found(|requests|).value;
      var count := uCount - uTotal;
      count := if GetCount(raw) > count then count else GetCount(raw);
      uTotal := uTotal + count;
      RequestsGrow(requests, uCount, found, count);
      requests := requests + [count];
    }
    SumAtLeastLength(requests);
  }

  /** A bag and the container items are pulled from; moves succeed as requested. */
  class Inventory {
    var bag: Slots
    var shelf: Slots

    constructor (bag: Slots, shelf: Slots)
      requires Stocked(bag) && Stocked(shelf)
      ensures Valid() && this.bag == bag && this.shelf == shelf
    {
      this.bag, this.shelf := bag, shelf;
    }

    ghost predicate Valid()
      reads this
    {
      Stocked(bag) && Stocked(shelf)
    }

    /** The environment's answer to a move request: `n` items of stack `k` appear in bag position `free`. */
    method MoveToBag(k: nat, n: nat, free: nat)
      requires Valid() && k < |shelf| && shelf[k].Some? && 1 <= n <= shelf[k].value.raw
      requires free < |bag| && bag[free].None?
      modifies this
      ensures Valid() && |bag| == old(|bag|) && |shelf| == old(|shelf|)
      ensures forall name ::
        Total(bag, name) == old(Total(bag, name)) + if name == old(shelf[k].value.name) then n else 0
      ensures forall name ::
        Total(shelf, name) == old(Total(shelf, name)) - if name == old(shelf[k].value.name) then n else 0
      ensures TotalLoad(shelf) == old(TotalLoad(shelf)) - n
      ensures Used(bag) + Used(shelf) == old(Used(bag) + Used(shelf)) + if n < old(shelf[k].value.raw) then 1 else 0
      ensures old(Readable(shelf)) ==> Readable(shelf)
    {
      var s := shelf[k].value;
      var rest := if s.raw == n then None else Some(s.(raw := s.raw - n));
      forall name: string
        ensures Total(shelf[k := rest], name) == Total(shelf, name) - if name == s.name then n else 0
        ensures Total(bag[free := Some(s.(raw := n))], name) == Total(bag, name) + if name == s.name then n else 0
        ensures TotalLoad(shelf[k := rest]) == TotalLoad(shelf) - n
      {
        UpdateTotals(shelf, k, rest, name);
        UpdateTotals(bag, free, Some(s.(raw := n)), name);
      }
      UpdateTotals(shelf, k, rest, s.name);
      UpdateUsed(shelf, k, rest);
      UpdateUsed(bag, free, Some(s.(raw := n)));
      shelf, bag := shelf[k := rest], bag[free := Some(s.(raw := n))];
    }

    method FindByName(name: string) returns (k: Option<nat>)
      ensures k.Some? ==> k.value < |shelf| && shelf[k.value].Some? && shelf[k.value].value.name == name
      ensures k.Some? ==> forall j :: 0 <= j < k.value ==> shelf[j] == None || shelf[j].value.name != name
      ensures k.None? ==> Total(shelf, name) == 0
    {
      for i := 0 to |shelf|
        invariant forall j :: 0 <= j < i ==> shelf[j] == None || shelf[j].value.name != name
      {
        if shelf[i].Some? && shelf[i].value.name == name {
          return Some(i);
        }
      }
      AbsentMeansZero(shelf, name);
      return None;
    }

    /** The bag position behind the slot number the allocator returns. */
    method FindRoom() returns (free: Option<nat>)
      ensures free.Some? ==> free.value < |bag| && bag[free.value].None?
      ensures free.Some? ==> forall k :: 0 <= k < free.value ==> bag[k].Some?
      ensures free.None? <==> Refuses(bag)
    {
      var ok, obj := GetEmptyItemObj(Occupied(bag), |bag|, Bag, 0);
      if !ok {
        return None;
      }
      ghost var i: nat :|
        && 1 <= i < |bag| && IsFree(Occupied(bag), i) && obj == Encode(Bag, i, 0)
        && forall k :: 1 <= k < i ==> !IsFree(Occupied(bag), k);
      EncodeRoundTrip(Bag, i, 0);
      assert SlotOf(obj) == i;
      forall k | 0 <= k < i - 1
        ensures bag[k].Some?
      {
        assert !IsFree(Occupied(bag), k + 1);
      }
      return Some(SlotOf(obj) - 1);
    }

    /** Pulls up to `uCount` items called `name` from the wardrobe. */
    method PullItemByWardrobe(name: string, uCount: nat)
      requires Valid()
      modifies this
      ensures Valid()
      ensures forall other :: Total(bag, other) + Total(shelf, other) == old(Total(bag, other) + Total(shelf, other))
      ensures forall other :: other != name ==> Total(shelf, other) == old(Total(shelf, other))
      ensures
        var moved := old(Total(shelf, name)) - Total(shelf, name);
        && 0 <= moved <= uCount
        && (moved == (if uCount <= old(Total(shelf, name)) then uCount else old(Total(shelf, name))) || Refuses(bag))
      ensures old(Readable(shelf)) ==> Used(bag) + Used(shelf) <= old(Used(bag) + Used(shelf)) + 1
    {
      var uTotal := 0;
      var k: Option<nat> := FindByName(name);
      while uTotal < uCount && k.Some?
        invariant Valid() && uTotal <= uCount
        invariant k.Some? ==> k.value < |shelf| && shelf[k.value].Some? && shelf[k.value].value.name == name
        invariant k.None? ==> Total(shelf, name) == 0
        invariant Total(shelf, name) + uTotal == old(Total(shelf, name))
        invariant forall other :: Total(bag, other) + Total(shelf, other) == old(Total(bag, other) + Total(shelf, other))
        invariant forall other :: other != name ==> Total(shelf, other) == old(Total(shelf, other))
        invariant old(Readable(shelf)) ==> Readable(shelf)
        invariant old(Readable(shelf)) ==>
          Used(bag) + Used(shelf) <= old(Used(bag) + Used(shelf)) + if uTotal < uCount then 0 else 1
        decreases uCount - uTotal
      {
        var free := FindRoom();
        if free.None? {
          break;
        }
        var count := uCount - uTotal;
        var available := GetCount(shelf[k.value].value.raw);
        count := if available > count then count else available;
        uTotal := uTotal + count;
        MoveToBag(k.value, count, free.value);
        k := FindByName(name);
      }
    }

    /**
     Pulls every stack whose name is listed from the warehouse.  Each round either moves items off
     the shelf or goes on to the next name.
     */
    method PullItemByWarehouse(names: seq<string>)
      requires Valid()
      modifies this
      ensures Valid()
      ensures forall other :: Total(bag, other) + Total(shelf, other) == old(Total(bag, other) + Total(shelf, other))
      ensures forall other :: other !in names ==> Total(shelf, other) == old(Total(shelf, other))
      ensures Refuses(bag) || forall name :: name in names ==> Total(shelf, name) == 0
      ensures old(Readable(shelf)) ==> Used(bag) + Used(shelf) == old(Used(bag) + Used(shelf))
    {
      var i := 0;
      while i < |names|
        invariant 0 <= i <= |names| && Valid()
        invariant forall other :: Total(bag, other) + Total(shelf, other) == old(Total(bag, other) + Total(shelf, other))
        invariant forall other :: other !in names ==> Total(shelf, other) == old(Total(shelf, other))
        invariant forall j :: 0 <= j < i ==> Total(shelf, names[j]) == 0
        invariant old(Readable(shelf)) ==> Readable(shelf) && Used(bag) + Used(shelf) == old(Used(bag) + Used(shelf))
        decreases TotalLoad(shelf), |names| - i
      {
        var k := FindByName(names[i]);
        if k.None? {
          i := i + 1;
          continue;
        }
        var free := FindRoom();
        if free.None? {
          break;
        }
        MoveToBag(k.value, GetCount(shelf[k.value].value.raw), free.value);
      }
    }
  }
}
