/** Finding a free slot of a container and packing it into an item id. */
module SlotAllocator {
  import opened Optional
  import opened Pigeonhole

  datatype Kind = Bag | Equi | Warehouse | Wardrobe | OtherKind

  const WORD: nat := 0x1_0000

  function Tag(kind: Kind): nat {
    match kind
    case Bag => 2
    case Warehouse => 3
    case Wardrobe => 6
    case _ => 0
  }

  /** The item id of slot number `i`; for other containers the caller's value is left as it is. */
  function Encode(kind: Kind, i: nat, before: nat): nat {
    if kind.Equi? || kind.OtherKind? then before else i * WORD + Tag(kind)
  }

  /** The id as `GetSId` reads it back: one byte of slot number, one byte of container tag. */
  function MaskedId(id: nat): nat {
    id / WORD % 0x100 * WORD + id % 0x100
  }

  function SlotOf(id: nat): nat { id / WORD }

  function TagOf(id: nat): nat { id % WORD }

  lemma HighPart(i: nat, t: nat)
    requires t < 0x100
    ensures (i * WORD + t) / WORD == i && (i * WORD + t) % WORD == t
  {
  }

  lemma LowByte(m: nat, t: nat)
    requires t < 0x100
    ensures (m * 0x100 + t) % 0x100 == t
  {
  }

  /** An encoded id decodes to its slot and tag, and passes the byte mask exactly for slots below 256. */
  lemma {:induction false} EncodeRoundTrip(kind: Kind, i: nat, before: nat)
    requires kind.Bag? || kind.Warehouse? || kind.Wardrobe?
    ensures SlotOf(Encode(kind, i, before)) == i
    ensures TagOf(Encode(kind, i, before)) == if kind.Bag? then 2 else if kind.Warehouse? then 3 else 6
    ensures MaskedId(Encode(kind, i, before)) == Encode(kind, i, before) <==> i < 0x100
  {
    HighPart(i, Tag(kind));
    LowByte(i * 0x100, Tag(kind));
    assert i * 0x100 * 0x100 == i * WORD;
  }

  /** No two slots, of one container or of two, share an id. */
  lemma {:induction false} IdsDoNotClash(kind: Kind, other: Kind, i: nat, j: nat, before: nat)
    requires kind.Bag? || kind.Warehouse? || kind.Wardrobe?
    requires other.Bag? || other.Warehouse? || other.Wardrobe?
    requires Encode(kind, i, before) == Encode(other, j, before)
    ensures kind == other && i == j
  {
    EncodeRoundTrip(kind, i, before);
    EncodeRoundTrip(other, j, before);
  }

  /** Some slot number in 1..max-1 is free; `occupied` holds zero-based positions. */
  ghost predicate HasRoom(occupied: seq<int>, max: nat) {
    exists i :: IsFree(occupied, i) && 1 <= i < max
  }

  predicate IsFree(occupied: seq<int>, i: int) { i - 1 !in occupied }

  /**
   The first free slot.  The last slot is never tried, and the count is compared with the capacity
   before the search.
   */
  method GetEmptyItemObj(occupied: seq<int>, max: nat, kind: Kind, before: nat) returns (ok: bool, obj: nat)
    requires DistinctBelow(occupied, max)
    ensures ok <==> HasRoom(occupied, max)
    ensures ok ==> exists i: nat ::
      && 1 <= i < max && IsFree(occupied, i) && obj == Encode(kind, i, before)
      && forall k :: 1 <= k < i ==> !IsFree(occupied, k)
    ensures !ok || kind.Equi? || kind.OtherKind? ==> obj == before
  {
    obj := before;
    if |occupied| == max {
      AtMost(occupied, max);
      return false, obj;
    }
    var i := 1;
    while i < max
      invariant 1 <= i
      invariant forall k :: 1 <= k < i ==> !IsFree(occupied, k)
    {
      var taken := ExistsIndex(occupied, i);
      if !taken {
        obj := Encode(kind, i, before);
        return true, obj;
      }
      i := i + 1;
    }
    return false, obj;
  }

  method ExistsIndex(occupied: seq<int>, index: int) returns (taken: bool)
    ensures taken <==> !IsFree(occupied, index)
  {
    for n := 0 to |occupied|
      invariant index - 1 !in occupied[..n]
    {
      if occupied[n] + 1 == index {
        return true;
      }
    }
    assert occupied[..|occupied|] == occupied;
    return false;
  }

  /** A container that is not full is refused exactly when its last slot is the only free one. */
  lemma {:induction false} RefusedIffOnlyLastIsFree(occupied: seq<int>, max: nat)
    requires DistinctBelow(occupied, max) && |occupied| < max
    ensures !HasRoom(occupied, max) <==> |occupied| == max - 1 && max - 1 !in occupied
  {
    if |occupied| == max - 1 && max - 1 !in occupied {
      AtMost(occupied, max - 1);
      assert forall i :: 1 <= i < max ==> !IsFree(occupied, i);
    } else if !HasRoom(occupied, max) {
      forall x | 0 <= x < max - 1
        ensures x in occupied
      {
        assert !IsFree(occupied, x + 1);
      }
      AtLeast(occupied, max, max - 1);
      if max - 1 in occupied {
        AtLeast(occupied, max, max);
      }
    }
  }
}
