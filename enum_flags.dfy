/** EnumFlags (Helpers/EnumFlags.h): a set of enum values stored as a bit
    mask, bit v standing for the value v. The instance modelled is the one
    the library uses, TransformationFlags: an 8-bit mask over the eight
    values 0..7 of the 2D transformation enum. */
module EnumFlags {

  /** EnumValEnd of TransformationFlags (Transformations::Count). */
  const EnumValEnd: nat := 8

  /** ToMask(v): the mask with only bit v set, tabulated. */
  function ToMask(v: nat): bv8
    requires v < EnumValEnd
  {
    if v == 0 then 0x01 else if v == 1 then 0x02 else if v == 2 then 0x04
    else if v == 3 then 0x08 else if v == 4 then 0x10 else if v == 5 then 0x20
    else if v == 6 then 0x40 else 0x80
  }

  /** The table is `1 << v`, as the source computes it. */
  lemma ToMaskIsShift(v: nat)
    requires v < EnumValEnd
    ensures ToMask(v) == (1 as bv8) << v
  {
  }

  /** All(): the mask with every bit set, `(IntType)(-1)`. */
  const AllMask: bv8 := 0xFF

  predicate MaskContains(mask: bv8, v: nat)
    requires v < EnumValEnd
  {
    mask & ToMask(v) != 0
  }

  /** The values a mask stands for. */
  function Members(mask: bv8): set<nat>
  {
    set v: nat | v < EnumValEnd && MaskContains(mask, v)
  }

  /** Two masks with the same members are the same mask. */
  lemma {:induction false} MembersInjective(a: bv8, b: bv8)
    requires Members(a) == Members(b)
    ensures a == b
  {
    forall v: nat | v < EnumValEnd ensures MaskContains(a, v) == MaskContains(b, v) {
      assert MaskContains(a, v) <==> v in Members(a);
      assert MaskContains(b, v) <==> v in Members(b);
    }
    assert MaskContains(a, 0) == MaskContains(b, 0);
    assert MaskContains(a, 1) == MaskContains(b, 1);
    assert MaskContains(a, 2) == MaskContains(b, 2);
    assert MaskContains(a, 3) == MaskContains(b, 3);
    assert MaskContains(a, 4) == MaskContains(b, 4);
    assert MaskContains(a, 5) == MaskContains(b, 5);
    assert MaskContains(a, 6) == MaskContains(b, 6);
    assert MaskContains(a, 7) == MaskContains(b, 7);
  }

  /** Contains(v) holds of ToMask(w) exactly when v == w. */
  lemma ToMaskSingle(v: nat, w: nat)
    requires v < EnumValEnd && w < EnumValEnd
    ensures MaskContains(ToMask(w), v) <==> v == w
  {
  }

  lemma AllContainsEverything(v: nat)
    requires v < EnumValEnd
    ensures v in Members(AllMask)
  {
  }

  /** `+=` adds the value and nothing else. */
  lemma AddMembers(mask: bv8, v: nat)
    requires v < EnumValEnd
    ensures Members(mask | ToMask(v)) == Members(mask) + {v}
  {
    forall w: nat | w < EnumValEnd
      ensures MaskContains(mask | ToMask(v), w) <==> MaskContains(mask, w) || w == v
    {
    }
  }

  /** `-=` removes only the value. */
  lemma RemoveMembers(mask: bv8, v: nat)
    requires v < EnumValEnd
    ensures Members(mask & !ToMask(v)) == Members(mask) - {v}
  {
    forall w: nat | w < EnumValEnd
      ensures MaskContains(mask & !ToMask(v), w) <==> MaskContains(mask, w) && w != v
    {
    }
  }

  /** `|=` is the union of the members. */
  lemma UnionMembers(a: bv8, b: bv8)
    ensures Members(a | b) == Members(a) + Members(b)
  {
    forall w: nat | w < EnumValEnd
      ensures MaskContains(a | b, w) <==> MaskContains(a, w) || MaskContains(b, w)
    {
    }
  }

  /** `&=` is the intersection of the members. */
  lemma IntersectMembers(a: bv8, b: bv8)
    ensures Members(a & b) == Members(a) * Members(b)
  {
    forall w: nat | w < EnumValEnd
      ensures MaskContains(a & b, w) <==> MaskContains(a, w) && MaskContains(b, w)
    {
    }
  }

  /** The flags object: one mask field that the operators update. */
  class Flags {
    var BitMask: bv8

    constructor (bitMask: bv8)
      ensures BitMask == bitMask
    {
      BitMask := bitMask;
    }

    /** `EnumFlags(EnumType startValue)`: the set holding one value. */
    constructor Single(v: nat)
      requires v < EnumValEnd
      ensures Members(BitMask) == {v}
    {
      BitMask := ToMask(v);
      new;
      AddMembers(0, v);
      assert (0 as bv8) | ToMask(v) == ToMask(v);
      assert Members(0) == {};
    }

    predicate Contains(v: nat)
      requires v < EnumValEnd
      reads this
    {
      MaskContains(BitMask, v)
    }

    /** Enumerate: appends, in ascending order, every value below EnumValEnd
        that the set contains. */
    method Enumerate(outValues: seq<nat>) returns (r: seq<nat>)
      ensures |r| >= |outValues| && r[..|outValues|] == outValues
      ensures forall i, j :: |outValues| <= i < j < |r| ==> r[i] < r[j]
      ensures forall v :: v in r[|outValues|..] <==> v in Members(BitMask)
    {
      r := outValues;
      var i := 0;
      while i < EnumValEnd
        invariant 0 <= i <= EnumValEnd
        invariant |r| >= |outValues| && r[..|outValues|] == outValues
        invariant forall k :: |outValues| <= k < |r| ==> r[k] < i
        invariant forall a, b :: |outValues| <= a < b < |r| ==> r[a] < r[b]
        invariant forall v :: v in r[|outValues|..] <==> v < i && v in Members(BitMask)
      {
        if Contains(i) {
          assert (r + [i])[|outValues|..] == r[|outValues|..] + [i];
          r := r + [i];
        }
        i := i + 1;
      }
    }

    method Add(v: nat)
      requires v < EnumValEnd
      modifies this
      ensures BitMask == old(BitMask) | ToMask(v)
      ensures Members(BitMask) == old(Members(BitMask)) + {v}
    {
      AddMembers(BitMask, v);
      BitMask := BitMask | ToMask(v);
    }

    method Remove(v: nat)
      requires v < EnumValEnd
      modifies this
      ensures BitMask == old(BitMask) & !ToMask(v)
      ensures Members(BitMask) == old(Members(BitMask)) - {v}
    {
      RemoveMembers(BitMask, v);
      BitMask := BitMask & !ToMask(v);
    }

    method UnionWith(other: bv8)
      modifies this
      ensures BitMask == old(BitMask) | other
      ensures Members(BitMask) == old(Members(BitMask)) + Members(other)
    {
      UnionMembers(BitMask, other);
      BitMask := BitMask | other;
    }

    method IntersectWith(other: bv8)
      modifies this
      ensures BitMask == old(BitMask) & other
      ensures Members(BitMask) == old(Members(BitMask)) * Members(other)
    {
      IntersectMembers(BitMask, other);
      BitMask := BitMask & other;
    }
  }
}
