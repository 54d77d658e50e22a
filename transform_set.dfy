/** TransformSet of Tiled3D/Transform3D.h: a set of the 48 cube transforms
    kept as one bit per transform (bit ToBitIdx(t)), plus a cached element
    count nBits.

    The machine word `bits` is represented by the set of positions of its
    one-bits; `Math::CountBits(bits)` is then the cardinality of that set
    (WfcMath proves CountBits is the population count). */
module TransformSets {
  import opened CubeTransforms

  /** The bit positions a sequence of transforms sets. */
  function IndexSet(ts: seq<Transform3D>): set<nat>
  {
    if |ts| == 0 then {} else IndexSet(ts[..|ts| - 1]) + {ToBitIdx(ts[|ts| - 1])}
  }

  /** The positions set are those of the transforms in the sequence, all
      below BIT_COUNT. */
  lemma {:induction false} IndexSetMembers(ts: seq<Transform3D>)
    ensures forall i :: i in IndexSet(ts) ==> i < N_TRANSFORMS
    ensures forall t :: ToBitIdx(t) in IndexSet(ts) <==> t in ts
  {
    if |ts| > 0 {
      var before := ts[..|ts| - 1];
      var last := ts[|ts| - 1];
      IndexSetMembers(before);
      assert forall t :: t in ts <==> t in before || t == last;
      forall t
        ensures ToBitIdx(t) in IndexSet(ts) <==> t in ts
      {
        if ToBitIdx(t) == ToBitIdx(last) { ToBitIdxInjective(t, last); }
      }
    }
  }

  /** The bit positions 0..n-1: USED_BITS when n is BIT_COUNT. */
  function Below(n: nat): (r: set<nat>)
    ensures |r| == n
    ensures forall i: nat :: i in r <==> i < n
  {
    if n == 0 then {}
    else
      var r := Below(n - 1);
      assert n - 1 !in r;
      r + {n - 1}
  }

  /** The inverted counterpart of every un-inverted bit:
      `(bits & UNINVERTED_BITS) << FIRST_INVERT_BIT_IDX`. */
  function InvertedCopies(bits: set<nat>): (r: set<nat>)
    ensures forall i :: i in r <==> N_ROTATIONS_3D <= i && i - N_ROTATIONS_3D in bits && i - N_ROTATIONS_3D < N_ROTATIONS_3D
  {
    set i | i in bits && i < N_ROTATIONS_3D :: i + N_ROTATIONS_3D
  }

  /** The bits the iterator visits from bit `i` on: each set bit below
      BIT_COUNT, in ascending order. */
  function Enumerated(bits: set<nat>, i: nat): seq<nat>
    requires i <= N_TRANSFORMS
    decreases N_TRANSFORMS - i
  {
    if i == N_TRANSFORMS then []
    else (if i in bits then [i] else []) + Enumerated(bits, i + 1)
  }

  /** Strictly ascending. */
  predicate Ascending(s: seq<nat>)
  {
    forall a, b :: 0 <= a < b < |s| ==> s[a] < s[b]
  }

  /** The bit positions of `bits` at or above `i`. */
  function AtOrAbove(bits: set<nat>, i: nat): set<nat>
  {
    set b | b in bits && i <= b
  }

  lemma {:induction false} EnumeratedOrdered(bits: set<nat>, i: nat)
    requires i <= N_TRANSFORMS
    ensures Ascending(Enumerated(bits, i))
    ensures forall b :: b in Enumerated(bits, i) <==> b in bits && i <= b < N_TRANSFORMS
    decreases N_TRANSFORMS - i
  {
    if i < N_TRANSFORMS {
      EnumeratedOrdered(bits, i + 1);
      var rest := Enumerated(bits, i + 1);
      if i in bits {
        var s := [i] + rest;
        assert Enumerated(bits, i) == s;
        forall a, b | 0 <= a < b < |s|
          ensures s[a] < s[b]
        {
          assert s[b] == rest[b - 1] && s[b] in rest;
          if a > 0 { assert s[a] == rest[a - 1]; }
        }
      } else {
        assert Enumerated(bits, i) == rest;
      }
    }
  }

  lemma {:induction false} EnumeratedLength(bits: set<nat>, i: nat)
    requires i <= N_TRANSFORMS
    requires forall b :: b in bits ==> b < N_TRANSFORMS
    ensures |Enumerated(bits, i)| == |AtOrAbove(bits, i)|
    decreases N_TRANSFORMS - i
  {
    if i == N_TRANSFORMS {
      assert AtOrAbove(bits, i) == {};
    } else {
      EnumeratedLength(bits, i + 1);
      if i in bits {
        assert AtOrAbove(bits, i) == AtOrAbove(bits, i + 1) + {i};
      } else {
        assert AtOrAbove(bits, i) == AtOrAbove(bits, i + 1);
      }
    }
  }

  /** Iteration visits every set bit exactly once, in ascending order. */
  lemma EnumerationMeetsOrder(bits: set<nat>)
    requires forall b :: b in bits ==> b < N_TRANSFORMS
    ensures Ascending(Enumerated(bits, 0))
    ensures forall b :: b in Enumerated(bits, 0) <==> b in bits
    ensures |Enumerated(bits, 0)| == |bits|
  {
    EnumeratedOrdered(bits, 0);
    EnumeratedLength(bits, 0);
    assert AtOrAbove(bits, 0) == bits;
  }

  /** Conversely, the only ascending sequence holding exactly the set bits
      at or above `i` is the enumeration from `i`: the order is fixed by
      the contents, whatever order the elements were added in. */
  lemma {:induction false} EnumerationIsUnique(bits: set<nat>, i: nat, s: seq<nat>)
    requires i <= N_TRANSFORMS
    requires Ascending(s)
    requires forall b :: b in s <==> b in bits && i <= b < N_TRANSFORMS
    ensures s == Enumerated(bits, i)
    decreases N_TRANSFORMS - i
  {
    if i == N_TRANSFORMS {
      NoMembersIsEmpty(s);
    } else if i in bits {
      HeadIsLowest(bits, i, s);
      EnumerationIsUnique(bits, i + 1, s[1..]);
      assert s == [i] + s[1..];
    } else {
      EnumerationIsUnique(bits, i + 1, s);
    }
  }

  lemma NoMembersIsEmpty(s: seq<nat>)
    requires forall b :: b !in s
    ensures s == []
  {
    FirstIsMember(s);
  }

  lemma FirstIsMember(s: seq<nat>)
    ensures |s| > 0 ==> s[0] in s
  {
  }

  /** When `i` is the lowest set bit from `i` on, an ascending sequence of
      those bits starts with it and its tail holds the rest. */
  lemma HeadIsLowest(bits: set<nat>, i: nat, s: seq<nat>)
    requires i < N_TRANSFORMS && i in bits
    requires Ascending(s)
    requires forall b :: b in s <==> b in bits && i <= b < N_TRANSFORMS
    ensures |s| > 0 && s[0] == i
    ensures Ascending(s[1..])
    ensures forall b :: b in s[1..] <==> b in bits && i + 1 <= b < N_TRANSFORMS
  {
    assert i in s;
    var k :| 0 <= k < |s| && s[k] == i;
    assert s[0] in s;
    var tail := s[1..];
    forall b
      ensures b in tail ==> b in bits && i + 1 <= b < N_TRANSFORMS
    {
      if b in tail {
        var j :| 0 <= j < |tail| && tail[j] == b;
        assert s[j + 1] == b;
        assert s[0] < s[j + 1];
      }
    }
    forall b | b in bits && i + 1 <= b < N_TRANSFORMS
      ensures b in tail
    {
      assert b in s;
      var j :| 0 <= j < |s| && s[j] == b;
      assert j != 0;
      assert tail[j - 1] == b;
    }
  }

  lemma EnumeratedSkip(bits: set<nat>, i: nat)
    requires i < N_TRANSFORMS && i !in bits
    ensures Enumerated(bits, i) == Enumerated(bits, i + 1)
  {
  }

  lemma EnumeratedTake(bits: set<nat>, i: nat)
    requires i < N_TRANSFORMS && i in bits
    ensures Enumerated(bits, i) == [i] + Enumerated(bits, i + 1)
  {
  }

  /** The transforms of a sequence of bit indices, one for one. */
  predicate Decodes(elems: seq<Transform3D>, idx: seq<nat>)
  {
    |elems| == |idx| && forall k :: 0 <= k < |elems| ==> ToBitIdx(elems[k]) == idx[k]
  }

  /** `bits` joined with the positions of the first `i` transforms of
      `ts`, one at a time: the set after `i` turns of the adding loop. */
  function Joined(bits: set<nat>, ts: seq<Transform3D>, i: nat): set<nat>
    requires i <= |ts|
  {
    if i == 0 then bits else Joined(bits, ts, i - 1) + {ToBitIdx(ts[i - 1])}
  }

  lemma IndexSetStep(ts: seq<Transform3D>, i: nat)
    requires i < |ts|
    ensures IndexSet(ts[..i + 1]) == IndexSet(ts[..i]) + {ToBitIdx(ts[i])}
  {
    assert ts[..i + 1][..i] == ts[..i];
  }

  /** After all the turns, the set holds the old bits and every position
      of `ts`. */
  lemma {:induction false} JoinedIsUnion(bits: set<nat>, ts: seq<Transform3D>, i: nat)
    requires i <= |ts|
    ensures Joined(bits, ts, i) == bits + IndexSet(ts[..i])
  {
    if i > 0 {
      JoinedIsUnion(bits, ts, i - 1);
      IndexSetStep(ts, i - 1);
    }
  }

  /** Adding the next transform of `ts` to the set after `i` turns makes
      the set after i + 1. */
  lemma AddStep(bits: set<nat>, ts: seq<Transform3D>, i: nat, before: set<nat>, after: set<nat>)
    requires i < |ts|
    requires before == Joined(bits, ts, i)
    requires after == before + {ToBitIdx(ts[i])}
    ensures after == Joined(bits, ts, i + 1)
  {
  }

  /** Joined over the whole of `ts`. */
  lemma JoinedAll(bits: set<nat>, ts: seq<Transform3D>)
    ensures Joined(bits, ts, |ts|) == bits + IndexSet(ts)
  {
    JoinedIsUnion(bits, ts, |ts|);
    assert ts[..|ts|] == ts;
  }

  /** When the loop is done, the set holds the old bits and every position
      of `ts`, and the cached count grew by the number of new ones. */
  lemma AddAllDone(start: set<nat>, ts: seq<Transform3D>, bits: set<nat>, added: nat)
    requires bits == Joined(start, ts, |ts|)
    requires |bits| == |start| + added
    ensures bits == start + IndexSet(ts)
    ensures added == |IndexSet(ts) - start|
  {
    JoinedAll(start, ts);
    assert bits == start + (IndexSet(ts) - start);
  }

  /** A set of transforms with its cached size. */
  class TransformSet {
    var bits: set<nat>
    var nBits: nat

    /** Only the 48 used bits can be set, and nBits is their count. */
    predicate Valid()
      reads this
    {
      (forall i :: i in bits ==> i < N_TRANSFORMS) && nBits == |bits|
    }

    constructor ()
      ensures Valid() && bits == {}
    {
      bits := {};
      nBits := 0;
    }

    /** TransformSet::All. */
    constructor All()
      ensures Valid() && bits == Below(N_TRANSFORMS)
      ensures forall t :: Contains(t)
    {
      bits := Below(N_TRANSFORMS);
      nBits := N_TRANSFORMS;
    }

    function Size(): (n: nat)
      requires Valid()
      reads this
      ensures n == |bits| && n <= N_TRANSFORMS
    {
      SizeBound();
      nBits
    }

    lemma SizeBound()
      requires Valid()
      ensures |bits| <= N_TRANSFORMS
    {
      assert bits <= Below(N_TRANSFORMS);
      SubsetCardinality(bits, Below(N_TRANSFORMS));
    }

    predicate Contains(t: Transform3D)
      reads this
    {
      ToBitIdx(t) in bits
    }

    /** Contains(TransformSet): every element of `other` is here. */
    predicate ContainsAll(other: TransformSet)
      reads this, other
    {
      other.bits <= bits
    }

    /** The two sets hold the same transforms (operator==). */
    predicate SameAs(other: TransformSet)
      reads this, other
    {
      bits == other.bits
    }

    /** Add(Transform3D): returns whether `t` was already present. */
    method Add(t: Transform3D) returns (contained: bool)
      requires Valid()
      modifies this
      ensures Valid()
      ensures contained <==> old(Contains(t))
      ensures bits == old(bits) + {ToBitIdx(t)}
      ensures nBits == old(nBits) + (if contained then 0 else 1)
    {
      contained := ToBitIdx(t) in bits;
      nBits := nBits + (if contained then 0 else 1);
      bits := bits + {ToBitIdx(t)};
    }

    /** Remove(Transform3D): returns whether `t` was present. */
    method Remove(t: Transform3D) returns (contained: bool)
      requires Valid()
      modifies this
      ensures Valid()
      ensures contained <==> old(Contains(t))
      ensures bits == old(bits) - {ToBitIdx(t)}
      ensures nBits == old(nBits) - (if contained then 1 else 0)
    {
      contained := ToBitIdx(t) in bits;
      nBits := nBits - (if contained then 1 else 0);
      bits := bits - {ToBitIdx(t)};
    }

    /** Add(TransformSet): returns how many elements were new. */
    method AddSet(other: TransformSet) returns (added: nat)
      requires Valid() && other.Valid()
      modifies this
      ensures Valid()
      ensures bits == old(bits) + old(other.bits)
      ensures added == |old(other.bits) - old(bits)| && nBits == old(nBits) + added
    {
      var otherBits := other.bits;
      var prevNBits := nBits;
      ghost var prev := bits;
      bits := bits + otherBits;
      nBits := |bits|;
      assert bits == prev + (otherBits - prev);
      added := nBits - prevNBits;
    }

    /** Remove(TransformSet): returns how many elements left. */
    method RemoveSet(other: TransformSet) returns (removed: nat)
      requires Valid() && other.Valid()
      modifies this
      ensures Valid()
      ensures bits == old(bits) - old(other.bits)
      ensures removed == |old(bits) * old(other.bits)| && nBits == old(nBits) - removed
    {
      var otherBits := other.bits;
      var prevNBits := nBits;
      ghost var prev := bits;
      bits := bits - otherBits;
      nBits := |bits|;
      assert prev == bits + (prev * otherBits);
      removed := prevNBits - nBits;
    }

    /** Intersect(TransformSet): returns how many elements left. */
    method Intersect(other: TransformSet) returns (removed: nat)
      requires Valid() && other.Valid()
      modifies this
      ensures Valid()
      ensures bits == old(bits) * old(other.bits)
      ensures removed == |old(bits) - old(other.bits)| && nBits == old(nBits) - removed
    {
      var otherBits := other.bits;
      var prevNBits := nBits;
      ghost var prev := bits;
      bits := bits * otherBits;
      nBits := |bits|;
      assert prev == bits + (prev - otherBits);
      removed := prevNBits - nBits;
    }

    /** AddInvertedVersions: (true, r) joins for every (false, r) present;
        nothing else changes. */
    method AddInvertedVersions()
      requires Valid()
      modifies this
      ensures Valid()
      ensures bits == old(bits) + InvertedCopies(old(bits))
      ensures forall t :: Contains(t) <==> old(Contains(t)) || (t.Invert && old(Contains(Transform3D(false, t.Rot))))
    {
      bits := bits + InvertedCopies(bits);
      nBits := |bits|;
      forall t
        ensures Contains(t) <==> old(Contains(t)) || (t.Invert && old(Contains(Transform3D(false, t.Rot))))
      {
        assert ToBitIdx(t) == RotOrdinal(t.Rot) + (if t.Invert then N_ROTATIONS_3D else 0);
        assert ToBitIdx(Transform3D(false, t.Rot)) == RotOrdinal(t.Rot);
      }
    }

    method Clear()
      modifies this
      ensures Valid() && bits == {}
    {
      bits := {};
      nBits := 0;
    }

    /** Add(iterable) as the source writes it: it adds up the results of
        Add(Transform3D), which say whether each element was ALREADY
        present, so it returns the number of repeats. */
    method AddAllAsWritten(ts: seq<Transform3D>) returns (newCount: nat)
      requires Valid()
      modifies this
      ensures Valid()
      ensures bits == old(bits) + IndexSet(ts)
      ensures newCount == |ts| - |IndexSet(ts) - old(bits)| && nBits == old(nBits) + (|ts| - newCount)
    {
      ghost var start := bits;
      ghost var startCount := nBits;
      newCount := 0;
      var i := 0;
      while i < |ts|
        invariant 0 <= newCount <= i <= |ts|
        invariant Valid()
        invariant bits == Joined(start, ts, i)
        invariant nBits == startCount + (i - newCount)
      {
        ghost var before := bits;
        var contained := Add(ts[i]);
        AddStep(start, ts, i, before, bits);
        newCount := newCount + (if contained then 1 else 0);
        i := i + 1;
      }
      AddAllDone(start, ts, bits, |ts| - newCount);
    }

    /** Add(iterable) as documented: returns the number of actual new
        elements. */
    method AddAll(ts: seq<Transform3D>) returns (newCount: nat)
      requires Valid()
      modifies this
      ensures Valid()
      ensures bits == old(bits) + IndexSet(ts)
      ensures newCount == |IndexSet(ts) - old(bits)| && nBits == old(nBits) + newCount
    {
      ghost var start := bits;
      ghost var startCount := nBits;
      newCount := 0;
      var i := 0;
      while i < |ts|
        invariant 0 <= i <= |ts|
        invariant Valid()
        invariant bits == Joined(start, ts, i)
        invariant nBits == startCount + newCount
      {
        ghost var before := bits;
        var contained := Add(ts[i]);
        AddStep(start, ts, i, before, bits);
        newCount := newCount + (if contained then 0 else 1);
        i := i + 1;
      }
      AddAllDone(start, ts, bits, newCount);
    }

    /** The ConstIterator constructor: moves from `start` to the first bit
        that holds an element, or to BIT_COUNT. */
    method FirstFrom(start: nat) returns (current: nat)
      requires start <= N_TRANSFORMS
      ensures start <= current <= N_TRANSFORMS
      ensures current < N_TRANSFORMS ==> current in bits
      ensures Enumerated(bits, current) == Enumerated(bits, start)
    {
      current := start;
      while current < N_TRANSFORMS && current !in bits
        invariant start <= current <= N_TRANSFORMS
        invariant Enumerated(bits, current) == Enumerated(bits, start)
        decreases N_TRANSFORMS - current
      {
        EnumeratedSkip(bits, current);
        current := current + 1;
      }
    }

    /** ConstIterator::operator++: moves at least one bit on, to the next
        element or to BIT_COUNT. */
    method Next(previous: nat) returns (current: nat)
      requires previous < N_TRANSFORMS
      ensures previous < current <= N_TRANSFORMS
      ensures current < N_TRANSFORMS ==> current in bits
      ensures Enumerated(bits, current) == Enumerated(bits, previous + 1)
    {
      current := previous;
      while current < N_TRANSFORMS
        invariant previous <= current <= N_TRANSFORMS
        invariant current > previous ==> Enumerated(bits, current) == Enumerated(bits, previous + 1)
        invariant previous < current < N_TRANSFORMS ==> current !in bits
        decreases N_TRANSFORMS - current
      {
        if current > previous { EnumeratedSkip(bits, current); }
        current := current + 1;
        if current < N_TRANSFORMS && current in bits {
          break;
        }
      }
    }

    /** Iteration from a ConstIterator made at bit `start` up to end():
        the transforms of the set bits from `start` on, in order. */
    method ElementsFrom(start: nat) returns (elems: seq<Transform3D>)
      requires start <= N_TRANSFORMS
      ensures Decodes(elems, Enumerated(bits, start))
    {
      elems := [];
      ghost var visited: seq<nat> := [];
      var current := FirstFrom(start);
      while current < N_TRANSFORMS
        invariant start <= current <= N_TRANSFORMS
        invariant current < N_TRANSFORMS ==> current in bits
        invariant visited + Enumerated(bits, current) == Enumerated(bits, start)
        invariant Decodes(elems, visited)
        decreases N_TRANSFORMS - current
      {
        VisitStep(bits, start, current, visited, elems);
        elems := elems + [FromBit(current)];
        visited := visited + [current];
        current := Next(current);
      }
    }

    /** Range-for over the set, from begin() to end(): every element once,
        in ascending bit order. */
    method Elements() returns (elems: seq<Transform3D>)
      requires Valid()
      ensures Decodes(elems, Enumerated(bits, 0))
      ensures forall a, b :: 0 <= a < b < |elems| ==> ToBitIdx(elems[a]) < ToBitIdx(elems[b])
      ensures forall t :: t in elems <==> Contains(t)
      ensures |elems| == Size()
    {
      elems := ElementsFrom(0);
      ElementsFacts(bits, elems);
    }
  }

  /** One step of the iteration: visiting the set bit `current` moves it
      from the bits still to come to the bits visited. */
  lemma VisitStep(bits: set<nat>, start: nat, current: nat, visited: seq<nat>, elems: seq<Transform3D>)
    requires start <= current < N_TRANSFORMS && current in bits
    requires visited + Enumerated(bits, current) == Enumerated(bits, start)
    requires Decodes(elems, visited)
    ensures (visited + [current]) + Enumerated(bits, current + 1) == Enumerated(bits, start)
    ensures Decodes(elems + [FromBit(current)], visited + [current])
  {
    EnumeratedTake(bits, current);
    var rest := Enumerated(bits, current + 1);
    assert visited + ([current] + rest) == (visited + [current]) + rest;
  }

  lemma ElementsFacts(bits: set<nat>, elems: seq<Transform3D>)
    requires forall b :: b in bits ==> b < N_TRANSFORMS
    requires Decodes(elems, Enumerated(bits, 0))
    ensures forall a, b :: 0 <= a < b < |elems| ==> ToBitIdx(elems[a]) < ToBitIdx(elems[b])
    ensures forall t :: t in elems <==> ToBitIdx(t) in bits
    ensures |elems| == |bits|
  {
    var idx := Enumerated(bits, 0);
    EnumerationMeetsOrder(bits);
    forall t
      ensures t in elems <==> ToBitIdx(t) in bits
    {
      if t in elems {
        var k :| 0 <= k < |elems| && elems[k] == t;
        assert idx[k] in idx;
      }
      if ToBitIdx(t) in bits {
        assert ToBitIdx(t) in idx;
        var k :| 0 <= k < |idx| && idx[k] == ToBitIdx(t);
        ToBitIdxInjective(elems[k], t);
      }
    }
  }

  /** Combine(iterable) as the source writes it: each element sets its bit
      and adds one to nBits, even when the bit was already set. */
  method CombineAsWritten(ts: seq<Transform3D>) returns (s: TransformSet)
    ensures fresh(s)
    ensures s.bits == IndexSet(ts) && s.nBits == |ts|
  {
    s := new TransformSet();
    var i := 0;
    while i < |ts|
      invariant 0 <= i <= |ts|
      invariant s.bits == Joined({}, ts, i) && s.nBits == i
    {
      s.bits := s.bits + {ToBitIdx(ts[i])};
      s.nBits := s.nBits + 1;
      i := i + 1;
    }
    JoinedAll({}, ts);
  }

  /** Combining the identity twice: the cached size says 2, the set holds
      one transform. */
  lemma CombineAsWrittenMiscounts()
    ensures |[Identity, Identity]| == 2 && |IndexSet([Identity, Identity])| == 1
  {
    assert ToBitIdx(Identity) == 0;
    assert [Identity, Identity][..1] == [Identity];
    assert IndexSet([Identity]) == {0};
  }

  /** Combine(iterable) with the size counted by Add(Transform3D). */
  method Combine(ts: seq<Transform3D>) returns (s: TransformSet)
    ensures fresh(s)
    ensures s.Valid() && s.bits == IndexSet(ts)
  {
    s := new TransformSet();
    var _ := s.AddAll(ts);
  }

  /** Adding one fresh transform to an empty set: Add(iterable) as written
      reports 0, although the one element was new. */
  lemma AddAllAsWrittenUndercounts(t: Transform3D)
    ensures |[t]| - |IndexSet([t]) - {}| == 0 && |IndexSet([t]) - {}| == 1
  {
    assert [t][..0] == [];
    assert IndexSet([t]) == {ToBitIdx(t)};
  }

  /** The order the source's TransformSet test expects after combining
      {None, AxisZ_180 inverted} with {None inverted, CornerBAA_120
      inverted}: bits 0, 24, 32 and 44, that is None, None inverted,
      AxisZ_180 inverted, CornerBAA_120 inverted. */
  lemma IterationOrderExample(bits: set<nat>)
    requires bits == {0, 24, 32, 44}
    ensures Enumerated(bits, 0) == [0, 24, 32, 44]
  {
    var s: seq<nat> := [0, 24, 32, 44];
    assert forall b :: b in s <==> b in bits && 0 <= b < N_TRANSFORMS;
    EnumerationIsUnique(bits, 0, s);
  }

  lemma IterationOrderExampleDecodes()
    ensures Decodes([Transform3D(false, None), Transform3D(true, None),
                     Transform3D(true, AxisZ_180), Transform3D(true, CornerBAA_120)], [0, 24, 32, 44])
  {
  }

  lemma SubsetCardinality(a: set<nat>, b: set<nat>)
    requires a <= b
    ensures |a| <= |b|
  {
    assert b == a + (b - a);
  }
}
