/** Carving a range of units into aligned blocks, and when that leaves unmerged buddies. */
module Carving {
  import opened Bits
  import opened Buddy

  /** Class of the first block carved off `[s, end)`; frame 0 gets the constant 32 = 2^5. */
  function CarveClass(s: nat, end: nat, order: nat): (k: nat)
    requires s < end && order > 0
    ensures k < order
  {
    BitLengthBounds(end - s);
    Min(Min(if s > 0 then TrailingZeros(s) else 5, BitLength(end - s) - 1), order - 1)
  }

  lemma CarveFits(s: nat, end: nat, order: nat)
    requires s < end && order > 0
    ensures Aligned(s, CarveClass(s, end, order)) && s + Pow2(CarveClass(s, end, order)) <= end
  {
    var k := CarveClass(s, end, order);
    BitLengthBounds(end - s);
    Pow2Mono(k, BitLength(end - s) - 1);
    if s > 0 { TrailingZerosAligned(s, k); } else { ZeroAligned(k); }
  }

  /** The size expression of the carving loop is two to the carve class. */
  lemma CarveSize(s: nat, end: nat, order: nat, wordBits: nat)
    requires s < end < Pow2(wordBits) && order > 0
    ensures var lowbit := if s > 0 then And(s, (Pow2(wordBits) - 1 - s) + 1) else 32;
            var size := Min(Min(lowbit, PrevPowerOfTwo(end - s)), Pow2(order - 1));
            size == Pow2(CarveClass(s, end, order)) && TrailingZeros(size) == CarveClass(s, end, order)
  {
    var a := if s > 0 then TrailingZeros(s) else 5;
    var b := BitLength(end - s) - 1;
    if s > 0 { LowBit(s, wordBits); }
    assert Pow2(5) == 32;
    MinPow2(a, b);
    MinPow2(Min(a, b), order - 1);
    TrailingZerosPow2(CarveClass(s, end, order));
  }

  /** The free lists after the frames `[s, end)` have been carved into them. */
  function Carve(f: Lists, s: nat, end: nat): (r: Lists)
    requires |f| > 0
    ensures |r| == |f|
    decreases end - s
  {
    if s >= end then f
    else
      CarveFits(s, end, |f|);
      var k := CarveClass(s, end, |f|);
      Carve(Put(f, s, k), s + Pow2(k), end)
  }

  predicate Within(s: nat, end: nat, u: nat) { s <= u < end }

  function Range(s: nat, end: nat): set<nat> { set u: nat | u < end && Within(s, end, u) }

  /** Putting in a block of unmanaged frames keeps the tiling. */
  lemma {:induction false} PutSplit(f: Lists, o: Lists, managed: set<nat>, s: nat, k: nat)
    requires Split(f, o, managed) && k < |f| && Aligned(s, k)
    requires managed !! Range(s, s + Pow2(k))
    ensures Split(Put(f, s, k), o, managed + Range(s, s + Pow2(k)))
    ensures !Has(f, s, k)
  {
    var f' := Put(f, s, k);
    var b, b' := Union(f, o), Union(f', o);
    HasUnion(f, o);
    HasUnion(f', o);
    assert forall t, j :: Has(b', t, j) <==> Has(b, t, j) || (t == s && j == k);
    assert forall u :: Covers(s, k, u) ==> !Covered(b, u);
    assert Covers(s, k, s) && (Has(b, s, k) ==> Holds(b, s, k, s));
    forall u ensures u in managed + Range(s, s + Pow2(k)) <==> Covered(b', u) {
      if Covers(s, k, u) {
        assert Holds(b', s, k, u);
      } else if u in managed {
        var t, j :| Holds(b, t, j, u);
        assert Holds(b', t, j, u);
      }
      if Covered(b', u) {
        var t, j :| Holds(b', t, j, u);
        assert (t == s && j == k) || Holds(b, t, j, u);
      }
    }
    forall t, j, t', j', u | Holds(b', t, j, u) && Holds(b', t', j', u)
      ensures t == t' && j == j'
    {
      assert Has(b, t, j) ==> Holds(b, t, j, u);
      assert Has(b, t', j') ==> Holds(b, t', j', u);
    }
  }

  /** Taking out a free block leaves a tiling of the other units. */
  lemma {:induction false} TakeSplit(f: Lists, o: Lists, managed: set<nat>, s: nat, k: nat)
    requires Split(f, o, managed) && Has(f, s, k)
    ensures Split(Take(f, s, k), o, managed - Range(s, s + Pow2(k)))
  {
    var f' := Take(f, s, k);
    var b, b' := Union(f, o), Union(f', o);
    HasUnion(f, o);
    HasUnion(f', o);
    assert forall t, j :: Has(b', t, j) <==> Has(b, t, j) && !(t == s && j == k);
    forall u ensures u in managed - Range(s, s + Pow2(k)) <==> Covered(b', u) {
      if u in managed {
        var t, j :| Holds(b, t, j, u);
        assert Covers(s, k, u) ==> Holds(b, s, k, u);
        assert !Covers(s, k, u) ==> Holds(b', t, j, u);
      }
      if Covered(b', u) {
        var t, j :| Holds(b', t, j, u);
        assert Holds(b, t, j, u) && (Covers(s, k, u) ==> Holds(b, s, k, u));
      }
    }
    forall t, j, t', j', u | Holds(b', t, j, u) && Holds(b', t', j', u) ensures t == t' && j == j' {
      assert Holds(b, t, j, u) && Holds(b, t', j', u);
    }
  }

  /** Adding frames extends the tiling by exactly those frames and the weight by their number. */
  lemma {:induction false} CarveSplit(f: Lists, o: Lists, managed: set<nat>, s: nat, end: nat)
    requires Split(f, o, managed) && |f| > 0 && s <= end
    requires managed !! Range(s, end)
    ensures Split(Carve(f, s, end), o, managed + Range(s, end))
    ensures Weight(Carve(f, s, end)) == Weight(f) + (end - s)
    decreases end - s
  {
    if s < end {
      CarveFits(s, end, |f|);
      var k := CarveClass(s, end, |f|);
      var t := s + Pow2(k);
      PutSplit(f, o, managed, s, k);
      WeightPut(f, s, k);
      CarveSplit(Put(f, s, k), o, managed + Range(s, t), t, end);
      assert managed + Range(s, t) + Range(t, end) == managed + Range(s, end);
    } else {
      assert managed + Range(s, end) == managed;
    }
  }

  function Empty(order: nat): Lists { seq(order, _ => {}) }

  /** Every carved block has the class the carving rule gives its start. */
  lemma {:induction false} CarveHas(f: Lists, s: nat, end: nat, t: nat, j: nat)
    requires |f| > 0 && Has(Carve(f, s, end), t, j)
    ensures Has(f, t, j) || (s <= t < end && j == CarveClass(t, end, |f|))
    decreases end - s
  {
    if s < end {
      CarveFits(s, end, |f|);
      var k := CarveClass(s, end, |f|);
      CarveHas(Put(f, s, k), s + Pow2(k), end, t, j);
    }
  }

  lemma EmptySplit(order: nat)
    ensures Split(Empty(order), Empty(order), {})
    ensures NoBuddies(Empty(order)) && Weight(Empty(order)) == 0
  {
    assert forall s, k :: !Has(Empty(order), s, k);
    assert forall s, k :: !Has(Union(Empty(order), Empty(order)), s, k);
    EmptyWeight(order);
  }

  lemma {:induction false} EmptyWeight(order: nat)
    ensures Weight(Empty(order)) == 0
  {
    if order > 0 {
      EmptyWeight(order - 1);
      assert Empty(order)[..order - 1] == Empty(order - 1);
      assert 0 * Pow2(order - 1) == 0;
    }
  }

  /** A whole aligned window of 2^order frames lies in `[s, end)`. */
  ghost predicate HasTopWindow(s: nat, end: nat, order: nat) {
    exists w: nat :: Aligned(w, order) && s <= w && w + Pow2(order) <= end
  }

  /** Every frame of the range lies in a carved block. */
  lemma CarvedCovers(s: nat, end: nat, order: nat, v: nat) returns (t: nat, j: nat)
    requires s <= v < end && order > 0
    ensures Has(Carve(Empty(order), s, end), t, j) && Covers(t, j, v) && Aligned(t, j) && j < order
    ensures t < end && j == CarveClass(t, end, order)
  {
    var f, e := Carve(Empty(order), s, end), Empty(order);
    var managed := {} + Range(s, end);
    EmptySplit(order);
    CarveSplit(e, e, {}, s, end);
    FreeUnits(f, e, managed, v);
    assert forall t, j :: !Has(e, t, j);
    t, j :| Holds(f, t, j, v);
    CarveHas(e, s, end, t, j);
    CarveFits(t, end, order);
  }

  /** A carved block starts at every frame of the range aligned to the top class. */
  lemma {:induction false} CarvedAt(s: nat, end: nat, order: nat, v: nat)
    requires s <= v < end && order > 0 && Aligned(v, order - 1)
    ensures Has(Carve(Empty(order), s, end), v, CarveClass(v, end, order))
  {
    var t, j := CarvedCovers(s, end, order, v);
    Nested(t, j, v, order - 1, v);
  }

  lemma CarvedBuddies(s: nat, end: nat, order: nat, lo: nat, j: nat)
    requires order > 0 && s <= lo && Aligned(lo, j + 1) && lo + Pow2(j + 1) <= end
    requires CarveClass(lo, end, order) == j
    ensures HasTopWindow(s, end, order) || (s == 0 && end >= 64)
  {
    var n := end - lo;
    BitLengthBounds(n);
    if lo > 0 { TrailingZerosAligned(lo, j + 1); }
    assert Pow2(6) == 64;
  }

  lemma {:induction false} TopClass(v: nat, end: nat, order: nat)
    requires order > 0 && Aligned(v, order - 1) && v + Pow2(order - 1) <= end
    ensures CarveClass(v, end, order) == if v > 0 || order <= 6 then order - 1 else 5
  {
    HighBit(end - v, order - 1);
    if v > 0 { TrailingZerosAligned(v, order - 1); }
  }

  lemma {:induction false} TopWindowBuddies(s: nat, end: nat, order: nat, w: nat)
    requires order > 0 && Aligned(w, order) && s <= w && w + Pow2(order) <= end
    requires w > 0 || order <= 6
    ensures !NoBuddies(Carve(Empty(order), s, end))
  {
    TopPair(s, end, order, w);
  }

  /** The halves of a whole top window are carved as blocks of their own. */
  lemma {:induction false} TopPair(s: nat, end: nat, order: nat, w: nat)
    requires order > 0 && Aligned(w, order) && s <= w && w + Pow2(order) <= end
    requires w > 0 || order <= 6
    ensures var f, k := Carve(Empty(order), s, end), order - 1;
            Has(f, w, k) && Has(f, BuddyOf(w, k), k) && w < BuddyOf(w, k)
  {
    var v := w + Pow2(order - 1);
    Halves(w, order - 1);
    CarvedAt(s, end, order, w);
    CarvedAt(s, end, order, v);
    TopClass(w, end, order);
    TopClass(v, end, order);
  }

  /** From frame 0, the constant 32 leaves blocks 0 and 32 as unmerged buddies. */
  lemma {:induction false} ZeroBuddies(end: nat, order: nat)
    requires order > 6 && end >= 64
    ensures !NoBuddies(Carve(Empty(order), 0, end))
  {
    var f := Carve(Empty(order), 0, end);
    ZeroBlocks(end, order);
    LowClasses(end, order);
    Halves(0, 5);
    assert Has(f, 0, 5) && Has(f, BuddyOf(0, 5), 5);
  }

  lemma {:induction false} ZeroBlocks(end: nat, order: nat)
    requires order > 6 && end >= 64
    ensures Has(Carve(Empty(order), 0, end), 0, 5) && Has(Carve(Empty(order), 0, end), 32, 5)
  {
    var e := Empty(order);
    LowClasses(end, order);
    var f1 := Put(e, 0, 5);
    var f2 := Put(f1, 32, 5);
    assert Carve(f1, 32, end) == Carve(f2, 64, end);
    CarveKeeps(f2, 64, end, 0, 5);
    CarveKeeps(f2, 64, end, 32, 5);
  }

  lemma LowClasses(end: nat, order: nat)
    requires order > 6 && end >= 64
    ensures Pow2(5) == 32 && Aligned(0, 6)
    ensures CarveClass(0, end, order) == 5 && CarveClass(32, end, order) == 5
  {
    assert Pow2(5) == 32;
    HighBit(end, 5);
    HighBit(end - 32, 5);
    TrailingZerosPow2(5);
  }

  lemma {:induction false} CarveKeeps(f: Lists, s: nat, end: nat, t: nat, j: nat)
    requires |f| > 0 && Has(f, t, j)
    ensures Has(Carve(f, s, end), t, j)
    decreases end - s
  {
    if s < end {
      CarveFits(s, end, |f|);
      var k := CarveClass(s, end, |f|);
      CarveKeeps(Put(f, s, k), s + Pow2(k), end, t, j);
    }
  }

  /** A fresh allocator has no unmerged buddies exactly when the range holds no whole top window
      and does not run from frame 0 to frame 64 or beyond. */
  lemma {:induction false} CarveNoBuddiesIff(s: nat, end: nat, order: nat)
    requires s <= end && order > 0
    ensures NoBuddies(Carve(Empty(order), s, end)) <==> !HasTopWindow(s, end, order) && !(s == 0 && end >= 64)
  {
    if !NoBuddies(Carve(Empty(order), s, end)) { BuddiesNeedRoom(s, end, order); }
    if s == 0 && end >= 64 && order > 6 {
      ZeroBuddies(end, order);
    } else if HasTopWindow(s, end, order) || (s == 0 && end >= 64) {
      var w := TopWindow(s, end, order);
      TopWindowBuddies(s, end, order, w);
    }
  }

  /** Unmerged buddies below the top class come only from the constant for frame 0. */
  lemma {:induction false} LowBuddies(s: nat, end: nat, order: nat)
    requires s <= end && order > 0
    ensures NoBuddiesBut(Carve(Empty(order), s, end), order - 1, 0, 5)
    ensures !(s == 0 && end >= 64) ==> NoBuddiesBelow(Carve(Empty(order), s, end), order - 1)
  {
    var e := Empty(order);
    var f := Carve(e, s, end);
    forall t, j: nat | Has(f, t, j) && Has(f, BuddyOf(t, j), j) && j < order - 1
      ensures j == 5 && (t == 0 || BuddyOf(t, j) == 0) && s == 0 && end >= 64
    {
      var b := BuddyOf(t, j);
      CarveHas(e, s, end, t, j);
      CarveHas(e, s, end, b, j);
      CarveFits(t, end, order);
      CarveFits(b, end, order);
      BuddyHalves(t, j);
      LowPair(end, order, Min(t, b), j);
    }
  }

  lemma LowPair(end: nat, order: nat, lo: nat, j: nat)
    requires Aligned(lo, j + 1) && lo + Pow2(j + 1) <= end && j < order - 1 && CarveClass(lo, end, order) == j
    ensures lo == 0 && j == 5 && end >= 64
  {
    HighBit(end - lo, j + 1);
    if lo > 0 { TrailingZerosAligned(lo, j + 1); }
    assert Pow2(6) == 64;
  }

  /** A fresh allocator has no unmerged buddies below the top class exactly when its range does not run from frame 0 to
      frame 64 or beyond, or the constant 32 is no smaller than the top class. */
  lemma LowBuddiesIff(s: nat, end: nat, order: nat)
    requires s <= end && order > 0
    ensures NoBuddiesBelow(Carve(Empty(order), s, end), order - 1) <==> !(s == 0 && end >= 64 && order > 6)
  {
    LowBuddies(s, end, order);
    if s == 0 && end >= 64 && order > 6 {
      ZeroBlocks(end, order);
      LowClasses(end, order);
      Halves(0, 5);
    }
  }

  lemma RangeNoTopWindow(start: nat, end: nat, order: nat)
    ensures NoTopWindow(Range(start, end), order) <==> !HasTopWindow(start, end, order)
  {
    if NoTopWindow(Range(start, end), order) {
      forall w: nat | Aligned(w, order) ensures !(start <= w && w + Pow2(order) <= end) {
        var u :| Covers(w, order, u) && u !in Range(start, end);
      }
    }
    if !HasTopWindow(start, end, order) {
      forall w: nat | Aligned(w, order) ensures exists u :: Covers(w, order, u) && u !in Range(start, end) {
        var last := w + Pow2(order) - 1;
        assert Covers(w, order, w) && Covers(w, order, last);
        assert !(start <= w && w + Pow2(order) <= end);
        assert w !in Range(start, end) || last !in Range(start, end);
      }
    }
  }

  lemma TopWindow(s: nat, end: nat, order: nat) returns (w: nat)
    requires order > 0 && (HasTopWindow(s, end, order) || (s == 0 && end >= 64)) && !(s == 0 && end >= 64 && order > 6)
    ensures Aligned(w, order) && s <= w && w + Pow2(order) <= end && (w > 0 || order <= 6)
  {
    assert Pow2(6) == 64;
    if HasTopWindow(s, end, order) {
      w :| Aligned(w, order) && s <= w && w + Pow2(order) <= end;
      if order > 6 { Pow2Mono(6, order); }
    } else {
      w := 0;
      Pow2Mono(order, 6);
    }
  }

  lemma {:induction false} BuddiesNeedRoom(s: nat, end: nat, order: nat)
    requires s <= end && order > 0 && !NoBuddies(Carve(Empty(order), s, end))
    ensures HasTopWindow(s, end, order) || (s == 0 && end >= 64)
  {
    var e := Empty(order);
    var f := Carve(e, s, end);
    var t, j :| Has(f, t, j) && Has(f, BuddyOf(t, j), j);
    var b := BuddyOf(t, j);
    CarveHas(e, s, end, t, j);
    CarveHas(e, s, end, b, j);
    CarveFits(t, end, order);
    CarveFits(b, end, order);
    BuddyHalves(t, j);
    CarvedBuddies(s, end, order, Min(t, b), j);
  }
}
