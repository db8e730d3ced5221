/** The buddy discipline shared by both allocators: blocks of size 2^k that start at
    multiples of their size, kept in one list (here: set of starts) per class. */
module Buddy {
  import opened Bits

  type Lists = seq<set<nat>>

  // ---------------------------------------------------------------- blocks

  /** Unit `f` lies in the block of class `k` at `s`. */
  predicate Covers(s: nat, k: nat, f: nat) { s <= f < s + Pow2(k) }

  predicate Has(b: Lists, s: nat, k: nat) { k < |b| && s in b[k] }

  function BuddyOf(s: nat, k: nat): (r: nat)
    ensures r == Flip(s, k) && r != s
  {
    XorPow2(s, k);
    FlipDiffers(s, k);
    Xor(s, Pow2(k))
  }

  /** A block of class k+1 is two adjacent blocks of class k, each the buddy of the other. */
  lemma {:induction false} Halves(s: nat, k: nat)
    requires Aligned(s, k + 1)
    ensures Aligned(s, k) && Aligned(s + Pow2(k), k)
    ensures BuddyOf(s, k) == s + Pow2(k) && BuddyOf(s + Pow2(k), k) == s
  {
    if k > 0 {
      Halves(s / 2, k - 1);
      assert (s + Pow2(k)) / 2 == s / 2 + Pow2(k - 1);
    }
  }

  /** Two buddies of class k are the two halves of the block of class k+1 at the lower one. */
  lemma {:induction false} BuddyHalves(s: nat, k: nat)
    requires Aligned(s, k)
    ensures Aligned(BuddyOf(s, k), k) && BuddyOf(BuddyOf(s, k), k) == s
    ensures Aligned(Min(s, BuddyOf(s, k)), k + 1)
    ensures s == Min(s, BuddyOf(s, k)) ==> BuddyOf(s, k) == s + Pow2(k)
    ensures s != Min(s, BuddyOf(s, k)) ==> s == BuddyOf(s, k) + Pow2(k)
  {
    if k > 0 {
      BuddyHalves(s / 2, k - 1);
      var b := BuddyOf(s, k);
      assert b == 2 * BuddyOf(s / 2, k - 1);
      assert Min(s, b) == 2 * Min(s / 2, b / 2);
    }
  }

  lemma {:induction false} SameClass(s: nat, t: nat, k: nat, f: nat)
    requires Aligned(s, k) && Aligned(t, k) && Covers(s, k, f) && Covers(t, k, f)
    ensures s == t
  {
    if k > 0 { SameClass(s / 2, t / 2, k - 1, f / 2); }
  }

  /** Aligned blocks that share a unit are nested. */
  lemma {:induction false} Nested(s: nat, k: nat, t: nat, j: nat, f: nat)
    requires k <= j && Aligned(s, k) && Aligned(t, j) && Covers(s, k, f) && Covers(t, j, f)
    ensures t <= s && s + Pow2(k) <= t + Pow2(j)
    decreases j - k
  {
    if k == j {
      SameClass(s, t, k, f);
    } else {
      Halves(t, j - 1);
      Nested(s, k, if f < t + Pow2(j - 1) then t else t + Pow2(j - 1), j - 1, f);
    }
  }

  // ---------------------------------------------------------------- tilings

  ghost predicate AllAligned(b: Lists) { forall s, k :: Has(b, s, k) ==> Aligned(s, k) }

  /** Unit `f` lies in the listed block of class `k` at `s`. */
  predicate Holds(b: Lists, s: nat, k: nat, f: nat) { Has(b, s, k) && Covers(s, k, f) }

  ghost predicate Disjoint(b: Lists) {
    forall s, k, t, j, f :: Holds(b, s, k, f) && Holds(b, t, j, f) ==> s == t && k == j
  }

  ghost predicate Covered(b: Lists, f: nat) { exists s, k :: Holds(b, s, k, f) }

  /** The blocks are aligned and disjoint and together hold exactly the units in `managed`. */
  ghost predicate Tiles(b: Lists, managed: set<nat>) {
    && AllAligned(b)
    && Disjoint(b)
    && (forall f :: f in managed <==> Covered(b, f))
  }

  /** No class holds both halves of a larger block. */
  ghost predicate NoBuddies(b: Lists) { forall s, k :: Has(b, s, k) ==> !Has(b, BuddyOf(s, k), k) }

  /** No class below `n` holds both halves of a larger block. */
  ghost predicate NoBuddiesBelow(b: Lists, n: int) {
    forall s, k: nat :: Has(b, s, k) && k < n ==> !Has(b, BuddyOf(s, k), k)
  }

  function Take(b: Lists, s: nat, k: nat): Lists
    requires k < |b|
  {
    b[k := b[k] - {s}]
  }

  function Put(b: Lists, s: nat, k: nat): Lists
    requires k < |b|
  {
    b[k := b[k] + {s}]
  }

  /** Lists with the same members in every class are equal. */
  lemma SameLists(a: Lists, b: Lists)
    requires |a| == |b| && forall s, k :: Has(a, s, k) <==> Has(b, s, k)
    ensures a == b
  {
    forall k | 0 <= k < |a| ensures a[k] == b[k] {
      assert forall s :: s in a[k] <==> Has(a, s, k);
    }
  }

  /** One block of class k+1 replaced by its two halves. */
  function Halve(b: Lists, s: nat, k: nat): Lists
    requires k + 1 < |b|
  {
    Put(Put(Take(b, s, k + 1), s + Pow2(k), k), s, k)
  }

  lemma {:induction false} HasHalve(b: Lists, s: nat, k: nat)
    requires k + 1 < |b|
    ensures forall t, j :: Has(Halve(b, s, k), t, j) <==>
              (Has(b, t, j) && !(t == s && j == k + 1)) || (j == k && (t == s || t == s + Pow2(k)))
  {
  }

  lemma HalveTiles(b: Lists, managed: set<nat>, s: nat, k: nat)
    requires Tiles(b, managed) && Has(b, s, k + 1)
    ensures Tiles(Halve(b, s, k), managed)
  {
    var b' := Halve(b, s, k);
    HasHalve(b, s, k);
    Halves(s, k);
    forall f ensures Covered(b', f) <==> Covered(b, f) {
      if Covered(b, f) {
        var t, j :| Holds(b, t, j, f);
        assert Holds(b', t, j, f) || Holds(b', s, k, f) || Holds(b', s + Pow2(k), k, f);
      }
      if Covered(b', f) {
        var t, j :| Holds(b', t, j, f);
        assert Holds(b, t, j, f) || Holds(b, s, k + 1, f);
      }
    }
    forall t, j, u, i, f | Holds(b', t, j, f) && Holds(b', u, i, f)
      ensures t == u && j == i
    {
      HalveDisjoint(b, s, k, t, j, u, i, f);
    }
  }

  /** Which block of `b` a block of `Halve(b, s, k)` came from. */
  ghost function Origin(b: Lists, s: nat, k: nat, t: nat, j: nat): (nat, nat) {
    if j == k && (t == s || t == s + Pow2(k)) then (s, k + 1) else (t, j)
  }

  lemma HalveDisjoint(b: Lists, s: nat, k: nat, t: nat, j: nat, u: nat, i: nat, f: nat)
    requires AllAligned(b) && Disjoint(b) && Has(b, s, k + 1)
    requires Holds(Halve(b, s, k), t, j, f) && Holds(Halve(b, s, k), u, i, f)
    ensures t == u && j == i
  {
    HasHalve(b, s, k);
    var o, p := Origin(b, s, k, t, j), Origin(b, s, k, u, i);
    assert Holds(b, o.0, o.1, f) && Holds(b, p.0, p.1, f);
    HalfNotWhole(b, s, k);
  }

  /** The halves of a block of a disjoint tiling are not themselves in it. */
  lemma HalfNotWhole(b: Lists, s: nat, k: nat)
    requires Disjoint(b) && Has(b, s, k + 1)
    ensures !Has(b, s, k) && !Has(b, s + Pow2(k), k)
  {
    var h := s + Pow2(k);
    assert Holds(b, s, k + 1, s) && Holds(b, s, k + 1, h);
    assert Has(b, s, k) ==> Holds(b, s, k, s);
    assert Has(b, h, k) ==> Holds(b, h, k, h);
  }

  /** Two buddies replaced by the block they form: the inverse of `Halve`. */
  function Join(b: Lists, s: nat, k: nat): Lists
    requires k + 1 < |b|
  {
    Put(Take(Take(b, s, k), BuddyOf(s, k), k), Min(s, BuddyOf(s, k)), k + 1)
  }

  lemma HasJoin(b: Lists, s: nat, k: nat)
    requires k + 1 < |b|
    ensures forall t, j :: Has(Join(b, s, k), t, j) <==>
              (Has(b, t, j) && !(j == k && (t == s || t == BuddyOf(s, k)))) ||
                  (j == k + 1 && t == Min(s, BuddyOf(s, k)))
  {
  }

  lemma JoinTiles(b: Lists, managed: set<nat>, s: nat, k: nat)
    requires Tiles(b, managed) && Has(b, s, k) && Has(b, BuddyOf(s, k), k) && k + 1 < |b|
    ensures Tiles(Join(b, s, k), managed)
  {
    var b' := Join(b, s, k);
    var lo := Min(s, BuddyOf(s, k));
    BuddyHalves(s, k);
    Halves(lo, k);
    HasJoin(b, s, k);
    assert Has(b, lo, k) && Has(b, lo + Pow2(k), k);
    forall f ensures Covered(b', f) <==> Covered(b, f) {
      if Covered(b, f) {
        var t, j :| Holds(b, t, j, f);
        assert Holds(b', t, j, f) || Holds(b', lo, k + 1, f);
      }
      if Covered(b', f) {
        var t, j :| Holds(b', t, j, f);
        assert Holds(b, t, j, f) || Holds(b, lo, k, f) || Holds(b, lo + Pow2(k), k, f);
      }
    }
    forall t, j, u, i, f | Holds(b', t, j, f) && Holds(b', u, i, f)
      ensures t == u && j == i
    {
      JoinDisjoint(b, lo, k, t, j, u, i, f);
    }
  }

  lemma {:induction false} JoinDisjoint(b: Lists, lo: nat, k: nat, t: nat, j: nat, u: nat, i: nat, f: nat)
    requires AllAligned(b) && Disjoint(b) && Has(b, lo, k) && Has(b, lo + Pow2(k), k)
    requires (Has(b, t, j) && !(j == k && (t == lo || t == lo + Pow2(k)))) || (j == k + 1 && t == lo)
    requires (Has(b, u, i) && !(i == k && (u == lo || u == lo + Pow2(k)))) || (i == k + 1 && u == lo)
    requires Covers(t, j, f) && Covers(u, i, f)
    ensures t == u && j == i
  {
    assert Covers(lo, k + 1, f) ==> Holds(b, lo, k, f) || Holds(b, lo + Pow2(k), k, f);
    assert Has(b, t, j) ==> Holds(b, t, j, f);
    assert Has(b, u, i) ==> Holds(b, u, i, f);
  }

  // ---------------------------------------------------------------- free and outstanding lists

  function Union(f: Lists, o: Lists): Lists
    requires |f| == |o|
  {
    seq(|f|, k requires 0 <= k < |f| => f[k] + o[k])
  }

  lemma HasUnion(f: Lists, o: Lists)
    requires |f| == |o|
    ensures forall s, k :: Has(Union(f, o), s, k) <==> Has(f, s, k) || Has(o, s, k)
  {
  }

  ghost predicate Apart(f: Lists, o: Lists) { forall s, k :: Has(f, s, k) ==> !Has(o, s, k) }

  lemma UnionHalve(f: Lists, o: Lists, s: nat, k: nat)
    requires |f| == |o| && k + 1 < |f| && !Has(o, s, k + 1)
    ensures Union(Halve(f, s, k), o) == Halve(Union(f, o), s, k)
  {
    SameLists(Union(Halve(f, s, k), o), Halve(Union(f, o), s, k));
  }

  lemma UnionJoin(f: Lists, o: Lists, s: nat, k: nat)
    requires |f| == |o| && k + 1 < |f| && !Has(o, s, k) && !Has(o, BuddyOf(s, k), k)
    ensures Union(Join(f, s, k), o) == Join(Union(f, o), s, k)
  {
    SameLists(Union(Join(f, s, k), o), Join(Union(f, o), s, k));
  }

  lemma UnionMove(f: Lists, o: Lists, s: nat, k: nat)
    requires |f| == |o| && Has(f, s, k)
    ensures Union(Take(f, s, k), Put(o, s, k)) == Union(f, o) == Union(Put(o, s, k), Take(f, s, k))
  {
    SameLists(Union(Take(f, s, k), Put(o, s, k)), Union(f, o));
    SameLists(Union(Put(o, s, k), Take(f, s, k)), Union(f, o));
  }

  /** Free blocks `f` and outstanding blocks `o` together tile the managed units. */
  ghost predicate Split(f: Lists, o: Lists, managed: set<nat>) {
    |f| == |o| && Apart(f, o) && Tiles(Union(f, o), managed)
  }

  lemma SplitParts(f: Lists, o: Lists, managed: set<nat>)
    requires Split(f, o, managed)
    ensures AllAligned(f) && AllAligned(o) && Disjoint(f) && Disjoint(o)
    ensures forall u :: Covered(f, u) ==> u in managed && !Covered(o, u)
    ensures forall u :: Covered(o, u) ==> u in managed
  {
    var b := Union(f, o);
    HasUnion(f, o);
    forall s, k, u ensures Holds(b, s, k, u) <==> Holds(f, s, k, u) || Holds(o, s, k, u) {}
    forall u | Covered(o, u) ensures u in managed {
      var s, k :| Holds(o, s, k, u);
      assert Holds(b, s, k, u);
    }
    forall u | Covered(f, u) ensures u in managed && !Covered(o, u) {
      var s, k :| Holds(f, s, k, u);
      assert Holds(b, s, k, u);
      if Covered(o, u) {
        var t, j :| Holds(o, t, j, u);
        assert Holds(b, t, j, u);
      }
    }
    forall s, k, t, j, u | Holds(f, s, k, u) && Holds(f, t, j, u) ensures s == t && k == j {
      assert Holds(b, s, k, u) && Holds(b, t, j, u);
    }
    forall s, k, t, j, u | Holds(o, s, k, u) && Holds(o, t, j, u) ensures s == t && k == j {
      assert Holds(b, s, k, u) && Holds(b, t, j, u);
    }
  }

  /** At most one block, free or outstanding, starts at a unit. */
  lemma OneBlockAt(f: Lists, o: Lists, managed: set<nat>, s: nat, k: nat)
    requires Split(f, o, managed)
    ensures Has(f, s, k) ==> Covered(f, s) && forall c :: !Has(o, s, c)
    ensures Has(o, s, k) ==> Covered(o, s) && forall c :: !Has(f, s, c)
    ensures Has(o, s, k) ==> forall c :: Has(o, s, c) ==> c == k
  {
    SplitParts(f, o, managed);
    assert forall c :: Has(f, s, c) ==> Holds(f, s, c, s);
    assert forall c :: Has(o, s, c) ==> Holds(o, s, c, s);
  }

  lemma SplitHalve(f: Lists, o: Lists, managed: set<nat>, s: nat, k: nat)
    requires Split(f, o, managed) && Has(f, s, k + 1)
    ensures Split(Halve(f, s, k), o, managed)
    ensures !Has(f, s, k) && !Has(f, s + Pow2(k), k)
  {
    var b := Union(f, o);
    HasUnion(f, o);
    UnionHalve(f, o, s, k);
    HalveTiles(b, managed, s, k);
    HalfNotWhole(b, s, k);
    HasHalve(f, s, k);
  }

  lemma SplitJoin(f: Lists, o: Lists, managed: set<nat>, s: nat, k: nat)
    requires Split(f, o, managed) && Has(f, s, k) && Has(f, BuddyOf(s, k), k) && k + 1 < |f|
    ensures Split(Join(f, s, k), o, managed)
    ensures !Has(f, Min(s, BuddyOf(s, k)), k + 1)
  {
    var b := Union(f, o);
    var lo := Min(s, BuddyOf(s, k));
    HasUnion(f, o);
    UnionJoin(f, o, s, k);
    JoinTiles(b, managed, s, k);
    HasJoin(f, s, k);
    BuddyHalves(s, k);
    assert Holds(b, lo, k, lo);
    assert Has(b, lo, k + 1) ==> Holds(b, lo, k + 1, lo);
  }

  lemma SplitMove(f: Lists, o: Lists, managed: set<nat>, s: nat, k: nat)
    requires Split(f, o, managed)
    ensures Has(f, s, k) ==> Split(Take(f, s, k), Put(o, s, k), managed)
    ensures Has(o, s, k) ==> Split(Put(f, s, k), Take(o, s, k), managed)
  {
    if Has(f, s, k) {
      UnionMove(f, o, s, k);
      HasMove(f, o, s, k);
    }
    if Has(o, s, k) {
      UnionMove(o, f, s, k);
      HasMove(o, f, s, k);
      SameLists(Union(o, f), Union(f, o));
    }
  }

  lemma HasMove(f: Lists, o: Lists, s: nat, k: nat)
    requires |f| == |o| && k < |f|
    ensures forall t, j :: Has(Take(f, s, k), t, j) <==> Has(f, t, j) && !(t == s && j == k)
    ensures forall t, j :: Has(Put(o, s, k), t, j) <==> Has(o, t, j) || (t == s && j == k)
  {
  }

  // ---------------------------------------------------------------- weight

  /** The number of units in all blocks of the lists. */
  function Weight(b: Lists): nat {
    if |b| == 0 then 0 else Weight(b[..|b| - 1]) + |b[|b| - 1]| * Pow2(|b| - 1)
  }

  lemma {:induction false} WeightUpdate(b: Lists, k: nat, c: set<nat>)
    requires k < |b|
    ensures Weight(b[k := c]) == Weight(b) + (|c| - |b[k]|) * Pow2(k)
  {
    var n := |b| - 1;
    if k == n {
      assert b[k := c][..n] == b[..n];
      assert (|c| - |b[k]|) * Pow2(k) == |c| * Pow2(k) - |b[k]| * Pow2(k);
    } else {
      assert b[k := c][..n] == b[..n][k := c];
      WeightUpdate(b[..n], k, c);
    }
  }

  lemma {:induction false} WeightPut(b: Lists, s: nat, k: nat)
    requires k < |b|
    ensures !Has(b, s, k) ==> Weight(Put(b, s, k)) == Weight(b) + Pow2(k)
    ensures Has(b, s, k) ==> Weight(Take(b, s, k)) == Weight(b) - Pow2(k)
  {
    if Has(b, s, k) {
      WeightUpdate(b, k, b[k] - {s});
      assert (|b[k] - {s}| - |b[k]|) * Pow2(k) == -1 * Pow2(k);
    } else {
      WeightUpdate(b, k, b[k] + {s});
      assert (|b[k] + {s}| - |b[k]|) * Pow2(k) == 1 * Pow2(k);
    }
  }

  lemma WeightHalve(b: Lists, s: nat, k: nat)
    requires k + 1 < |b| && Has(b, s, k + 1) && !Has(b, s, k) && !Has(b, s + Pow2(k), k)
    ensures Weight(Halve(b, s, k)) == Weight(b)
  {
    var b1 := Take(b, s, k + 1);
    WeightPut(b, s, k + 1);
    WeightPut(b1, s + Pow2(k), k);
    WeightPut(Put(b1, s + Pow2(k), k), s, k);
  }

  lemma {:induction false} WeightJoin(b: Lists, s: nat, k: nat)
    requires k + 1 < |b| && Has(b, s, k) && Has(b, BuddyOf(s, k), k) && !Has(b, Min(s, BuddyOf(s, k)), k + 1)
    ensures Weight(Join(b, s, k)) == Weight(b)
  {
    var b1 := Take(b, s, k);
    WeightPut(b, s, k);
    WeightPut(b1, BuddyOf(s, k), k);
    WeightPut(Take(b1, BuddyOf(s, k), k), Min(s, BuddyOf(s, k)), k + 1);
  }

  // ---------------------------------------------------------------- allocation

  /** The smallest class from `k` up that holds a block; `|f|` when there is none. */
  function FirstNonEmpty(f: Lists, k: nat): (i: nat)
    ensures i < |f| ==> k <= i && f[i] != {}
    ensures i >= |f| ==> i == |f|
    ensures forall j | k <= j < i && j < |f| :: f[j] == {}
    decreases |f| - k
  {
    if k >= |f| then |f| else if f[k] != {} then k else FirstNonEmpty(f, k + 1)
  }

  /** The block of class `i` at `s` halved down to class `k`, keeping the lower half each time. */
  function SplitDown(f: Lists, s: nat, i: nat, k: nat): (r: Lists)
    requires k <= i < |f|
    ensures |r| == |f|
    decreases i - k
  {
    if k == i then f else Halve(SplitDown(f, s, i, k + 1), s, k)
  }

  /** What splitting leaves: `s` only at class k, and one upper half in every class it passed. */
  lemma {:induction false} SplitDownHas(f: Lists, s: nat, i: nat, k: nat, t: nat, j: nat)
    requires k <= i < |f| && Has(f, s, i)
    requires forall c | k <= c < i :: f[c] == {}
    ensures Has(SplitDown(f, s, i, k), t, j) <==>
            if k <= j < i then t == s + Pow2(j) || (j == k && t == s)
            else Has(f, t, j) && !(k < i && j == i && t == s)
    decreases i - k
  {
    if k < i {
      SplitDownHas(f, s, i, k + 1, t, j);
      HasHalve(SplitDown(f, s, i, k + 1), s, k);
    }
  }

  lemma {:induction false} SplitDownSplit(f: Lists, o: Lists, managed: set<nat>, s: nat, i: nat, k: nat)
    requires k <= i && Split(f, o, managed) && Has(f, s, i)
    ensures Split(SplitDown(f, s, i, k), o, managed)
    ensures Has(SplitDown(f, s, i, k), s, k)
    ensures Weight(SplitDown(f, s, i, k)) == Weight(f)
    decreases i - k
  {
    if k < i {
      SplitDownSplit(f, o, managed, s, i, k + 1);
      var g := SplitDown(f, s, i, k + 1);
      SplitHalve(g, o, managed, s, k);
      WeightHalve(g, s, k);
    }
  }

  /** The free lists after the block of class `i` at `s` has served a request of class `k`. */
  function AllocFrom(f: Lists, s: nat, i: nat, k: nat): (r: Lists)
    requires k <= i < |f|
    ensures |r| == |f|
  {
    Take(SplitDown(f, s, i, k), s, k)
  }

  lemma {:induction false} AllocSplit(f: Lists, o: Lists, managed: set<nat>, s: nat, i: nat, k: nat)
    requires k <= i && Split(f, o, managed) && Has(f, s, i)
    ensures Split(AllocFrom(f, s, i, k), Put(o, s, k), managed)
    ensures !Has(o, s, k)
    ensures Weight(AllocFrom(f, s, i, k)) + Pow2(k) == Weight(f)
    ensures Weight(Put(o, s, k)) == Weight(o) + Pow2(k)
  {
    SplitDownSplit(f, o, managed, s, i, k);
    var g := SplitDown(f, s, i, k);
    SplitMove(g, o, managed, s, k);
    WeightPut(g, s, k);
    WeightPut(o, s, k);
  }

  lemma AllocNoBuddies(f: Lists, n: int, s: nat, i: nat, k: nat)
    requires k <= i < |f| && Has(f, s, i) && AllAligned(f) && NoBuddiesBelow(f, n)
    requires forall c | k <= c < i :: f[c] == {}
    ensures NoBuddiesBelow(AllocFrom(f, s, i, k), n)
  {
    var g := AllocFrom(f, s, i, k);
    forall t, j: nat | Has(g, t, j) && j < n ensures !Has(g, BuddyOf(t, j), j) {
      SplitDownHas(f, s, i, k, t, j);
      SplitDownHas(f, s, i, k, BuddyOf(t, j), j);
    }
  }

  lemma {:induction false} AlignedBelow(s: nat, k: nat, i: nat)
    requires k <= i && Aligned(s, i)
    ensures Aligned(s, k)
    decreases i - k
  {
    if k < i { Halves(s, i - 1); AlignedBelow(s, k, i - 1); }
  }

  ghost predicate FreeRun(f: Lists, a: nat, k: nat) {
    Aligned(a, k) && forall u :: Covers(a, k, u) ==> Covered(f, u)
  }

  /** With no unmerged buddies of smaller classes, an aligned run of free units lies inside one free block. */
  lemma {:induction false} RunInBlock(f: Lists, a: nat, k: nat) returns (t: nat, j: nat)
    requires AllAligned(f) && NoBuddiesBelow(f, k) && FreeRun(f, a, k)
    ensures Has(f, t, j) && k <= j && t <= a && a + Pow2(k) <= t + Pow2(j)
    decreases k
  {
    if k == 0 {
      assert Covers(a, 0, a);
      t, j :| Holds(f, t, j, a);
    } else {
      var h := a + Pow2(k - 1);
      Halves(a, k - 1);
      assert forall u :: Covers(a, k - 1, u) || Covers(h, k - 1, u) ==> Covers(a, k, u);
      t, j := RunInBlock(f, a, k - 1);
      var t', j' := RunInBlock(f, h, k - 1);
      if j >= k {
        Nested(a, k, t, j, a);
      } else if j' >= k {
        Nested(a, k, t', j', h);
        t, j := t', j';
      } else {
        assert false;
      }
    }
  }

  /** Coalescing is complete: a request finds no block exactly when no aligned free run exists. */
  lemma {:induction false} AllocFailsIff(f: Lists, k: nat)
    requires AllAligned(f) && NoBuddies(f)
    ensures FirstNonEmpty(f, k) == |f| <==> forall a :: !FreeRun(f, a, k)
  {
    var i := FirstNonEmpty(f, k);
    if i == |f| {
      forall a ensures !FreeRun(f, a, k) {
        if FreeRun(f, a, k) {
          var t, j := RunInBlock(f, a, k);
          assert false;
        }
      }
    } else {
      var s :| s in f[i];
      assert Has(f, s, i);
      AlignedBelow(s, k, i);
      Pow2Mono(k, i);
      assert forall u :: Covers(s, k, u) ==> Holds(f, s, i, u);
      assert FreeRun(f, s, k);
    }
  }

  // ---------------------------------------------------------------- coalescing

  /** Class reached by merging the free block at `s` of class `k` with its buddies. */
  function Climb(f: Lists, s: nat, k: nat): (r: (nat, nat))
    requires k < |f|
    ensures k <= r.1 < |f|
    decreases |f| - k
  {
    if BuddyOf(s, k) in f[k] && k + 1 < |f|
    then Climb(Join(f, s, k), Min(s, BuddyOf(s, k)), k + 1)
    else (s, k)
  }

  /** The free lists after the block at `s` of class `k`, already free, has been merged upwards. */
  function Coalesce(f: Lists, s: nat, k: nat): (r: Lists)
    requires k < |f|
    ensures |r| == |f|
    decreases |f| - k
  {
    if BuddyOf(s, k) in f[k] && k + 1 < |f|
    then Coalesce(Join(f, s, k), Min(s, BuddyOf(s, k)), k + 1)
    else f
  }

  lemma {:induction false} CoalesceSplit(f: Lists, o: Lists, managed: set<nat>, s: nat, k: nat)
    requires Split(f, o, managed) && Has(f, s, k)
    ensures Split(Coalesce(f, s, k), o, managed)
    ensures Weight(Coalesce(f, s, k)) == Weight(f)
    decreases |f| - k
  {
    if BuddyOf(s, k) in f[k] && k + 1 < |f| {
      SplitJoin(f, o, managed, s, k);
      WeightJoin(f, s, k);
      CoalesceSplit(Join(f, s, k), o, managed, Min(s, BuddyOf(s, k)), k + 1);
    }
  }

  /** Where merging ends: a free block around `s` whose buddy, below the top class, is not free. */
  lemma {:induction false} ClimbEnds(f: Lists, s: nat, k: nat)
    requires AllAligned(f) && Has(f, s, k)
    ensures var (t, j) := Climb(f, s, k);
            var g := Coalesce(f, s, k);
            Has(g, t, j) && Aligned(t, j) && Covers(t, j, s) && (Has(g, BuddyOf(t, j), j) ==> j == |f| - 1)
    decreases |f| - k
  {
    BuddyHalves(s, k);
    if BuddyOf(s, k) in f[k] && k + 1 < |f| {
      var lo := Min(s, BuddyOf(s, k));
      var f' := Join(f, s, k);
      HasJoin(f, s, k);
      assert AllAligned(f') && Has(f', lo, k + 1);
      ClimbEnds(f', lo, k + 1);
      var (t, j) := Climb(f', lo, k + 1);
      Halves(lo, k);
      assert Covers(lo, k + 1, s);
      Nested(lo, k + 1, t, j, lo);
    }
  }

  /** From class `k` up, the buddy of every block around `s` is free. */
  ghost predicate BuddiesFree(f: Lists, s: nat, k: nat) {
    forall t, c | k <= c < |f| && Aligned(t, c) && Covers(t, c, s) :: Has(f, BuddyOf(t, c), c)
  }

  /** One merge up: `g` differs from `f` above class `k` only in the union of `s` and its buddy. */
  lemma BuddiesUp(f: Lists, g: Lists, s: nat, k: nat)
    requires k < |f| == |g| && Aligned(s, k) && Has(f, BuddyOf(s, k), k)
    requires forall t, c: nat | k < c && !(t == Min(s, BuddyOf(s, k)) && c == k + 1) :: Has(g, t, c) <==> Has(f, t, c)
    ensures BuddiesFree(f, s, k) <==> BuddiesFree(g, Min(s, BuddyOf(s, k)), k + 1)
  {
    var b := BuddyOf(s, k);
    var lo := Min(s, b);
    BuddyHalves(s, k);
    Halves(lo, k);
    forall t, c | k < c && Aligned(t, c)
      ensures Covers(t, c, s) <==> Covers(t, c, lo)
      ensures Covers(t, c, s) ==> (Has(g, BuddyOf(t, c), c) <==> Has(f, BuddyOf(t, c), c))
    {
      if Covers(t, c, s) { Nested(lo, k + 1, t, c, s); }
      if Covers(t, c, lo) { Nested(lo, k + 1, t, c, lo); }
      if c == k + 1 && Covers(t, c, lo) { SameClass(t, lo, c, lo); }
    }
    forall t | Aligned(t, k) && Covers(t, k, s) ensures t == s { SameClass(t, s, k, s); }
  }

  /** Merging reaches a merge of the top class exactly when all those buddies are free. */
  lemma {:induction false} TopMerges(f: Lists, s: nat, k: nat)
    requires AllAligned(f) && Has(f, s, k)
    ensures var (t, j) := Climb(f, s, k); Has(Coalesce(f, s, k), BuddyOf(t, j), j) <==> BuddiesFree(f, s, k)
    decreases |f| - k
  {
    var b := BuddyOf(s, k);
    if b in f[k] && k + 1 < |f| {
      var g, lo := Join(f, s, k), Min(s, b);
      BuddyHalves(s, k);
      HasJoin(f, s, k);
      assert AllAligned(g) && Has(g, lo, k + 1);
      TopMerges(g, lo, k + 1);
      BuddiesUp(f, g, s, k);
    } else {
      assert Covers(s, k, s);
      forall t | Aligned(t, k) && Covers(t, k, s) ensures t == s { SameClass(t, s, k, s); }
    }
  }

  lemma PutBuddiesFree(f: Lists, s: nat, k: nat)
    requires k < |f| && Aligned(s, k)
    ensures BuddiesFree(Put(f, s, k), s, k) <==> BuddiesFree(f, s, k)
  {
    forall t | Aligned(t, k) && Covers(t, k, s) ensures t == s { SameClass(t, s, k, s); }
  }

  /** Below class `n` the only unmerged buddies involve the block of class `k` at `s`. */
  ghost predicate NoBuddiesBut(f: Lists, n: int, s: nat, k: nat) {
    forall t, j: nat ::
      Has(f, t, j) && Has(f, BuddyOf(t, j), j) && j < n ==> j == k && (t == s || BuddyOf(t, j) == s)
  }

  /** Merging leaves no buddies below the top class, and none in it unless the top class itself would have to merge. */
  lemma {:induction false} CoalesceNoBuddies(f: Lists, n: int, s: nat, k: nat)
    requires AllAligned(f) && Has(f, s, k) && NoBuddiesBut(f, n, s, k)
    ensures var (t, j) := Climb(f, s, k);
            n < |f| || !Has(Coalesce(f, s, k), BuddyOf(t, j), j) ==> NoBuddiesBelow(Coalesce(f, s, k), n)
    decreases |f| - k
  {
    BuddyHalves(s, k);
    if BuddyOf(s, k) in f[k] && k + 1 < |f| {
      HasJoin(f, s, k);
      CoalesceNoBuddies(Join(f, s, k), n, Min(s, BuddyOf(s, k)), k + 1);
    } else if n < |f| || BuddyOf(s, k) !in f[k] {
      forall t, j: nat | Has(f, t, j) && j < n ensures !Has(f, BuddyOf(t, j), j) {
        BuddyHalves(t, j);
      }
    }
  }

  lemma PutNoBuddiesBut(f: Lists, n: int, s: nat, k: nat)
    requires NoBuddiesBelow(f, n) && k < |f|
    ensures NoBuddiesBut(Put(f, s, k), n, s, k)
  {
  }

  // ---------------------------------------------------------------- the top class

  /** No aligned window of 2^order units is managed as a whole. */
  ghost predicate NoTopWindow(managed: set<nat>, order: nat) {
    forall w :: Aligned(w, order) ==> exists u :: Covers(w, order, u) && u !in managed
  }

  lemma FreeUnits(f: Lists, o: Lists, managed: set<nat>, u: nat)
    requires Split(f, o, managed)
    ensures Covered(f, u) <==> u in managed && !Covered(o, u)
  {
    SplitParts(f, o, managed);
    HasUnion(f, o);
    if u in managed {
      var s, k :| Holds(Union(f, o), s, k, u);
      assert Holds(f, s, k, u) || Holds(o, s, k, u);
    }
  }

  /** Two free buddies of the top class fill an aligned window of 2^order units. */
  lemma TopBuddies(f: Lists, s: nat)
    requires |f| > 0 && AllAligned(f) && Has(f, s, |f| - 1) && Has(f, BuddyOf(s, |f| - 1), |f| - 1)
    ensures FreeRun(f, Min(s, BuddyOf(s, |f| - 1)), |f|)
    ensures Covers(Min(s, BuddyOf(s, |f| - 1)), |f|, s)
  {
    var k := |f| - 1;
    var lo := Min(s, BuddyOf(s, k));
    BuddyHalves(s, k);
    forall u | Covers(lo, k + 1, u) ensures Covered(f, u) {
      assert Holds(f, lo, k, u) || Holds(f, lo + Pow2(k), k, u);
    }
  }

  /** Merging stops below a top-class merge whenever no whole top window is managed. */
  lemma {:induction false} NoTopMerge(f: Lists, o: Lists, managed: set<nat>, s: nat, k: nat)
    requires Split(f, o, managed) && Has(f, s, k) && NoTopWindow(managed, |f|)
    ensures var (t, j) := Climb(f, s, k); !Has(Coalesce(f, s, k), BuddyOf(t, j), j)
  {
    CoalesceSplit(f, o, managed, s, k);
    SplitParts(f, o, managed);
    ClimbEnds(f, s, k);
    var (t, j) := Climb(f, s, k);
    var g := Coalesce(f, s, k);
    SplitParts(g, o, managed);
    if Has(g, BuddyOf(t, j), j) {
      TopBuddies(g, t);
    }
  }

  /** The two halves of a free window of 2^order units are free blocks of the top class. */
  lemma {:induction false} TopHalves(f: Lists, w: nat)
    requires |f| > 0 && AllAligned(f) && NoBuddiesBelow(f, |f| - 1) && FreeRun(f, w, |f|)
    ensures Aligned(w, |f| - 1) && Has(f, w, |f| - 1) && Has(f, w + Pow2(|f| - 1), |f| - 1)
  {
    var k := |f| - 1;
    var h := w + Pow2(k);
    Halves(w, k);
    assert forall u :: Covers(w, k, u) || Covers(h, k, u) ==> Covers(w, k + 1, u);
    var t, j := RunInBlock(f, w, k);
    var t', j' := RunInBlock(f, h, k);
  }

  /** A free block in such a window is one of the two halves. */
  lemma {:induction false} InTopHalf(f: Lists, w: nat, t: nat, j: nat, s: nat)
    requires |f| > 0 && AllAligned(f) && Disjoint(f) && NoBuddiesBelow(f, |f| - 1) && FreeRun(f, w, |f|)
    requires Holds(f, t, j, s) && Covers(w, |f|, s)
    ensures Has(f, BuddyOf(t, j), j)
  {
    var top := |f| - 1;
    TopHalves(f, w);
    Halves(w, top);
    assert Holds(f, w, top, s) || Holds(f, w + Pow2(top), top, s);
  }

  /** Without unmerged buddies below the top class, merging reaches a top-class merge exactly when the aligned 2^order
      window around the block is all free. */
  lemma {:induction false} TopMergeIff(f: Lists, o: Lists, managed: set<nat>, s: nat, k: nat, w: nat)
    requires Split(f, o, managed) && Has(f, s, k) && NoBuddiesBut(f, |f| - 1, s, k)
    requires Aligned(w, |f|) && Covers(w, |f|, s)
    ensures var (t, j) := Climb(f, s, k); Has(Coalesce(f, s, k), BuddyOf(t, j), j) <==> FreeRun(f, w, |f|)
  {
    CoalesceSplit(f, o, managed, s, k);
    SplitParts(f, o, managed);
    ClimbEnds(f, s, k);
    var (t, j) := Climb(f, s, k);
    var g := Coalesce(f, s, k);
    SplitParts(g, o, managed);
    forall u ensures Covered(f, u) <==> Covered(g, u) {
      FreeUnits(f, o, managed, u);
      FreeUnits(g, o, managed, u);
    }
    if Has(g, BuddyOf(t, j), j) {
      TopBuddies(g, t);
      BuddyHalves(t, j);
      var lo := Min(t, BuddyOf(t, j));
      Nested(t, j, lo, |g|, t);
      SameClass(w, lo, |g|, s);
    } else if FreeRun(f, w, |f|) {
      CoalesceNoBuddies(f, |f| - 1, s, k);
      InTopHalf(g, w, t, j, s);
    }
  }

  /** When no whole top window is managed, giving back a block never finds all buddies free. */
  lemma NoWindowKept(f: Lists, o: Lists, managed: set<nat>, s: nat, k: nat)
    requires Split(f, o, managed) && Has(o, s, k) && NoTopWindow(managed, |f|)
    ensures !BuddiesFree(f, s, k)
  {
    var h, o' := Put(f, s, k), Take(o, s, k);
    SplitMove(f, o, managed, s, k);
    SplitParts(h, o', managed);
    NoTopMerge(h, o', managed, s, k);
    TopMerges(h, s, k);
    PutBuddiesFree(f, s, k);
  }

  /** In such a window, giving back the outstanding block at `s` finds all buddies free exactly when every other unit of
      the window is free. */
  lemma {:induction false} WindowFreed(f: Lists, o: Lists, managed: set<nat>, s: nat, k: nat, w: nat)
    requires Split(f, o, managed) && Has(o, s, k) && NoBuddiesBelow(f, |f| - 1)
    requires Aligned(w, |f|) && Covers(w, |f|, s)
    ensures BuddiesFree(f, s, k) <==> !exists u :: Covers(w, |f|, u) && (u !in managed || Covered(Take(o, s, k), u))
  {
    var h, o' := Put(f, s, k), Take(o, s, k);
    SplitMove(f, o, managed, s, k);
    SplitParts(h, o', managed);
    PutNoBuddiesBut(f, |f| - 1, s, k);
    PutBuddiesFree(f, s, k);
    TopMerges(h, s, k);
    TopMergeIff(h, o', managed, s, k, w);
    forall u ensures Covered(h, u) <==> u in managed && !Covered(o', u) { FreeUnits(h, o', managed, u); }
  }

  // ---------------------------------------------------------------- undoing an allocation

  lemma JoinHalve(f: Lists, s: nat, k: nat)
    requires k + 1 < |f| && Aligned(s, k + 1) && Has(f, s, k + 1) && !Has(f, s, k) && !Has(f, s + Pow2(k), k)
    ensures Join(Halve(f, s, k), s, k) == f
  {
    Halves(s, k);
    SameLists(Join(Halve(f, s, k), s, k), f);
  }

  /** One split is undone by one merge. */
  lemma HalveUndone(f: Lists, o: Lists, managed: set<nat>, s: nat, k: nat)
    requires Split(f, o, managed) && Has(f, s, k + 1)
    ensures BuddyOf(s, k) in Halve(f, s, k)[k] && Min(s, BuddyOf(s, k)) == s
    ensures Join(Halve(f, s, k), s, k) == f
  {
    SplitHalve(f, o, managed, s, k);
    SplitParts(f, o, managed);
    Halves(s, k);
    JoinHalve(f, s, k);
  }

  lemma CoalesceHalve(f: Lists, o: Lists, managed: set<nat>, s: nat, k: nat, g: Lists, r: Lists)
    requires Split(f, o, managed) && Has(f, s, k + 1) && g == Halve(f, s, k) && Coalesce(f, s, k + 1) == r
    ensures Coalesce(g, s, k) == r
  {
    HalveUndone(f, o, managed, s, k);
  }

  lemma {:induction false} CoalesceSplitDown(f: Lists, o: Lists, managed: set<nat>, s: nat, i: nat, k: nat, g: Lists)
    requires k <= i && Split(f, o, managed) && Has(f, s, i) && NoBuddies(f) && g == SplitDown(f, s, i, k)
    ensures Coalesce(g, s, k) == f
    decreases i - k
  {
    if k == i {
      CoalesceStill(f, s, k);
    } else {
      var h := SplitDown(f, s, i, k + 1);
      SplitDownSplit(f, o, managed, s, i, k + 1);
      CoalesceSplitDown(f, o, managed, s, i, k + 1, h);
      CoalesceHalve(h, o, managed, s, k, g, f);
    }
  }

  lemma {:induction false} CoalesceStill(f: Lists, s: nat, k: nat)
    requires Has(f, s, k) && NoBuddies(f)
    ensures Coalesce(f, s, k) == f
  {
    assert !Has(f, BuddyOf(s, k), k);
  }

  /** Freeing a block straight after it was allocated restores every free list. */
  lemma {:induction false} AllocThenFree(f: Lists, o: Lists, managed: set<nat>, s: nat, i: nat, k: nat)
    requires k <= i && Split(f, o, managed) && Has(f, s, i) && NoBuddies(f)
    ensures Coalesce(Put(AllocFrom(f, s, i, k), s, k), s, k) == f
  {
    SplitDownSplit(f, o, managed, s, i, k);
    var g := SplitDown(f, s, i, k);
    CoalesceSplitDown(f, o, managed, s, i, k, g);
    SameLists(Put(Take(g, s, k), s, k), g);
  }
}
