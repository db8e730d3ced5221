/** Sv39 page tables: a three-level radix tree kept in frames of physical memory. */
module PageTables {
  import opened Bits
  import opened Options
  import opened Sequences

  const ENTRIES: nat := 512
  /** Page numbers the hardware looks at: 27 bits. */
  const VPN_SPAN: nat := 0x800_0000
  /** Physical page numbers an entry can hold: 44 bits. */
  const PPN_SPAN: nat := 0x1000_0000_0000
  const WORD_SPAN: nat := 0x1_0000_0000_0000_0000
  const V: nat := 1

  /** A frame seen as its 512 words. */
  type Page = seq<nat>
  type Frames = map<nat, Page>

  function Zeros(): (p: Page)
    ensures |p| == ENTRIES && forall i | 0 <= i < ENTRIES :: p[i] == 0
  {
    seq(ENTRIES, _ => 0)
  }

  // ---------------------------------------------------------------- entries

  /** `ppn << 10 | flags` in a 64-bit word. */
  function Pte(ppn: nat, flags: nat): nat
    requires flags < 256
  {
    ppn * 1024 % WORD_SPAN + flags
  }

  function PpnOf(bits: nat): nat { bits / 1024 % PPN_SPAN }

  function FlagsOf(bits: nat): nat { bits % 256 }

  predicate IsValid(bits: nat) { FlagsOf(bits) % 2 == 1 }

  /** `flags | V`. */
  function WithValid(flags: nat): (r: nat)
    requires flags < 256
    ensures r < 256 && r % 2 == 1
  {
    if flags % 2 == 1 then flags else flags + 1
  }

  /** An entry gives back its flags and the low 44 bits of its page number. */
  lemma PteFields(ppn: nat, flags: nat)
    requires flags < 256
    ensures PpnOf(Pte(ppn, flags)) == ppn % PPN_SPAN && FlagsOf(Pte(ppn, flags)) == flags
    ensures IsValid(Pte(ppn, flags)) <==> flags % 2 == 1
  {
    var q, r := ppn / 0x40_0000_0000_0000, ppn % 0x40_0000_0000_0000;
    var h, l := r / PPN_SPAN, r % PPN_SPAN;
    DivUnique(ppn * 1024, WORD_SPAN, q, r * 1024);
    DivUnique(r * 1024 + flags, 1024, r, flags);
    DivUnique(r * 1024 + flags, 256, r * 4, flags);
    DivUnique(ppn, PPN_SPAN, q * 1024 + h, l);
  }

  /** An entry made by `map` is valid and points to its page. */
  lemma MappedEntry(ppn: nat, flags: nat)
    requires flags < 256
    ensures IsValid(Pte(ppn, WithValid(flags))) && PpnOf(Pte(ppn, WithValid(flags))) == ppn % PPN_SPAN
    ensures ppn < 0x1000_0000_0000 ==> Pte(ppn, WithValid(flags)) == 1024 * ppn + flags + 1 - flags % 2
  {
    PteFields(ppn, WithValid(flags));
  }

  lemma TableEntry(f: nat)
    requires f < PPN_SPAN
    ensures PpnOf(Pte(f, V)) == f && IsValid(Pte(f, V))
  {
    PteFields(f, V);
  }

  // ---------------------------------------------------------------- page numbers

  /** The three 9-bit indexes of a page number, highest first. */
  function Indexes(vpn: nat): (r: seq<nat>)
    ensures |r| == 3 && forall n | 0 <= n < 3 :: r[n] < ENTRIES
  {
    [vpn / 512 / 512 % ENTRIES, vpn / 512 % ENTRIES, vpn % ENTRIES]
  }

  /** Two page numbers have the same indexes exactly when their low 27 bits agree. */
  lemma IndexesInjective(v: nat, w: nat)
    ensures Indexes(v) == Indexes(w) <==> v % VPN_SPAN == w % VPN_SPAN
  {
    LowBits(v);
    LowBits(w);
    Digits(Indexes(v)[0], Indexes(v)[1], Indexes(v)[2], Indexes(w)[0], Indexes(w)[1], Indexes(w)[2]);
    assert Indexes(v) == [Indexes(v)[0], Indexes(v)[1], Indexes(v)[2]];
    assert Indexes(w) == [Indexes(w)[0], Indexes(w)[1], Indexes(w)[2]];
  }

  lemma LowBits(v: nat)
    ensures v % VPN_SPAN == Indexes(v)[0] * 0x4_0000 + Indexes(v)[1] * 512 + Indexes(v)[2]
  {
    var x := v / 512;
    var y := x / 512;
    var q, a, b, c := y / 512, y % 512, x % 512, v % 512;
    assert v == 512 * x + c && x == 512 * y + b && y == 512 * q + a;
    DivUnique(v, VPN_SPAN, q, a * 0x4_0000 + b * 512 + c);
  }

  lemma Digits(a: nat, b: nat, c: nat, x: nat, y: nat, z: nat)
    requires a < 512 && b < 512 && c < 512 && x < 512 && y < 512 && z < 512
    ensures a * 0x4_0000 + b * 512 + c == x * 0x4_0000 + y * 512 + z <==> a == x && b == y && c == z
  {
  }

  /** What is left of a page number after `n` indexes have been shifted out. */
  function Shifted(vpn: nat, n: nat): nat { if n == 0 then vpn else Shifted(vpn, n - 1) / 512 }

  /** The indexes are filled in from the last, masking nine bits and shifting them out. */
  method SplitIndexes(vpn: nat) returns (idx: array<nat>)
    ensures fresh(idx) && idx[..] == Indexes(vpn)
    ensures vpn % 0x800_0000 == idx[0] * 0x4_0000 + idx[1] * 0x200 + idx[2] && idx[1] < 0x200 && idx[2] < 0x200
  {
    idx := new nat[3](_ => 0);
    var v, i := vpn, 3;
    while i > 0
      invariant 0 <= i <= 3 && idx.Length == 3 && v == Shifted(vpn, 3 - i)
      invariant forall n | i <= n < 3 :: idx[n] == Shifted(vpn, 2 - n) % ENTRIES
    {
      i := i - 1;
      LowMask(v);
      idx[i] := And(v, ENTRIES - 1);
      v := v / 512;
    }
    assert Shifted(vpn, 2) == Shifted(vpn, 1) / 512;
    LowBits(vpn);
    assert idx[..] == Indexes(vpn);
  }

  lemma {:induction false} LowMask(v: nat)
    ensures And(v, ENTRIES - 1) == v % ENTRIES
  {
    assert Pow2(9) == 512 by { assert Pow2(4) == 16; assert Pow2(8) == 256; }
    AndLow(v, 9);
  }

  lemma {:induction false} AndLow(v: nat, k: nat)
    ensures And(v, Pow2(k) - 1) == v % Pow2(k)
  {
    if k == 0 {
      AndZero(v);
    } else {
      AndLow(v / 2, k - 1);
      ModHalf(v, Pow2(k - 1));
      assert (Pow2(k) - 1) / 2 == Pow2(k - 1) - 1;
    }
  }

  lemma {:induction false} AndZero(v: nat)
    ensures And(v, 0) == 0
  {
    if v > 0 { AndZero(v / 2); }
  }

  // ---------------------------------------------------------------- the tree

  /** The position of a table: the root, or entry `i` of the table above it. */
  datatype Path = Root | Under(up: Path, i: nat)

  function Depth(p: Path): nat { if p.Root? then 0 else 1 + Depth(p.up) }

  /** The frame of every table. */
  type Tree = map<Path, nat>

  predicate IsPage(m: Frames, f: nat) { f in m && |m[f]| == ENTRIES && f < PPN_SPAN }

  /** Entry `i` of the table at `p` is valid exactly when there is a table below it, and then points to it. */
  ghost predicate EntryOk(m: Frames, t: Tree, p: Path, i: nat)
    requires p in t && IsPage(m, t[p]) && i < ENTRIES
  {
    var e := m[t[p]][i];
    (IsValid(e) <==> Under(p, i) in t) && (Under(p, i) in t ==> PpnOf(e) == t[Under(p, i)])
  }

  ghost predicate Sits(t: Tree, p: Path, f: nat) { p in t && t[p] == f }

  /** No frame holds two tables. */
  ghost predicate Distinct(t: Tree) { forall p, q, f: nat | Sits(t, p, f) && Sits(t, q, f) :: p == q }

  lemma Apart(t: Tree, p: Path, q: Path)
    requires Distinct(t) && p in t && q in t && p != q
    ensures t[p] != t[q]
  {
    assert Sits(t, p, t[p]) && Sits(t, q, t[q]);
  }

  /** The frames hold the tree: every table has its own frame and the entries of the upper two levels are its links. */
  ghost predicate TreeOk(m: Frames, t: Tree) {
    && Root in t
    && (forall p | p in t :: Depth(p) <= 2 && IsPage(m, t[p]))
    && (forall p, i: nat | Under(p, i) in t :: p in t && i < ENTRIES)
    && Distinct(t)
    && (forall p, i: nat | p in t && Depth(p) < 2 && i < ENTRIES :: EntryOk(m, t, p, i))
  }

  function Word(m: Frames, f: nat, i: nat): nat { if f in m && i < |m[f]| then m[f][i] else 0 }

  function Stored(m: Frames, f: nat, i: nat, e: nat): Frames
    requires f in m && i < |m[f]|
  {
    var p: Page := m[f][i := e];
    m[f := p]
  }

  /** The walk of `find_pte`: the last entry, if every entry on the way is valid. */
  function Walk(m: Frames, f: nat, idx: seq<nat>): Option<nat>
    requires idx != []
    decreases |idx|
  {
    var e := Word(m, f, idx[0]);
    if !IsValid(e) then None else if |idx| == 1 then Some(e) else Walk(m, PpnOf(e), idx[1..])
  }

  function LeafPath(idx: seq<nat>): Path
    requires |idx| == 3
  {
    Under(Under(Root, idx[0]), idx[1])
  }

  /** The same, read off the tree. */
  function Leaf(m: Frames, t: Tree, idx: seq<nat>): Option<nat>
    requires |idx| == 3
  {
    var p := LeafPath(idx);
    if p in t && IsValid(Word(m, t[p], idx[2])) then Some(Word(m, t[p], idx[2])) else None
  }

  ghost predicate InBounds(idx: seq<nat>) { |idx| == 3 && forall n | 0 <= n < 3 :: idx[n] < ENTRIES }

  lemma {:induction false} WalkIsLeaf(m: Frames, t: Tree, idx: seq<nat>)
    requires TreeOk(m, t) && InBounds(idx)
    ensures Walk(m, t[Root], idx) == Leaf(m, t, idx)
  {
    assert EntryOk(m, t, Root, idx[0]);
    var p := Under(Root, idx[0]);
    if p in t {
      assert EntryOk(m, t, p, idx[1]);
      var rest := idx[1..];
      assert rest[0] == idx[1] && rest[1..] == [idx[2]];
      assert Walk(m, t[Root], idx) == Walk(m, t[p], rest);
      if LeafPath(idx) in t {
        assert Walk(m, t[p], rest) == Walk(m, t[LeafPath(idx)], [idx[2]]);
      }
    }
  }

  /** A zeroed frame linked below an invalid entry is a new empty table: no page is mapped or unmapped. */
  lemma {:induction false} GrowOk(m: Frames, t: Tree, p: Path, i: nat, f: nat)
    requires TreeOk(m, t) && p in t && Depth(p) < 2 && i < ENTRIES && Under(p, i) !in t
    requires f !in t.Values && IsPage(m, f) && m[f] == Zeros()
    ensures var m' := Stored(m, t[p], i, Pte(f, V));
            var t' := t[Under(p, i) := f];
            && TreeOk(m', t') && PpnOf(Pte(f, V)) == f
            && forall idx | InBounds(idx) :: Leaf(m', t', idx) == Leaf(m, t, idx)
  {
    TableEntry(f);
    var m' := Stored(m, t[p], i, Pte(f, V));
    var t' := t[Under(p, i) := f];
    assert forall q | q in t :: t[q] in t.Values;
    GrowDistinct(t, p, i, f);
    forall q, j: nat | q in t' && Depth(q) < 2 && j < ENTRIES ensures IsPage(m', t'[q]) && EntryOk(m', t', q, j) {
      GrowEntry(m, t, p, i, f, q, j);
    }
    forall idx | InBounds(idx) ensures Leaf(m', t', idx) == Leaf(m, t, idx) {
      GrowLeaf(m, t, p, i, f, idx);
    }
  }

  lemma GrowDistinct(t: Tree, p: Path, i: nat, f: nat)
    requires Distinct(t) && Under(p, i) !in t && forall r | r in t :: t[r] != f
    ensures Distinct(t[Under(p, i) := f])
  {
    var t' := t[Under(p, i) := f];
    forall q, r, x: nat | Sits(t', q, x) && Sits(t', r, x) ensures q == r {
      if q in t && r in t && q != r { Apart(t, q, r); }
    }
  }

  lemma {:induction false} GrowEntry(m: Frames, t: Tree, p: Path, i: nat, f: nat, q: Path, j: nat)
    requires TreeOk(m, t) && p in t && Depth(p) < 2 && i < ENTRIES && Under(p, i) !in t
    requires (forall r | r in t :: t[r] != f) && IsPage(m, f) && m[f] == Zeros() && PpnOf(Pte(f, V)) == f &&
             IsValid(Pte(f, V))
    requires (q in t || q == Under(p, i)) && Depth(q) < 2 && j < ENTRIES
    ensures var m' := Stored(m, t[p], i, Pte(f, V));
            var t' := t[Under(p, i) := f];
            IsPage(m', t'[q]) && EntryOk(m', t', q, j)
  {
    if q in t {
      assert EntryOk(m, t, q, j);
      if q != p { Apart(t, p, q); }
    }
  }

  lemma {:induction false} GrowLeaf(m: Frames, t: Tree, p: Path, i: nat, f: nat, idx: seq<nat>)
    requires TreeOk(m, t) && p in t && Depth(p) < 2 && i < ENTRIES && Under(p, i) !in t && InBounds(idx)
    requires (forall r | r in t :: t[r] != f) && IsPage(m, f) && m[f] == Zeros()
    ensures var m' := Stored(m, t[p], i, Pte(f, V));
            var t' := t[Under(p, i) := f];
            Leaf(m', t', idx) == Leaf(m, t, idx)
  {
    var q := LeafPath(idx);
    assert Depth(q) == 2;
    if q in t { Apart(t, p, q); }
  }

  /** Writing a last-level entry changes the mapping of its page only. */
  lemma SetLeafOk(m: Frames, t: Tree, idx: seq<nat>, bits: nat)
    requires TreeOk(m, t) && InBounds(idx) && LeafPath(idx) in t
    ensures var l := t[LeafPath(idx)];
            var m' := Stored(m, l, idx[2], bits);
            && TreeOk(m', t)
            && forall jdx | InBounds(jdx) ::
                 Leaf(m', t, jdx) == if jdx == idx then (if IsValid(bits) then Some(bits) else None)
                     else Leaf(m, t, jdx)
  {
    var l := t[LeafPath(idx)];
    var m' := Stored(m, l, idx[2], bits);
    forall q, j: nat | q in t && Depth(q) < 2 && j < ENTRIES ensures EntryOk(m', t, q, j) {
      assert EntryOk(m, t, q, j);
      Apart(t, q, LeafPath(idx));
    }
    forall jdx | InBounds(jdx) ensures
      Leaf(m', t, jdx) == if jdx == idx then (if IsValid(bits) then Some(bits) else None) else Leaf(m, t, jdx)
    {
      if LeafPath(jdx) == LeafPath(idx) {
        assert jdx[2] == idx[2] ==> jdx == idx;
      } else if LeafPath(jdx) in t {
        Apart(t, LeafPath(jdx), LeafPath(idx));
      }
    }
  }

  /** Frames outside the tree do not matter to it. */
  lemma TreeElsewhere(m: Frames, m': Frames, t: Tree)
    requires TreeOk(m, t) && forall p | p in t :: t[p] in m' && m'[t[p]] == m[t[p]]
    ensures TreeOk(m', t) && forall idx | InBounds(idx) :: Leaf(m', t, idx) == Leaf(m, t, idx)
  {
    forall q, j: nat | q in t && Depth(q) < 2 && j < ENTRIES ensures EntryOk(m', t, q, j) {
      assert EntryOk(m, t, q, j);
    }
  }

  // ---------------------------------------------------------------- the flat map

  /** The last-level entry the hardware finds for a page number. */
  function Entry(m: Frames, root: nat, vpn: nat): Option<nat> { Walk(m, root, Indexes(vpn)) }

  function Lookup(view: map<nat, nat>, vpn: nat): Option<nat> {
    if vpn % VPN_SPAN in view then Some(view[vpn % VPN_SPAN]) else None
  }

  /** The tree at `root` is the partial map `view` on 27-bit page numbers. */
  ghost predicate Refines(m: Frames, root: nat, view: map<nat, nat>) {
    && (forall v | v in view :: v < VPN_SPAN && IsValid(view[v]))
    && forall vpn: nat :: Entry(m, root, vpn) == Lookup(view, vpn)
  }

  lemma SameLeavesRefine(m: Frames, t: Tree, m': Frames, t': Tree, view: map<nat, nat>)
    requires TreeOk(m, t) && TreeOk(m', t') && Refines(m, t[Root], view)
    requires forall idx | InBounds(idx) :: Leaf(m', t', idx) == Leaf(m, t, idx)
    ensures Refines(m', t'[Root], view)
  {
    forall vpn: nat ensures Entry(m', t'[Root], vpn) == Lookup(view, vpn) {
      WalkIsLeaf(m, t, Indexes(vpn));
      WalkIsLeaf(m', t', Indexes(vpn));
      assert Entry(m, t[Root], vpn) == Lookup(view, vpn);
    }
  }

  /** The view after an entry has been written for a page. */
  function Assigned(view: map<nat, nat>, vpn: nat, bits: nat): map<nat, nat> {
    if IsValid(bits) then view[vpn % VPN_SPAN := bits] else view - {vpn % VPN_SPAN}
  }

  lemma SetLeafRefines(m: Frames, t: Tree, view: map<nat, nat>, vpn: nat, bits: nat)
    requires TreeOk(m, t) && Refines(m, t[Root], view) && LeafPath(Indexes(vpn)) in t
    ensures var l := t[LeafPath(Indexes(vpn))];
            var m' := Stored(m, l, Indexes(vpn)[2], bits);
            TreeOk(m', t) && Refines(m', t[Root], Assigned(view, vpn, bits))
  {
    var idx := Indexes(vpn);
    var l := t[LeafPath(idx)];
    var m' := Stored(m, l, idx[2], bits);
    SetLeafOk(m, t, idx, bits);
    forall w: nat ensures Entry(m', t[Root], w) == Lookup(Assigned(view, vpn, bits), w) {
      WalkIsLeaf(m, t, Indexes(w));
      WalkIsLeaf(m', t, Indexes(w));
      IndexesInjective(vpn, w);
      assert Entry(m, t[Root], w) == Lookup(view, w);
    }
  }

  /** A page is mapped exactly when its leaf table exists and holds a valid entry for it. */
  lemma MappedLeaf(m: Frames, t: Tree, view: map<nat, nat>, vpn: nat)
    requires TreeOk(m, t) && Refines(m, t[Root], view) && LeafPath(Indexes(vpn)) in t
    ensures var e := Word(m, t[LeafPath(Indexes(vpn))], Indexes(vpn)[2]);
            (IsValid(e) <==> vpn % VPN_SPAN in view) && (IsValid(e) ==> view[vpn % VPN_SPAN] == e)
  {
    WalkIsLeaf(m, t, Indexes(vpn));
    assert Entry(m, t[Root], vpn) == Lookup(view, vpn);
  }

  /** A run of mappings and unmappings. */
  datatype Op = MapOp(vpn: nat, ppn: nat, flags: nat) | UnmapOp(vpn: nat)

  function NewEntry(op: Op): nat
    requires op.MapOp? ==> op.flags < 256
  {
    if op.MapOp? then Pte(op.ppn, WithValid(op.flags)) else 0
  }

  predicate FlagsOk(ops: seq<Op>) { forall i | 0 <= i < |ops| && ops[i].MapOp? :: ops[i].flags < 256 }

  /** The flat map after the first `n` operations. */
  function FlatRun(view: map<nat, nat>, ops: seq<Op>, n: nat): map<nat, nat>
    requires n <= |ops| && FlagsOk(ops)
  {
    if n == 0 then view else Assigned(FlatRun(view, ops, n - 1), ops[n - 1].vpn, NewEntry(ops[n - 1]))
  }

  /** Operation `i` meets the assertion of the source: a page to map is unmapped and the other way round. */
  ghost predicate LegalAt(view: map<nat, nat>, ops: seq<Op>, i: nat)
    requires i < |ops| && FlagsOk(ops)
  {
    ops[i].UnmapOp? <==> ops[i].vpn % VPN_SPAN in FlatRun(view, ops, i)
  }

  ghost predicate Legal(view: map<nat, nat>, ops: seq<Op>) {
    FlagsOk(ops) && forall i: nat | i < |ops| :: LegalAt(view, ops, i)
  }

  lemma FlatStep(view: map<nat, nat>, ops: seq<Op>, n: nat)
    requires n < |ops| && FlagsOk(ops)
    ensures var before := FlatRun(view, ops, n);
            var v := ops[n].vpn % VPN_SPAN;
            FlatRun(view, ops, n + 1) ==
            if ops[n].MapOp? then before[v := Pte(ops[n].ppn, WithValid(ops[n].flags))] else before - {v}
  {
    if ops[n].MapOp? { MappedEntry(ops[n].ppn, ops[n].flags); }
  }

  lemma AssignedZero(view: map<nat, nat>, vpn: nat)
    ensures Assigned(view, vpn, 0) == view - {vpn % VPN_SPAN}
  {
  }

  /** What a page translates to after a run is what the last operation on that page said. */
  lemma {:induction false} LastMapping(view: map<nat, nat>, ops: seq<Op>, n: nat, last: nat, vpn: nat)
    requires n <= |ops| && FlagsOk(ops) && last < n && ops[last].vpn % VPN_SPAN == vpn % VPN_SPAN
    requires forall i | last < i < n :: ops[i].vpn % VPN_SPAN != vpn % VPN_SPAN
    ensures Lookup(FlatRun(view, ops, n), vpn) == if ops[last].MapOp? then Some(NewEntry(ops[last])) else None
    decreases n
  {
    FlatStep(view, ops, n - 1);
    if last + 1 < n {
      LastMapping(view, ops, n - 1, last, vpn);
      assert ops[n - 1].vpn % VPN_SPAN != vpn % VPN_SPAN;
    }
  }

  // ---------------------------------------------------------------- physical memory

  /** Frames and which of them are free; allocation hands out a zeroed free frame. */
  class Ram {
    var pages: Frames
    var free: set<nat>

    ghost predicate Valid()
      reads this
    {
      free <= pages.Keys && forall f | f in pages :: IsPage(pages, f)
    }

    /** Memory of the given frames, all free. */
    constructor (frames: set<nat>)
      requires forall f | f in frames :: f < PPN_SPAN
      ensures Valid() && free == frames == pages.Keys
    {
      pages := map f | f in frames :: Zeros();
      free := frames;
    }

    method FrameAlloc() returns (r: Option<nat>)
      requires Valid()
      modifies this
      ensures Valid() && (r.None? <==> old(free) == {})
      ensures r.None? ==> pages == old(pages) && free == {}
      ensures r.Some? ==>
              r.value in old(free) && free == old(free) - {r.value} && pages == old(pages)[r.value := Zeros()]
    {
      if free == {} {
        return None;
      }
      var f :| f in free;
      free := free - {f};
      pages := pages[f := Zeros()];
      return Some(f);
    }

    /** What dropping a frame tracker is for. */
    method FrameFree(f: nat)
      requires Valid() && f in pages
      modifies this`free
      ensures Valid() && free == old(free) + {f}
    {
      free := free + {f};
    }
  }

  // ---------------------------------------------------------------- the page table

  /** The pages the first `n` operations map. */
  function MappedBy(ops: seq<Op>, n: nat): set<nat>
    requires n <= |ops|
  {
    if n == 0 then {} else MappedBy(ops, n - 1) + (if ops[n - 1].MapOp? then {ops[n - 1].vpn} else {})
  }

  lemma {:induction false} MappedMono(ops: seq<Op>, n: nat, k: nat)
    requires n <= k <= |ops|
    ensures MappedBy(ops, n) <= MappedBy(ops, k)
    decreases k - n
  {
    if n < k { MappedMono(ops, n, k - 1); }
  }

  lemma TablesMono(keys: set<Path>, a: set<nat>, b: set<nat>)
    requires a <= b
    ensures Missing(keys, Tables(a)) <= Missing(keys, Tables(b))
  {
    assert a + b == b;
    TablesJoin(a, b);
    MissingMono(keys, Tables(a), Tables(b));
  }

  /** One page more. */
  lemma TablesMore(keys: set<Path>, vs: set<nat>, v: nat)
    ensures Tables(vs + {v}) == Tables(vs) + PathsTo(v)
    ensures Missing(keys, Tables(vs + {v})) == Missing(keys, Tables(vs)) + Missing(keys + Tables(vs), PathsTo(v))
  {
    TablesJoin(vs, {v});
    TablesOne(v);
    MissingJoin(keys, Tables(vs), PathsTo(v));
  }

  /** The root entry below which a table hangs. */
  function Line(p: Path): nat
    requires p.Under?
  {
    if p.up.Root? then p.i else Line(p.up)
  }

  /** A table below one of the borrowed root entries. */
  predicate Borrowed(p: Path, lines: set<nat>) { p.Under? && Line(p) in lines }

  /** `frames` lists the tables of the tree, root first, except those below borrowed root entries. */
  ghost predicate Owns(frames: seq<nat>, t: Tree, lines: set<nat>) {
    && frames != [] && Root in t && frames[0] == t[Root] && NoRepeats(frames)
    && (forall f | f in frames :: f in t.Values)
    && forall p | p in t :: t[p] in frames <==> !Borrowed(p, lines)
  }

  /** Only frames in `own` may differ. */
  ghost predicate SameBut(m: Frames, m': Frames, own: seq<nat>) {
    m'.Keys == m.Keys && forall f | f in m && f !in own :: m'[f] == m[f]
  }

  /** Frames only went from the free ones to the own ones, none got lost, and only own frames were written. */
  ghost predicate Grown(m: Frames, free: set<nat>, own: seq<nat>, m': Frames, free': set<nat>, own': seq<nat>) {
    && SameBut(m, m', own') && free' <= free && own <= own'
    && (forall f | f in free && f !in free' :: f in own')
    && forall f | f in own' && f !in own :: f in free && f !in free'
  }

  lemma GrownTrans(m: Frames, f: set<nat>, o: seq<nat>, m1: Frames, f1: set<nat>, o1: seq<nat>, m2: Frames,
                   f2: set<nat>, o2: seq<nat>)
    requires Grown(m, f, o, m1, f1, o1) && Grown(m1, f1, o1, m2, f2, o2)
    ensures Grown(m, f, o, m2, f2, o2)
  {
    forall x | x in o1 ensures x in o2 {
      var i :| 0 <= i < |o1| && o1[i] == x;
      assert o2[i] == x;
    }
  }

  /** Table `p` lies between the root and a page. */
  predicate OnPath(vpn: nat, p: Path) { p == Under(Root, Indexes(vpn)[0]) || p == LeafPath(Indexes(vpn)) }

  function PathsTo(vpn: nat): set<Path> { {Under(Root, Indexes(vpn)[0]), LeafPath(Indexes(vpn))} }

  /** How many of the first `n` tables on the way to a page are missing. */
  function Lack(t: Tree, vpn: nat, n: nat): nat {
    (if n > 0 && Under(Root, Indexes(vpn)[0]) !in t then 1 else 0) +
    (if n > 1 && LeafPath(Indexes(vpn)) !in t then 1 else 0)
  }

  /** The first `n` tables on the way to a page have been added, and no others. */
  ghost predicate Reaches(t: Tree, t': Tree, vpn: nat, n: nat) {
    forall p :: p in t' <==>
      p in t || (n > 0 && p == Under(Root, Indexes(vpn)[0])) || (n > 1 && p == LeafPath(Indexes(vpn)))
  }

  ghost predicate Walked(t: Tree, t': Tree, vpn: nat, n: nat) {
    Reaches(t, t', vpn, n) && Extends(t, t', Indexes(vpn)[0])
  }

  /** The table on the way to a page after `n` levels. */
  function PathAt(vpn: nat, n: nat): Path {
    if n == 0 then Root else if n == 1 then Under(Root, Indexes(vpn)[0]) else LeafPath(Indexes(vpn))
  }

  lemma LackMono(t: Tree, vpn: nat, n: nat)
    requires n < 2
    ensures Lack(t, vpn, n + 1) <= Lack(t, vpn, 2)
  {
  }

  /** The tables between the root and any of the pages. */
  ghost function Tables(vs: set<nat>): set<Path>
    decreases |vs|
  {
    if vs == {} then {}
    else
      var v :| v in vs;
      PathsTo(v) + Tables(vs - {v})
  }

  lemma {:induction false} TablesHas(vs: set<nat>, p: Path)
    ensures p in Tables(vs) <==> exists v :: v in vs && OnPath(v, p)
    decreases |vs|
  {
    if vs != {} {
      var v :| v in vs && Tables(vs) == PathsTo(v) + Tables(vs - {v});
      TablesHas(vs - {v}, p);
      if p in PathsTo(v) { assert OnPath(v, p); }
      if w :| w in vs && OnPath(w, p) { assert w == v || w in vs - {v}; }
    }
  }

  /** The tables there are. */
  ghost function PathsOf(t: Tree): set<Path>
    decreases |t|
  {
    if t == map[] then {}
    else
      var p :| p in t;
      {p} + PathsOf(t - {p})
  }

  lemma {:induction false} PathsOfIs(t: Tree)
    ensures PathsOf(t) == t.Keys
    decreases |t|
  {
    if t != map[] {
      var p :| p in t && PathsOf(t) == {p} + PathsOf(t - {p});
      PathsOfIs(t - {p});
    }
  }

  /** How many of the tables `new` are not there yet. */
  ghost function Missing(paths: set<Path>, new_: set<Path>): nat
    decreases |new_|
  {
    if new_ == {} then 0
    else
      var p :| p in new_;
      (if p in paths then 0 else 1) + Missing(paths, new_ - {p})
  }

  lemma {:induction false} MissingIs(paths: set<Path>, new_: set<Path>)
    ensures Missing(paths, new_) == |new_ - paths|
    decreases |new_|
  {
    if new_ != {} {
      var p :| p in new_ && Missing(paths, new_) == (if p in paths then 0 else 1) + Missing(paths, new_ - {p});
      var rest := new_ - {p};
      MissingIs(paths, rest);
      if p in paths {
        assert new_ - paths == rest - paths;
      } else {
        assert new_ - paths == rest - paths + {p};
      }
    }
  }

  /** The tables `new_` have been added as far as they were missing, each at the cost of a free frame. */
  ghost predicate Spent(paths: set<Path>, spare: nat, paths': set<Path>, spare': nat, new_: set<Path>) {
    paths' == paths + new_ && spare == spare' + Missing(paths, new_)
  }

  /** Tables come once: what is missing of two groups is what is missing of the first, and then of the second. */
  lemma MissingJoin(paths: set<Path>, a: set<Path>, b: set<Path>)
    ensures Missing(paths, a + b) == Missing(paths, a) + Missing(paths + a, b)
  {
    MissingIs(paths, a);
    MissingIs(paths + a, b);
    MissingIs(paths, a + b);
    assert a + b - paths == (a - paths) + (b - (paths + a));
    assert (a - paths) !! (b - (paths + a));
  }

  lemma MissingMono(paths: set<Path>, a: set<Path>, b: set<Path>)
    requires a <= b
    ensures Missing(paths, a) <= Missing(paths, b)
  {
    MissingJoin(paths, a, b);
    assert a + b == b;
  }

  lemma TablesJoin(a: set<nat>, b: set<nat>)
    ensures Tables(a + b) == Tables(a) + Tables(b)
  {
    forall p ensures p in Tables(a + b) <==> p in Tables(a) || p in Tables(b) {
      TablesHas(a, p);
      TablesHas(b, p);
      TablesHas(a + b, p);
      assert forall v :: v in a || v in b <==> v in a + b;
    }
  }

  lemma TablesOne(v: nat)
    ensures Tables({v}) == PathsTo(v) && Tables({}) == {}
  {
    forall p ensures p in Tables({v}) <==> p in PathsTo(v) {
      TablesHas({v}, p);
      assert p in PathsTo(v) ==> v in {v} && OnPath(v, p);
    }
  }

  /** The two ways to count the tables missing for one page. */
  lemma LackIs(t: Tree, vpn: nat)
    ensures Missing(t.Keys, PathsTo(vpn)) == Lack(t, vpn, 2)
  {
    var p, q := Under(Root, Indexes(vpn)[0]), LeafPath(Indexes(vpn));
    var gone := PathsTo(vpn) - t.Keys;
    MissingIs(t.Keys, PathsTo(vpn));
    if p in t && q in t {
      assert gone == {};
    } else if p in t {
      assert gone == {q};
    } else if q in t {
      assert gone == {p};
    } else {
      assert gone == {p, q};
    }
  }

  lemma ReachedKeys(t: Tree, t': Tree, vpn: nat)
    requires Reaches(t, t', vpn, 2)
    ensures t'.Keys == t.Keys + PathsTo(vpn)
  {
  }

  /** One page more: `t'` has what the pages `vs` and `vpn` need, and every new table cost a frame. */
  lemma SpentMore(keys: set<Path>, spare: nat, t: Tree, n: nat, vs: set<nat>, vpn: nat, t': Tree, n': nat)
    requires Spent(keys, spare, t.Keys, n, Tables(vs))
    ensures Missing(keys, Tables(vs + {vpn})) == Missing(keys, Tables(vs)) + Lack(t, vpn, 2)
    ensures Reaches(t, t', vpn, 2) && n == n' + Lack(t, vpn, 2) ==>
            Spent(keys, spare, t'.Keys, n', Tables(vs + {vpn}))
  {
    TablesMore(keys, vs, vpn);
    LackIs(t, vpn);
    if Reaches(t, t', vpn, 2) { ReachedKeys(t, t', vpn); }
  }

  /** A page table in a run: its flat map, its tables and the number of free frames. */
  datatype State = State(view: map<nat, nat>, tree: Tree, spare: nat)

  /** `op` meets the assertion of the source. */
  ghost predicate Allowed(x: State, op: Op) {
    (op.UnmapOp? <==> op.vpn % VPN_SPAN in x.view) && (op.MapOp? ==> op.flags < 256)
  }

  /** `op` has been carried out between `x` and `y`. */
  ghost predicate Done(x: State, op: Op, y: State)
    requires op.MapOp? ==> op.flags < 256
  {
    match op
    case MapOp(vpn, ppn, flags) =>
      && y.view == x.view[vpn % VPN_SPAN := Pte(ppn, WithValid(flags))]
      && Reaches(x.tree, y.tree, vpn, 2) && x.spare == y.spare + Lack(x.tree, vpn, 2)
    case UnmapOp(vpn) =>
      y == State(x.view - {vpn % VPN_SPAN}, x.tree, x.spare)
  }

  /** What `log` says of the page table before operation `n` is kept from operation to operation. */
  ghost predicate Runs(ops: seq<Op>, log: (State, nat) -> bool)
    requires FlagsOk(ops)
  {
    && (forall x, n: nat | n < |ops| && log(x, n) :: Allowed(x, ops[n]))
    && (forall x, n: nat, y | n < |ops| && log(x, n) && Done(x, ops[n], y) :: log(y, n + 1))
  }

  /** From `x` on, the flat map is that of the run, and the tables of the pages mapped so far have been paid for. */
  ghost function RunLog(x: State, ops: seq<Op>): (State, nat) -> bool
    requires FlagsOk(ops)
  {
    (y: State, n: nat) => n <= |ops| && y.view == FlatRun(x.view, ops, n) &&
                          Spent(x.tree.Keys, x.spare, y.tree.Keys, y.spare, Tables(MappedBy(ops, n)))
  }

  lemma RunStart(x: State, ops: seq<Op>)
    requires Legal(x.view, ops)
    ensures Runs(ops, RunLog(x, ops)) && RunLog(x, ops)(x, 0)
  {
    var log := RunLog(x, ops);
    NothingSpent(x.tree.Keys, x.spare, ops);
    forall y, n: nat | n < |ops| && log(y, n) ensures Allowed(y, ops[n]) {
      assert LegalAt(x.view, ops, n);
    }
    forall y, n: nat, z | n < |ops| && log(y, n) && Done(y, ops[n], z) ensures log(z, n + 1) {
      RunStep(x, ops, n, y, z);
    }
  }

  lemma NothingSpent(keys: set<Path>, spare: nat, ops: seq<Op>)
    ensures Spent(keys, spare, keys, spare, Tables(MappedBy(ops, 0)))
  {
    TablesOne(0);
  }

  lemma RunStep(x: State, ops: seq<Op>, n: nat, y: State, z: State)
    requires FlagsOk(ops) && n < |ops| && RunLog(x, ops)(y, n) && Done(y, ops[n], z)
    ensures RunLog(x, ops)(z, n + 1)
  {
    FlatStep(x.view, ops, n);
    if ops[n].MapOp? {
      SpentMore(x.tree.Keys, x.spare, y.tree, y.spare, MappedBy(ops, n), ops[n].vpn, z.tree, z.spare);
    } else {
      assert MappedBy(ops, n + 1) == MappedBy(ops, n);
    }
  }

  /** A mapping that cannot be paid for: neither can the run. */
  lemma RunShort(x: State, ops: seq<Op>, y: State, n: nat)
    requires FlagsOk(ops) && n < |ops| && RunLog(x, ops)(y, n) && ops[n].MapOp?
    requires y.spare < Lack(y.tree, ops[n].vpn, 2)
    ensures x.spare < Missing(x.tree.Keys, Tables(MappedBy(ops, |ops|)))
  {
    var vs, vpn := MappedBy(ops, n), ops[n].vpn;
    SpentMore(x.tree.Keys, x.spare, y.tree, y.spare, vs, vpn, y.tree, y.spare);
    MappedMono(ops, n + 1, |ops|);
    TablesMono(x.tree.Keys, vs + {vpn}, MappedBy(ops, |ops|));
  }

  /** Tables were only added, and only below root entry `line`. */
  ghost predicate Extends(t: Tree, t': Tree, line: nat) {
    && (forall p | p in t :: p in t' && t'[p] == t[p])
    && forall p | p in t' && p !in t :: p.Under? && Line(p) == line
  }

  /** New tables sit in frames that were free. */
  lemma TablesGrow(t: Tree, t': Tree, own: seq<nat>, own': seq<nat>, lines: set<nat>, line: nat, free: set<nat>,
                   free': set<nat>)
    requires Extends(t, t', line) && line !in lines && Owns(own, t, lines) && Owns(own', t', lines)
    requires forall f | f in own' && f !in own :: f in free && f !in free'
    ensures t'.Values <= t.Values + (free - free')
  {
    forall f | f in t'.Values ensures f in t.Values + (free - free') {
      var p :| p in t' && t'[p] == f;
      if p in t { assert t[p] in t.Values; }
    }
  }

  /** A frame taken from the free list and linked below an invalid entry. */
  lemma {:induction false} LinkFacts(m: Frames, free: set<nat>, frames: seq<nat>, t: Tree, view: map<nat, nat>,
                                     lines: set<nat>, p: Path, i: nat, f: nat)
    requires TreeOk(m, t) && Refines(m, t[Root], view) && t.Values !! free && Owns(frames, t, lines)
    requires p in t && Depth(p) < 2 && i < ENTRIES && !IsValid(m[t[p]][i]) && !Borrowed(Under(p, i), lines)
    requires f in free && IsPage(m, f)
    ensures var m1 := m[f := Zeros()];
            && t[p] in m1 && |m1[t[p]]| == ENTRIES && m1[t[p]] == m[t[p]]
            && var m' := Stored(m1, t[p], i, Pte(f, V));
               var t' := t[Under(p, i) := f];
               && TreeOk(m', t') && Refines(m', t'[Root], view) && Owns(frames + [f], t', lines)
               && t'.Values !! (free - {f}) && PpnOf(Pte(f, V)) == f
               && Grown(m, free, frames, m', free - {f}, frames + [f])
  {
    var m1 := m[f := Zeros()];
    assert forall q | q in t :: t[q] in t.Values;
    assert t[p] != f;
    assert EntryOk(m, t, p, i);
    TreeElsewhere(m, m1, t);
    GrowOk(m1, t, p, i, f);
    var m' := Stored(m1, t[p], i, Pte(f, V));
    var t' := t[Under(p, i) := f];
    SameLeavesRefine(m, t, m1, t, view);
    SameLeavesRefine(m1, t, m', t', view);
    LinkOwns(frames, t, lines, p, i, f);
    assert t[p] in frames by { BorrowedUp(p, i, lines); }
  }

  /** The same, with the new tree named only by what it is. */
  lemma NewTable(m: Frames, free: set<nat>, frames: seq<nat>, t: Tree, view: map<nat, nat>, lines: set<nat>, p: Path,
                 i: nat, f: nat)
    returns (t': Tree)
    requires TreeOk(m, t) && Refines(m, t[Root], view) && t.Values !! free && Owns(frames, t, lines)
    requires p in t && Depth(p) < 2 && i < ENTRIES && !IsValid(m[t[p]][i]) && !Borrowed(Under(p, i), lines)
    requires f in free && IsPage(m, f)
    ensures var m1 := m[f := Zeros()];
            && t[p] in m1 && |m1[t[p]]| == ENTRIES && m1[t[p]] == m[t[p]]
            && var m' := Stored(m1, t[p], i, Pte(f, V));
               && TreeOk(m', t') && t'[Root] == t[Root] && Refines(m', t[Root], view) && Owns(frames + [f], t', lines)
               && t'.Values !! (free - {f}) && PpnOf(Pte(f, V)) == f &&
                  Grown(m, free, frames, m', free - {f}, frames + [f])
    ensures Under(p, i) in t' && t'[Under(p, i)] == f && Extends(t, t', Line(Under(p, i))) && Under(p, i) !in t
    ensures (forall q :: q in t' <==> q in t || q == Under(p, i)) && |free| == |free - {f}| + 1
  {
    assert EntryOk(m, t, p, i);
    LinkFacts(m, free, frames, t, view, lines, p, i, f);
    t' := t[Under(p, i) := f];
  }

  lemma BorrowedUp(p: Path, i: nat, lines: set<nat>)
    requires !Borrowed(Under(p, i), lines)
    ensures !Borrowed(p, lines)
  {
  }

  lemma LinkOwns(frames: seq<nat>, t: Tree, lines: set<nat>, p: Path, i: nat, f: nat)
    requires Owns(frames, t, lines) && f !in t.Values && !Borrowed(Under(p, i), lines) && Under(p, i) !in t
    ensures var t' := t[Under(p, i) := f];
            Owns(frames + [f], t', lines) && t'.Values == t.Values + {f}
  {
    var t' := t[Under(p, i) := f];
    assert forall q | q in t :: t[q] in t.Values && t'[q] == t[q];
    assert t'[Under(p, i)] == f && f in t'.Values;
    NoRepeatsAdd(frames, f);
    forall x | x in t.Values ensures x in t'.Values {
      var q :| q in t && t[q] == x;
      assert t'[q] == x;
    }
  }

  /** A zeroed frame as root maps nothing. */
  lemma EmptyTree(m: Frames, f: nat)
    requires IsPage(m, f) && m[f] == Zeros()
    ensures TreeOk(m, map[Root := f]) && Refines(m, f, map[]) && Owns([f], map[Root := f], {})
  {
    var t := map[Root := f];
    assert forall p, i: nat | p in t && i < ENTRIES :: EntryOk(m, t, p, i);
    forall vpn: nat ensures Entry(m, f, vpn) == Lookup(map[], vpn) {
      WalkIsLeaf(m, t, Indexes(vpn));
    }
    assert t[Root] in t.Values;
  }

  /** The leaf table of a mapped page exists. */
  lemma MappedPath(m: Frames, t: Tree, view: map<nat, nat>, vpn: nat)
    requires TreeOk(m, t) && Refines(m, t[Root], view) && vpn % VPN_SPAN in view
    ensures LeafPath(Indexes(vpn)) in t
  {
    WalkIsLeaf(m, t, Indexes(vpn));
    assert Entry(m, t[Root], vpn) == Lookup(view, vpn);
  }

  // ---------------------------------------------------------------- borrowed kernel entries

  /** The tables of `k` below root entry `line`. */
  ghost function Below(k: Tree, line: nat): Tree { map p | p in k && p.Under? && Line(p) == line :: k[p] }

  ghost function BelowView(view: map<nat, nat>, line: nat): map<nat, nat> {
    map v | v in view && Indexes(v)[0] == line :: view[v]
  }

  /** Copying one root entry from another tree makes its subtree part of this one. */
  lemma BorrowTree(m: Frames, t: Tree, k: Tree, line: nat)
    requires TreeOk(m, t) && TreeOk(m, k) && line < ENTRIES
    requires forall p | p in t && p.Under? :: Line(p) != line
    requires t.Values !! Below(k, line).Values && t[Root] != k[Root]
    ensures var m' := Stored(m, t[Root], line, m[k[Root]][line]);
            var t' := t + Below(k, line);
            && TreeOk(m', t')
            && forall idx | InBounds(idx) :: Leaf(m', t', idx) == if idx[0] == line then Leaf(m, k, idx)
               else Leaf(m, t, idx)
  {
    var m' := Stored(m, t[Root], line, m[k[Root]][line]);
    var t' := t + Below(k, line);
    BorrowDistinct(t, k, line);
    BorrowShape(m, t, k, line);
    forall p, i: nat | p in t' && Depth(p) < 2 && i < ENTRIES ensures IsPage(m', t'[p]) && EntryOk(m', t', p, i) {
      BorrowEntry(m, t, k, line, p, i);
    }
    forall idx | InBounds(idx) ensures Leaf(m', t', idx) == if idx[0] == line then Leaf(m, k, idx)
        else Leaf(m, t, idx) {
      BorrowLeaf(m, t, k, line, idx);
    }
  }

  lemma BorrowDistinct(t: Tree, k: Tree, line: nat)
    requires t.Values !! Below(k, line).Values
    requires Distinct(t) && Distinct(k)
    ensures var t' := t + Below(k, line);
            Distinct(t')
    ensures forall p, q | p in t && q in Below(k, line) :: k[q] != t[p]
  {
    var b := Below(k, line);
    var t' := t + b;
    assert forall p | p in t :: t[p] in t.Values;
    assert forall p | p in b :: b[p] in b.Values && b[p] == k[p];
    forall p, q, f: nat | Sits(t', p, f) && Sits(t', q, f) ensures p == q {
      if p in b && q in b && p != q { Apart(k, p, q); }
      if p in t && q in t && p != q { Apart(t, p, q); }
    }
  }

  lemma BorrowShape(m: Frames, t: Tree, k: Tree, line: nat)
    requires TreeOk(m, t) && TreeOk(m, k) && line < ENTRIES
    ensures var m' := Stored(m, t[Root], line, m[k[Root]][line]);
            var t' := t + Below(k, line);
            && (forall p | p in t' :: Depth(p) <= 2 && IsPage(m', t'[p]))
            && (forall p, i: nat | Under(p, i) in t' :: p in t' && i < ENTRIES)
  {
    var b := Below(k, line);
    forall p, i: nat | Under(p, i) in b ensures p in t + b && i < ENTRIES {
      assert p in k;
      assert p.Under? ==> Line(p) == line;
    }
  }

  lemma BorrowLeaf(m: Frames, t: Tree, k: Tree, line: nat, idx: seq<nat>)
    requires TreeOk(m, t) && TreeOk(m, k) && line < ENTRIES && InBounds(idx)
    requires forall p | p in t && p.Under? :: Line(p) != line
    requires forall p, q | p in t && q in Below(k, line) :: k[q] != t[p]
    ensures var m' := Stored(m, t[Root], line, m[k[Root]][line]);
            var t' := t + Below(k, line);
            Leaf(m', t', idx) == if idx[0] == line then Leaf(m, k, idx) else Leaf(m, t, idx)
  {
    assert Line(LeafPath(idx)) == idx[0];
    if LeafPath(idx) in t { Apart(t, Root, LeafPath(idx)); }
  }

  lemma {:induction false} BorrowEntry(m: Frames, t: Tree, k: Tree, line: nat, p: Path, i: nat)
    requires TreeOk(m, t) && TreeOk(m, k) && line < ENTRIES
    requires forall p | p in t && p.Under? :: Line(p) != line
    requires forall p | p in Below(k, line) :: k[p] != t[Root]
    requires p in t + Below(k, line) && Depth(p) < 2 && i < ENTRIES
    ensures var m' := Stored(m, t[Root], line, m[k[Root]][line]);
            var t' := t + Below(k, line);
            IsPage(m', t'[p]) && EntryOk(m', t', p, i)
  {
    assert Line(Under(p, i)) == if p.Root? then i else Line(p);
    if p in Below(k, line) {
      assert EntryOk(m, k, p, i);
    } else {
      assert EntryOk(m, t, p, i);
      if p.Root? { assert EntryOk(m, k, Root, line); } else { Apart(t, Root, p); }
    }
  }

  lemma BorrowRefines(m: Frames, t: Tree, view: map<nat, nat>, k: Tree, kview: map<nat, nat>, line: nat)
    requires TreeOk(m, t) && TreeOk(m, k) && line < ENTRIES && Refines(m, t[Root], view) && Refines(m, k[Root], kview)
    requires forall p | p in t && p.Under? :: Line(p) != line
    requires t.Values !! Below(k, line).Values && t[Root] != k[Root]
    ensures var m' := Stored(m, t[Root], line, m[k[Root]][line]);
            TreeOk(m', t + Below(k, line)) && Refines(m', t[Root], view + BelowView(kview, line))
  {
    var m' := Stored(m, t[Root], line, m[k[Root]][line]);
    var t' := t + Below(k, line);
    BorrowTree(m, t, k, line);
    forall vpn: nat ensures Entry(m', t[Root], vpn) == Lookup(view + BelowView(kview, line), vpn) {
      WalkIsLeaf(m, t, Indexes(vpn));
      WalkIsLeaf(m, k, Indexes(vpn));
      WalkIsLeaf(m', t', Indexes(vpn));
      IndexesLow(vpn);
      assert Entry(m, t[Root], vpn) == Lookup(view, vpn) && Entry(m, k[Root], vpn) == Lookup(kview, vpn);
      assert Line(LeafPath(Indexes(vpn))) == Indexes(vpn)[0];
    }
  }

  lemma IndexesLow(vpn: nat)
    ensures Indexes(vpn % VPN_SPAN) == Indexes(vpn)
  {
    IndexesInjective(vpn, vpn % VPN_SPAN);
  }

  /** Root entries of the kernel's part of the address space. */
  const KERNEL_LINES: seq<nat> := [508, 510, 511]

  /** Every table is owned, or is a table of `k` below a borrowed entry. */
  ghost predicate Mixed(t: Tree, frames: seq<nat>, k: Tree, lines: set<nat>) {
    forall p | p in t :: t[p] in frames || (p.Under? && Line(p) in lines && p in k && t[p] == k[p])
  }

  /** `view` is `kview` below the borrowed root entries and `own` elsewhere. */
  ghost predicate MixedView(view: map<nat, nat>, own: map<nat, nat>, kview: map<nat, nat>, lines: set<nat>) {
    forall v: nat ::
      var from := if Indexes(v)[0] in lines then kview else own;
      (v in view <==> v in from) && (v in view ==> view[v] == from[v])
  }

  lemma MixedTables(t: Tree, frames: seq<nat>, t0: Tree, k: Tree, lines: set<nat>)
    requires Mixed(t, frames, k, lines) && forall f | f in frames :: f in t0.Values
    ensures t.Values <= t0.Values + k.Values
  {
    assert forall p | p in k :: k[p] in k.Values;
  }

  lemma BorrowOwns(frames: seq<nat>, t: Tree, k: Tree, lines: set<nat>, line: nat)
    requires Owns(frames, t, lines) && Mixed(t, frames, k, lines) && line !in lines
    requires Distinct(k) && (forall f | f in frames :: f !in k.Values)
    requires forall p | p in t && p.Under? :: Line(p) != line
    ensures t.Values !! Below(k, line).Values
    ensures var t' := t + Below(k, line);
            && Owns(frames, t', lines + {line}) && Mixed(t', frames, k, lines + {line}) &&
               t'.Values <= t.Values + k.Values
  {
    var b := Below(k, line);
    var t' := t + b;
    assert forall p | p in k :: k[p] in k.Values;
    forall f | f in t.Values ensures f !in b.Values {
      var p :| p in t && t[p] == f;
      forall q | q in b ensures b[q] != f {
        if t[p] !in frames { Apart(k, p, q); }
      }
    }
    forall f | f in frames ensures f in t'.Values {
      var p :| p in t && t[p] == f;
      assert p !in b;
      assert t'[p] == f;
    }
  }

  /** A tree none of whose frames were written is the same tree. */
  lemma Undisturbed(m: Frames, m': Frames, own: seq<nat>, t: Tree, view: map<nat, nat>)
    requires TreeOk(m, t) && Refines(m, t[Root], view) && SameBut(m, m', own) && forall f | f in own :: f !in t.Values
    ensures TreeOk(m', t) && Refines(m', t[Root], view)
  {
    assert forall p | p in t :: t[p] in t.Values;
    TreeElsewhere(m, m', t);
    SameLeavesRefine(m, t, m', t, view);
  }

  lemma MixedViewStep(view: map<nat, nat>, own: map<nat, nat>, kview: map<nat, nat>, lines: set<nat>, line: nat)
    requires MixedView(view, own, kview, lines) && forall v | v in own :: Indexes(v)[0] != line
    ensures MixedView(view + BelowView(kview, line), own, kview, lines + {line})
  {
  }

  /** Mapped pages lie below existing root entries. */
  lemma ViewLines(m: Frames, t: Tree, view: map<nat, nat>, bound: nat)
    requires TreeOk(m, t) && Refines(m, t[Root], view) && forall p | p in t && p.Under? :: Line(p) < bound
    ensures forall v | v in view :: Indexes(v)[0] < bound
  {
    forall v | v in view ensures Indexes(v)[0] < bound {
      assert v % VPN_SPAN == v;
      MappedPath(m, t, view, v);
      assert Line(LeafPath(Indexes(v))) == Indexes(v)[0];
    }
  }

  /** Tables hang below user entries or borrowed ones. */
  ghost predicate UserTree(t: Tree, lines: set<nat>) {
    forall p | p in t && p.Under? :: Line(p) < 256 || Line(p) in lines
  }

  /** This tree is its own user part plus the tables and pages of `k` below the borrowed entries. */
  ghost predicate Sharing(t: Tree, frames: seq<nat>, view: map<nat, nat>, own: map<nat, nat>, lines: set<nat>, k: Tree,
                          kview: map<nat, nat>) {
    UserTree(t, lines) && Mixed(t, frames, k, lines) && MixedView(view, own, kview, lines)
  }

  lemma SharingStep(t: Tree, frames: seq<nat>, view: map<nat, nat>, own: map<nat, nat>, lines: set<nat>, k: Tree,
                    kview: map<nat, nat>, line: nat)
    requires Sharing(t, frames, view, own, lines, k, kview) && 256 <= line && forall v | v in own :: Indexes(v)[0] < 256
    ensures Sharing(t + Below(k, line), frames, view + BelowView(kview, line), own, lines + {line}, k, kview)
  {
    MixedViewStep(view, own, kview, lines, line);
  }

  lemma BorrowFacts(m: Frames, free: set<nat>, frames: seq<nat>, t: Tree, view: map<nat, nat>, lines: set<nat>,
                    k: Tree, kview: map<nat, nat>, line: nat)
    requires TreeOk(m, t) && TreeOk(m, k) && Refines(m, t[Root], view) && Refines(m, k[Root], kview)
    requires t.Values !! free && k.Values !! free && Owns(frames, t, lines) && Mixed(t, frames, k, lines)
    requires line < ENTRIES && line !in lines && (forall f | f in frames :: f !in k.Values) &&
             forall p | p in t && p.Under? :: Line(p) != line
    ensures var m' := Stored(m, t[Root], line, m[k[Root]][line]);
            var t' := t + Below(k, line);
            && TreeOk(m', t') && Refines(m', t[Root], view + BelowView(kview, line))
            && TreeOk(m', k) && Refines(m', k[Root], kview) && SameBut(m, m', frames)
            && Owns(frames, t', lines + {line}) && Mixed(t', frames, k, lines + {line}) && t'.Values !! free
  {
    assert k[Root] in k.Values;
    BorrowOwns(frames, t, k, lines, line);
    BorrowRefines(m, t, view, k, kview, line);
    Undisturbed(m, Stored(m, t[Root], line, m[k[Root]][line]), frames, k, kview);
  }

  /** One more borrowed root entry: the tree and the flat map it gives. */
  lemma Borrowing(m: Frames, free: set<nat>, frames: seq<nat>, t: Tree, view: map<nat, nat>, own: map<nat, nat>,
                  lines: set<nat>, k: Tree, kview: map<nat, nat>, line: nat) returns (t': Tree, view': map<nat, nat>)
    requires TreeOk(m, t) && TreeOk(m, k) && Refines(m, t[Root], view) && Refines(m, k[Root], kview)
    requires t.Values !! free && k.Values !! free && Owns(frames, t, lines) &&
             Sharing(t, frames, view, own, lines, k, kview)
    requires 256 <= line < ENTRIES && line !in lines && (forall f | f in frames :: f !in k.Values) &&
             forall v | v in own :: Indexes(v)[0] < 256
    ensures var m' := Stored(m, t[Root], line, m[k[Root]][line]);
            && TreeOk(m', t') && t'[Root] == t[Root] && Refines(m', t[Root], view')
            && TreeOk(m', k) && Refines(m', k[Root], kview) && SameBut(m, m', frames)
    ensures Owns(frames, t', lines + {line}) && t'.Values !! free &&
            Sharing(t', frames, view', own, lines + {line}, k, kview)
  {
    BorrowFacts(m, free, frames, t, view, lines, k, kview, line);
    SharingStep(t, frames, view, own, lines, k, kview, line);
    t', view' := t + Below(k, line), view + BelowView(kview, line);
  }

  function FirstLines(n: nat): set<nat>
    requires n <= 3
  {
    if n == 0 then {} else FirstLines(n - 1) + {KERNEL_LINES[n - 1]}
  }

  lemma {:induction false} LinesFacts(n: nat)
    requires n <= 3
    ensures FirstLines(3) == {508, 510, 511}
    ensures n < 3 ==> KERNEL_LINES[n] !in FirstLines(n) && 256 <= KERNEL_LINES[n] < ENTRIES
  {
    assert FirstLines(1) == {508} && FirstLines(2) == {508, 510};
  }

  class PageTable {
    const ram: Ram
    const root: nat
    var frames: seq<nat>
    /** The frame of every table, the flat map they stand for, and the root entries copied from elsewhere. */
    ghost var tree: Tree
    ghost var view: map<nat, nat>
    ghost var lines: set<nat>

    ghost predicate Valid()
      reads this, ram
    {
      && ram.Valid() && TreeOk(ram.pages, tree) && tree[Root] == root && Refines(ram.pages, root, view)
      && tree.Values !! ram.free && Owns(frames, tree, lines)
    }

    constructor WithRoot(ram: Ram)
      requires ram.Valid() && ram.free != {}
      modifies ram
      ensures Valid() && this.ram == ram && view == map[] && lines == {} && frames == [root] &&
              tree == map[Root := root]
      ensures root in old(ram.free) && ram.free == old(ram.free) - {root}
      ensures Grown(old(ram.pages), old(ram.free), [], ram.pages, ram.free, frames)
    {
      var r := ram.FrameAlloc();
      var f := r.value;
      this.ram, root, frames := ram, f, [f];
      tree, view, lines := map[Root := f], map[], {};
      new;
      EmptyTree(ram.pages, f);
    }

    /** Walk the three levels as long as the entries are valid. */
    method FindPte(vpn: nat) returns (r: Option<nat>)
      requires Valid()
      ensures r == Lookup(view, vpn)
    {
      var idx := SplitIndexes(vpn);
      var f := root;
      r := None;
      for n := 0 to 3
        invariant idx[..] == Indexes(vpn)
        invariant Entry(ram.pages, root, vpn) == if n == 3 then r else Walk(ram.pages, f, idx[n..])
      {
        assert idx[n..][0] == idx[n] && idx[n..][1..] == idx[n + 1..];
        var pte := Word(ram.pages, f, idx[n]);
        if !IsValid(pte) {
          return None;
        }
        r := Some(pte);
        f := PpnOf(pte);
      }
    }

    method Translate(vpn: nat) returns (r: Option<nat>)
      requires Valid()
      ensures r == if vpn % VPN_SPAN in view then Some(PpnOf(view[vpn % VPN_SPAN])) else None
    {
      var pte := FindPte(vpn);
      r := if pte.None? then None else Some(PpnOf(pte.value));
    }

    /** One level down, through a new table if the entry is invalid; `None` when no frame is left. */
    method Descend(f: nat, i: nat, ghost p: Path) returns (next: Option<nat>)
      requires Valid() && p in tree && tree[p] == f && Depth(p) < 2 && i < ENTRIES && !Borrowed(Under(p, i), lines)
      modifies this`frames, this`tree, ram
      ensures Valid() && Grown(old(ram.pages), old(ram.free), old(frames), ram.pages, ram.free, frames)
      ensures next.None? <==> Under(p, i) !in old(tree) && old(ram.free) == {}
      ensures next.None? ==> tree == old(tree) && ram.free == {}
      ensures next.Some? ==> Under(p, i) in tree && tree[Under(p, i)] == next.value
      ensures next.Some? ==> forall q :: q in tree <==> q in old(tree) || q == Under(p, i)
      ensures next.Some? ==> |old(ram.free)| == |ram.free| + if Under(p, i) in old(tree) then 0 else 1
      ensures Extends(old(tree), tree, Line(Under(p, i)))
      ensures Under(p, i) in old(tree) ==> frames == old(frames) && ram.free == old(ram.free) && tree == old(tree)
    {
      assert EntryOk(ram.pages, tree, p, i);
      if !IsValid(ram.pages[f][i]) {
        next := AddTable(f, i, p);
        return;
      }
      next := Some(PpnOf(ram.pages[f][i]));
    }

    /** Write the entry for the new table and own its frame. */
    method LinkTable(f: nat, i: nat, g: nat, ghost t: Tree)
      requires f in ram.pages && i < |ram.pages[f]|
      modifies this`frames, this`tree, ram`pages
      ensures ram.pages == Stored(old(ram.pages), f, i, Pte(g, V)) && frames == old(frames) + [g] && tree == t
    {
      ram.pages := Stored(ram.pages, f, i, Pte(g, V));
      frames := frames + [g];
      tree := t;
    }

    /** Link a zeroed frame below an invalid entry. */
    method AddTable(f: nat, i: nat, ghost p: Path) returns (next: Option<nat>)
      requires Valid() && p in tree && tree[p] == f && Depth(p) < 2 && i < ENTRIES && !Borrowed(Under(p, i), lines)
      requires !IsValid(ram.pages[f][i])
      modifies this`frames, this`tree, ram
      ensures Valid() && Grown(old(ram.pages), old(ram.free), old(frames), ram.pages, ram.free, frames)
      ensures next.None? <==> old(ram.free) == {}
      ensures next.None? ==> tree == old(tree) && ram.free == {}
      ensures next.Some? ==> Under(p, i) in tree && tree[Under(p, i)] == next.value
      ensures next.Some? ==> forall q :: q in tree <==> q in old(tree) || q == Under(p, i)
      ensures next.Some? ==> |old(ram.free)| == |ram.free| + 1
      ensures Extends(old(tree), tree, Line(Under(p, i)))
    {
      ghost var m, free := ram.pages, ram.free;
      var frame := ram.FrameAlloc();
      if frame.None? {
        return None;
      }
      ghost var t := NewTable(m, free, frames, tree, view, lines, p, i, frame.value);
      LinkTable(f, i, frame.value, t);
      return Some(PpnOf(ram.pages[f][i]));
    }

    /** The last-level table of a page, with the tables on the way made as needed; `None` exactly when fewer frames are
        free than tables are missing. */
    method FindPteCreate(vpn: nat) returns (leaf: Option<nat>)
      requires Valid() && Indexes(vpn)[0] !in lines
      modifies this`frames, this`tree, ram
      ensures Valid() && Grown(old(ram.pages), old(ram.free), old(frames), ram.pages, ram.free, frames)
      ensures leaf.Some? <==> |old(ram.free)| >= Lack(old(tree), vpn, 2)
      ensures leaf.None? ==> ram.free == {}
      ensures leaf.Some? ==> LeafPath(Indexes(vpn)) in tree && tree[LeafPath(Indexes(vpn))] == leaf.value
      ensures leaf.Some? ==> Reaches(old(tree), tree, vpn, 2)
      ensures leaf.Some? ==> |old(ram.free)| == |ram.free| + Lack(old(tree), vpn, 2)
      ensures LeafPath(Indexes(vpn)) in old(tree) ==>
              leaf.Some? && tree == old(tree) && frames == old(frames) && ram.free == old(ram.free)
      ensures Extends(old(tree), tree, Indexes(vpn)[0])
    {
      var idx := SplitIndexes(vpn);
      var f := root;
      ghost var t, free0, m0, own0 := tree, ram.free, ram.pages, frames;
      for n := 0 to 2
        invariant idx[..] == Indexes(vpn) && Valid() && PathAt(vpn, n) in tree && tree[PathAt(vpn, n)] == f
        invariant Walked(t, tree, vpn, n) && |free0| == |ram.free| + Lack(t, vpn, n)
        invariant Grown(m0, free0, own0, ram.pages, ram.free, frames)
        invariant LeafPath(Indexes(vpn)) in t ==> tree == t && frames == own0 && ram.free == free0
      {
        var next := Level(vpn, n, f, idx[n], t, m0, free0, own0);
        if next.None? {
          return None;
        }
        f := next.value;
      }
      return Some(f);
    }

    /** Level `n` of the way to a page. */
    method Level(ghost vpn: nat, ghost n: nat, f: nat, i: nat, ghost t: Tree, ghost m0: Frames, ghost free0: set<nat>,
                 ghost own0: seq<nat>)
      returns (next: Option<nat>)
      requires Valid() && n < 2 && i == Indexes(vpn)[n] && Indexes(vpn)[0] !in lines
      requires PathAt(vpn, n) in tree && tree[PathAt(vpn, n)] == f
      requires Walked(t, tree, vpn, n) && |free0| == |ram.free| + Lack(t, vpn, n)
      requires Grown(m0, free0, own0, ram.pages, ram.free, frames)
      requires LeafPath(Indexes(vpn)) in t ==> tree == t && frames == own0 && ram.free == free0
      modifies this`frames, this`tree, ram
      ensures Valid() && Grown(m0, free0, own0, ram.pages, ram.free, frames) && Extends(t, tree, Indexes(vpn)[0])
      ensures next.None? ==> |free0| < Lack(t, vpn, 2) && ram.free == {}
      ensures next.Some? ==> PathAt(vpn, n + 1) in tree && tree[PathAt(vpn, n + 1)] == next.value
      ensures next.Some? ==> Walked(t, tree, vpn, n + 1) && |free0| == |ram.free| + Lack(t, vpn, n + 1)
      ensures LeafPath(Indexes(vpn)) in t ==> tree == t && frames == own0 && ram.free == free0
    {
      ghost var m, free, own := ram.pages, ram.free, frames;
      LackMono(t, vpn, n);
      next := Descend(f, i, PathAt(vpn, n));
      GrownTrans(m0, free0, own0, m, free, own, ram.pages, ram.free, frames);
    }

    method SetPte(f: nat, vpn: nat, bits: nat)
      requires Valid() && Indexes(vpn)[0] !in lines && LeafPath(Indexes(vpn)) in tree &&
               tree[LeafPath(Indexes(vpn))] == f
      modifies this`view, ram`pages
      ensures Valid() && view == Assigned(old(view), vpn, bits)
      ensures Grown(old(ram.pages), ram.free, frames, ram.pages, ram.free, frames)
    {
      var idx := SplitIndexes(vpn);
      SetLeafRefines(ram.pages, tree, view, vpn, bits);
      ram.pages := Stored(ram.pages, f, idx[2], bits);
      view := Assigned(view, vpn, bits);
    }

    /** Map an unmapped page; false exactly when fewer frames are free than tables are missing. */
    method Map(vpn: nat, ppn: nat, flags: nat) returns (ok: bool)
      requires Valid() && Indexes(vpn)[0] !in lines && flags < 256 && vpn % VPN_SPAN !in view
      modifies this, ram
      ensures Valid() && lines == old(lines) &&
              Grown(old(ram.pages), old(ram.free), old(frames), ram.pages, ram.free, frames)
      ensures Extends(old(tree), tree, Indexes(vpn)[0]) && tree.Values <= old(tree).Values + (old(ram.free) - ram.free)
      ensures ok <==> |old(ram.free)| >= Lack(old(tree), vpn, 2)
      ensures ok ==> Reaches(old(tree), tree, vpn, 2) && |old(ram.free)| == |ram.free| + Lack(old(tree), vpn, 2)
      ensures !ok ==> ram.free == {} && view == old(view)
      ensures ok ==> view == old(view)[vpn % VPN_SPAN := Pte(ppn, WithValid(flags))]
    {
      var leaf := FindPteCreate(vpn);
      TablesGrow(old(tree), tree, old(frames), frames, lines, Indexes(vpn)[0], old(ram.free), ram.free);
      if leaf.None? {
        return false;
      }
      MappedLeaf(ram.pages, tree, view, vpn);
      assert !IsValid(Word(ram.pages, leaf.value, Indexes(vpn)[2]));
      MappedEntry(ppn, flags);
      ghost var m, free, own := ram.pages, ram.free, frames;
      SetPte(leaf.value, vpn, Pte(ppn, WithValid(flags)));
      GrownTrans(old(ram.pages), old(ram.free), old(frames), m, free, own, ram.pages, ram.free, frames);
      return true;
    }

    /** Unmap a mapped page. */
    method Unmap(vpn: nat)
      requires Valid() && Indexes(vpn)[0] !in lines && vpn % VPN_SPAN in view
      modifies this, ram
      ensures Valid() && lines == old(lines) &&
              Grown(old(ram.pages), old(ram.free), old(frames), ram.pages, ram.free, frames)
      ensures view == old(view) - {vpn % VPN_SPAN}
      ensures frames == old(frames) && ram.free == old(ram.free) && tree == old(tree)
    {
      MappedPath(ram.pages, tree, view, vpn);
      var leaf := FindPteCreate(vpn);
      ghost var m, free, own := ram.pages, ram.free, frames;
      SetPte(leaf.value, vpn, 0);
      AssignedZero(old(view), vpn);
      GrownTrans(old(ram.pages), old(ram.free), old(frames), m, free, own, ram.pages, ram.free, frames);
    }

    /** Copy one root entry, and with it the tables below, from another page table. */
    method CopyLine(other: PageTable, line: nat, ghost own: map<nat, nat>)
      requires Valid() && other.Valid() && other != this && other.ram == ram && 256 <= line < ENTRIES && line !in lines
      requires (forall f | f in frames :: f !in other.tree.Values) && forall v | v in own :: Indexes(v)[0] < 256
      requires Sharing(tree, frames, view, own, lines, other.tree, other.view)
      modifies this`tree, this`view, this`lines, ram`pages
      ensures Valid() && other.Valid() && lines == old(lines) + {line} && SameBut(old(ram.pages), ram.pages, frames)
      ensures Sharing(tree, frames, view, own, lines, other.tree, other.view)
    {
      ghost var t, v := Borrowing(ram.pages, ram.free, frames, tree, view, own, lines, other.tree, other.view, line);
      ram.pages := Stored(ram.pages, root, line, ram.pages[other.root][line]);
      tree, view, lines := t, v, lines + {line};
    }

    /** Share the kernel's part of another address space by copying its root entries. */
    method MapKernelAreas(other: PageTable)
      requires Valid() && other.Valid() && other != this && other.ram == ram && lines == {}
      requires UserTree(tree, {}) && forall f | f in frames :: f !in other.tree.Values
      modifies this`tree, this`view, this`lines, ram`pages
      ensures Valid() && other.Valid() && lines == {508, 510, 511} && UserTree(tree, lines)
      ensures SameBut(old(ram.pages), ram.pages, frames) && MixedView(view, old(view), other.view, lines)
      ensures tree.Values <= old(tree).Values + other.tree.Values
    {
      ViewLines(ram.pages, tree, view, 256);
      assert forall p | p in tree :: tree[p] in frames;
      ghost var own, before := view, tree;
      CopyLines(other, own);
      LinesFacts(3);
      MixedTables(tree, frames, before, other.tree, lines);
    }

    method CopyLines(other: PageTable, ghost own: map<nat, nat>)
      requires Valid() && other.Valid() && other != this && other.ram == ram && lines == {}
      requires (forall f | f in frames :: f !in other.tree.Values) && forall v | v in own :: Indexes(v)[0] < 256
      requires Sharing(tree, frames, view, own, lines, other.tree, other.view)
      modifies this`tree, this`view, this`lines, ram`pages
      ensures Valid() && other.Valid() && lines == FirstLines(3) && SameBut(old(ram.pages), ram.pages, frames)
      ensures Sharing(tree, frames, view, own, lines, other.tree, other.view)
    {
      ghost var m := ram.pages;
      for n := 0 to 3
        invariant Valid() && other.Valid() && lines == FirstLines(n) && SameBut(m, ram.pages, frames)
        invariant Sharing(tree, frames, view, own, lines, other.tree, other.view)
      {
        LinesFacts(n);
        CopyLine(other, KERNEL_LINES[n], own);
      }
    }

    ghost function Now(): State
      reads this, ram
    {
      State(view, tree, |ram.free|)
    }

    /** A run of operations, each within its assertion, leaves the flat map of the run. It fails exactly when fewer
        frames are free than tables are missing for all the pages it maps: unmapping gives no table back. */
    method Run(ops: seq<Op>) returns (ok: bool)
      requires Valid() && Legal(view, ops) && forall i | 0 <= i < |ops| :: Indexes(ops[i].vpn)[0] !in lines
      modifies this, ram
      ensures Valid() && (ok ==> view == FlatRun(old(view), ops, |ops|))
      ensures ok <==> |old(ram.free)| >= Missing(old(tree).Keys, Tables(MappedBy(ops, |ops|)))
      ensures ok ==>
              Spent(old(tree).Keys, |old(ram.free)|, tree.Keys, |ram.free|, Tables(MappedBy(ops, |ops|)))
    {
      ghost var x0, x, n := Now(), Now(), 0;
      RunStart(x0, ops);
      ok, x, n := Each(ops, RunLog(x0, ops));
      if !ok { RunShort(x0, ops, x, n); }
    }

    /** The loop over the operations; if it fails, the state before operation `n` was `x`, with too few free frames
        for it. */
    method Each(ops: seq<Op>, ghost log: (State, nat) -> bool) returns (ok: bool, ghost x: State, ghost n: nat)
      requires Valid() && FlagsOk(ops) && forall i | 0 <= i < |ops| :: Indexes(ops[i].vpn)[0] !in lines
      requires Runs(ops, log) && log(Now(), 0)
      modifies this, ram
      ensures Valid()
      ensures ok ==> log(Now(), |ops|)
      ensures !ok ==> n < |ops| && log(x, n) && ops[n].MapOp? && x.spare < Lack(x.tree, ops[n].vpn, 2)
    {
      x, n := Now(), 0;
      for i := 0 to |ops|
        invariant Valid()
        invariant lines == old(lines)
        invariant log(Now(), i)
      {
        x, n := Now(), i;
        assert Allowed(x, ops[i]);
        ok := Perform(ops[i]);
        if !ok { return; }
      }
      return true, x, n;
    }

    method Perform(op: Op) returns (ok: bool)
      requires Valid() && Indexes(op.vpn)[0] !in lines && Allowed(Now(), op)
      modifies this, ram
      ensures Valid()
      ensures lines == old(lines)
      ensures ok ==> Done(old(Now()), op, Now())
      ensures !ok ==> op.MapOp? && old(Now()).spare < Lack(old(Now()).tree, op.vpn, 2)
    {
      match op {
        case MapOp(vpn, ppn, flags) => ok := Map(vpn, ppn, flags);
        case UnmapOp(vpn) => Unmap(vpn); ok := true;
      }
    }
  }
}
