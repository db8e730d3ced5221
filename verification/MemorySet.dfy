/** User address spaces: areas of framed pages over a page table, `brk`, and copying a space for fork. */
module MemorySets {
  import opened Options
  import opened PageTables

  /** Pages of the low half of the address space, `LOW_END / PAGE_SIZE`. */
  const USER_SPAN: nat := 0x400_0000
  const RWU: nat := 22

  /** A mapped page: its frame and permission bits. */
  datatype Mapped = Mapped(ppn: nat, perm: nat)

  datatype MapArea = MapArea(start: nat, end: nat, frames: map<nat, nat>, perm: nat)

  type Data = map<nat, Mapped>

  /** The frames of `a` for the pages from `lo` up to `hi`. */
  ghost function Slice(a: MapArea, lo: nat, hi: nat): Data {
    map v | v in a.frames && lo <= v < hi :: Mapped(a.frames[v], a.perm)
  }

  /** `d` holds the frames of `a` for the pages from `lo` up to `hi`, and nothing else. */
  ghost predicate IsSlice(d: Data, a: MapArea, lo: nat, hi: nat) {
    forall v: nat :: (v in d <==> lo <= v < hi) && (v in d ==> v in a.frames && d[v] == Mapped(a.frames[v], a.perm))
  }

  ghost predicate Full(a: MapArea) { forall v: nat :: v in a.frames <==> a.start <= v < a.end }

  ghost predicate AreaOk(a: MapArea) { a.start <= a.end <= USER_SPAN && a.perm < 256 && Full(a) }

  ghost predicate Has(areas: map<nat, MapArea>, s: nat, v: nat) { s in areas && v in areas[s].frames }

  /** `data` is exactly the disjoint union of the areas' frames and of `pend`, an area being worked on. */
  ghost predicate Sum(areas: map<nat, MapArea>, pend: Data, data: Data) {
    && (forall s | s in areas :: areas[s].start == s && AreaOk(areas[s]))
    && (forall s, v: nat | Has(areas, s, v) ::
        v in data && data[v] == Mapped(areas[s].frames[v], areas[s].perm) && v !in pend)
    && (forall s, t, v: nat | Has(areas, s, v) && Has(areas, t, v) :: s == t)
    && (forall v | v in pend :: v in data && data[v] == pend[v])
    && (forall v | v in data :: v in pend || exists s :: Has(areas, s, v))
  }

  /** User pages translate exactly as `data` says. */
  ghost predicate ViewOk(view: map<nat, nat>, data: Data) {
    && (forall v | v in data :: v < USER_SPAN && data[v].perm < 256)
    && forall v: nat | v < USER_SPAN ::
         (v in view <==> v in data) && (v in data ==> view[v] == Pte(data[v].ppn, WithValid(data[v].perm)))
  }

  ghost predicate Uses(data: Data, v: nat, f: nat) { v in data && data[v].ppn == f }

  /** Data frames are pages of memory, each used once, neither free nor page tables. */
  ghost predicate FramesOk(m: Frames, free: set<nat>, tables: set<nat>, data: Data) {
    && (forall v | v in data :: IsPage(m, data[v].ppn) && data[v].ppn !in free && data[v].ppn !in tables)
    && forall v, w, f: nat | Uses(data, v, f) && Uses(data, w, f) :: v == w
  }

  ghost predicate SpaceOk(m: Frames, free: set<nat>, tables: set<nat>, view: map<nat, nat>, areas: map<nat, MapArea>,
                          pend: Data, data: Data) {
    Sum(areas, pend, data) && ViewOk(view, data) && FramesOk(m, free, tables, data)
  }

  // ---------------------------------------------------------------- one page

  lemma SumAdd(areas: map<nat, MapArea>, pend: Data, data: Data, v: nat, x: Mapped)
    requires Sum(areas, pend, data) && v !in data
    ensures Sum(areas, pend[v := x], data[v := x])
  {
    var pend', data' := pend[v := x], data[v := x];
    forall w | w in data' ensures w in pend' || exists s :: Has(areas, s, w) {
      if w != v { assert w in data; }
    }
  }

  lemma SumRemove(areas: map<nat, MapArea>, pend: Data, data: Data, v: nat)
    requires Sum(areas, pend, data) && v in pend
    ensures Sum(areas, pend - {v}, data - {v})
  {
  }

  /** The area being worked on takes its place among the areas. */
  lemma SumClose(areas: map<nat, MapArea>, pend: Data, data: Data, a: MapArea)
    requires Sum(areas, pend, data) && AreaOk(a) && IsSlice(pend, a, a.start, a.end)
    requires a.start in areas ==> areas[a.start].frames == map[]
    ensures Sum(areas[a.start := a], map[], data)
  {
    var areas' := areas[a.start := a];
    forall s, v: nat | Has(areas', s, v) ensures v in data && data[v] == Mapped(areas'[s].frames[v], areas'[s].perm) {
      if s == a.start { assert v in pend && pend[v] == Mapped(a.frames[v], a.perm); } else { assert Has(areas, s, v); }
    }
    forall s, t, v: nat | Has(areas', s, v) && Has(areas', t, v) ensures s == t {
      assert s != a.start ==> Has(areas, s, v);
      assert t != a.start ==> Has(areas, t, v);
      assert s == a.start || t == a.start ==> v in pend;
    }
    forall v | v in data ensures exists s :: Has(areas', s, v) {
      if v in pend {
        assert Has(areas', a.start, v);
      } else {
        var s :| Has(areas, s, v);
        assert s != a.start;
        assert Has(areas', s, v);
      }
    }
  }

  /** An area is taken out to be worked on. */
  lemma SumOpen(areas: map<nat, MapArea>, data: Data, s: nat)
    requires Sum(areas, map[], data) && s in areas
    ensures Sum(areas - {s}, Slice(areas[s], s, areas[s].end), data)
    ensures IsSlice(Slice(areas[s], s, areas[s].end), areas[s], s, areas[s].end)
  {
    var a := areas[s];
    var rest := areas - {s};
    var pend := Slice(a, s, a.end);
    forall t, v: nat | Has(rest, t, v) ensures v in data && data[v] == Mapped(rest[t].frames[v], rest[t].perm) &&
        v !in pend {
      assert Has(areas, t, v);
      assert v in pend ==> Has(areas, s, v);
    }
    forall t, u, v: nat | Has(rest, t, v) && Has(rest, u, v) ensures t == u {
      assert Has(areas, t, v) && Has(areas, u, v);
    }
    forall v | v in pend ensures v in data && data[v] == pend[v] {
      assert Has(areas, s, v);
    }
    forall v | v in data ensures v in pend || exists t :: Has(rest, t, v) {
      var t :| Has(areas, t, v);
      assert t != s ==> Has(rest, t, v);
    }
  }

  /** A frame that is neither free nor used for a table or a page. */
  ghost predicate Loose(m: Frames, free: set<nat>, tables: set<nat>, data: Data, f: nat) {
    IsPage(m, f) && f !in free && f !in tables && forall v | v in data :: data[v].ppn != f
  }

  lemma MapSpace(m: Frames, free: set<nat>, tables: set<nat>, view: map<nat, nat>, areas: map<nat, MapArea>, pend: Data,
                 data: Data, v: nat, f: nat, perm: nat, m': Frames, free': set<nat>, tables': set<nat>)
    requires SpaceOk(m, free, tables, view, areas, pend, data) && v !in data && v < USER_SPAN && perm < 256
    requires Loose(m, free, tables, data, f) && free' <= free && tables' <= tables + (free - free')
    requires m'.Keys == m.Keys && (forall x | x in m' :: IsPage(m', x))
    ensures SpaceOk(m', free', tables', view[v := Pte(f, WithValid(perm))], areas, pend[v := Mapped(f, perm)],
            data[v := Mapped(f, perm)])
  {
    SumAdd(areas, pend, data, v, Mapped(f, perm));
    var data' := data[v := Mapped(f, perm)];
    forall u, w, x: nat | Uses(data', u, x) && Uses(data', w, x) ensures u == w {
      if u != v && w != v { assert Uses(data, u, x) && Uses(data, w, x); }
    }
  }

  lemma UnmapSpace(m: Frames, free: set<nat>, tables: set<nat>, view: map<nat, nat>, areas: map<nat, MapArea>,
                   pend: Data, data: Data, v: nat, m': Frames, tables': set<nat>)
    requires SpaceOk(m, free, tables, view, areas, pend, data) && v in pend && tables' <= tables
    requires m'.Keys == m.Keys && forall x | x in m' :: IsPage(m', x)
    ensures SpaceOk(m', free + {pend[v].ppn}, tables', view - {v}, areas, pend - {v}, data - {v})
  {
    SumRemove(areas, pend, data, v);
    var f := data[v].ppn;
    assert forall w | w in data && w != v :: data[w].ppn != f by {
      forall w | w in data && w != v ensures data[w].ppn != f { assert Uses(data, w, data[w].ppn) && Uses(data, v, f); }
    }
    assert forall w, x: nat :: Uses(data - {v}, w, x) ==> Uses(data, w, x);
  }

  lemma UserPage(v: nat)
    requires v < USER_SPAN
    ensures v % VPN_SPAN == v && Indexes(v)[0] < 256
  {
    LowBits(v);
  }

  // ---------------------------------------------------------------- frames of a space

  /** Frames a space owns: its page tables and its data. */
  ghost function Own(tables: seq<nat>, data: Data): set<nat> {
    (set f | f in tables) + (set v | v in data :: data[v].ppn)
  }

  /** Only owned or free frames were written; frames went between free and owned, and none got lost. */
  ghost predicate Framing(m: Frames, free: set<nat>, own: set<nat>, m': Frames, free': set<nat>, own': set<nat>) {
    && m'.Keys == m.Keys && free' + own' == free + own
    && forall f | f in m && f !in own && f !in free :: m'[f] == m[f]
  }

  ghost predicate SamePages(m: Frames, m': Frames, data: Data) {
    forall v | v in data :: data[v].ppn in m && data[v].ppn in m' && m'[data[v].ppn] == m[data[v].ppn]
  }

  lemma UserTreeGrows(t: Tree, t': Tree, line: nat, lines: set<nat>)
    requires UserTree(t, lines) && Extends(t, t', line) && line < 256
    ensures UserTree(t', lines)
  {
  }

  /** Allocating a frame does not disturb a page table. */
  lemma AllocUndisturbed(m: Frames, f: nat, t: Tree, view: map<nat, nat>)
    requires TreeOk(m, t) && Refines(m, t[Root], view) && f in m && f !in t.Values
    ensures TreeOk(m[f := Zeros()], t) && Refines(m[f := Zeros()], t[Root], view)
  {
    Undisturbed(m, m[f := Zeros()], [f], t, view);
  }

  lemma MapFrames(m: Frames, free: set<nat>, tables: set<nat>, own: seq<nat>, data: Data, f: nat, perm: nat, v: nat,
                  m': Frames, free': set<nat>, own': seq<nat>)
    requires FramesOk(m, free, tables, data) && Loose(m, free, tables, data, f) && v !in data &&
             (forall x | x in own :: x in tables)
    requires Grown(m, free, own, m', free', own')
    ensures Framing(m, free + {f}, Own(own, data), m', free', Own(own', data[v := Mapped(f, perm)]))
    ensures SamePages(m, m', data) && m'[f] == m[f]
  {
    var data' := data[v := Mapped(f, perm)];
    OwnHas(own, data);
    OwnHas(own', data');
    forall x: nat ensures x in free' + Own(own', data') <==> x in free + {f} + Own(own, data) {
      assert Uses(data', v, f);
      forall w: nat | w != v ensures Uses(data', w, x) <==> Uses(data, w, x) {}
      if x in own { PrefixHas(own, own', x); }
    }
  }

  lemma PrefixHas(a: seq<nat>, b: seq<nat>, x: nat)
    requires a <= b && x in a
    ensures x in b
  {
    var i :| 0 <= i < |a| && a[i] == x;
    assert b[i] == x;
  }

  lemma OwnHas(tables: seq<nat>, data: Data)
    ensures forall x: nat :: x in Own(tables, data) <==> x in tables || exists v :: Uses(data, v, x)
  {
    forall x: nat ensures x in Own(tables, data) <==> x in tables || exists v :: Uses(data, v, x) {
      if v :| Uses(data, v, x) { assert data[v].ppn in (set w | w in data :: data[w].ppn); }
      if x in Own(tables, data) && x !in tables {
        var v :| v in data && data[v].ppn == x;
        assert Uses(data, v, x);
      }
    }
  }

  /** Taking frame `f` and then working with it is working with the free frames. */
  lemma TakenFrames(m: Frames, free: set<nat>, own: set<nat>, tables: set<nat>, data: Data, f: nat,
                    m1: Frames, m': Frames, free': set<nat>, own': set<nat>)
    requires FramesOk(m, free, tables, data) && f in free && f in m && m1 == m[f := Zeros()]
    requires Framing(m1, free - {f} + {f}, own, m', free', own') && SamePages(m1, m', data)
    ensures Framing(m, free, own, m', free', own') && SamePages(m, m', data)
  {
    assert free - {f} + {f} == free;
  }

  lemma UnmapFrames(m: Frames, free: set<nat>, tables: set<nat>, own: seq<nat>, data: Data, v: nat, m': Frames)
    requires FramesOk(m, free, tables, data) && v in data && (forall x | x in own :: x in tables) && SameBut(m, m', own)
    ensures Framing(m, free, Own(own, data), m', free + {data[v].ppn}, Own(own, data - {v})) &&
            SamePages(m, m', data - {v})
  {
    var data', f := data - {v}, data[v].ppn;
    OwnHas(own, data);
    OwnHas(own, data');
    forall x: nat ensures x in free + {f} + Own(own, data') <==> x in free + Own(own, data) {
      assert Uses(data, v, f);
      forall w: nat | w != v ensures Uses(data', w, x) <==> Uses(data, w, x) {}
    }
  }

  /** Memory, free frames, owned frames and mapped pages of a space at one time. */
  datatype Snapshot = Snapshot(m: Frames, free: set<nat>, own: set<nat>, data: Data)

  /** The tables between the root and the pages from `lo` up to `hi`. */
  ghost function TablesOf(lo: nat, hi: nat): set<Path> { Tables(Span(lo, hi)) }

  function Span(lo: nat, hi: nat): set<nat>
    decreases hi - lo
  {
    if lo >= hi then {} else {lo} + Span(lo + 1, hi)
  }

  lemma {:induction false} SpanHas(lo: nat, hi: nat)
    requires lo <= hi
    ensures (forall v: nat :: v in Span(lo, hi) <==> lo <= v < hi) && |Span(lo, hi)| == hi - lo
    decreases hi - lo
  {
    if lo < hi { SpanHas(lo + 1, hi); }
  }

  lemma TablesOfNext(lo: nat, mid: nat, hi: nat)
    requires lo <= mid < hi
    ensures TablesOf(lo, lo) == {}
    ensures TablesOf(lo, mid + 1) == TablesOf(lo, mid) + PathsTo(mid) && TablesOf(lo, mid + 1) <= TablesOf(lo, hi)
  {
    SpanHas(lo, mid);
    SpanHas(lo, mid + 1);
    SpanHas(lo, hi);
    assert Span(lo, mid + 1) == Span(lo, mid) + {mid} && Span(lo, mid + 1) + Span(lo, hi) == Span(lo, hi);
    TablesJoin(Span(lo, mid), {mid});
    TablesOne(mid);
    TablesJoin(Span(lo, mid + 1), Span(lo, hi));
  }

  /** Frames needed to map `k` pages: one for each, and one for each of their tables that is not there yet. */
  ghost function Need(t: Tree, k: nat, paths: set<Path>): nat { k + Missing(PathsOf(t), paths) }

  /** From tree `t` and `n` free frames to `t'` and `n'`, `k` pages below `paths` have been mapped, at exactly that
      cost. */
  ghost predicate Cost(t: Tree, n: nat, t': Tree, n': nat, k: nat, paths: set<Path>) {
    PathsOf(t') == PathsOf(t) + paths && n == n' + Need(t, k, paths)
  }

  /** The same for the pages from `lo` up to `hi`. */
  ghost function RangeNeed(t: Tree, lo: nat, hi: nat): nat
    requires lo <= hi
  {
    Need(t, hi - lo, TablesOf(lo, hi))
  }

  ghost predicate RangeCost(t: Tree, n: nat, t': Tree, n': nat, lo: nat, hi: nat) {
    lo <= hi && Cost(t, n, t', n', hi - lo, TablesOf(lo, hi))
  }

  /** Tables, free frames and owned frames of a space. */
  datatype Purse = Purse(tree: Tree, free: set<nat>, own: set<nat>)

  /** The same, with every frame that is no longer free now owned. */
  ghost predicate Paid(s: Purse, s': Purse, k: nat, paths: set<Path>) {
    Cost(s.tree, |s.free|, s'.tree, |s'.free|, k, paths) && s'.free + s'.own == s.free + s.own
  }

  lemma NeedJoin(t: Tree, t': Tree, k: nat, a: set<Path>, j: nat, b: set<Path>)
    requires PathsOf(t') == PathsOf(t) + a
    ensures Need(t, k + j, a + b) == Need(t, k, a) + Need(t', j, b)
  {
    MissingJoin(PathsOf(t), a, b);
  }

  lemma NeedMono(t: Tree, k: nat, a: set<Path>, j: nat, b: set<Path>)
    requires k <= j && a <= b
    ensures Need(t, k, a) <= Need(t, j, b)
  {
    MissingMono(PathsOf(t), a, b);
  }

  /** No page needs the root as a further table. */
  lemma RootApart(t: Tree, vs: set<nat>)
    requires t.Keys == {Root}
    ensures Need(t, |vs|, Tables(vs)) == |vs| + |Tables(vs)|
  {
    TablesHas(vs, Root);
    PathsOfIs(t);
    MissingIs(PathsOf(t), Tables(vs));
    assert Tables(vs) - {Root} == Tables(vs);
  }

  lemma CostStart(t: Tree, n: nat)
    ensures Cost(t, n, t, n, 0, {})
  {
  }

  lemma CostJoin(t: Tree, n: nat, t1: Tree, n1: nat, t2: Tree, n2: nat, k: nat, a: set<Path>, j: nat, b: set<Path>)
    requires Cost(t, n, t1, n1, k, a) && Cost(t1, n1, t2, n2, j, b)
    ensures Cost(t, n, t2, n2, k + j, a + b)
  {
    NeedJoin(t, t1, k, a, j, b);
  }

  /** One page costs its frame and the tables that are missing on its way. */
  lemma CostOne(t: Tree, n: nat, vpn: nat, t': Tree, n': nat)
    ensures Need(t, 1, PathsTo(vpn)) == 1 + Lack(t, vpn, 2)
    ensures Reaches(t, t', vpn, 2) && n == n' + 1 + Lack(t, vpn, 2) ==> Cost(t, n, t', n', 1, PathsTo(vpn))
  {
    LackIs(t, vpn);
    PathsOfIs(t);
    PathsOfIs(t');
    if Reaches(t, t', vpn, 2) { ReachedKeys(t, t', vpn); }
  }

  /** Page `v` has been mapped: its missing tables are there, and they and the page cost a free frame each. */
  ghost predicate PaidPage(t: Tree, n: nat, v: nat, t': Tree, n': nat) {
    Reaches(t, t', v, 2) && n == n' + 1 + Lack(t, v, 2)
  }

  /** Part of a range cannot be paid for: neither can the whole. */
  lemma CannotPay(t: Tree, n: nat, t1: Tree, n1: nat, k: nat, a: set<Path>, j: nat, b: set<Path>, all: nat,
                  paths: set<Path>)
    requires Cost(t, n, t1, n1, k, a) && k + j <= all && a + b <= paths && n1 < Need(t1, j, b)
    ensures n < Need(t, all, paths)
  {
    NeedJoin(t, t1, k, a, j, b);
    NeedMono(t, k + j, a + b, all, paths);
  }

  ghost predicate Within(s: Snapshot, s': Snapshot) { Framing(s.m, s.free, s.own, s'.m, s'.free, s'.own) }

  /** `b` is `a` with frames for the pages from `lo` up to `cur`. */
  ghost predicate NewFrames(a: MapArea, lo: nat, cur: nat, b: MapArea) {
    && b == a.(frames := b.frames)
    && forall v: nat ::
       (v in b.frames <==> v in a.frames || lo <= v < cur) &&
       (v in a.frames && !(lo <= v < cur) ==> b.frames[v] == a.frames[v])
  }

  /** The pages from `lo` up to `cur`, unmapped before, are mapped to the frames of `b`, and those are zero. */
  ghost predicate NewPages(b: MapArea, lo: nat, cur: nat, s: Snapshot, s': Snapshot) {
    && (forall v: nat :: v in s'.data <==> v in s.data || lo <= v < cur)
    && (forall v | v in s.data :: !(lo <= v < cur) && s'.data[v] == s.data[v])
    && (forall v: nat | lo <= v < cur :: v in b.frames && s'.data[v] == Mapped(b.frames[v], b.perm))
    && (forall v: nat | lo <= v < cur :: b.frames[v] in s'.m && s'.m[b.frames[v]] == Zeros())
  }

  /** What mapping a range does; earlier pages keep frame and contents. */
  ghost predicate Mapping(a: MapArea, lo: nat, cur: nat, b: MapArea, s: Snapshot, s': Snapshot, pend: Data) {
    && NewFrames(a, lo, cur, b) && NewPages(b, lo, cur, s, s') && IsSlice(pend, b, a.start, cur)
    && SamePages(s.m, s'.m, s.data) && Within(s, s')
  }

  lemma MappingStart(a: MapArea, lo: nat, s: Snapshot, pend: Data, tables: set<nat>)
    requires IsSlice(pend, a, a.start, lo) && FramesOk(s.m, s.free, tables, s.data)
    ensures Mapping(a, lo, lo, a, s, s, pend)
  {
  }

  lemma MappingStep(a: MapArea, lo: nat, cur: nat, b: MapArea, s: Snapshot, s1: Snapshot, pend1: Data, b': MapArea,
                    s2: Snapshot, pend2: Data)
    requires Mapping(a, lo, cur, b, s, s1, pend1) && a.start <= lo <= cur && cur !in s1.data
    requires cur in b'.frames && b' == b.(frames := b.frames[cur := b'.frames[cur]]) &&
             SamePages(s1.m, s2.m, s1.data) && Within(s1, s2)
    requires b'.frames[cur] in s2.m && s2.m[b'.frames[cur]] == Zeros()
    requires var x := Mapped(b'.frames[cur], b.perm); s2.data == s1.data[cur := x] && pend2 == pend1[cur := x]
    ensures Mapping(a, lo, cur + 1, b', s, s2, pend2)
  {
    NewFramesStep(a, lo, cur, b, b');
    NewPagesStep(b, lo, cur, s, s1, b', s2);
    SamePagesTrans(s, s1, s2);
    SliceStep(pend1, b, a.start, cur, b', pend2);
  }

  /** A space while a range of its pages is mapped: the area so far, memory, pages, page tables and the number of free
      frames. */
  datatype Record = Record(area: MapArea, s: Snapshot, pend: Data, tree: Tree)

  /** Between `x` and `y`, page `v` has been given a zeroed frame. */
  ghost predicate PageMapped(x: Record, v: nat, y: Record) {
    && v !in x.s.data && v in y.area.frames
    && y.area == x.area.(frames := x.area.frames[v := y.area.frames[v]])
    && SamePages(x.s.m, y.s.m, x.s.data) && Within(x.s, y.s)
    && y.area.frames[v] in y.s.m && y.s.m[y.area.frames[v]] == Zeros()
    && (var f := Mapped(y.area.frames[v], x.area.perm); y.s.data == x.s.data[v := f] && y.pend == x.pend[v := f])
    && PaidPage(x.tree, |x.s.free|, v, y.tree, |y.s.free|)
  }

  /** Page `v` can be mapped next. */
  ghost predicate Ready(x: Record, v: nat) { v !in x.s.data && x.area.perm < 256 }

  /** What `log` says of a space with the pages before `v` mapped is kept from page to page. */
  ghost predicate Keeps(log: (Record, nat) -> bool, hi: nat) {
    && (forall x, v: nat | log(x, v) && v < hi :: Ready(x, v))
    && (forall x, v: nat, y | log(x, v) && PageMapped(x, v, y) :: log(y, v + 1))
  }

  /** From `x` on, the pages from `lo` have been mapped, and paid for. */
  ghost function LogOf(x: Record, lo: nat): (Record, nat) -> bool {
    (y: Record, v: nat) => lo <= v && Mapping(x.area, lo, v, y.area, x.s, y.s, y.pend) &&
              RangeCost(x.tree, |x.s.free|, y.tree, |y.s.free|, lo, v)
  }

  lemma LogStart(x: Record, lo: nat, hi: nat, tables: set<nat>)
    requires IsSlice(x.pend, x.area, x.area.start, lo) && FramesOk(x.s.m, x.s.free, tables, x.s.data)
    requires x.area.start <= lo && x.area.perm < 256 && forall v | lo <= v < hi :: v !in x.s.data
    ensures Keeps(LogOf(x, lo), hi) && LogOf(x, lo)(x, lo)
  {
    var log := LogOf(x, lo);
    CostStart(x.tree, |x.s.free|);
    TablesOfNext(lo, lo, lo + 1);
    MappingStart(x.area, lo, x.s, x.pend, tables);
    forall y, v: nat, z | log(y, v) && PageMapped(y, v, z) ensures log(z, v + 1) {
      MappingStep(x.area, lo, v, y.area, x.s, y.s, y.pend, z.area, z.s, z.pend);
      BillNext(x.tree, |x.s.free|, lo, y.tree, |y.s.free|, v, z.tree, |z.s.free|);
    }
  }

  lemma BillNext(t: Tree, n: nat, lo: nat, t1: Tree, n1: nat, v: nat, t2: Tree, n2: nat)
    requires RangeCost(t, n, t1, n1, lo, v) && PaidPage(t1, n1, v, t2, n2)
    ensures RangeCost(t, n, t2, n2, lo, v + 1)
  {
    CostOne(t1, n1, v, t2, n2);
    TablesOfNext(lo, v, v + 1);
    CostJoin(t, n, t1, n1, t2, n2, v - lo, TablesOf(lo, v), 1, PathsTo(v));
  }

  /** A page that cannot be paid for: neither can the range. */
  lemma BillShort(x: Record, lo: nat, y: Record, v: nat, hi: nat)
    requires LogOf(x, lo)(y, v) && v < hi && |y.s.free| < 1 + Lack(y.tree, v, 2)
    ensures lo <= hi && |x.s.free| < RangeNeed(x.tree, lo, hi)
  {
    CostOne(y.tree, |y.s.free|, v, y.tree, |y.s.free|);
    TablesOfNext(lo, v, hi);
    CannotPay(x.tree, |x.s.free|, y.tree, |y.s.free|, v - lo, TablesOf(lo, v), 1, PathsTo(v), hi - lo,
              TablesOf(lo, hi));
  }

  lemma SamePagesTrans(s: Snapshot, s1: Snapshot, s2: Snapshot)
    requires SamePages(s.m, s1.m, s.data) && SamePages(s1.m, s2.m, s1.data) && forall v | v in s.data ::
             v in s1.data && s1.data[v] == s.data[v]
    ensures SamePages(s.m, s2.m, s.data)
  {
  }

  lemma SliceStep(pend: Data, b: MapArea, lo: nat, cur: nat, b': MapArea, pend': Data)
    requires IsSlice(pend, b, lo, cur) && lo <= cur && cur in b'.frames &&
             b' == b.(frames := b.frames[cur := b'.frames[cur]])
    requires pend' == pend[cur := Mapped(b'.frames[cur], b.perm)]
    ensures IsSlice(pend', b', lo, cur + 1)
  {
  }

  lemma NewFramesStep(a: MapArea, lo: nat, cur: nat, b: MapArea, b': MapArea)
    requires NewFrames(a, lo, cur, b) && lo <= cur && cur in b'.frames &&
             b' == b.(frames := b.frames[cur := b'.frames[cur]])
    ensures NewFrames(a, lo, cur + 1, b')
  {
  }

  lemma NewPagesStep(b: MapArea, lo: nat, cur: nat, s: Snapshot, s1: Snapshot, b': MapArea, s2: Snapshot)
    requires NewPages(b, lo, cur, s, s1) && lo <= cur && cur !in s1.data && SamePages(s1.m, s2.m, s1.data)
    requires cur in b'.frames && b' == b.(frames := b.frames[cur := b'.frames[cur]])
    requires b'.frames[cur] in s2.m && s2.m[b'.frames[cur]] == Zeros() &&
             s2.data == s1.data[cur := Mapped(b'.frames[cur], b.perm)]
    ensures NewPages(b', lo, cur + 1, s, s2)
  {
    assert forall v: nat | lo <= v < cur ::
           v in s1.data && s1.data[v].ppn == b.frames[v] && b'.frames[v] == b.frames[v];
  }

  /** `pend` holds exactly the frames of `a`. */
  ghost predicate AllOf(pend: Data, a: MapArea) {
    forall v: nat :: (v in pend <==> v in a.frames) && (v in pend ==> pend[v] == Mapped(a.frames[v], a.perm))
  }

  /** The pages from `lo` up to `cur` are gone and the others are as before. */
  ghost predicate Removed(data: Data, data': Data, lo: nat, cur: nat) {
    forall v: nat :: (v in data' <==> v in data && !(lo <= v < cur)) && (v in data' ==> data'[v] == data[v])
  }

  /** What unmapping a range does; the remaining pages keep frame and contents. */
  ghost predicate Unmapping(a: MapArea, lo: nat, cur: nat, b: MapArea, s: Snapshot, s': Snapshot) {
    && b == a.(frames := b.frames)
    && (forall v: nat ::
        (v in b.frames <==> v in a.frames && !(lo <= v < cur)) && (v in b.frames ==> b.frames[v] == a.frames[v]))
    && Removed(s.data, s'.data, lo, cur) && SamePages(s.m, s'.m, s'.data) && Within(s, s')
  }

  lemma UnmappingStart(a: MapArea, lo: nat, s: Snapshot, tables: set<nat>)
    requires FramesOk(s.m, s.free, tables, s.data)
    ensures Unmapping(a, lo, lo, a, s, s)
  {
  }

  lemma UnmappingStep(a: MapArea, lo: nat, cur: nat, b: MapArea, s: Snapshot, s1: Snapshot, b': MapArea, s2: Snapshot)
    requires Unmapping(a, lo, cur, b, s, s1) && lo <= cur && b' == b.(frames := b.frames - {cur})
    requires s2.data == s1.data - {cur} && SamePages(s1.m, s2.m, s2.data) && Within(s1, s2)
    ensures Unmapping(a, lo, cur + 1, b', s, s2)
  {
  }

  lemma ShrunkArea(a: MapArea, newEnd: nat, b: MapArea, s: Snapshot, s': Snapshot, pend: Data)
    requires AreaOk(a) && a.start <= newEnd <= a.end && Unmapping(a, newEnd, a.end, b, s, s') && AllOf(pend, b)
    ensures b.start == a.start && AreaOk(b.(end := newEnd)) && IsSlice(pend, b.(end := newEnd), a.start, newEnd)
  {
  }

  lemma GrownArea(a: MapArea, newEnd: nat, b: MapArea, s: Snapshot, s': Snapshot, pend: Data)
    requires AreaOk(a) && a.end <= newEnd <= USER_SPAN && Mapping(a, a.end, newEnd, b, s, s', pend)
    ensures b.start == a.start && AreaOk(b.(end := newEnd)) && IsSlice(pend, b.(end := newEnd), a.start, newEnd)
    ensures NewPages(b.(end := newEnd), a.end, newEnd, s, s')
  {
  }

  /** `b` is `a` with another end, and with frames for that. */
  ghost predicate Resized(a: MapArea, b: MapArea, newEnd: nat) { b == a.(end := newEnd, frames := b.frames) }

  lemma Reinserted(areas: map<nat, MapArea>, s: nat, a: MapArea)
    ensures (areas - {s})[s := a] == areas[s := a]
  {
  }

  lemma EmptyPend(pend: Data, a: MapArea)
    requires AllOf(pend, a) && forall v | v in a.frames :: false
    ensures pend == map[]
  {
  }

  // ---------------------------------------------------------------- two spaces

  /** Tables and pages of one space are not among the frames another owns. */
  ghost predicate Separate(tables: set<nat>, data: Data, own: set<nat>) {
    tables !! own && forall v | v in data :: data[v].ppn !in own
  }

  /** Work on one space leaves a separate space as it was. */
  lemma Bystander(s: Snapshot, s': Snapshot, t: Tree, view: map<nat, nat>, areas: map<nat, MapArea>, pend: Data,
                  data: Data)
    requires TreeOk(s.m, t) && Refines(s.m, t[Root], view) && t.Values !! s.free &&
             SpaceOk(s.m, s.free, t.Values, view, areas, pend, data)
    requires Within(s, s') && Separate(t.Values, data, s.own) && forall f | f in s'.m :: IsPage(s'.m, f)
    ensures TreeOk(s'.m, t) && Refines(s'.m, t[Root], view) && t.Values !! s'.free &&
            SpaceOk(s'.m, s'.free, t.Values, view, areas, pend, data)
    ensures Separate(t.Values, data, s'.own) && SamePages(s.m, s'.m, data)
  {
    assert forall p | p in t :: t[p] in t.Values;
    TreeElsewhere(s.m, s'.m, t);
    SameLeavesRefine(s.m, t, s'.m, t, view);
  }

  /** A write to a data page leaves tables and mappings as they were. */
  lemma PageWrite(m: Frames, free: set<nat>, f: nat, page: Page, t: Tree, view: map<nat, nat>,
                  areas: map<nat, MapArea>, pend: Data, data: Data)
    requires TreeOk(m, t) && Refines(m, t[Root], view) && SpaceOk(m, free, t.Values, view, areas, pend, data)
    requires f in m && f !in t.Values && |page| == ENTRIES && IsPage(m, f)
    ensures var m' := m[f := page];
            TreeOk(m', t) && Refines(m', t[Root], view) && SpaceOk(m', free, t.Values, view, areas, pend, data)
  {
    Undisturbed(m, m[f := page], [f], t, view);
  }

  lemma PageKept(m: Frames, f: nat, page: Page)
    requires (forall x | x in m :: IsPage(m, x)) && f in m && |page| == ENTRIES
    ensures var m' := m[f := page]; m'.Keys == m.Keys && forall x | x in m' :: IsPage(m', x)
  {
    var m' := m[f := page];
    forall x | x in m' ensures IsPage(m', x) { assert x in m; }
  }

  /** Outside the pages from `lo` up to `hi`, the copy has the original's permissions and contents. */
  ghost predicate CopiedBut(m: Frames, data: Data, copy: Data, lo: nat, hi: nat) {
    forall v | v in copy && !(lo <= v < hi) ::
      && v in data && copy[v].perm == data[v].perm && copy[v].ppn in m && data[v].ppn in m &&
         m[copy[v].ppn] == m[data[v].ppn]
  }

  /** Both spaces map the pages from `lo` up to `hi`, with the same permissions. */
  ghost predicate Twins(data: Data, copy: Data, lo: nat, hi: nat) {
    forall v: nat | lo <= v < hi :: v in data && v in copy && copy[v].perm == data[v].perm
  }

  /** Only frames in `own` were written since `m`, and the pages outside `lo` up to `hi` are copied. */
  ghost predicate Copying(m: Frames, m': Frames, own: set<nat>, data: Data, copy: Data, lo: nat, hi: nat) {
    && m'.Keys == m.Keys && (forall f | f in m && f !in own :: m'[f] == m[f])
    && CopiedBut(m', data, copy, lo, hi)
  }

  lemma CopiedStep(m0: Frames, m: Frames, free: set<nat>, tables: set<nat>, data: Data, copy: Data, own: set<nat>,
                   lo: nat, hi: nat)
    requires Copying(m0, m, own, data, copy, lo, hi) && lo < hi && lo in data && lo in copy &&
             copy[lo].perm == data[lo].perm
    requires FramesOk(m, free, tables, copy) && data[lo].ppn in m && (forall v | v in data :: data[v].ppn !in own)
    requires forall v | v in copy :: copy[v].ppn in own
    ensures Copying(m0, m[copy[lo].ppn := m[data[lo].ppn]], own, data, copy, lo + 1, hi)
  {
    forall v | v in copy && v != lo ensures copy[v].ppn != copy[lo].ppn {
      assert Uses(copy, v, copy[v].ppn) && Uses(copy, lo, copy[lo].ppn);
    }
  }

  /** An area's pages, as the space that holds it and a space without them see them. */
  lemma AreaFacts(areas: map<nat, MapArea>, data: Data, s: nat, copy: Data)
    requires Sum(areas, map[], data) && s in areas && forall v: nat | Has(areas, s, v) :: v !in copy
    ensures var a := areas[s];
            && a.start == s <= a.end <= USER_SPAN && a.perm < 256 && (forall v | v in a.frames :: s <= v < a.end)
            && (forall v: nat | s <= v < a.end :: v !in copy && v in data && data[v].perm == a.perm)
            && (forall v: nat :: Has(areas, s, v) <==> s <= v < a.end)
  {
    var a := areas[s];
    forall v: nat | s <= v < a.end ensures v !in copy && v in data && data[v].perm == a.perm {
      assert Has(areas, s, v);
    }
  }

  /** The pages of an area not copied yet are pages of the space, and none of the copies. */
  lemma AreaSpan(areas: map<nat, MapArea>, data: Data, copy: Data, s: nat) returns (vs: set<nat>)
    requires Sum(areas, map[], data) && s in areas && forall v: nat | Has(areas, s, v) :: v !in copy
    ensures areas[s].start == s <= areas[s].end && vs == Span(s, areas[s].end) && |vs| == areas[s].end - s
    ensures forall v: nat :: v in vs <==> Has(areas, s, v)
    ensures forall v: nat | v in vs :: v in data && v !in copy
  {
    AreaFacts(areas, data, s, copy);
    SpanHas(s, areas[s].end);
    vs := Span(s, areas[s].end);
  }

  /** An area not copied yet adds its pages and their tables to those copied. */
  lemma AreaPages(areas: map<nat, MapArea>, data: Data, copy: Data, s: nat, m: Frames)
    requires Sum(areas, map[], data) && s in areas && CopiedBut(m, data, copy, 0, 0)
    requires forall v: nat | Has(areas, s, v) :: v !in copy
    ensures areas[s].start == s <= areas[s].end && |copy| + (areas[s].end - s) <= |data|
    ensures Tables(copy.Keys) + TablesOf(s, areas[s].end) <= Tables(data.Keys)
  {
    var vs := AreaSpan(areas, data, copy, s);
    PartsFit(copy.Keys, vs, data.Keys);
  }

  /** If an area cannot be copied for lack of frames, neither can the space. */
  lemma AreaShort(areas: map<nat, MapArea>, data: Data, x: Copy, y: Copy, todo: set<nat>, s: nat)
    requires Sum(areas, map[], data) && s in todo && ForkLog(areas, data, x)(y, todo) && s <= areas[s].end
    requires |y.purse.free| < RangeNeed(y.purse.tree, s, areas[s].end)
    ensures |x.purse.free| < Need(x.purse.tree, |data|, Tables(data.Keys))
  {
    AreaPages(areas, data, y.data, s, y.m);
    CannotPay(x.purse.tree, |x.purse.free|, y.purse.tree, |y.purse.free|, |y.data|, Tables(y.data.Keys),
              areas[s].end - s, TablesOf(s, areas[s].end), |data|, Tables(data.Keys));
  }

  lemma PartsFit(a: set<nat>, b: set<nat>, all: set<nat>)
    requires (forall v | v in a :: v in all) && forall v | v in b :: v in all && v !in a
    ensures |a| + |b| <= |all| && Tables(a) + Tables(b) <= Tables(all)
  {
    PartSizes(a, b, all);
    TablesJoin(a, b);
    TablesJoin(a + b, all);
    assert a + b + all == all;
  }

  lemma PartSizes(a: set<nat>, b: set<nat>, all: set<nat>)
    requires (forall v | v in a :: v in all) && forall v | v in b :: v in all && v !in a
    ensures |a| + |b| <= |all|
  {
    var rest := all - a - b;
    assert all == a + b + rest;
  }

  lemma PaidMore(s0: Purse, s1: Purse, s2: Purse, areas: map<nat, MapArea>, data: Data, s: nat, copy: Data, copy': Data)
    requires Sum(areas, map[], data) && s in areas && forall v: nat | Has(areas, s, v) :: v !in copy
    requires forall v: nat :: v in copy' <==> v in copy || Has(areas, s, v)
    requires areas[s].start == s <= areas[s].end && Paid(s0, s1, |copy|, Tables(copy.Keys))
    requires Paid(s1, s2, areas[s].end - s, TablesOf(s, areas[s].end))
    ensures Paid(s0, s2, |copy'|, Tables(copy'.Keys))
  {
    var vs := AreaSpan(areas, data, copy, s);
    PaidJoin(s0, s1, s2, copy.Keys, vs, copy'.Keys);
  }

  lemma PaidJoin(s0: Purse, s1: Purse, s2: Purse, a: set<nat>, b: set<nat>, all: set<nat>)
    requires (forall v: nat :: v in all <==> v in a || v in b) && forall v | v in b :: v !in a
    requires Paid(s0, s1, |a|, Tables(a)) && Paid(s1, s2, |b|, Tables(b))
    ensures Paid(s0, s2, |all|, Tables(all))
  {
    CostJoin(s0.tree, |s0.free|, s1.tree, |s1.free|, s2.tree, |s2.free|, |a|, Tables(a), |b|, Tables(b));
    assert all == a + b && a !! b;
    TablesJoin(a, b);
  }

  lemma PushedCopy(c: Snapshot, c': Snapshot, areas: map<nat, MapArea>, data: Data, s: nat, b: MapArea)
    requires Sum(areas, map[], data) && s in areas && (forall v: nat | Has(areas, s, v) :: v !in c.data)
    requires b.perm == areas[s].perm && NewPages(b, s, areas[s].end, c, c') && CopiedBut(c.m, data, c.data, 0, 0)
    requires SamePages(c.m, c'.m, c.data) && SamePages(c.m, c'.m, data)
    ensures CopiedBut(c'.m, data, c'.data, s, areas[s].end) && Twins(data, c'.data, s, areas[s].end)
    ensures forall v: nat :: v in c'.data <==> v in c.data || Has(areas, s, v)
  {
    AreaFacts(areas, data, s, c.data);
  }

  lemma CopyingPages(m: Frames, m1: Frames, m2: Frames, own: set<nat>, data: Data, copy: Data, hi: nat)
    requires SamePages(m, m1, data) && Copying(m1, m2, own, data, copy, hi, hi) && forall v | v in data ::
             data[v].ppn !in own
    ensures SamePages(m, m2, data) && CopiedBut(m2, data, copy, 0, 0)
  {
  }

  /** The areas not in `todo` are copied and the others are not. */
  ghost predicate Copied(areas: map<nat, MapArea>, copy: Data, todo: set<nat>) {
    forall s, v: nat | Has(areas, s, v) :: v in copy <==> s !in todo
  }

  lemma CopiedMore(areas: map<nat, MapArea>, data: Data, copy: Data, copy': Data, todo: set<nat>, s: nat)
    requires Sum(areas, map[], data) && Copied(areas, copy, todo) && s in todo
    requires forall v: nat :: v in copy' <==> v in copy || Has(areas, s, v)
    ensures Copied(areas, copy', todo - {s})
  {
  }

  /** `copy'` is `copy` with an area like the one at `s`, in frames of its own. */
  ghost predicate AreaAdded(areas: map<nat, MapArea>, copy: map<nat, MapArea>, copy': map<nat, MapArea>, s: nat) {
    s in areas && s in copy' && copy' == copy[s := copy'[s]] && copy'[s] == areas[s].(frames := copy'[s].frames)
  }

  /** The areas of `copy` have range and permissions of the originals, and just those in `todo` are missing. */
  ghost predicate AreasCopied(areas: map<nat, MapArea>, copy: map<nat, MapArea>, todo: set<nat>) {
    copy.Keys == areas.Keys - todo && forall s | s in copy :: copy[s] == areas[s].(frames := copy[s].frames)
  }

  lemma AreasMore(areas: map<nat, MapArea>, copy: map<nat, MapArea>, copy': map<nat, MapArea>, todo: set<nat>, s: nat)
    requires AreasCopied(areas, copy, todo) && s in todo && AreaAdded(areas, copy, copy', s)
    ensures AreasCopied(areas, copy', todo - {s})
  {
    assert copy'.Keys == copy.Keys + {s};
  }

  /** A space that another is copied into: areas, pages, memory, tables and frames. */
  datatype Copy = Copy(areas: map<nat, MapArea>, data: Data, m: Frames, purse: Purse)

  /** The area at `s` has not been copied yet, and the pages there are copies. */
  ghost predicate Uncopied(areas: map<nat, MapArea>, data: Data, x: Copy, s: nat) {
    && s in areas && s !in x.areas && (forall v: nat | Has(areas, s, v) :: v !in x.data)
    && CopiedBut(x.m, data, x.data, 0, 0)
  }

  /** Between `x` and `y`, the area at `s` has been copied with its pages. */
  ghost predicate AreaForked(areas: map<nat, MapArea>, data: Data, x: Copy, s: nat, y: Copy) {
    && AreaAdded(areas, x.areas, y.areas, s) && CopiedBut(y.m, data, y.data, 0, 0) && SamePages(x.m, y.m, data)
    && (forall v: nat :: v in y.data <==> v in x.data || Has(areas, s, v))
    && s <= areas[s].end && Paid(x.purse, y.purse, areas[s].end - s, TablesOf(s, areas[s].end))
  }

  /** The same before the new pages are filled. */
  ghost predicate AreaPushed(areas: map<nat, MapArea>, data: Data, x: Copy, s: nat, y: Copy) {
    && AreaAdded(areas, x.areas, y.areas, s) && SamePages(x.m, y.m, data)
    && (forall v: nat :: v in y.data <==> v in x.data || Has(areas, s, v))
    && s <= areas[s].end && Paid(x.purse, y.purse, areas[s].end - s, TablesOf(s, areas[s].end))
    && CopiedBut(y.m, data, y.data, s, areas[s].end) && Twins(data, y.data, s, areas[s].end)
  }

  /** What `log` says of a copy with the areas `todo` to come is kept from area to area. */
  ghost predicate Forks(areas: map<nat, MapArea>, data: Data, log: (Copy, set<nat>) -> bool) {
    && (forall x, todo, s | log(x, todo) && s in todo :: Uncopied(areas, data, x, s))
    && (forall x, todo, s, y | log(x, todo) && s in todo && AreaForked(areas, data, x, s, y) :: log(y, todo - {s}))
  }

  /** From the empty `x` on, all areas but `todo` have been copied, and paid for. */
  ghost function ForkLog(areas: map<nat, MapArea>, data: Data, x: Copy): (Copy, set<nat>) -> bool {
    (y: Copy, todo: set<nat>) =>
      && todo <= areas.Keys && AreasCopied(areas, y.areas, todo) && Copied(areas, y.data, todo)
      && CopiedBut(y.m, data, y.data, 0, 0) && SamePages(x.m, y.m, data)
      && Paid(x.purse, y.purse, |y.data|, Tables(y.data.Keys))
  }

  lemma NothingForked(areas: map<nat, MapArea>, data: Data, x: Copy)
    requires Sum(areas, map[], data) && x.areas == map[] && x.data == map[] && SamePages(x.m, x.m, data)
    ensures ForkLog(areas, data, x)(x, areas.Keys)
  {
    CostStart(x.purse.tree, |x.purse.free|);
    assert Tables({}) == {} && x.areas.Keys == areas.Keys - areas.Keys;
    assert Paid(x.purse, x.purse, |x.data|, Tables(x.data.Keys));
    assert AreasCopied(areas, x.areas, areas.Keys) && Copied(areas, x.data, areas.Keys);
  }

  lemma ForkStart(areas: map<nat, MapArea>, data: Data, x: Copy)
    requires Sum(areas, map[], data) && x.areas == map[] && x.data == map[] && SamePages(x.m, x.m, data)
    ensures Forks(areas, data, ForkLog(areas, data, x)) && ForkLog(areas, data, x)(x, areas.Keys)
  {
    var log := ForkLog(areas, data, x);
    NothingForked(areas, data, x);
    forall y, todo, s, z | log(y, todo) && s in todo && AreaForked(areas, data, y, s, z) ensures log(z, todo - {s}) {
      ForkedMore(areas, data, todo, s, y, x.purse, z);
      SamePagesStep(x.m, y.m, z.m, data);
    }
  }

  /** The area at `s` has been copied: one less to do. */
  lemma ForkedMore(areas: map<nat, MapArea>, data: Data, todo: set<nat>, s: nat, x: Copy, s0: Purse, y: Copy)
    requires Sum(areas, map[], data) && s in todo && todo <= areas.Keys && AreaForked(areas, data, x, s, y)
    requires AreasCopied(areas, x.areas, todo) && Copied(areas, x.data, todo)
    requires Paid(s0, x.purse, |x.data|, Tables(x.data.Keys))
    ensures AreasCopied(areas, y.areas, todo - {s}) && Copied(areas, y.data, todo - {s})
    ensures Paid(s0, y.purse, |y.data|, Tables(y.data.Keys))
  {
    CopiedMore(areas, data, x.data, y.data, todo, s);
    AreasMore(areas, x.areas, y.areas, todo, s);
    PaidMore(s0, x.purse, y.purse, areas, data, s, x.data, y.data);
  }

  lemma AllCopied(areas: map<nat, MapArea>, data: Data, copy: Data, m: Frames)
    requires Sum(areas, map[], data) && Copied(areas, copy, {}) && CopiedBut(m, data, copy, 0, 0)
    ensures copy.Keys == data.Keys
  {
    forall v | v in data ensures v in copy {
      var s :| Has(areas, s, v);
    }
  }

  lemma SamePagesRefl(m: Frames, free: set<nat>, tables: set<nat>, data: Data)
    requires FramesOk(m, free, tables, data)
    ensures SamePages(m, m, data)
  {
  }

  lemma SamePagesStep(m: Frames, m1: Frames, m2: Frames, data: Data)
    requires SamePages(m, m1, data) && SamePages(m1, m2, data)
    ensures SamePages(m, m2, data)
  {
  }

  /** Below the given root entries two page tables map the same pages alike. */
  ghost predicate SharedView(view: map<nat, nat>, kview: map<nat, nat>, lines: set<nat>) {
    forall v: nat | Indexes(v)[0] in lines :: (v in view <==> v in kview) && (v in view ==> view[v] == kview[v])
  }

  /** Borrowing the kernel's entries changes neither the user pages of the copy nor anything of the original. */
  lemma SharedKernel(m: Frames, m': Frames, free: set<nat>, own: seq<nat>, tables: set<nat>, tables': set<nat>,
                     view: map<nat, nat>, view': map<nat, nat>, kview: map<nat, nat>, lines: set<nat>,
                     areas: map<nat, MapArea>, pend: Data, data: Data, ptables: set<nat>, pareas: map<nat, MapArea>,
                     ppend: Data, pdata: Data, pview: map<nat, nat>)
    requires SpaceOk(m, free, tables, view, areas, pend, data) && SpaceOk(m, free, ptables, pview, pareas, ppend, pdata)
    requires SameBut(m, m', own) && (forall f | f in m' :: IsPage(m', f)) && (forall f | f in own :: f in tables)
    requires tables' <= tables + ptables && Separate(ptables, pdata, Own(own, data)) && CopiedBut(m, pdata, data, 0, 0)
    requires MixedView(view', view, kview, lines) && forall l | l in lines :: 256 <= l
    ensures SpaceOk(m', free, tables', view', areas, pend, data) &&
            SpaceOk(m', free, ptables, pview, pareas, ppend, pdata)
    ensures SamePages(m, m', pdata) && CopiedBut(m', pdata, data, 0, 0) && SharedView(view', kview, lines)
  {
    forall v: nat | v < USER_SPAN ensures (v in view' <==> v in view) && (v in view ==> view'[v] == view[v]) {
      UserPage(v);
    }
    assert forall v | v in data :: data[v].ppn in Own(own, data) && data[v].ppn !in own;
    assert forall f | f in own :: f in Own(own, data);
  }

  lemma TablesApart(tables: set<nat>, data: Data, frames: seq<nat>, data': Data)
    requires Separate(tables, data, Own(frames, data'))
    ensures forall f | f in frames :: f !in tables
  {
    assert forall f | f in frames :: f in Own(frames, data');
  }

  lemma TranslateUser(view: map<nat, nat>, data: Data, v: nat)
    requires ViewOk(view, data) && v in data && data[v].ppn < PPN_SPAN
    ensures v % VPN_SPAN == v && v in view && PpnOf(view[v]) == data[v].ppn
  {
    UserPage(v);
    MappedEntry(data[v].ppn, data[v].perm);
  }

  class MemorySet {
    const pt: PageTable
    var areas: map<nat, MapArea>
    ghost var pend: Data
    /** What user pages translate to. */
    ghost var data: Data

    ghost predicate Valid()
      reads this, pt, pt.ram
    {
      && pt.Valid() && UserTree(pt.tree, pt.lines) && (forall l | l in pt.lines :: 256 <= l)
      && SpaceOk(pt.ram.pages, pt.ram.free, pt.tree.Values, pt.view, areas, pend, data)
    }

    constructor NewBare(ram: Ram)
      requires ram.Valid() && ram.free != {}
      modifies ram
      ensures Valid() && fresh(pt) && pt.ram == ram && areas == map[] && pend == map[] && data == map[] &&
              pt.lines == {}
      ensures Framing(old(ram.pages), old(ram.free), {}, ram.pages, ram.free, Own(pt.frames, data))
      ensures pt.tree.Keys == {Root} && |old(ram.free)| == |ram.free| + 1
    {
      var table := new PageTable.WithRoot(ram);
      pt := table;
      areas, pend, data := map[], map[], map[];
    }

    method TakeFrame() returns (r: Option<nat>)
      requires Valid()
      modifies pt.ram
      ensures Valid() && (r.None? <==> old(pt.ram.free) == {}) && (r.None? ==> pt.ram.free == {})
      ensures r.Some? ==> |old(pt.ram.free)| == |pt.ram.free| + 1
      ensures r.Some? ==>
                && r.value in old(pt.ram.free) && pt.ram.free == old(pt.ram.free) - {r.value}
                && pt.ram.pages == old(pt.ram.pages)[r.value := Zeros()]
                && Loose(pt.ram.pages, pt.ram.free, pt.tree.Values, data, r.value)
    {
      ghost var m := pt.ram.pages;
      r := pt.ram.FrameAlloc();
      if r.Some? { AllocUndisturbed(m, r.value, pt.tree, pt.view); }
    }

    /** Map page `vpn` to the frame `f`. */
    method MapFrame(vpn: nat, f: nat, perm: nat) returns (ok: bool)
      requires Valid() && vpn !in data && vpn < USER_SPAN && perm < 256 &&
               Loose(pt.ram.pages, pt.ram.free, pt.tree.Values, data, f)
      modifies this`pend, this`data, pt, pt.ram
      ensures ok <==> |old(pt.ram.free)| >= Lack(old(pt.tree), vpn, 2)
      ensures ok ==> Reaches(old(pt.tree), pt.tree, vpn, 2)
      ensures ok ==> |old(pt.ram.free)| == |pt.ram.free| + Lack(old(pt.tree), vpn, 2)
      ensures !ok ==> pt.ram.free == {}
      ensures ok ==> Valid()
      ensures ok ==> pt.lines == old(pt.lines)
      ensures ok ==>
              Framing(old(pt.ram.pages), old(pt.ram.free) + {f}, old(Own(pt.frames, data)), pt.ram.pages, pt.ram.free,
                      Own(pt.frames, data))
      ensures ok ==>
              SamePages(old(pt.ram.pages), pt.ram.pages, old(data)) && f in pt.ram.pages &&
              pt.ram.pages[f] == old(pt.ram.pages)[f]
      ensures ok ==> data == old(data)[vpn := Mapped(f, perm)] && pend == old(pend)[vpn := Mapped(f, perm)]
    {
      ok := MapEntry(vpn, f, perm);
      if ok { data, pend := data[vpn := Mapped(f, perm)], pend[vpn := Mapped(f, perm)]; }
    }

    /** The part of it that concerns the page table. */
    method MapEntry(vpn: nat, f: nat, perm: nat) returns (ok: bool)
      requires Valid() && vpn !in data && vpn < USER_SPAN && perm < 256 &&
               Loose(pt.ram.pages, pt.ram.free, pt.tree.Values, data, f)
      modifies pt, pt.ram
      ensures ok <==> |old(pt.ram.free)| >= Lack(old(pt.tree), vpn, 2)
      ensures ok ==> Reaches(old(pt.tree), pt.tree, vpn, 2)
      ensures ok ==> |old(pt.ram.free)| == |pt.ram.free| + Lack(old(pt.tree), vpn, 2)
      ensures !ok ==> pt.ram.free == {}
      ensures pt.Valid() && pt.lines == old(pt.lines)
      ensures UserTree(pt.tree, pt.lines)
      ensures ok ==> SpaceOk(pt.ram.pages, pt.ram.free, pt.tree.Values, pt.view, areas, pend[vpn := Mapped(f, perm)],
                             data[vpn := Mapped(f, perm)])
      ensures ok ==>
              Framing(old(pt.ram.pages), old(pt.ram.free) + {f}, old(Own(pt.frames, data)), pt.ram.pages, pt.ram.free,
                      Own(pt.frames, data[vpn := Mapped(f, perm)]))
      ensures ok ==>
              SamePages(old(pt.ram.pages), pt.ram.pages, old(data)) && f in pt.ram.pages &&
              pt.ram.pages[f] == old(pt.ram.pages)[f]
    {
      UserPage(vpn);
      ghost var m, free, tables, view, own := pt.ram.pages, pt.ram.free, pt.tree.Values, pt.view, pt.frames;
      ghost var tree := pt.tree;
      ok := pt.Map(vpn, f, perm);
      UserTreeGrows(tree, pt.tree, Indexes(vpn)[0], pt.lines);
      if ok {
        MapSpace(m, free, tables, view, areas, pend, data, vpn, f, perm, pt.ram.pages, pt.ram.free, pt.tree.Values);
        MapFrames(m, free, tables, own, data, f, perm, vpn, pt.ram.pages, pt.ram.free, pt.frames);
      }
    }

    /** Give page `vpn` a zeroed frame; false exactly when fewer frames are free than that and the missing tables
        need. */
    method MapOne(a: MapArea, vpn: nat) returns (a': MapArea, ok: bool)
      requires Valid() && vpn !in data && vpn < USER_SPAN && a.perm < 256
      modifies this`pend, this`data, pt, pt.ram
      ensures ok <==> |old(pt.ram.free)| >= 1 + Lack(old(pt.tree), vpn, 2)
      ensures ok ==> Reaches(old(pt.tree), pt.tree, vpn, 2)
      ensures ok ==> |old(pt.ram.free)| == |pt.ram.free| + 1 + Lack(old(pt.tree), vpn, 2)
      ensures !ok ==> pt.ram.free == {}
      ensures ok ==> Valid() && pt.lines == old(pt.lines)
      ensures ok ==>
              Framing(old(pt.ram.pages), old(pt.ram.free), old(Own(pt.frames, data)), pt.ram.pages, pt.ram.free,
                      Own(pt.frames, data))
      ensures ok ==> SamePages(old(pt.ram.pages), pt.ram.pages, old(data))
      ensures ok ==> vpn in a'.frames && a' == a.(frames := a.frames[vpn := a'.frames[vpn]])
      ensures ok ==> var x := Mapped(a'.frames[vpn], a.perm);
                && data == old(data)[vpn := x] && pend == old(pend)[vpn := x]
                && x.ppn in pt.ram.pages && pt.ram.pages[x.ppn] == Zeros()
    {
      ghost var m, free, tables, own, was := pt.ram.pages, pt.ram.free, pt.tree.Values, Own(pt.frames, data), data;
      var frame := TakeFrame();
      if frame.None? {
        return a, false;
      }
      var f := frame.value;
      a' := a.(frames := a.frames[vpn := f]);
      ghost var m1 := pt.ram.pages;
      ok := MapFrame(vpn, f, a.perm);
      if ok { TakenFrames(m, free, own, tables, was, f, m1, pt.ram.pages, pt.ram.free, Own(pt.frames, data)); }
    }

    /** Give frame `f` back and take page `vpn` out of the page table. */
    method FreePage(vpn: nat, f: nat)
      requires Valid() && vpn in pend && pend[vpn].ppn == f
      modifies pt, pt.ram
      ensures pt.Valid() && UserTree(pt.tree, pt.lines) && pt.lines == old(pt.lines) && pt.frames == old(pt.frames)
      ensures pt.view == old(pt.view) - {vpn} && pt.ram.free == old(pt.ram.free) + {f}
      ensures pt.tree == old(pt.tree) && SameBut(old(pt.ram.pages), pt.ram.pages, pt.frames)
    {
      UserPage(vpn);
      pt.ram.FrameFree(f);
      pt.Unmap(vpn);
    }

    /** Drop the frame of page `vpn` and unmap it. */
    method UnmapOne(a: MapArea, vpn: nat) returns (a': MapArea)
      requires Valid() && vpn in a.frames && vpn in pend && pend[vpn].ppn == a.frames[vpn]
      modifies this`pend, this`data, pt, pt.ram
      ensures Valid() && pt.lines == old(pt.lines) && a' == a.(frames := a.frames - {vpn})
      ensures data == old(data) - {vpn} && pend == old(pend) - {vpn} && SamePages(old(pt.ram.pages), pt.ram.pages, data)
      ensures Framing(old(pt.ram.pages), old(pt.ram.free), old(Own(pt.frames, data)), pt.ram.pages, pt.ram.free,
                      Own(pt.frames, data))
      ensures pt.tree == old(pt.tree) && |pt.ram.free| == |old(pt.ram.free)| + 1
    {
      ghost var m, free, tables, view, own := pt.ram.pages, pt.ram.free, pt.tree.Values, pt.view, pt.frames;
      FreePage(vpn, a.frames[vpn]);
      a' := a.(frames := a.frames - {vpn});
      UnmapSpace(m, free, tables, view, areas, pend, data, vpn, pt.ram.pages, pt.tree.Values);
      UnmapFrames(m, free, tables, own, data, vpn, pt.ram.pages);
      data, pend := data - {vpn}, pend - {vpn};
    }

    ghost function Now(): Snapshot
      reads this, pt, pt.ram
    {
      Snapshot(pt.ram.pages, pt.ram.free, Own(pt.frames, data), data)
    }

    ghost function Stock(): Purse
      reads this, pt, pt.ram
    {
      Purse(pt.tree, pt.ram.free, Own(pt.frames, data))
    }

    ghost function Recorded(a: MapArea): Record
      reads this, pt, pt.ram
    {
      Record(a, Now(), pend, pt.tree)
    }

    ghost function AsCopy(): Copy
      reads this, pt, pt.ram
    {
      Copy(areas, data, pt.ram.pages, Stock())
    }

    /** One more page of a range. */
    method MapNext(a: MapArea, vpn: nat, ghost hi: nat, ghost log: (Record, nat) -> bool)
                   returns (a': MapArea, ok: bool)
      requires Valid()
      requires vpn < hi <= USER_SPAN && Keeps(log, hi) && log(Recorded(a), vpn)
      modifies this`pend, this`data, pt, pt.ram
      ensures !ok ==> |old(pt.ram.free)| < 1 + Lack(old(pt.tree), vpn, 2) && pt.ram.free == {}
      ensures ok ==> Valid()
      ensures ok ==> pt.lines == old(pt.lines) && log(Recorded(a'), vpn + 1)
    {
      ghost var x := Recorded(a);
      assert Ready(x, vpn);
      a', ok := MapOne(a, vpn);
      if ok { assert PageMapped(x, vpn, Recorded(a')); }
    }

    /** The loop over the pages; if it fails, the space before page `v` was `x`, with too few free frames for it. */
    method MapPages(a: MapArea, lo: nat, hi: nat, ghost log: (Record, nat) -> bool)
                    returns (a': MapArea, ok: bool, ghost x: Record, ghost v: nat)
      requires Valid()
      requires lo <= hi <= USER_SPAN && Keeps(log, hi) && log(Recorded(a), lo)
      modifies this`pend, this`data, pt, pt.ram
      ensures !ok ==> v < hi && log(x, v) && |x.s.free| < 1 + Lack(x.tree, v, 2) && pt.ram.free == {}
      ensures ok ==> Valid()
      ensures ok ==> pt.lines == old(pt.lines) && log(Recorded(a'), hi)
    {
      a', ok, x, v := a, true, Recorded(a), lo;
      var vpn := lo;
      while vpn < hi
        invariant lo <= vpn <= hi && ok
        invariant Valid()
        invariant pt.lines == old(pt.lines)
        invariant log(Recorded(a'), vpn)
      {
        x, v := Recorded(a'), vpn;
        a', ok := MapNext(a', vpn, hi, log);
        if !ok { break; }
        vpn := vpn + 1;
      }
    }

    /** Map the pages from `lo` up to `hi`, one after the other; false exactly when memory does not suffice. */
    method MapRange(a: MapArea, lo: nat, hi: nat) returns (a': MapArea, ok: bool)
      requires Valid() && a.perm < 256 && a.start <= lo <= hi <= USER_SPAN && IsSlice(pend, a, a.start, lo)
      requires forall v | lo <= v < hi :: v !in data
      modifies this`pend, this`data, pt, pt.ram
      ensures ok <==> |old(pt.ram.free)| >= RangeNeed(old(pt.tree), lo, hi)
      ensures !ok ==> pt.ram.free == {}
      ensures ok ==> Valid() && pt.lines == old(pt.lines) && Mapping(a, lo, hi, a', old(Now()), Now(), pend)
      ensures ok ==> RangeCost(old(pt.tree), |old(pt.ram.free)|, pt.tree, |pt.ram.free|, lo, hi)
    {
      ghost var x0, x, v := Recorded(a), Recorded(a), lo;
      LogStart(x0, lo, hi, pt.tree.Values);
      a', ok, x, v := MapPages(a, lo, hi, LogOf(x0, lo));
      if !ok { BillShort(x0, lo, x, v, hi); }
    }

    /** Map the whole range of `a` and insert it; `a.frames` may hold another space's frames, to be replaced. */
    method Push(a: MapArea) returns (ok: bool)
      requires Valid() && pend == map[] && a.perm < 256 && a.start <= a.end <= USER_SPAN
      requires (forall v | a.start <= v < a.end :: v !in data) && forall v | v in a.frames :: a.start <= v < a.end
      requires a.start in areas ==> areas[a.start].frames == map[]
      modifies this, pt, pt.ram
      ensures ok <==> |old(pt.ram.free)| >= RangeNeed(old(pt.tree), a.start, a.end)
      ensures ok ==> RangeCost(old(pt.tree), |old(pt.ram.free)|, pt.tree, |pt.ram.free|, a.start, a.end)
      ensures !ok ==> pt.ram.free == {}
      ensures ok ==> Valid() && pend == map[] && pt.lines == old(pt.lines) && a.start in areas
      ensures ok ==> var b := areas[a.start];
                && b == a.(frames := b.frames) && areas == old(areas)[a.start := b]
                && NewPages(b, a.start, a.end, old(Now()), Now())
                && SamePages(old(pt.ram.pages), pt.ram.pages, old(data)) && Within(old(Now()), Now())
    {
      var b;
      b, ok := MapRange(a, a.start, a.end);
      if ok { PutArea(b); }
    }

    method InsertFramedArea(start: nat, end: nat, perm: nat) returns (ok: bool)
      requires Valid() && pend == map[] && perm < 256 && start <= end <= USER_SPAN && forall v | start <= v < end ::
               v !in data
      requires start in areas ==> areas[start].frames == map[]
      modifies this, pt, pt.ram
      ensures ok <==> |old(pt.ram.free)| >= RangeNeed(old(pt.tree), start, end)
      ensures ok ==> RangeCost(old(pt.tree), |old(pt.ram.free)|, pt.tree, |pt.ram.free|, start, end)
      ensures !ok ==> pt.ram.free == {}
      ensures ok ==> Valid() && pend == map[] && pt.lines == old(pt.lines) && start in areas
      ensures ok ==> var b := areas[start];
                && b == MapArea(start, end, b.frames, perm) && areas == old(areas)[start := b]
                && NewPages(b, start, end, old(Now()), Now())
                && SamePages(old(pt.ram.pages), pt.ram.pages, old(data)) && Within(old(Now()), Now())
    {
      ok := Push(MapArea(start, end, map[], perm));
    }

    /** Unmap the pages from `lo` up to `hi`, one after the other. */
    method UnmapRange(a: MapArea, lo: nat, hi: nat) returns (a': MapArea)
      requires Valid() && lo <= hi && AllOf(pend, a) && forall v | lo <= v < hi :: v in a.frames
      modifies this`pend, this`data, pt, pt.ram
      ensures Valid() && pt.lines == old(pt.lines) && AllOf(pend, a') && Unmapping(a, lo, hi, a', old(Now()), Now())
      ensures pt.tree == old(pt.tree) && |pt.ram.free| == |old(pt.ram.free)| + hi - lo
    {
      a' := a;
      ghost var s, lines, tree0, n := Now(), pt.lines, pt.tree, |pt.ram.free|;
      UnmappingStart(a, lo, s, pt.tree.Values);
      ghost var now := s;
      for vpn := lo to hi
        invariant Valid() && pt.lines == lines && now == Now() && AllOf(pend, a') && Unmapping(a, lo, vpn, a', s, now)
        invariant pt.tree == tree0 && |pt.ram.free| == n + (vpn - lo)
      {
        a' := UnmapNext(a', vpn, a, lo, s);
        now := Now();
      }
    }

    method UnmapNext(a: MapArea, vpn: nat, ghost a0: MapArea, ghost lo: nat, ghost s: Snapshot) returns (a': MapArea)
      requires Valid() && lo <= vpn && AllOf(pend, a) && vpn in a.frames && Unmapping(a0, lo, vpn, a, s, Now())
      modifies this`pend, this`data, pt, pt.ram
      ensures Valid() && pt.lines == old(pt.lines) && AllOf(pend, a') && Unmapping(a0, lo, vpn + 1, a', s, Now())
      ensures pt.tree == old(pt.tree) && |pt.ram.free| == |old(pt.ram.free)| + 1
    {
      ghost var s1 := Now();
      a' := UnmapOne(a, vpn);
      UnmappingStep(a0, lo, vpn, a, s, s1, a', Now());
    }

    /** Drop an area and all its pages. */
    method RemoveAreaWithStartVpn(start: nat)
      requires Valid() && pend == map[]
      modifies this, pt, pt.ram
      ensures Valid() && pend == map[] && pt.lines == old(pt.lines) && areas == old(areas) - {start}
      ensures start !in old(areas) ==> data == old(data)
      ensures start in old(areas) ==> Removed(old(data), data, start, old(areas)[start].end)
      ensures pt.tree == old(pt.tree)
      ensures |pt.ram.free| ==
              |old(pt.ram.free)| + if start in old(areas) then old(areas)[start].end - start else 0
      ensures SamePages(old(pt.ram.pages), pt.ram.pages, data) && Within(old(Now()), Now())
    {
      if start in areas {
        var area := TakeArea(start);
        area := UnmapRange(area, area.start, area.end);
        EmptyPend(pend, area);
      } else {
        assert areas - {start} == areas;
      }
    }

    /** Take the area at `start` out of the map to work on it. */
    method TakeArea(start: nat) returns (a: MapArea)
      requires Valid() && pend == map[] && start in areas
      modifies this`areas, this`pend
      ensures Valid() && areas == old(areas) - {start} && a == old(areas)[start]
      ensures IsSlice(pend, a, start, a.end) && AllOf(pend, a) && a.start == start && AreaOk(a)
    {
      a := areas[start];
      SumOpen(areas, data, start);
      areas, pend := areas - {start}, Slice(a, start, a.end);
    }

    /** Put a worked-on area back. */
    method PutArea(a: MapArea)
      requires Valid() && AreaOk(a) && IsSlice(pend, a, a.start, a.end) &&
               (a.start in areas ==> areas[a.start].frames == map[])
      modifies this`areas, this`pend
      ensures Valid()
      ensures pend == map[] && areas == old(areas)[a.start := a] && Now() == old(Now())
    {
      SumClose(areas, pend, data, a);
      areas, pend := areas[a.start := a], map[];
    }

    /** Move the end of the heap area, or make the area. */
    method SetUserBrk(newEnd: nat, heapStart: nat) returns (ok: bool)
      requires Valid() && pend == map[] && heapStart < newEnd <= USER_SPAN
      requires forall v | (if heapStart in areas then areas[heapStart].end else heapStart) <= v < newEnd :: v !in data
      modifies this, pt, pt.ram
      ensures var end := if heapStart in old(areas) then old(areas)[heapStart].end else heapStart;
              && (ok <==> newEnd <= end || |old(pt.ram.free)| >= RangeNeed(old(pt.tree), end, newEnd))
              && (newEnd <= end ==> pt.tree == old(pt.tree) && |pt.ram.free| == |old(pt.ram.free)| + (end - newEnd))
              && (ok && newEnd > end ==>
                    RangeCost(old(pt.tree), |old(pt.ram.free)|, pt.tree, |pt.ram.free|, end, newEnd))
      ensures !ok ==> pt.ram.free == {}
      ensures ok ==> Valid() && pend == map[] && pt.lines == old(pt.lines) && heapStart in areas
      ensures ok ==> areas == old(areas)[heapStart := areas[heapStart]]
      ensures ok ==>
              Resized(if heapStart in old(areas) then old(areas)[heapStart]
                      else MapArea(heapStart, heapStart, map[], RWU), areas[heapStart], newEnd)
      ensures ok ==> var end := if heapStart in old(areas) then old(areas)[heapStart].end else heapStart;
                if newEnd <= end then
                  Removed(old(data), data, newEnd, end) && SamePages(old(pt.ram.pages), pt.ram.pages, data)
                else
                  && NewPages(areas[heapStart], end, newEnd, old(Now()), Now())
                  && SamePages(old(pt.ram.pages), pt.ram.pages, old(data))
      ensures ok ==> Within(old(Now()), Now())
    {
      if heapStart !in areas {
        ok := InsertFramedArea(heapStart, newEnd, RWU);
        return;
      }
      if areas[heapStart].end >= newEnd {
        Shrink(heapStart, newEnd);
        ok := true;
      } else {
        ok := Expand(heapStart, newEnd);
      }
    }

    method Shrink(start: nat, newEnd: nat)
      requires Valid() && pend == map[] && start in areas && start <= newEnd <= areas[start].end
      modifies this, pt, pt.ram
      ensures Valid() && pend == map[] && pt.lines == old(pt.lines) && start in areas
      ensures areas == old(areas)[start := areas[start]] && Resized(old(areas)[start], areas[start], newEnd)
      ensures Removed(old(data), data, newEnd, old(areas)[start].end)
      ensures pt.tree == old(pt.tree) && |pt.ram.free| == |old(pt.ram.free)| + old(areas)[start].end - newEnd
      ensures SamePages(old(pt.ram.pages), pt.ram.pages, data) && Within(old(Now()), Now())
    {
      ghost var areas0 := areas;
      var rest := CutArea(start, newEnd);
      PutArea(rest);
      Reinserted(areas0, start, rest);
    }

    /** Take the area at `start` out and unmap its pages from `newEnd` on. */
    method CutArea(start: nat, newEnd: nat) returns (rest: MapArea)
      requires Valid() && pend == map[] && start in areas && start <= newEnd <= areas[start].end
      modifies this, pt, pt.ram
      ensures Valid() && pt.lines == old(pt.lines) && areas == old(areas) - {start} &&
              Resized(old(areas)[start], rest, newEnd)
      ensures rest.start == start && AreaOk(rest) && IsSlice(pend, rest, start, newEnd)
      ensures Removed(old(data), data, newEnd, old(areas)[start].end)
      ensures pt.tree == old(pt.tree) && |pt.ram.free| == |old(pt.ram.free)| + old(areas)[start].end - newEnd
      ensures SamePages(old(pt.ram.pages), pt.ram.pages, data) && Within(old(Now()), Now())
    {
      ghost var s := Now();
      var area := TakeArea(start);
      rest := UnmapRange(area, newEnd, area.end);
      ghost var now := Now();
      ShrunkArea(area, newEnd, rest, s, now, pend);
      rest := rest.(end := newEnd);
    }

    method Expand(start: nat, newEnd: nat) returns (ok: bool)
      requires Valid() && pend == map[] && start in areas && areas[start].end < newEnd <= USER_SPAN
      requires forall v | areas[start].end <= v < newEnd :: v !in data
      modifies this, pt, pt.ram
      ensures ok <==> |old(pt.ram.free)| >= RangeNeed(old(pt.tree), old(areas)[start].end, newEnd)
      ensures ok ==> RangeCost(old(pt.tree), |old(pt.ram.free)|, pt.tree, |pt.ram.free|, old(areas)[start].end, newEnd)
      ensures !ok ==> pt.ram.free == {}
      ensures ok ==> Valid() && pend == map[] && pt.lines == old(pt.lines) && start in areas
      ensures ok ==> areas == old(areas)[start := areas[start]] && Resized(old(areas)[start], areas[start], newEnd)
      ensures ok ==> NewPages(areas[start], old(areas)[start].end, newEnd, old(Now()), Now())
      ensures ok ==> SamePages(old(pt.ram.pages), pt.ram.pages, old(data)) && Within(old(Now()), Now())
    {
      ghost var s, areas0 := Now(), areas;
      var area := TakeArea(start);
      var more;
      more, ok := MapRange(area, area.end, newEnd);
      if ok {
        ghost var now := Now();
        GrownArea(area, newEnd, more, s, now, pend);
        more := more.(end := newEnd);
        PutArea(more);
        Reinserted(areas0, start, more);
      }
    }

    method Translate(vpn: nat) returns (r: Option<nat>)
      requires Valid() && vpn < USER_SPAN
      ensures r == if vpn in data then Some(data[vpn].ppn) else None
    {
      UserPage(vpn);
      if vpn in data { TranslateUser(pt.view, data, vpn); }
      r := pt.Translate(vpn);
    }

    /** Another space in the same memory that shares no owned frame with this one. */
    ghost predicate Apart(child: MemorySet)
      reads this, pt, pt.ram, child, child.pt
    {
      && child != this && child.pt != pt && child.pt.ram == pt.ram
      && Separate(pt.tree.Values, data, Own(child.pt.frames, child.data))
    }

    /** Write the page of the other space behind `vpn`. */
    method StorePage(child: MemorySet, ghost vpn: nat, f: nat, page: Page)
      requires Valid() && child.Valid() && Apart(child) && vpn in child.data && child.data[vpn].ppn == f &&
               |page| == ENTRIES
      modifies pt.ram`pages
      ensures Valid() && child.Valid() && Apart(child) && pt.ram.pages == old(pt.ram.pages)[f := page]
    {
      assert f in Own(child.pt.frames, child.data);
      ghost var m, free := pt.ram.pages, pt.ram.free;
      PageKept(m, f, page);
      PageWrite(m, free, f, page, pt.tree, pt.view, areas, pend, data);
      PageWrite(m, free, f, page, child.pt.tree, child.pt.view, child.areas, child.pend, child.data);
      pt.ram.pages := pt.ram.pages[f := page];
    }

    /** Copy one page of this space into the same page of the other. */
    method CopyPage(child: MemorySet, vpn: nat)
      requires Valid() && child.Valid() && Apart(child) && vpn in data && vpn in child.data
      modifies pt.ram`pages
      ensures Valid() && child.Valid() && Apart(child)
      ensures child.data[vpn].ppn in old(pt.ram.pages) && data[vpn].ppn in old(pt.ram.pages)
      ensures pt.ram.pages == old(pt.ram.pages)[child.data[vpn].ppn := old(pt.ram.pages)[data[vpn].ppn]]
    {
      var src := Translate(vpn);
      var dst := child.Translate(vpn);
      StorePage(child, vpn, dst.value, pt.ram.pages[src.value]);
    }

    /** Copy one more page of a range. */
    method CopyNext(child: MemorySet, vpn: nat, ghost hi: nat, ghost m: Frames)
      requires Valid() && child.Valid() && Apart(child) && vpn < hi && Twins(data, child.data, vpn, hi)
      requires Copying(m, pt.ram.pages, Own(child.pt.frames, child.data), data, child.data, vpn, hi)
      modifies pt.ram`pages
      ensures Valid() && child.Valid() && Apart(child)
      ensures Copying(m, pt.ram.pages, Own(child.pt.frames, child.data), data, child.data, vpn + 1, hi)
    {
      CopiedStep(m, pt.ram.pages, pt.ram.free, child.pt.tree.Values, data, child.data,
                 Own(child.pt.frames, child.data), vpn, hi);
      CopyPage(child, vpn);
    }

    /** Copy the pages from `lo` up to `hi`. */
    method CopyPages(child: MemorySet, lo: nat, hi: nat)
      requires Valid() && child.Valid() && Apart(child) && lo <= hi && Twins(data, child.data, lo, hi)
      requires CopiedBut(pt.ram.pages, data, child.data, lo, hi)
      modifies pt.ram`pages
      ensures Valid() && child.Valid() && Apart(child)
      ensures Copying(old(pt.ram.pages), pt.ram.pages, Own(child.pt.frames, child.data), data, child.data, hi, hi)
    {
      ghost var m, own := pt.ram.pages, Own(child.pt.frames, child.data);
      ghost var m' := m;
      for vpn := lo to hi
        invariant Valid() && child.Valid() && Apart(child)
        invariant m' == pt.ram.pages && Copying(m, m', own, data, child.data, vpn, hi)
      {
        CopyNext(child, vpn, hi, m);
        m' := pt.ram.pages;
      }
    }

    /** Copy one area with its pages into the other space. */
    method ForkArea(child: MemorySet, s: nat) returns (ok: bool)
      requires Valid()
      requires child.Valid()
      requires Apart(child) && pend == map[] && child.pend == map[] && Uncopied(areas, data, child.AsCopy(), s)
      modifies child, child.pt, pt.ram
      ensures s <= areas[s].end && (ok <==> |old(pt.ram.free)| >= RangeNeed(old(child.pt.tree), s, areas[s].end))
      ensures !ok ==> pt.ram.free == {}
      ensures ok ==> Valid()
      ensures ok ==> child.Valid()
      ensures ok ==> Apart(child) && child.pend == map[] && child.pt.lines == old(child.pt.lines)
      ensures ok ==> AreaForked(areas, data, old(child.AsCopy()), s, child.AsCopy())
    {
      ghost var x := child.AsCopy();
      ok := PushCopy(child, s);
      if ok { FillArea(child, s, x); }
    }

    /** Copy the pages of the last area. */
    method FillArea(child: MemorySet, s: nat, ghost x: Copy)
      requires Valid()
      requires child.Valid()
      requires Apart(child) && AreaPushed(areas, data, x, s, child.AsCopy())
      modifies pt.ram`pages
      ensures Valid()
      ensures child.Valid()
      ensures Apart(child) && AreaForked(areas, data, x, s, child.AsCopy())
    {
      ghost var m, own := pt.ram.pages, Own(child.pt.frames, child.data);
      CopyPages(child, s, areas[s].end);
      ghost var m' := pt.ram.pages;
      CopyingPages(x.m, m, m', own, data, child.data, areas[s].end);
    }

    /** The area, mapped in the other space to fresh frames that are still to be filled. */
    method PushCopy(child: MemorySet, s: nat) returns (ok: bool)
      requires Valid()
      requires child.Valid()
      requires Apart(child) && pend == map[] && child.pend == map[] && Uncopied(areas, data, child.AsCopy(), s)
      modifies child, child.pt, pt.ram
      ensures s <= areas[s].end && (ok <==> |old(pt.ram.free)| >= RangeNeed(old(child.pt.tree), s, areas[s].end))
      ensures !ok ==> pt.ram.free == {}
      ensures ok ==> Valid()
      ensures ok ==> child.Valid()
      ensures ok ==> Apart(child) && child.pend == map[] && child.pt.lines == old(child.pt.lines)
      ensures ok ==> AreaPushed(areas, data, old(child.AsCopy()), s, child.AsCopy())
    {
      ghost var before := child.Now();
      var a := areas[s];
      AreaFacts(areas, data, s, child.data);
      ok := child.Push(a);
      if ok {
        ghost var after, b := child.Now(), child.areas[s];
        Bystander(before, after, pt.tree, pt.view, areas, pend, data);
        PushedCopy(before, after, areas, data, s, b);
      }
    }

    /** One area more. */
    method ForkNext(child: MemorySet, s: nat, ghost todo: set<nat>, ghost log: (Copy, set<nat>) -> bool)
                    returns (ok: bool)
      requires Valid()
      requires child.Valid()
      requires Apart(child) && pend == map[] && child.pend == map[]
      requires Forks(areas, data, log) && log(child.AsCopy(), todo) && s in todo
      modifies child, child.pt, pt.ram
      ensures !ok ==> s in areas && s <= areas[s].end && pt.ram.free == {} &&
                      |old(pt.ram.free)| < RangeNeed(old(child.pt.tree), s, areas[s].end)
      ensures ok ==> Valid()
      ensures ok ==> child.Valid()
      ensures ok ==> Apart(child) && child.pend == map[] && child.pt.lines == old(child.pt.lines)
      ensures ok ==> log(child.AsCopy(), todo - {s})
    {
      ghost var x := child.AsCopy();
      assert Uncopied(areas, data, x, s);
      ok := ForkArea(child, s);
    }

    /** The loop over the areas; if it fails, the copy before area `s` was `x`, with too few free frames for it. */
    method ForkEach(child: MemorySet, ghost log: (Copy, set<nat>) -> bool)
                    returns (ok: bool, ghost x: Copy, ghost left: set<nat>, ghost s: nat)
      requires Valid()
      requires child.Valid()
      requires Apart(child) && pend == map[] && child.pend == map[]
      requires Forks(areas, data, log) && log(child.AsCopy(), areas.Keys)
      modifies child, child.pt, pt.ram
      ensures !ok ==> log(x, left) && s in left && s in areas && s <= areas[s].end && pt.ram.free == {} &&
                      |x.purse.free| < RangeNeed(x.purse.tree, s, areas[s].end)
      ensures ok ==> Valid()
      ensures ok ==> child.Valid()
      ensures ok ==> Apart(child) && child.pend == map[] && child.pt.lines == old(child.pt.lines)
      ensures ok ==> log(child.AsCopy(), {})
    {
      var todo := areas.Keys;
      ok, x, left, s := true, child.AsCopy(), todo, 0;
      while todo != {}
        invariant Valid()
        invariant child.Valid()
        invariant Apart(child) && child.pend == map[] && child.pt.lines == old(child.pt.lines)
        invariant log(child.AsCopy(), todo)
      {
        var next :| next in todo;
        x, left, s := child.AsCopy(), todo, next;
        ok := ForkNext(child, next, todo, log);
        if !ok {
          return;
        }
        todo := todo - {next};
      }
      ok := true;
    }

    /** Copy every area; false exactly when memory does not suffice for all pages and their tables. */
    method ForkAreas(child: MemorySet) returns (ok: bool)
      requires Valid() && child.Valid() && Apart(child) && pend == map[] && child.pend == map[] &&
               child.data == map[] && child.areas == map[]
      modifies child, child.pt, pt.ram
      ensures ok <==> |old(pt.ram.free)| >= Need(old(child.pt.tree), |data|, Tables(data.Keys))
      ensures ok ==> Paid(old(child.Stock()), child.Stock(), |data|, Tables(data.Keys))
      ensures !ok ==> pt.ram.free == {}
      ensures ok ==> Valid()
      ensures ok ==> child.Valid()
      ensures ok ==> Apart(child) && child.pend == map[] && child.pt.lines == old(child.pt.lines)
      ensures ok ==>
              AreasCopied(areas, child.areas, {}) && child.data.Keys == data.Keys &&
              CopiedBut(pt.ram.pages, data, child.data, 0, 0)
      ensures ok ==> SamePages(old(pt.ram.pages), pt.ram.pages, data)
    {
      SamePagesRefl(pt.ram.pages, pt.ram.free, pt.tree.Values, data);
      ghost var x0 := child.AsCopy();
      ForkStart(areas, data, x0);
      ghost var x, left, s;
      ok, x, left, s := ForkEach(child, ForkLog(areas, data, x0));
      if ok {
        AllCopied(areas, data, child.data, pt.ram.pages);
      } else {
        AreaShort(areas, data, x0, x, left, s);
      }
    }

    /** A copy of this space: the same pages with the same contents in frames of its own, and the kernel's part
        shared. It takes a frame for the root, for every page and for every other table of those pages, and fails
        exactly when there are fewer. */
    method Fork() returns (r: Option<MemorySet>)
      requires Valid() && pend == map[]
      modifies pt.ram
      ensures r.Some? <==> |old(pt.ram.free)| >= 1 + |data| + |Tables(data.Keys)|
      ensures r.Some? ==> |old(pt.ram.free)| == |pt.ram.free| + 1 + |data| + |Tables(data.Keys)|
      ensures r.Some? ==> pt.ram.free + Own(r.value.pt.frames, r.value.data) == old(pt.ram.free)
      ensures r.None? ==> pt.ram.free == {}
      ensures r.Some? ==>
                var child := r.value;
                && fresh(child) && fresh(child.pt) && child.pt.ram == pt.ram && Valid() && child.Valid() &&
                   Apart(child) && child.pend == map[]
                && AreasCopied(areas, child.areas, {}) && child.data.Keys == data.Keys
                && CopiedBut(pt.ram.pages, data, child.data, 0, 0) && SamePages(old(pt.ram.pages), pt.ram.pages, data)
                && child.pt.lines == {508, 510, 511} && SharedView(child.pt.view, pt.view, child.pt.lines)
    {
      if pt.ram.free == {} {
        return None;
      }
      ghost var m0 := pt.ram.pages;
      var child := EmptyChild();
      ghost var m := pt.ram.pages;
      RootApart(child.pt.tree, data.Keys);
      var ok := FillChild(child);
      if !ok {
        return None;
      }
      SamePagesStep(m0, m, pt.ram.pages, data);
      return Some(child);
    }

    /** Copy every area into an empty space and share the kernel's part with it. */
    method FillChild(child: MemorySet) returns (ok: bool)
      requires Valid() && child.Valid() && Apart(child) && pend == map[] && child.pend == map[] &&
               child.data == map[] && child.areas == map[]
      requires child.pt.lines == {}
      modifies child, child.pt, pt.ram
      ensures ok <==> |old(pt.ram.free)| >= Need(old(child.pt.tree), |data|, Tables(data.Keys))
      ensures ok ==> |old(pt.ram.free)| == |pt.ram.free| + Need(old(child.pt.tree), |data|, Tables(data.Keys))
      ensures ok ==> pt.ram.free + Own(child.pt.frames, child.data) ==
                     old(pt.ram.free) + old(Own(child.pt.frames, child.data))
      ensures !ok ==> pt.ram.free == {}
      ensures ok ==>
              Valid() && child.Valid() && Apart(child) && child.pend == map[] && child.pt.lines == {508, 510, 511}
      ensures ok ==>
              AreasCopied(areas, child.areas, {}) && child.data.Keys == data.Keys &&
              CopiedBut(pt.ram.pages, data, child.data, 0, 0)
      ensures ok ==>
              SamePages(old(pt.ram.pages), pt.ram.pages, data) && SharedView(child.pt.view, pt.view, child.pt.lines)
    {
      ghost var m0 := pt.ram.pages;
      ok := ForkAreas(child);
      if ok {
        ghost var m := pt.ram.pages;
        ShareKernel(child);
        SamePagesStep(m0, m, pt.ram.pages, data);
      }
    }

    /** A bare space beside this one. */
    method EmptyChild() returns (child: MemorySet)
      requires Valid() && pt.ram.free != {}
      modifies pt.ram
      ensures fresh(child) && fresh(child.pt) && child.pt.ram == pt.ram && Valid() && child.Valid() && Apart(child)
      ensures child.areas == map[] && child.pend == map[] && child.data == map[] && child.pt.lines == {}
      ensures SamePages(old(pt.ram.pages), pt.ram.pages, data)
      ensures child.pt.tree.Keys == {Root} && |old(pt.ram.free)| == |pt.ram.free| + 1
      ensures pt.ram.free + Own(child.pt.frames, child.data) == old(pt.ram.free)
    {
      ghost var before := Snapshot(pt.ram.pages, pt.ram.free, {}, map[]);
      child := new MemorySet.NewBare(pt.ram);
      Bystander(before, child.Now(), pt.tree, pt.view, areas, pend, data);
    }

    /** Copy the kernel's root entries into the other space. */
    method ShareKernel(child: MemorySet)
      requires Valid() && child.Valid() && Apart(child) && child.pt.lines == {} &&
               CopiedBut(pt.ram.pages, data, child.data, 0, 0)
      modifies child.pt`tree, child.pt`view, child.pt`lines, pt.ram`pages
      ensures Valid() && child.Valid() && Apart(child) && child.pt.lines == {508, 510, 511}
      ensures CopiedBut(pt.ram.pages, data, child.data, 0, 0) && SamePages(old(pt.ram.pages), pt.ram.pages, data)
      ensures SharedView(child.pt.view, pt.view, child.pt.lines)
    {
      ghost var m, view, tables := pt.ram.pages, child.pt.view, child.pt.tree.Values;
      var table := child.pt;
      TablesApart(pt.tree.Values, data, table.frames, child.data);
      table.MapKernelAreas(pt);
      SharedKernel(m, pt.ram.pages, pt.ram.free, table.frames, tables, table.tree.Values, view, table.view, pt.view,
                   table.lines, child.areas, child.pend, child.data, pt.tree.Values, areas, pend, data, pt.view);
    }
  }

  // ---------------------------------------------------------------- runs

  /** A page to its user: permissions and contents. */
  datatype PageView = PageView(perm: nat, bytes: Page)

  /** An address space to its user: end and permissions of each area by its start, and the mapped pages. */
  datatype Space = Space(ranges: map<nat, (nat, nat)>, pages: map<nat, PageView>)

  ghost function PagesOf(m: Frames, data: Data): (r: map<nat, PageView>)
    ensures r.Keys == data.Keys
  {
    map v | v in data :: PageView(data[v].perm, if data[v].ppn in m then m[data[v].ppn] else [])
  }

  ghost function RangesOf(areas: map<nat, MapArea>): (r: map<nat, (nat, nat)>)
    ensures r.Keys == areas.Keys
  {
    map s | s in areas :: (areas[s].end, areas[s].perm)
  }

  predicate InSpan(lo: nat, hi: nat, v: nat) { lo <= v < hi }

  /** Zeroed pages from `lo` up to `hi` added. */
  function WithZeros(pages: map<nat, PageView>, lo: nat, hi: nat, perm: nat): map<nat, PageView> {
    pages + map v: nat | v < hi && InSpan(lo, hi, v) :: PageView(perm, Zeros())
  }

  /** The pages from `lo` up to `hi` taken away. */
  function Without(pages: map<nat, PageView>, lo: nat, hi: nat): map<nat, PageView> {
    map v | v in pages && !InSpan(lo, hi, v) :: pages[v]
  }

  lemma ZerosView(b: MapArea, lo: nat, hi: nat, s: Snapshot, s': Snapshot)
    requires NewPages(b, lo, hi, s, s') && SamePages(s.m, s'.m, s.data)
    ensures PagesOf(s'.m, s'.data) == WithZeros(PagesOf(s.m, s.data), lo, hi, b.perm)
  {
    var p, q := PagesOf(s'.m, s'.data), WithZeros(PagesOf(s.m, s.data), lo, hi, b.perm);
    forall v: nat ensures (v in p <==> v in q) && (v in p ==> p[v] == q[v]) {
      assert InSpan(lo, hi, v) <==> lo <= v < hi;
    }
  }

  lemma WithoutView(lo: nat, hi: nat, s: Snapshot, s': Snapshot)
    requires Removed(s.data, s'.data, lo, hi) && SamePages(s.m, s'.m, s'.data)
    ensures PagesOf(s'.m, s'.data) == Without(PagesOf(s.m, s.data), lo, hi)
  {
    var p, q := PagesOf(s'.m, s'.data), Without(PagesOf(s.m, s.data), lo, hi);
    forall v: nat ensures (v in p <==> v in q) && (v in p ==> p[v] == q[v]) {
      assert InSpan(lo, hi, v) <==> lo <= v < hi;
    }
  }

  lemma RangeSet(areas: map<nat, MapArea>, s: nat, a: MapArea)
    ensures RangesOf(areas[s := a]) == RangesOf(areas)[s := (a.end, a.perm)]
    ensures RangesOf(areas - {s}) == RangesOf(areas) - {s}
  {
  }

  datatype Op = InsertOp(start: nat, end: nat, perm: nat) | RemoveOp(start: nat) | BrkOp(newEnd: nat, heapStart: nat)

  /** End and permissions of the heap area, an empty one at its start if there is none. */
  function HeapRange(v: Space, heapStart: nat): (nat, nat) {
    if heapStart in v.ranges then v.ranges[heapStart] else (heapStart, RWU)
  }

  /** What the source assumes of a call: user addresses, and no conflict with mapped pages. */
  ghost predicate Legal(v: Space, op: Op) {
    match op
    case InsertOp(start, end, perm) =>
      && perm < 256 && start <= end <= USER_SPAN && (forall x | start <= x < end :: x !in v.pages)
      && (start in v.ranges ==> v.ranges[start].0 <= start)
    case RemoveOp(_) => true
    case BrkOp(newEnd, heapStart) =>
      heapStart < newEnd <= USER_SPAN && forall x | HeapRange(v, heapStart).0 <= x < newEnd :: x !in v.pages
  }

  /** One call on the space. */
  function Applied(v: Space, op: Op): Space {
    match op
    case InsertOp(start, end, perm) => Space(v.ranges[start := (end, perm)], WithZeros(v.pages, start, end, perm))
    case RemoveOp(start) =>
      if start in v.ranges then Space(v.ranges - {start}, Without(v.pages, start, v.ranges[start].0)) else v
    case BrkOp(newEnd, heapStart) =>
      var (end, perm) := HeapRange(v, heapStart);
      Space(v.ranges[heapStart := (newEnd, perm)],
            if newEnd <= end then Without(v.pages, newEnd, end) else WithZeros(v.pages, end, newEnd, perm))
  }

  function AppliedAll(v: Space, ops: seq<Op>, n: nat): Space
    requires n <= |ops|
  {
    if n == 0 then v else Applied(AppliedAll(v, ops, n - 1), ops[n - 1])
  }

  ghost predicate AllLegal(v: Space, ops: seq<Op>) { forall i: nat | i < |ops| :: Legal(AppliedAll(v, ops, i), ops[i]) }

  ghost function SpaceOf(s: MemorySet): Space
    reads s, s.pt, s.pt.ram
  {
    Space(RangesOf(s.areas), PagesOf(s.pt.ram.pages, s.data))
  }

  /** The memory a space can go on with: the page tables it has and the number of free frames. */
  datatype Account = Account(tables: set<Path>, spare: nat)

  ghost function AccountOf(s: MemorySet): Account
    reads s, s.pt, s.pt.ram
  {
    Account(PathsOf(s.pt.tree), |s.pt.ram.free|)
  }

  /** Pages from `lo` up to `hi` cost a frame each and one for each of their tables that is not there yet. */
  ghost function Bought(c: Account, lo: nat, hi: nat): Option<Account> {
    var need := (if lo <= hi then hi - lo else 0) + Missing(c.tables, TablesOf(lo, hi));
    if c.spare < need then None else Some(Account(c.tables + TablesOf(lo, hi), c.spare - need))
  }

  /** Pages give their frames back; tables stay. */
  function Refunded(c: Account, lo: nat, hi: nat): Account {
    if lo <= hi then c.(spare := c.spare + (hi - lo)) else c
  }

  /** One call as far as memory is concerned; None if there is too little. */
  ghost function Charged(v: Space, c: Account, op: Op): Option<Account> {
    match op
    case InsertOp(start, end, _) => Bought(c, start, end)
    case RemoveOp(start) => Some(if start in v.ranges then Refunded(c, start, v.ranges[start].0) else c)
    case BrkOp(newEnd, heapStart) =>
      var end := HeapRange(v, heapStart).0;
      if newEnd <= end then Some(Refunded(c, newEnd, end)) else Bought(c, end, newEnd)
  }

  ghost function ChargedAll(v: Space, c: Account, ops: seq<Op>, n: nat): Option<Account>
    requires n <= |ops|
  {
    if n == 0 then Some(c)
    else
      var before := ChargedAll(v, c, ops, n - 1);
      if before.None? then None else Charged(AppliedAll(v, ops, n - 1), before.value, ops[n - 1])
  }

  lemma {:induction false} NeverPaid(v: Space, c: Account, ops: seq<Op>, n: nat, k: nat)
    requires n <= k <= |ops| && ChargedAll(v, c, ops, n).None?
    ensures ChargedAll(v, c, ops, k).None?
    decreases k
  {
    if n < k { NeverPaid(v, c, ops, n, k - 1); }
  }

  lemma BoughtIs(t: Tree, n: nat, t': Tree, n': nat, lo: nat, hi: nat)
    requires lo <= hi
    ensures Bought(Account(PathsOf(t), n), lo, hi).Some? <==> n >= RangeNeed(t, lo, hi)
    ensures RangeCost(t, n, t', n', lo, hi) ==> Bought(Account(PathsOf(t), n), lo, hi) == Some(Account(PathsOf(t'), n'))
  {
  }

  method RunInsert(s: MemorySet, start: nat, end: nat, perm: nat) returns (ok: bool)
    requires s.Valid() && s.pend == map[] && Legal(SpaceOf(s), InsertOp(start, end, perm))
    modifies s, s.pt, s.pt.ram
    ensures !ok ==> s.pt.ram.free == {}
    ensures ok <==> Charged(old(SpaceOf(s)), old(AccountOf(s)), InsertOp(start, end, perm)).Some?
    ensures ok ==> s.Valid() && s.pend == map[] && SpaceOf(s) == Applied(old(SpaceOf(s)), InsertOp(start, end, perm))
    ensures ok ==> Some(AccountOf(s)) == Charged(old(SpaceOf(s)), old(AccountOf(s)), InsertOp(start, end, perm))
    ensures ok ==> Within(old(s.Now()), s.Now())
  {
    ghost var before, areas, t, n := s.Now(), s.areas, s.pt.tree, |s.pt.ram.free|;
    assert start in areas ==> Full(areas[start]);
    ok := s.InsertFramedArea(start, end, perm);
    BoughtIs(t, n, s.pt.tree, |s.pt.ram.free|, start, end);
    if ok {
      RangeSet(areas, start, s.areas[start]);
      ZerosView(s.areas[start], start, end, before, s.Now());
    }
  }

  method RunRemove(s: MemorySet, start: nat)
    requires s.Valid() && s.pend == map[]
    modifies s, s.pt, s.pt.ram
    ensures s.Valid() && s.pend == map[] && SpaceOf(s) == Applied(old(SpaceOf(s)), RemoveOp(start))
    ensures Some(AccountOf(s)) == Charged(old(SpaceOf(s)), old(AccountOf(s)), RemoveOp(start))
    ensures Within(old(s.Now()), s.Now())
  {
    ghost var before, areas := s.Now(), s.areas;
    ghost var v, t, n := SpaceOf(s), s.pt.tree, |s.pt.ram.free|;
    s.RemoveAreaWithStartVpn(start);
    RemoveViews(areas, before, s.Now(), start);
    RemoveCosts(v, areas, t, n, |s.pt.ram.free|, start);
  }

  lemma RemoveCosts(v: Space, areas: map<nat, MapArea>, t: Tree, n: nat, n': nat, start: nat)
    requires v.ranges == RangesOf(areas) && (start in areas ==> start <= areas[start].end)
    requires n' == n + if start in areas then areas[start].end - start else 0
    ensures Some(Account(PathsOf(t), n')) == Charged(v, Account(PathsOf(t), n), RemoveOp(start))
  {
  }

  lemma RemoveViews(areas: map<nat, MapArea>, s: Snapshot, s': Snapshot, start: nat)
    requires start !in areas ==> s'.data == s.data
    requires start in areas ==> Removed(s.data, s'.data, start, areas[start].end)
    requires SamePages(s.m, s'.m, s'.data)
    ensures Space(RangesOf(areas - {start}), PagesOf(s'.m, s'.data)) ==
            Applied(Space(RangesOf(areas), PagesOf(s.m, s.data)), RemoveOp(start))
  {
    RangeSet(areas, start, MapArea(0, 0, map[], 0));
    if start in areas {
      WithoutView(start, areas[start].end, s, s');
    } else {
      WithoutView(0, 0, s, s');
      WithoutNothing(PagesOf(s.m, s.data));
    }
  }

  lemma WithoutNothing(pages: map<nat, PageView>)
    ensures Without(pages, 0, 0) == pages
  {
    assert forall v: nat :: !InSpan(0, 0, v);
  }

  method RunBrk(s: MemorySet, newEnd: nat, heapStart: nat) returns (ok: bool)
    requires s.Valid() && s.pend == map[] && Legal(SpaceOf(s), BrkOp(newEnd, heapStart))
    modifies s, s.pt, s.pt.ram
    ensures !ok ==> s.pt.ram.free == {}
    ensures ok <==> Charged(old(SpaceOf(s)), old(AccountOf(s)), BrkOp(newEnd, heapStart)).Some?
    ensures ok ==> s.Valid() && s.pend == map[] && SpaceOf(s) == Applied(old(SpaceOf(s)), BrkOp(newEnd, heapStart))
    ensures ok ==> Some(AccountOf(s)) == Charged(old(SpaceOf(s)), old(AccountOf(s)), BrkOp(newEnd, heapStart))
    ensures ok ==> Within(old(s.Now()), s.Now())
  {
    ghost var v, before, areas, t, n := SpaceOf(s), s.Now(), s.areas, s.pt.tree, |s.pt.ram.free|;
    ghost var end := if heapStart in areas then areas[heapStart].end else heapStart;
    ok := s.SetUserBrk(newEnd, heapStart);
    BrkCosts(v, areas, t, n, s.pt.tree, |s.pt.ram.free|, newEnd, heapStart, end, ok);
    if ok { BrkViews(areas, s.areas, before, s.Now(), newEnd, heapStart, end); }
  }

  lemma BrkCosts(v: Space, areas: map<nat, MapArea>, t: Tree, n: nat, t': Tree, n': nat, newEnd: nat, heapStart: nat,
                 end: nat, ok: bool)
    requires v.ranges == RangesOf(areas) && end == if heapStart in areas then areas[heapStart].end else heapStart
    requires ok <==> newEnd <= end || n >= RangeNeed(t, end, newEnd)
    requires newEnd <= end ==> t' == t && n' == n + (end - newEnd)
    requires ok && newEnd > end ==> RangeCost(t, n, t', n', end, newEnd)
    ensures ok <==> Charged(v, Account(PathsOf(t), n), BrkOp(newEnd, heapStart)).Some?
    ensures ok ==> Some(Account(PathsOf(t'), n')) == Charged(v, Account(PathsOf(t), n), BrkOp(newEnd, heapStart))
  {
    assert HeapRange(v, heapStart).0 == end;
    if end < newEnd { BoughtIs(t, n, t', n', end, newEnd); }
  }

  /** Moving the end of the heap, as the user sees it. */
  lemma BrkViews(areas: map<nat, MapArea>, areas': map<nat, MapArea>, s: Snapshot, s': Snapshot, newEnd: nat,
                 heapStart: nat, end: nat)
    requires heapStart in areas' && areas' == areas[heapStart := areas'[heapStart]]
    requires end == if heapStart in areas then areas[heapStart].end else heapStart
    requires Resized(if heapStart in areas then areas[heapStart] else MapArea(heapStart, heapStart, map[], RWU),
                     areas'[heapStart], newEnd)
    requires if newEnd <= end then Removed(s.data, s'.data, newEnd, end) && SamePages(s.m, s'.m, s'.data)
             else NewPages(areas'[heapStart], end, newEnd, s, s') && SamePages(s.m, s'.m, s.data)
    ensures Space(RangesOf(areas'), PagesOf(s'.m, s'.data)) ==
            Applied(Space(RangesOf(areas), PagesOf(s.m, s.data)), BrkOp(newEnd, heapStart))
  {
    RangeSet(areas, heapStart, areas'[heapStart]);
    if newEnd <= end {
      WithoutView(newEnd, end, s, s');
    } else {
      ZerosView(areas'[heapStart], end, newEnd, s, s');
    }
  }

  method RunOne(s: MemorySet, op: Op) returns (ok: bool)
    requires s.Valid() && s.pend == map[] && Legal(SpaceOf(s), op)
    modifies s, s.pt, s.pt.ram
    ensures !ok ==> s.pt.ram.free == {}
    ensures ok <==> Charged(old(SpaceOf(s)), old(AccountOf(s)), op).Some?
    ensures ok ==> s.Valid() && s.pend == map[] && SpaceOf(s) == Applied(old(SpaceOf(s)), op)
    ensures ok ==> Some(AccountOf(s)) == Charged(old(SpaceOf(s)), old(AccountOf(s)), op)
    ensures ok ==> Within(old(s.Now()), s.Now())
  {
    match op
    case InsertOp(start, end, perm) =>
      ok := RunInsert(s, start, end, perm);
    case RemoveOp(start) =>
      RunRemove(s, start);
      ok := true;
    case BrkOp(newEnd, heapStart) =>
      ok := RunBrk(s, newEnd, heapStart);
  }

  lemma WithinTrans(a: Snapshot, b: Snapshot, c: Snapshot)
    requires Within(a, b) && Within(b, c)
    ensures Within(a, c)
  {
  }

  /** Any sequence of calls is the same sequence on the user's view of the space: pages come zeroed, keep permissions
      and contents as long as they are mapped, and go with their area. It runs out of memory exactly when its pages and
      their tables, less what it gives back, cost more frames than there are. */
  method RunAll(s: MemorySet, ops: seq<Op>) returns (ok: bool)
    requires s.Valid() && s.pend == map[] && AllLegal(SpaceOf(s), ops)
    modifies s, s.pt, s.pt.ram
    ensures ok <==> ChargedAll(old(SpaceOf(s)), old(AccountOf(s)), ops, |ops|).Some?
    ensures !ok ==> s.pt.ram.free == {}
    ensures ok ==> s.Valid() && s.pend == map[] && SpaceOf(s) == AppliedAll(old(SpaceOf(s)), ops, |ops|)
    ensures ok ==> Some(AccountOf(s)) == ChargedAll(old(SpaceOf(s)), old(AccountOf(s)), ops, |ops|)
    ensures ok ==> Within(old(s.Now()), s.Now())
  {
    ghost var start, begin, c := SpaceOf(s), s.Now(), AccountOf(s);
    for i := 0 to |ops|
      invariant s.Valid()
      invariant s.pend == map[] && SpaceOf(s) == AppliedAll(start, ops, i) && Within(begin, s.Now())
      invariant Some(AccountOf(s)) == ChargedAll(start, c, ops, i)
    {
      ghost var before := s.Now();
      ok := RunOne(s, ops[i]);
      if !ok {
        NeverPaid(start, c, ops, i + 1, |ops|);
        return;
      }
      WithinTrans(begin, before, s.Now());
    }
    ok := true;
  }

  lemma SameSpace(m: Frames, m': Frames, data: Data)
    requires SamePages(m, m', data)
    ensures PagesOf(m', data) == PagesOf(m, data)
  {
  }

  /** Meanwhile a space that shares no owned frame, such as the other side of a fork, stays as it was: areas,
      permissions and contents. */
  method RunBeside(s: MemorySet, other: MemorySet, ops: seq<Op>) returns (ok: bool)
    requires s.Valid() && s.pend == map[] && AllLegal(SpaceOf(s), ops) && other.Valid() && other.Apart(s)
    modifies s, s.pt, s.pt.ram
    ensures ok <==> ChargedAll(old(SpaceOf(s)), old(AccountOf(s)), ops, |ops|).Some?
    ensures !ok ==> s.pt.ram.free == {}
    ensures ok ==> s.Valid() && s.pend == map[] && SpaceOf(s) == AppliedAll(old(SpaceOf(s)), ops, |ops|)
    ensures ok ==> other.Valid() && other.Apart(s) && SpaceOf(other) == old(SpaceOf(other))
  {
    ghost var before, m := s.Now(), s.pt.ram.pages;
    ok := RunAll(s, ops);
    if ok {
      Bystander(before, s.Now(), other.pt.tree, other.pt.view, other.areas, other.pend, other.data);
      SameSpace(m, s.pt.ram.pages, other.data);
    }
  }
}
