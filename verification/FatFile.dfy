/** A file handle: a cursor over the bytes of a cluster chain. */
module FatFiles {
  import opened Bits
  import opened Disks
  import opened FatTables
  import opened Chains
  import opened FatFs
  import opened Options
  import opened Sequences

  const MAX_FILE_SIZE: nat := 0xFFFF_FFFF

  // ---------------------------------------------------------------- offsets and clusters

  /** The file offset at which cluster number `k` of a chain begins. */
  function Base(m: nat, k: nat): nat { if k == 0 then 0 else Base(m, k - 1) + m }

  lemma {:induction false} BaseMono(m: nat, a: nat, b: nat)
    requires a < b
    ensures Base(m, a) + m <= Base(m, b)
    decreases b
  {
    if a + 1 < b { BaseMono(m, a, b - 1); }
  }

  lemma {:induction false} BaseProduct(m: nat, k: nat)
    ensures Base(m, k) == m * k
  {
    if k > 0 { BaseProduct(m, k - 1); }
  }

  /** The offset inside a cluster: `off % m`, by `InClusterMod`. */
  function InCluster(m: nat, off: nat): (r: nat)
    requires m > 0
    ensures r < m
  {
    if off < m then off else InCluster(m, off - m)
  }

  lemma {:induction false} InClusterMod(m: nat, off: nat)
    requires m > 0
    ensures InCluster(m, off) == off % m
  {
    if off >= m {
      InClusterMod(m, off - m);
      var q, r := (off - m) / m, (off - m) % m;
      assert off - m == m * q + r;
      DivUnique(off, m, q + 1, r);
    } else {
      DivUnique(off, m, 0, off);
    }
  }

  /** An offset is a cluster's base plus the offset modulo the cluster size. */
  lemma SplitOffset(m: nat, off: nat) returns (k: nat)
    requires m > 0
    ensures k == off / m && off == Base(m, k) + off % m && off % m < m && off % m == InCluster(m, off)
  {
    k := off / m;
    BaseProduct(m, k);
    InClusterMod(m, off);
  }

  // ---------------------------------------------------------------- bytes of a chain

  ghost predicate InVolume(g: Geometry, s: seq<nat>) { forall i | 0 <= i < |s| :: RESERVED <= s[i] < g.End() }

  ghost function ClusterBytes(g: Geometry, disk: Bytes, c: nat): (r: Bytes)
    requires Fitting(g, disk) && RESERVED <= c < g.End()
    ensures |r| == g.clusterSize
  {
    ClusterBounds(g, disk, c);
    Window(disk, ClusterOffset(g, c), g.clusterSize)
  }

  /** The clusters of a chain, one after the other. */
  ghost function Flat(g: Geometry, disk: Bytes, s: seq<nat>): (r: Bytes)
    requires Fitting(g, disk) && InVolume(g, s)
    ensures |r| == Base(g.clusterSize, |s|)
  {
    if s == [] then [] else Flat(g, disk, s[..|s| - 1]) + ClusterBytes(g, disk, s[|s| - 1])
  }

  lemma {:induction false} FlatCluster(g: Geometry, disk: Bytes, s: seq<nat>, k: nat)
    requires Fitting(g, disk) && InVolume(g, s) && k < |s|
    ensures Base(g.clusterSize, k) + g.clusterSize <= Base(g.clusterSize, |s|)
    ensures Window(Flat(g, disk, s), Base(g.clusterSize, k), g.clusterSize) == ClusterBytes(g, disk, s[k])
    decreases |s|
  {
    var n := |s| - 1;
    BaseMono(g.clusterSize, k, |s|);
    if k < n {
      FlatCluster(g, disk, s[..n], k);
      BaseMono(g.clusterSize, k, n);
    }
  }

  lemma {:induction false} FlatSame(g: Geometry, disk: Bytes, disk': Bytes, s: seq<nat>)
    requires Fitting(g, disk) && Fitting(g, disk') && InVolume(g, s)
    requires forall c | c in s && RESERVED <= c < g.End() :: ClusterBytes(g, disk', c) == ClusterBytes(g, disk, c)
    ensures Flat(g, disk', s) == Flat(g, disk, s)
    decreases |s|
  {
    if s != [] {
      assert s[|s| - 1] in s;
      forall c | c in s[..|s| - 1] ensures c in s {}
      FlatSame(g, disk, disk', s[..|s| - 1]);
    }
  }

  /** The disk after `w` has been written at offset `o` of cluster `c`. */
  ghost function Written(g: Geometry, disk: Bytes, c: nat, o: nat, w: Bytes): (r: Bytes)
    requires Fitting(g, disk) && RESERVED <= c < g.End() && o + |w| <= g.clusterSize
    ensures |r| == |disk| && Fitting(g, r)
  {
    ClusterBounds(g, disk, c);
    Splice(disk, ClusterOffset(g, c) + o, w)
  }

  lemma WrittenCluster(g: Geometry, disk: Bytes, c: nat, o: nat, w: Bytes, d: nat)
    requires Fitting(g, disk) && RESERVED <= c < g.End() && o + |w| <= g.clusterSize && RESERVED <= d < g.End()
    ensures ClusterBytes(g, Written(g, disk, c, o, w), d) ==
            if d == c then Splice(ClusterBytes(g, disk, c), o, w) else ClusterBytes(g, disk, d)
  {
    ClusterBounds(g, disk, c);
    ClusterBounds(g, disk, d);
    if d == c {
      WindowInside(disk, ClusterOffset(g, c), g.clusterSize, o, w);
    } else {
      if c < d { ClustersApart(g, c, d); } else { ClustersApart(g, d, c); }
      WindowOutside(disk, ClusterOffset(g, d), g.clusterSize, ClusterOffset(g, c) + o, w);
    }
  }

  /** A chain without cluster `c` does not see a write to `c`. */
  lemma {:induction false} FlatElsewhere(g: Geometry, disk: Bytes, s: seq<nat>, c: nat, o: nat, w: Bytes)
    requires Fitting(g, disk) && InVolume(g, s) && c !in s && RESERVED <= c < g.End() && o + |w| <= g.clusterSize
    ensures Flat(g, Written(g, disk, c, o, w), s) == Flat(g, disk, s)
  {
    var disk' := Written(g, disk, c, o, w);
    forall d | d in s && RESERVED <= d < g.End() ensures ClusterBytes(g, disk', d) == ClusterBytes(g, disk, d) {
      WrittenCluster(g, disk, c, o, w, d);
    }
    FlatSame(g, disk, disk', s);
  }

  lemma FlatWriteLast(g: Geometry, disk: Bytes, s: seq<nat>, o: nat, w: Bytes)
    requires Fitting(g, disk) && InVolume(g, s) && NoRepeats(s) && s != [] && o + |w| <= g.clusterSize
    ensures Flat(g, Written(g, disk, s[|s| - 1], o, w), s) ==
            Splice(Flat(g, disk, s), Base(g.clusterSize, |s| - 1) + o, w)
  {
    var n := |s| - 1;
    NoRepeatsSplit(s, n);
    assert s[n..][0] == s[n] && s[n] in s[n..];
    FlatElsewhere(g, disk, s[..n], s[n], o, w);
    WrittenCluster(g, disk, s[n], o, w, s[n]);
    SpliceRight(Flat(g, disk, s[..n]), ClusterBytes(g, disk, s[n]), o, w);
  }

  /** Writing inside one cluster of a chain writes the same bytes, at `at`, into the flattened chain. */
  lemma {:induction false} FlatWrite(g: Geometry, disk: Bytes, s: seq<nat>, k: nat, o: nat, w: Bytes, at: nat)
    requires Fitting(g, disk) && InVolume(g, s) && NoRepeats(s) && k < |s| && o + |w| <= g.clusterSize &&
             at == Base(g.clusterSize, k) + o
    ensures at + |w| <= Base(g.clusterSize, |s|)
    ensures Flat(g, Written(g, disk, s[k], o, w), s) == Splice(Flat(g, disk, s), at, w)
    decreases |s|
  {
    BaseMono(g.clusterSize, k, |s|);
    if k == |s| - 1 {
      FlatWriteLast(g, disk, s, o, w);
    } else {
      NoRepeatsSplit(s, |s| - 1);
      Differ(s, k, |s| - 1);
      FlatWrite(g, disk, s[..|s| - 1], k, o, w, at);
      FlatWriteInner(g, disk, s, k, o, w, at);
    }
  }

  lemma {:induction false} FlatWriteInner(g: Geometry, disk: Bytes, s: seq<nat>, k: nat, o: nat, w: Bytes, at: nat)
    requires Fitting(g, disk) && InVolume(g, s) && k < |s| - 1 && s[k] != s[|s| - 1] && o + |w| <= g.clusterSize
    requires at + |w| <= Base(g.clusterSize, |s| - 1) && InVolume(g, s[..|s| - 1])
    requires Flat(g, Written(g, disk, s[k], o, w), s[..|s| - 1]) == Splice(Flat(g, disk, s[..|s| - 1]), at, w)
    ensures at + |w| <= Base(g.clusterSize, |s|)
    ensures Flat(g, Written(g, disk, s[k], o, w), s) == Splice(Flat(g, disk, s), at, w)
  {
    WrittenCluster(g, disk, s[k], o, w, s[|s| - 1]);
    SpliceLeft(Flat(g, disk, s[..|s| - 1]), ClusterBytes(g, disk, s[|s| - 1]), at, w);
  }

  lemma {:induction false} FlatPrefix(g: Geometry, disk: Bytes, s: seq<nat>, k: nat)
    requires Fitting(g, disk) && InVolume(g, s) && k <= |s|
    ensures Base(g.clusterSize, k) <= Base(g.clusterSize, |s|)
    ensures Flat(g, disk, s[..k]) == Flat(g, disk, s)[..Base(g.clusterSize, k)]
    decreases |s|
  {
    if k == |s| {
      assert s[..k] == s;
    } else {
      FlatPrefix(g, disk, s[..|s| - 1], k);
      assert s[..|s| - 1][..k] == s[..k];
    }
  }

  /** The first `size` bytes of a chain. */
  ghost function Contents(g: Geometry, disk: Bytes, s: seq<nat>, size: nat): (r: Bytes)
    requires Fitting(g, disk) && InVolume(g, s) && size <= Base(g.clusterSize, |s|)
    ensures |r| == size
  {
    Flat(g, disk, s)[..size]
  }

  /** The file's bytes with `w` written at `off`. */
  function Overwrite(b: Bytes, off: nat, w: Bytes): (r: Bytes)
    requires off <= |b|
    ensures |r| == if off + |w| > |b| then off + |w| else |b|
  {
    b[..off] + w + (if off + |w| <= |b| then b[off + |w|..] else [])
  }

  lemma OverwritePrefix(a: Bytes, size: nat, off: nat, w: Bytes)
    requires off <= size <= |a| && off + |w| <= |a|
    ensures Splice(a, off, w)[..if off + |w| > size then off + |w| else size] == Overwrite(a[..size], off, w)
  {
  }

  // ---------------------------------------------------------------- the cursor

  datatype SeekFrom = Start(pos: nat) | Current(delta: int) | FromEnd(delta: int)

  /** What a handle shows: the file's bytes and a position in them. */
  datatype View = View(bytes: Bytes, pos: nat)

  /** Bytes one call can transfer: it never crosses a cluster. */
  function CallLimit(g: Geometry, off: nat, n: nat): nat
    requires g.clusterSize > 0
  {
    Min(n, g.clusterSize - InCluster(g.clusterSize, off))
  }

  /** Bytes a write call takes. */
  function WriteCount(g: Geometry, pos: nat, len: nat): nat
    requires g.clusterSize > 0 && pos <= MAX_FILE_SIZE
  {
    Min(CallLimit(g, pos, len), MAX_FILE_SIZE - pos)
  }

  /** Clusters a file holds and clusters that are free. */
  datatype Room = Room(held: nat, spare: nat)

  /** The position is behind the last cluster and there is no other. */
  predicate NoRoom(g: Geometry, pos: nat, room: Room) { room.spare == 0 && pos >= Base(g.clusterSize, room.held) }

  /** One cluster more for the file if cluster number `k` is not among those it has. */
  function Taken(room: Room, k: nat): Room {
    if k < room.held || room.spare == 0 then room else Room(room.held + 1, room.spare - 1)
  }

  /** After `n` bytes have been written at `pos`. */
  function RoomAfter(g: Geometry, pos: nat, n: nat, room: Room): Room {
    if n == 0 || pos < Base(g.clusterSize, room.held) || room.spare == 0 then room
    else Room(room.held + 1, room.spare - 1)
  }

  /** After cutting at `pos`: the clusters that hold a byte before it are kept. */
  function Cut(g: Geometry, pos: nat, room: Room): Room
    requires g.clusterSize > 0
  {
    var keep := Min((pos + g.clusterSize - 1) / g.clusterSize, room.held);
    Room(keep, room.held - keep + room.spare)
  }

  /** The largest size the file can grow to. */
  function Capacity(g: Geometry, room: Room): nat { Min(MAX_FILE_SIZE, Base(g.clusterSize, room.held + room.spare)) }

  /** A write trades free clusters for held ones, and fails for want of room only at the capacity. */
  lemma CapacityFacts(g: Geometry, pos: nat, room: Room)
    requires pos <= Capacity(g, room)
    ensures forall n: nat :: Capacity(g, RoomAfter(g, pos, n, room)) == Capacity(g, room)
    ensures NoRoom(g, pos, room) ==> pos == Capacity(g, room)
  {
  }

  /** Behind the last cluster of `n` means in none of them. */
  lemma {:induction false} Behind(m: nat, k: nat, o: nat, n: nat)
    requires o < m
    ensures Base(m, k) + o >= Base(m, n) <==> k >= n
  {
    if k < n { BaseMono(m, k, n); } else if k > n { BaseMono(m, n, k); }
  }

  lemma KeptIsCeil(m: nat, off: nat, keep: nat)
    requires m > 0 && if off > 0 then keep > 0 && EndsIn(m, keep - 1, off) else keep == 0
    ensures keep == (off + m - 1) / m
  {
    if off > 0 {
      CeilCluster(m, off);
      EndsInUnique(m, keep - 1, (off + m - 1) / m - 1, off);
    } else {
      NoCeil(m);
    }
  }

  lemma CutRoom(g: Geometry, off: nat, room: Room, keep: nat)
    requires g.clusterSize > 0 && keep <= room.held
    requires if off > 0 then keep > 0 && EndsIn(g.clusterSize, keep - 1, off) else keep == 0
    ensures Cut(g, off, room) == Room(keep, room.held - keep + room.spare)
  {
    KeptIsCeil(g.clusterSize, off, keep);
  }

  /** The position a seek asks for, before clamping; `None` is invalid input. */
  function Target(v: View, p: SeekFrom): Option<nat> {
    var n := match p { case Start(x) => x case Current(d) => v.pos + d case FromEnd(d) => |v.bytes| + d };
    if 0 <= n <= MAX_FILE_SIZE then Some(n) else None
  }

  /** The byte before offset `off` lies in cluster number `k`. */
  ghost predicate EndsIn(m: nat, k: nat, off: nat) { Base(m, k) < off <= Base(m, k) + m }

  lemma EndsInUnique(m: nat, k: nat, j: nat, off: nat)
    requires EndsIn(m, k, off) && EndsIn(m, j, off)
    ensures k == j
  {
    if k < j { BaseMono(m, k, j); }
    if j < k { BaseMono(m, j, k); }
  }

  /** The cursor is before the first cluster at offset 0, and otherwise on the cluster of the byte before it. */
  ghost predicate CursorAt(g: Geometry, s: seq<nat>, off: nat, cur: Option<nat>) {
    if off == 0 then cur.None?
    else exists k: nat {:trigger EndsIn(g.clusterSize, k, off)} ::
      k < |s| && EndsIn(g.clusterSize, k, off) && cur == Some(s[k])
  }

  /** Said with division: the cursor is chain element (offset - 1) / cluster size. */
  lemma {:induction false} CursorIndex(g: Geometry, s: seq<nat>, off: nat, cur: Option<nat>)
    requires g.clusterSize > 0 && off <= Base(g.clusterSize, |s|)
    ensures off > 0 ==> (off - 1) / g.clusterSize < |s|
    ensures CursorAt(g, s, off, cur) <==> cur == if off == 0 then None else Some(s[(off - 1) / g.clusterSize])
  {
    if off > 0 {
      var k := SplitOffset(g.clusterSize, off - 1);
      if k >= |s| && k > |s| { BaseMono(g.clusterSize, |s|, k); }
      assert EndsIn(g.clusterSize, k, off);
      if CursorAt(g, s, off, cur) {
        var j: nat :| j < |s| && EndsIn(g.clusterSize, j, off) && cur == Some(s[j]);
        EndsInUnique(g.clusterSize, k, j, off);
      }
    }
  }

  ghost function FirstOf(s: seq<nat>): Option<nat> { if s == [] then None else Some(s[0]) }

  ghost function NthOf(s: seq<nat>, k: nat): Option<nat> { if k < |s| then Some(s[k]) else None }

  /** The entry after cluster `k` of a chain. */
  lemma ChainNext(tab: Table, s: seq<nat>, k: nat)
    requires IsChain(tab, s) && k < |s|
    ensures s[k] < |tab|
    ensures NthOf(s, k + 1) == if tab[s[k]].Data? then Some(tab[s[k]].next) else None
  {
    if k + 1 < |s| { assert Link(tab, s, k); }
  }

  /** The cluster of the offset is the first one, the successor of the cursor's, or the cursor's own. */
  lemma {:induction false} OffsetCluster(g: Geometry, tab: Table, s: seq<nat>, off: nat, cur: Option<nat>, k: nat,
                                         o: nat)
    requires (s != [] ==> IsChain(tab, s)) && |tab| == g.End() && g.clusterSize > 0
    requires CursorAt(g, s, off, cur) && off == Base(g.clusterSize, k) + o && o < g.clusterSize
    ensures cur.None? ==> o == 0 && NthOf(s, k) == FirstOf(s)
    ensures cur.Some? ==> cur.value < g.End()
    ensures cur.Some? && o == 0 ==> NthOf(s, k) == if tab[cur.value].Data? then Some(tab[cur.value].next) else None
    ensures cur.Some? && o > 0 ==> NthOf(s, k) == cur
  {
    var m := g.clusterSize;
    if off > 0 {
      var j: nat :| j < |s| && EndsIn(m, j, off) && cur == Some(s[j]);
      ChainNext(tab, s, j);
      if o == 0 {
        assert EndsIn(m, k - 1, off);
        EndsInUnique(m, j, k - 1, off);
      } else {
        assert EndsIn(m, k, off);
        EndsInUnique(m, j, k, off);
      }
    }
  }

  // ---------------------------------------------------------------- other files

  lemma ChainInVolume(g: Geometry, tab: Table, files: Files, f: nat)
    requires |tab| == g.End() && ChainsOk(tab, files) && f in files
    ensures InVolume(g, files[f]) && NoRepeats(files[f])
  {
    if files[f] != [] { assert IsChain(tab, files[f]); }
  }

  lemma NotInOthers(tab: Table, files: Files, f: nat, h: nat, c: nat)
    requires ChainsOk(tab, files) && f in files && h in files && f != h && c in files[f]
    ensures c !in files[h]
  {
    var i: nat :| i < |files[f]| && files[f][i] == c;
    assert Owns(files, f, i, c);
    assert forall j: nat | j < |files[h]| && files[h][j] == c :: Owns(files, h, j, c);
  }

  /** Chain and stored bytes of every file but `f` are the same. */
  ghost predicate OthersSame(g: Geometry, disk: Bytes, disk': Bytes, files: Files, files': Files, f: nat) {
    && Fitting(g, disk) && Fitting(g, disk')
    && forall h | h in files && h != f ::
         h in files' && files'[h] == files[h] && InVolume(g, files[h]) &&
             Flat(g, disk', files[h]) == Flat(g, disk, files[h])
  }

  /** Table writes do not show in any file. */
  lemma {:induction false} SameDataFlat(g: Geometry, disk: Bytes, disk': Bytes, s: seq<nat>)
    requires Fitting(g, disk) && Fitting(g, disk') && SameData(g, disk, disk') && InVolume(g, s)
    ensures Flat(g, disk', s) == Flat(g, disk, s)
  {
    forall c | c in s && RESERVED <= c < g.End() ensures ClusterBytes(g, disk', c) == ClusterBytes(g, disk, c) {
      ClusterBounds(g, disk, c);
    }
    FlatSame(g, disk, disk', s);
  }

  lemma SameDataOthers(g: Geometry, disk: Bytes, disk': Bytes, tab: Table, files: Files, files': Files, f: nat)
    requires Fitting(g, disk) && Fitting(g, disk') && SameData(g, disk, disk') && |tab| == g.End() &&
             ChainsOk(tab, files)
    requires forall h | h in files && h != f :: h in files' && files'[h] == files[h]
    ensures OthersSame(g, disk, disk', files, files', f)
  {
    forall h | h in files && h != f ensures InVolume(g, files[h]) &&
        Flat(g, disk', files[h]) == Flat(g, disk, files[h]) {
      ChainInVolume(g, tab, files, h);
      SameDataFlat(g, disk, disk', files[h]);
    }
  }

  lemma WrittenOthers(g: Geometry, disk: Bytes, tab: Table, files: Files, f: nat, c: nat, o: nat, w: Bytes)
    requires Fitting(g, disk) && |tab| == g.End() && ChainsOk(tab, files) && f in files && c in files[f]
    requires RESERVED <= c < g.End() && o + |w| <= g.clusterSize
    ensures OthersSame(g, disk, Written(g, disk, c, o, w), files, files, f)
  {
    var disk' := Written(g, disk, c, o, w);
    forall h | h in files && h != f ensures InVolume(g, files[h]) &&
        Flat(g, disk', files[h]) == Flat(g, disk, files[h]) {
      ChainInVolume(g, tab, files, h);
      NotInOthers(tab, files, f, h, c);
      FlatElsewhere(g, disk, files[h], c, o, w);
    }
  }

  lemma OthersTrans(g: Geometry, d0: Bytes, d1: Bytes, d2: Bytes, f0: Files, f1: Files, f2: Files, f: nat)
    requires OthersSame(g, d0, d1, f0, f1, f) && OthersSame(g, d1, d2, f1, f2, f)
    ensures OthersSame(g, d0, d2, f0, f2, f)
  {
  }

  ghost function BytesOf(g: Geometry, disk: Bytes, tab: Table, files: Files, f: nat, size: nat): (b: Bytes)
    requires Fitting(g, disk) && |tab| == g.End() && ChainsOk(tab, files) && f in files &&
             size <= Base(g.clusterSize, |files[f]|)
    ensures |b| == size
  {
    ChainInVolume(g, tab, files, f);
    Contents(g, disk, files[f], size)
  }

  // ---------------------------------------------------------------- the handle

  lemma {:induction false} ReadFlat(g: Geometry, disk: Bytes, tab: Table, files: Files, f: nat, size: nat, k: nat,
                                    o: nat, off: nat, n: nat)
    requires Fitting(g, disk) && |tab| == g.End() && ChainsOk(tab, files) && f in files && k < |files[f]|
    requires size <= Base(g.clusterSize, |files[f]|) && o + n <= g.clusterSize && off == Base(g.clusterSize, k) + o &&
             off + n <= size
    ensures RESERVED <= files[f][k] < g.End()
    ensures var at := ClusterOffset(g, files[f][k]) + o;
            at + n <= |disk| && disk[at..at + n] == BytesOf(g, disk, tab, files, f, size)[off..off + n]
  {
    ChainInVolume(g, tab, files, f);
    var c := files[f][k];
    ClusterBounds(g, disk, c);
    FlatCluster(g, disk, files[f], k);
    var flat := Flat(g, disk, files[f]);
    assert flat[..size][off..off + n] == flat[off..off + n];
    WindowSlice(flat, Base(g.clusterSize, k), g.clusterSize, o, n);
    WindowSlice(disk, ClusterOffset(g, c), g.clusterSize, o, n);
  }

  /** Past the last cluster there is nothing left to read. */
  lemma {:induction false} AtEnd(g: Geometry, s: seq<nat>, size: nat, off: nat, k: nat, o: nat)
    requires off == Base(g.clusterSize, k) + o && off <= size <= Base(g.clusterSize, |s|) && k >= |s|
    ensures off == size
  {
    if k > |s| { BaseMono(g.clusterSize, |s|, k); }
  }

  lemma {:induction false} CursorMoves(g: Geometry, s: seq<nat>, k: nat, o: nat, n: nat, off: nat, cur: Option<nat>)
    requires k < |s| && 0 < n && o + n <= g.clusterSize && off == Base(g.clusterSize, k) + o + n && cur == Some(s[k])
    ensures CursorAt(g, s, off, cur)
  {
    assert EndsIn(g.clusterSize, k, off);
  }

  class File {
    const fs: FileSystem
    ghost const id: nat
    var first: Option<nat>
    var current: Option<nat>
    var offset: nat
    var size: nat
    var entryFirst: Option<nat>

    ghost predicate Valid()
      reads this, fs
    {
      && fs.Valid() && id in fs.files
      && offset <= size <= MAX_FILE_SIZE && size <= Base(fs.g.clusterSize, |fs.files[id]|)
      && CursorAt(fs.g, fs.files[id], offset, current)
      && first == entryFirst == FirstOf(fs.files[id])
    }

    ghost function ViewOf(): View
      reads this, fs
      requires Valid()
    {
      View(BytesOf(fs.g, fs.disk, fs.Tab(), fs.files, id, size), offset)
    }

    /** Clusters the file holds, and clusters still free on the volume. */
    ghost function RoomOf(): Room
      reads this, fs
      requires Valid()
    {
      Room(|fs.files[id]|, |FreeSet(fs.Tab())|)
    }

    /** Opening a file: the cursor starts before the first cluster. */
    constructor (fs: FileSystem, first: Option<nat>, size: nat, ghost id: nat)
      requires fs.Valid() && id in fs.files && size <= MAX_FILE_SIZE && size <= Base(fs.g.clusterSize, |fs.files[id]|)
      requires first == FirstOf(fs.files[id])
      ensures Valid() && this.fs == fs && this.id == id && this.size == size
      ensures ViewOf() == View(BytesOf(fs.g, fs.disk, fs.Tab(), fs.files, id, size), 0)
    {
      this.fs, this.id, this.first, this.entryFirst, this.size := fs, id, first, first, size;
      current, offset := None, 0;
    }

    /** The cluster of the byte at the offset, if the chain has one; `k` is its number and `o` the offset in it. */
    method ClusterAtOffset(ghost k: nat, o: nat) returns (c: Option<nat>)
      requires Valid() && offset == Base(fs.g.clusterSize, k) + o && o < fs.g.clusterSize
      ensures c == NthOf(fs.files[id], k)
    {
      OffsetCluster(fs.g, fs.Tab(), fs.files[id], offset, current, k, o);
      if o == 0 {
        match current
        case None => c := first;
        case Some(n) => c := fs.NextCluster(n);
      } else {
        c := current;
      }
    }

    /** The bytes a read returns and the cluster they come from. */
    method Fetch(ghost k: nat, o: nat, len: nat) returns (r: Bytes, found: Option<nat>)
      requires Valid() && offset == Base(fs.g.clusterSize, k) + o && o < fs.g.clusterSize
      ensures |r| == Min(Min(len, fs.g.clusterSize - o), size - offset)
      ensures r == ViewOf().bytes[offset..offset + |r|]
      ensures r != [] ==> found == NthOf(fs.files[id], k) && found.Some?
    {
      found := ClusterAtOffset(k, o);
      if found.None? {
        AtEnd(fs.g, fs.files[id], size, offset, k, o);
        return [], None;
      }
      var n := Min(Min(len, fs.g.clusterSize - o), size - offset);
      r := Load(found.value, k, o, n);
    }

    /** The `n` bytes at the offset, from cluster `c`, number `k` of the chain. */
    method Load(c: nat, ghost k: nat, o: nat, n: nat) returns (r: Bytes)
      requires Valid() && offset == Base(fs.g.clusterSize, k) + o && o + n <= fs.g.clusterSize && offset + n <= size
      requires k < |fs.files[id]| && c == fs.files[id][k]
      ensures |r| == n && r == ViewOf().bytes[offset..offset + n]
    {
      ReadFlat(fs.g, fs.disk, fs.Tab(), fs.files, id, size, k, o, offset, n);
      var at := ClusterOffset(fs.g, c) + o;
      r := fs.disk[at..at + n];
    }

    method Read(len: nat) returns (r: Bytes)
      requires Valid()
      modifies this
      ensures Valid() && ViewOf() == View(old(ViewOf()).bytes, old(offset) + |r|)
      ensures |r| == Min(CallLimit(fs.g, old(offset), len), |old(ViewOf()).bytes| - old(offset))
      ensures r == old(ViewOf()).bytes[old(offset)..old(offset) + |r|]
    {
      ghost var k := SplitOffset(fs.g.clusterSize, offset);
      var found;
      var o := offset % fs.g.clusterSize;
      r, found := Fetch(k, o, len);
      if |r| == 0 {
        return;
      }
      CursorMoves(fs.g, fs.files[id], k, o, |r|, offset + |r|, found);
      offset := offset + |r|;
      current := found;
    }

    /** The cluster to write to at the offset, allocated at the end of the chain if need be. */
    method ClusterForWrite(ghost k: nat, o: nat) returns (c: Option<nat>)
      requires Valid() && offset == Base(fs.g.clusterSize, k) + o && o < fs.g.clusterSize
      modifies this`first, this`entryFirst, fs
      ensures Valid() && ViewOf() == old(ViewOf())
      ensures OthersSame(fs.g, old(fs.disk), fs.disk, old(fs.files), fs.files, id)
      ensures c.None? <==> k >= |old(fs.files)[id]| && FreeSet(old(fs.Tab())) == {}
      ensures c.None? ==> fs.disk == old(fs.disk) && fs.files == old(fs.files)
      ensures c.Some? ==> c == NthOf(fs.files[id], k) && RoomOf() == Taken(old(RoomOf()), k)
    {
      ghost var tab, files, disk := fs.Tab(), fs.files, fs.disk;
      c := ClusterAtOffset(k, o);
      if c.None? {
        CursorLast(fs.g, files[id], offset, size, current, k, o);
        c := Grow();
      }
      SameDataOthers(fs.g, disk, fs.disk, tab, files, fs.files, id);
    }

    /** Allocate a cluster behind the cursor's, the last of the chain. */
    method Grow() returns (c: Option<nat>)
      requires Valid() && current == if fs.files[id] == [] then None else Some(fs.files[id][|fs.files[id]| - 1])
      modifies this`first, this`entryFirst, fs
      ensures Valid() && ViewOf() == old(ViewOf()) && SameData(fs.g, old(fs.disk), fs.disk)
      ensures c.None? <==> FreeSet(old(fs.Tab())) == {}
      ensures c.None? ==> fs.disk == old(fs.disk) && fs.files == old(fs.files)
      ensures c.Some? ==>
              fs.files == old(fs.files)[id := old(fs.files)[id] + [c.value]] &&
              |FreeSet(fs.Tab())| == |FreeSet(old(fs.Tab()))| - 1
    {
      ghost var tab, files, disk := fs.Tab(), fs.files, fs.disk;
      c := fs.AllocCluster(current, id);
      if c.Some? {
        if first.None? {
          first := c;
          entryFirst := c;
        }
        GrownBytes(fs.g, disk, fs.disk, tab, fs.Tab(), files, id, c.value, size);
        CursorGrows(fs.g, files[id], offset, current, c.value);
      }
    }

    /** Write `w` into cluster `c`, number `k` of the chain. */
    method StoreDisk(c: nat, ghost k: nat, o: nat, w: Bytes)
      requires Valid() && k < |fs.files[id]| && c == fs.files[id][k] && offset == Base(fs.g.clusterSize, k) + o &&
               o + |w| <= fs.g.clusterSize
      modifies fs`disk
      ensures fs.Valid() && Max(size, offset + |w|) <= Base(fs.g.clusterSize, |fs.files[id]|)
      ensures BytesOf(fs.g, fs.disk, fs.Tab(), fs.files, id, Max(size, offset + |w|)) ==
              Overwrite(old(ViewOf()).bytes, offset, w)
      ensures OthersSame(fs.g, old(fs.disk), fs.disk, fs.files, fs.files, id) && fs.Tab() == old(fs.Tab())
    {
      StoreFits(fs.g, fs.disk, fs.Tab(), fs.files, id, k, o, w);
      var disk := Splice(fs.disk, ClusterOffset(fs.g, c) + o, w);
      StoreBytes(fs.g, fs.disk, fs.Tab(), fs.files, id, size, k, o, offset, w, disk, Max(size, offset + |w|));
      fs.disk := disk;
    }

    /** Put `w` into cluster `c`, number `k` of the chain, at the offset. */
    method Store(c: nat, ghost k: nat, o: nat, w: Bytes)
      requires Valid() && k < |fs.files[id]| && c == fs.files[id][k] && offset == Base(fs.g.clusterSize, k) + o
      requires w != [] && o + |w| <= fs.g.clusterSize && offset + |w| <= MAX_FILE_SIZE
      modifies this`offset, this`current, this`size, fs`disk
      ensures Valid() && ViewOf() == View(Overwrite(old(ViewOf()).bytes, old(offset), w), old(offset) + |w|)
      ensures OthersSame(fs.g, old(fs.disk), fs.disk, fs.files, fs.files, id) && fs.Tab() == old(fs.Tab())
    {
      ghost var bytes := Overwrite(ViewOf().bytes, offset, w);
      StoreDisk(c, k, o, w);
      CursorMoves(fs.g, fs.files[id], k, o, |w|, offset + |w|, Some(c));
      Advance(c, |w|, bytes);
    }

    /** Move the cursor behind the bytes written and grow the size if need be. */
    method Advance(c: nat, n: nat, ghost bytes: Bytes)
      requires fs.Valid() && id in fs.files && first == entryFirst == FirstOf(fs.files[id])
      requires offset + n <= MAX_FILE_SIZE && size <= MAX_FILE_SIZE &&
               Max(size, offset + n) <= Base(fs.g.clusterSize, |fs.files[id]|)
      requires CursorAt(fs.g, fs.files[id], offset + n, Some(c)) &&
               BytesOf(fs.g, fs.disk, fs.Tab(), fs.files, id, Max(size, offset + n)) == bytes
      modifies this`offset, this`current, this`size
      ensures Valid() && ViewOf() == View(bytes, old(offset) + n)
    {
      offset := offset + n;
      current := Some(c);
      if offset > size {
        size := offset;
      }
    }

    /** One write call: up to the end of the cluster. It fails exactly when there is something to write, the cursor is
        behind the last cluster of the file and no cluster is free. */
    method Write(buf: Bytes) returns (r: Option<nat>)
      requires Valid()
      modifies this, fs
      ensures Valid() && old(offset) <= MAX_FILE_SIZE && fs.g.clusterSize > 0
      ensures OthersSame(fs.g, old(fs.disk), fs.disk, old(fs.files), fs.files, id)
      ensures r.None? <==> WriteCount(fs.g, old(offset), |buf|) > 0 && NoRoom(fs.g, old(offset), old(RoomOf()))
      ensures r.None? ==> ViewOf() == old(ViewOf()) && RoomOf() == old(RoomOf()) && fs.disk == old(fs.disk)
      ensures r.Some? ==> r.value == WriteCount(fs.g, old(offset), |buf|)
      ensures r.Some? ==>
              ViewOf() == View(Overwrite(old(ViewOf()).bytes, old(offset), buf[..r.value]), old(offset) + r.value)
      ensures r.Some? ==> RoomOf() == RoomAfter(fs.g, old(offset), r.value, old(RoomOf()))
    {
      ghost var k := SplitOffset(fs.g.clusterSize, offset);
      var o := offset % fs.g.clusterSize;
      var n := Min(Min(|buf|, fs.g.clusterSize - o), MAX_FILE_SIZE - offset);
      if n == 0 {
        OverwriteNothing(ViewOf().bytes, offset);
        ChainsSame(fs.g, fs.disk, fs.Tab(), fs.files, id);
        return Some(0);
      }
      var ok := WriteInto(k, o, buf[..n]);
      return if ok then Some(n) else None;
    }

    /** Write `w` at the cursor, number `k` of the chain, in a cluster allocated if need be. */
    method WriteInto(ghost k: nat, o: nat, w: Bytes) returns (ok: bool)
      requires Valid() && offset == Base(fs.g.clusterSize, k) + o && o < fs.g.clusterSize
      requires w != [] && o + |w| <= fs.g.clusterSize && offset + |w| <= MAX_FILE_SIZE
      modifies this, fs
      ensures Valid() && OthersSame(fs.g, old(fs.disk), fs.disk, old(fs.files), fs.files, id)
      ensures !ok <==> NoRoom(fs.g, old(offset), old(RoomOf()))
      ensures !ok ==> ViewOf() == old(ViewOf()) && RoomOf() == old(RoomOf()) && fs.disk == old(fs.disk)
      ensures ok ==> ViewOf() == View(Overwrite(old(ViewOf()).bytes, old(offset), w), old(offset) + |w|)
      ensures ok ==> RoomOf() == RoomAfter(fs.g, old(offset), |w|, old(RoomOf()))
    {
      ghost var room, files0, disk0 := RoomOf(), fs.files, fs.disk;
      Behind(fs.g.clusterSize, k, o, room.held);
      var c := ClusterForWrite(k, o);
      if c.None? {
        return false;
      }
      ghost var files1, disk1 := fs.files, fs.disk;
      Store(c.value, k, o, w);
      OthersTrans(fs.g, disk0, disk1, fs.disk, files0, files1, fs.files, id);
      return true;
    }

    method Seek(p: SeekFrom) returns (r: Option<nat>)
      requires Valid()
      modifies this
      ensures Valid()
      ensures var n := |old(ViewOf()).bytes|;
              var target := match p { case Start(x) => x case Current(d) => old(offset) + d case FromEnd(d) => n + d };
              if 0 <= target <= 0xFFFF_FFFF then
                r == Some(Min(target, n)) && ViewOf() == View(old(ViewOf()).bytes, Min(target, n))
              else
                r == None && ViewOf() == old(ViewOf())
    {
      var target := match p { case Start(x) => x case Current(d) => offset + d case FromEnd(d) => size + d };
      if !(0 <= target <= MAX_FILE_SIZE) {
        return None;
      }
      var newOffset := target;
      if newOffset > size {
        newOffset := size;
      }
      if newOffset == offset {
        return Some(offset);
      }
      MoveTo(newOffset);
      return Some(offset);
    }

    method MoveTo(newOffset: nat)
      requires Valid() && newOffset <= size
      modifies this
      ensures Valid() && offset == newOffset && ViewOf() == View(old(ViewOf()).bytes, newOffset)
    {
      var cluster := ClusterBefore(newOffset);
      offset := newOffset;
      current := cluster;
    }

    /** The cursor for a new offset: none, the present one, or found by walking the chain. */
    method ClusterBefore(newOffset: nat) returns (c: Option<nat>)
      requires Valid() && newOffset <= size
      ensures CursorAt(fs.g, fs.files[id], newOffset, c)
    {
      var m := fs.g.clusterSize;
      var newClusters, oldClusters := (newOffset + m - 1) / m, (offset + m - 1) / m;
      if newOffset == 0 {
        return None;
      }
      CeilCluster(m, newOffset);
      if newClusters == oldClusters {
        if offset > 0 { CeilCluster(m, offset); } else { NoCeil(m); }
        SameCeil(fs.g, fs.files[id], offset, newOffset, current, newClusters - 1);
        return current;
      }
      EndsInChain(m, newClusters - 1, newOffset, |fs.files[id]|);
      var n := Walk(newClusters - 1);
      return Some(n);
    }

    /** Follow `skip` links from the first cluster. */
    method Walk(skip: nat) returns (c: nat)
      requires Valid() && skip < |fs.files[id]|
      ensures c == fs.files[id][skip]
    {
      ghost var s := fs.files[id];
      assert IsChain(fs.Tab(), s);
      c := first.value;
      for i := 0 to skip
        invariant c == s[i]
      {
        ChainNext(fs.Tab(), s, i);
        var next := fs.NextCluster(c);
        c := next.value;
      }
    }

    /** Free the clusters behind the cursor, or all of them when it is before the first. */
    method CutChain() returns (ghost keep: nat)
      requires fs.Valid() && id in fs.files && CursorAt(fs.g, fs.files[id], offset, current) &&
               first == FirstOf(fs.files[id])
      modifies this`first, fs
      ensures fs.Valid() && SameData(fs.g, old(fs.disk), fs.disk) && keep <= |old(fs.files)[id]|
      ensures |FreeSet(fs.Tab())| == |FreeSet(old(fs.Tab()))| + |old(fs.files)[id]| - keep
      ensures if current.Some? then keep > 0 && EndsIn(fs.g.clusterSize, keep - 1, offset) else keep == 0
      ensures fs.files == old(fs.files)[id := old(fs.files)[id][..keep]] && first == FirstOf(fs.files[id])
    {
      keep := 0;
      if current.Some? {
        keep := KeptClusters(fs.g, fs.files[id], offset, current);
        fs.TruncateClusterChain(current.value, id, keep);
      } else {
        if first.Some? {
          fs.FreeClusterChain(first.value, id);
          first := None;
        }
      }
    }

    /** Cut the file at the cursor. */
    method Truncate()
      requires Valid()
      modifies this, fs
      ensures Valid() && ViewOf() == View(old(ViewOf()).bytes[..old(offset)], old(offset)) && fs.g.clusterSize > 0
      ensures RoomOf() == Cut(fs.g, old(offset), old(RoomOf()))
      ensures OthersSame(fs.g, old(fs.disk), fs.disk, old(fs.files), fs.files, id)
    {
      ghost var size0, bytes := size, ViewOf().bytes[..offset];
      size := offset;
      if offset == 0 {
        entryFirst := None;
      }
      CutAtCursor(size0, bytes);
    }

    /** Cut the chain so that `bytes`, the bytes before the cursor, remain. */
    method CutAtCursor(ghost size0: nat, ghost bytes: Bytes)
      requires fs.Valid() && id in fs.files && CursorAt(fs.g, fs.files[id], offset, current) &&
               first == FirstOf(fs.files[id])
      requires offset <= size0 <= Base(fs.g.clusterSize, |fs.files[id]|) && fs.g.clusterSize > 0
      requires bytes == BytesOf(fs.g, fs.disk, fs.Tab(), fs.files, id, size0)[..offset]
      modifies this`first, fs
      ensures fs.Valid() && id in fs.files && CursorAt(fs.g, fs.files[id], offset, current) &&
              offset <= Base(fs.g.clusterSize, |fs.files[id]|)
      ensures first == FirstOf(fs.files[id]) == if offset == 0 then None else old(first)
      ensures BytesOf(fs.g, fs.disk, fs.Tab(), fs.files, id, offset) == bytes
      ensures Room(|fs.files[id]|, |FreeSet(fs.Tab())|) ==
              Cut(fs.g, offset, old(Room(|fs.files[id]|, |FreeSet(fs.Tab())|)))
      ensures OthersSame(fs.g, old(fs.disk), fs.disk, old(fs.files), fs.files, id)
    {
      ghost var tab, files, disk, room := fs.Tab(), fs.files, fs.disk, Room(|fs.files[id]|, |FreeSet(fs.Tab())|);
      ghost var keep := CutChain();
      CutFile(fs.g, disk, fs.disk, tab, fs.Tab(), files, fs.files, id, size0, offset, current, keep, bytes);
      CutRoom(fs.g, offset, room, keep);
    }

    /** `write_all`: repeat until everything is written, or as much as the largest file size and the clusters of the
        file and the volume can hold. */
    method WriteAll(buf: Bytes) returns (ok: bool, ghost done: nat)
      requires Valid()
      modifies this, fs
      ensures Valid() && OthersSame(fs.g, old(fs.disk), fs.disk, old(fs.files), fs.files, id)
      ensures Appended(ViewOf(), old(ViewOf()), buf, done) && (ok <==> done == |buf|)
      ensures old(offset) <= Capacity(fs.g, old(RoomOf())) &&
              done == Min(|buf|, Capacity(fs.g, old(RoomOf())) - old(offset))
    {
      ghost var start, room := ViewOf(), RoomOf();
      var i := 0;
      OverwriteNothing(start.bytes, offset);
      ChainsSame(fs.g, fs.disk, fs.Tab(), fs.files, id);
      InCapacity();
      while i < |buf|
        invariant i <= |buf| && Valid() && Appended(ViewOf(), start, buf, i) &&
                  offset <= Capacity(fs.g, room) == Capacity(fs.g, RoomOf())
        invariant OthersSame(fs.g, old(fs.disk), fs.disk, old(fs.files), fs.files, id)
      {
        ghost var disk, files := fs.disk, fs.files;
        var next := WriteMore(buf, i, start);
        OthersTrans(fs.g, old(fs.disk), disk, fs.disk, old(fs.files), files, fs.files, id);
        if next.None? {
          return false, i;
        }
        i := next.value;
      }
      return true, i;
    }

    /** The cursor is never beyond what the file can grow to. */
    lemma InCapacity()
      requires Valid()
      ensures offset <= Capacity(fs.g, RoomOf())
    {
      var held, spare := RoomOf().held, RoomOf().spare;
      if spare > 0 { BaseMono(fs.g.clusterSize, held, held + spare); }
    }

    /** One round of `write_all`: it makes progress, or the file is as large as it can be. */
    method WriteMore(buf: Bytes, i: nat, ghost start: View) returns (next: Option<nat>)
      requires Valid() && i < |buf| && Appended(ViewOf(), start, buf, i)
      modifies this, fs
      ensures Valid() && OthersSame(fs.g, old(fs.disk), fs.disk, old(fs.files), fs.files, id)
      ensures next.Some? ==> i < next.value <= |buf| && Appended(ViewOf(), start, buf, next.value)
      ensures next.None? ==> ViewOf() == old(ViewOf()) && offset == Capacity(fs.g, RoomOf())
      ensures offset <= Capacity(fs.g, RoomOf()) == Capacity(fs.g, old(RoomOf()))
    {
      LimitPositive(fs.g, offset, |buf| - i);
      InCapacity();
      var rest := buf[i..];
      ghost var v, room := ViewOf(), RoomOf();
      CapacityFacts(fs.g, offset, room);
      var n := Write(rest);
      InCapacity();
      if n.None? {
        return None;
      }
      if n.value == 0 {
        NothingWritten(v, ViewOf(), rest);
        return None;
      }
      var j := i + n.value;
      ghost var v' := ViewOf();
      AppendedMore(v, v', start, buf, i, rest, n.value, j);
      return Some(j);
    }

    /** Read until a call returns nothing: everything from the cursor to the end of the file. */
    method ReadAll(block: nat) returns (r: Bytes)
      requires Valid() && block > 0
      modifies this
      ensures Valid() && ViewOf() == View(old(ViewOf()).bytes, |old(ViewOf()).bytes|)
      ensures r == old(ViewOf()).bytes[old(offset)..]
    {
      ghost var start := ViewOf();
      r := [];
      var more := true;
      while more
        invariant Valid() && Consumed(ViewOf(), start, r)
        invariant !more ==> offset == |start.bytes|
        decreases |start.bytes| - offset, more
      {
        r, more := ReadMore(r, block, start);
      }
    }

    method ReadMore(r: Bytes, block: nat, ghost start: View) returns (r': Bytes, more: bool)
      requires Valid() && block > 0 && Consumed(ViewOf(), start, r)
      modifies this
      ensures Valid() && Consumed(ViewOf(), start, r')
      ensures if more then offset > old(offset) else offset == old(offset) == |start.bytes|
    {
      LimitPositive(fs.g, offset, block);
      var part := Read(block);
      more := part != [];
      r' := r + part;
      SliceJoin(start.bytes, start.pos, old(offset), offset);
    }
  }

  // ---------------------------------------------------------------- runs

  datatype Op = ReadOp(len: nat) | WriteOp(buf: Bytes) | SeekOp(to: SeekFrom) | TruncateOp

  /** What a call gave back: bytes, a count or position, or a failure. */
  datatype Outcome = Got(bytes: Bytes) | Count(n: nat) | Failed | Done

  /** A file to its user: bytes, a cursor, and the room there is. */
  datatype Model = Model(view: View, room: Room)

  predicate ModelOk(s: Model) { s.view.pos <= |s.view.bytes| <= MAX_FILE_SIZE }

  /** One call on the model. A call moves at most to the end of a cluster; a write fails when it has bytes to write and
      no room for them. */
  function Applied(g: Geometry, s: Model, op: Op): (r: (Outcome, Model))
    requires g.clusterSize > 0 && ModelOk(s)
    ensures ModelOk(r.1)
  {
    var v, room := s.view, s.room;
    match op
    case ReadOp(len) =>
      var n := Min(CallLimit(g, v.pos, len), |v.bytes| - v.pos);
      (Got(v.bytes[v.pos..v.pos + n]), Model(View(v.bytes, v.pos + n), room))
    case WriteOp(buf) =>
      var n := WriteCount(g, v.pos, |buf|);
      if n > 0 && NoRoom(g, v.pos, room) then (Failed, s)
      else (Count(n), Model(View(Overwrite(v.bytes, v.pos, buf[..n]), v.pos + n), RoomAfter(g, v.pos, n, room)))
    case SeekOp(to) =>
      var t := Target(v, to);
      if t.None? then (Failed, s)
      else (Count(Min(t.value, |v.bytes|)), Model(View(v.bytes, Min(t.value, |v.bytes|)), room))
    case TruncateOp => (Done, Model(View(v.bytes[..v.pos], v.pos), Cut(g, v.pos, room)))
  }

  /** The first `n` calls one after the other, with their outcomes. */
  function AppliedAll(g: Geometry, s: Model, ops: seq<Op>, n: nat): (r: (seq<Outcome>, Model))
    requires g.clusterSize > 0 && ModelOk(s) && n <= |ops|
    ensures |r.0| == n && ModelOk(r.1)
  {
    if n == 0 then ([], s)
    else
      var (rs, u) := AppliedAll(g, s, ops, n - 1);
      var (r, t) := Applied(g, u, ops[n - 1]);
      (rs + [r], t)
  }

  /** What a call moves: never past the end of the cluster at the offset, and a write never past 2^32 - 1. */
  lemma CountsMean(g: Geometry, pos: nat, len: nat)
    requires g.clusterSize > 0 && pos <= MAX_FILE_SIZE
    ensures CallLimit(g, pos, len) == Min(len, g.clusterSize - pos % g.clusterSize)
    ensures WriteCount(g, pos, len) == Min(Min(len, g.clusterSize - pos % g.clusterSize), 0xFFFF_FFFF - pos)
  {
    InClusterMod(g.clusterSize, pos);
  }

  /** A write needs a new cluster when the offset is behind those held; clusters only move between file and free. */
  lemma RoomMeans(g: Geometry, pos: nat, n: nat, room: Room)
    ensures NoRoom(g, pos, room) <==> room.spare == 0 && pos >= g.clusterSize * room.held
    ensures var now := RoomAfter(g, pos, n, room);
            && now.held + now.spare == room.held + room.spare
            && (n > 0 && !NoRoom(g, pos, room) && pos <= g.clusterSize * room.held ==>
                  now.held == room.held + if pos == g.clusterSize * room.held then 1 else 0)
  {
    BaseProduct(g.clusterSize, room.held);
  }

  /** A cut keeps as many clusters as the bytes before it need, and frees the others. */
  lemma {:induction false} CutMeans(g: Geometry, pos: nat, room: Room)
    requires g.clusterSize > 0 && pos <= g.clusterSize * room.held
    ensures var now := Cut(g, pos, room);
            && now.held + now.spare == room.held + room.spare
            && pos <= g.clusterSize * now.held && (now.held > 0 ==> g.clusterSize * (now.held - 1) < pos)
  {
    var m := g.clusterSize;
    BaseProduct(m, room.held);
    if pos == 0 {
      NoCeil(m);
    } else {
      var k := (pos + m - 1) / m;
      CeilCluster(m, pos);
      EndsInChain(m, k - 1, pos, room.held);
      BaseProduct(m, k - 1);
      BaseProduct(m, k);
    }
  }

  lemma OverwriteAt(b: Bytes, off: nat, w: Bytes, i: nat)
    requires off <= |b| && i < |Overwrite(b, off, w)|
    ensures Overwrite(b, off, w)[i] == if off <= i < off + |w| then w[i - off] else b[i]
  {
  }

  /** Every seek is one from the start: from the end it is off by the size, from the cursor by the position. */
  lemma SeekLaws(g: Geometry, s: Model, d: int)
    requires g.clusterSize > 0 && ModelOk(s)
    ensures var n := |s.view.bytes| + d;
            Applied(g, s, SeekOp(FromEnd(d))) == if n >= 0 then Applied(g, s, SeekOp(Start(n))) else (Failed, s)
    ensures var n := s.view.pos + d;
            Applied(g, s, SeekOp(Current(d))) == if n >= 0 then Applied(g, s, SeekOp(Start(n))) else (Failed, s)
  {
  }

  lemma FirstCall(g: Geometry, s: Model, ops: seq<Op>)
    requires g.clusterSize > 0 && ModelOk(s) && ops != []
    ensures var (r, t) := Applied(g, s, ops[0]); AppliedAll(g, s, ops, 1) == ([r], t)
  {
    assert AppliedAll(g, s, ops, 0) == ([], s);
    var (r, t) := Applied(g, s, ops[0]);
    assert AppliedAll(g, s, ops, 1) == ([] + [r], t);
    assert [] + [r] == [r];
  }

  /** After a seek to a byte of the file, reading begins at that byte, wherever the cursor was. */
  lemma SeekThenRead(g: Geometry, s: Model, x: nat, len: nat)
    requires g.clusterSize > 0 && ModelOk(s) && x <= |s.view.bytes|
    ensures var (rs, u) := AppliedAll(g, s, [SeekOp(Start(x)), ReadOp(len)], 2);
            && rs[0] == Count(x) && rs[1].Got? && rs[1].bytes <= s.view.bytes[x..]
            && (len > 0 && x < |s.view.bytes| ==> rs[1].bytes != []) && u.view.pos == x + |rs[1].bytes|
  {
    var ops := [SeekOp(Start(x)), ReadOp(len)];
    FirstCall(g, s, ops);
    var t := Model(View(s.view.bytes, x), s.room);
    assert AppliedAll(g, s, ops, 1) == ([Count(x)], t);
    assert AppliedAll(g, s, ops, 2) == ([Count(x)] + [Applied(g, t, ReadOp(len)).0], Applied(g, t, ReadOp(len)).1);
    if len > 0 { LimitPositive(g, x, len); }
  }

  predicate Looks(ops: seq<Op>) { forall op | op in ops :: op.ReadOp? || op.SeekOp? }

  /** Reading and seeking leave the bytes alone. */
  lemma {:induction false} LooksKeep(g: Geometry, s: Model, ops: seq<Op>, i: nat, n: nat)
    requires g.clusterSize > 0 && ModelOk(s) && i <= n <= |ops| && Looks(ops[i..n])
    ensures AppliedAll(g, s, ops, n).1.view.bytes == AppliedAll(g, s, ops, i).1.view.bytes
    decreases n
  {
    if i < n {
      assert ops[n - 1] == ops[i..n][n - 1 - i];
      assert forall op | op in ops[i..n - 1] :: op in ops[i..n];
      LooksKeep(g, s, ops, i, n - 1);
    }
  }

  /** What a write call has taken is what is read at its place later, whatever is read and sought in between. */
  lemma {:induction false} ReadBack(g: Geometry, s: Model, buf: Bytes, looks: seq<Op>)
    requires g.clusterSize > 0 && ModelOk(s) && Looks(looks) && Applied(g, s, WriteOp(buf)).0.Count?
    ensures var n := Applied(g, s, WriteOp(buf)).0.n;
            var ops := [WriteOp(buf)] + looks + [SeekOp(Start(s.view.pos)), ReadOp(n)];
            AppliedAll(g, s, ops, |ops|).0[|ops| - 1] == Got(buf[..n])
  {
    var (r, u) := Applied(g, s, WriteOp(buf));
    var n, pos := r.n, s.view.pos;
    var ops := [WriteOp(buf)] + looks + [SeekOp(Start(pos)), ReadOp(n)];
    var k := |looks| + 1;
    FirstCall(g, s, ops);
    assert ops[1..k] == looks;
    LooksKeep(g, s, ops, 1, k);
    var now := AppliedAll(g, s, ops, k).1;
    assert now.view.bytes == u.view.bytes == Overwrite(s.view.bytes, pos, buf[..n]);
    var there := AppliedAll(g, s, ops, k + 1).1;
    assert ops[k] == SeekOp(Start(pos)) && ops[k + 1] == ReadOp(n);
    assert there.view == View(now.view.bytes, pos);
    assert CallLimit(g, pos, n) == n;
    assert now.view.bytes[pos..pos + n] == buf[..n];
  }

  /** Any sequence of calls through one handle is the same sequence on the model, and no other file changes. */
  method RunAll(f: File, ops: seq<Op>) returns (rs: seq<Outcome>)
    requires f.Valid()
    modifies f, f.fs
    ensures f.Valid() && f.fs.g.clusterSize > 0 && ModelOk(old(ModelOf(f)))
    ensures (rs, ModelOf(f)) == AppliedAll(f.fs.g, old(ModelOf(f)), ops, |ops|)
    ensures OthersSame(f.fs.g, old(f.fs.disk), f.fs.disk, old(f.fs.files), f.fs.files, f.id)
  {
    rs := [];
    ghost var start, disk0, files0 := ModelOf(f), f.fs.disk, f.fs.files;
    ChainsSame(f.fs.g, f.fs.disk, f.fs.Tab(), f.fs.files, f.id);
    for i := 0 to |ops|
      invariant f.Valid() && (rs, ModelOf(f)) == AppliedAll(f.fs.g, start, ops, i)
      invariant OthersSame(f.fs.g, disk0, f.fs.disk, files0, f.fs.files, f.id)
    {
      ghost var disk, files := f.fs.disk, f.fs.files;
      var r := RunOne(f, ops[i]);
      OthersTrans(f.fs.g, disk0, disk, f.fs.disk, files0, files, f.fs.files, f.id);
      rs := rs + [r];
    }
  }

  ghost function ModelOf(f: File): (s: Model)
    reads f, f.fs
    requires f.Valid()
    ensures ModelOk(s)
  {
    Model(f.ViewOf(), f.RoomOf())
  }

  method RunOne(f: File, op: Op) returns (r: Outcome)
    requires f.Valid()
    modifies f, f.fs
    ensures f.Valid() && f.fs.g.clusterSize > 0 && (r, ModelOf(f)) == Applied(f.fs.g, old(ModelOf(f)), op)
    ensures OthersSame(f.fs.g, old(f.fs.disk), f.fs.disk, old(f.fs.files), f.fs.files, f.id)
  {
    ChainsSame(f.fs.g, f.fs.disk, f.fs.Tab(), f.fs.files, f.id);
    match op
    case ReadOp(len) =>
      r := RunRead(f, len);
    case WriteOp(buf) =>
      r := RunWrite(f, buf);
    case SeekOp(to) =>
      r := RunSeek(f, to);
    case TruncateOp =>
      f.Truncate();
      r := Done;
  }

  method RunRead(f: File, len: nat) returns (r: Outcome)
    requires f.Valid()
    modifies f
    ensures f.Valid() && f.fs.g.clusterSize > 0 && (r, ModelOf(f)) == Applied(f.fs.g, old(ModelOf(f)), ReadOp(len))
  {
    ghost var v := f.ViewOf();
    var b := f.Read(len);
    assert v.bytes[v.pos..v.pos + |b|] == b;
    r := Got(b);
  }

  method RunSeek(f: File, to: SeekFrom) returns (r: Outcome)
    requires f.Valid()
    modifies f
    ensures f.Valid() && f.fs.g.clusterSize > 0 && (r, ModelOf(f)) == Applied(f.fs.g, old(ModelOf(f)), SeekOp(to))
  {
    ghost var s := ModelOf(f);
    var n := f.Seek(to);
    r := if n.Some? then Count(n.value) else Failed;
    Sought(f.fs.g, s, to, n, ModelOf(f));
  }

  lemma Sought(g: Geometry, s: Model, to: SeekFrom, n: Option<nat>, s': Model)
    requires g.clusterSize > 0 && ModelOk(s) && s'.room == s.room
    requires var size := |s.view.bytes|;
             var pos := s.view.pos;
             var target := match to { case Start(x) => x case Current(d) => pos + d case FromEnd(d) => size + d };
             if 0 <= target <= 0xFFFF_FFFF then
               n == Some(Min(target, size)) && s'.view == View(s.view.bytes, Min(target, size))
             else
               n == None && s'.view == s.view
    ensures Applied(g, s, SeekOp(to)) == (if n.Some? then Count(n.value) else Failed, s')
  {
  }

  method RunWrite(f: File, buf: Bytes) returns (r: Outcome)
    requires f.Valid()
    modifies f, f.fs
    ensures f.Valid() && f.fs.g.clusterSize > 0 && (r, ModelOf(f)) == Applied(f.fs.g, old(ModelOf(f)), WriteOp(buf))
    ensures OthersSame(f.fs.g, old(f.fs.disk), f.fs.disk, old(f.fs.files), f.fs.files, f.id)
  {
    ghost var s := ModelOf(f);
    var n := f.Write(buf);
    if n.None? {
      return Failed;
    }
    r := Count(n.value);
    Wrote(f.fs.g, s, buf, n.value, ModelOf(f));
  }

  lemma Wrote(g: Geometry, s: Model, buf: Bytes, n: nat, s': Model)
    requires g.clusterSize > 0 && ModelOk(s) && n == WriteCount(g, s.view.pos, |buf|) &&
             !(n > 0 && NoRoom(g, s.view.pos, s.room))
    requires s'.view == View(Overwrite(s.view.bytes, s.view.pos, buf[..n]), s.view.pos + n) &&
             s'.room == RoomAfter(g, s.view.pos, n, s.room)
    ensures Applied(g, s, WriteOp(buf)) == (Count(n), s')
  {
  }

  /** Rounding up names the cluster of the byte before the offset. */
  lemma CeilCluster(m: nat, off: nat)
    requires m > 0 && off > 0
    ensures (off + m - 1) / m >= 1 && EndsIn(m, (off + m - 1) / m - 1, off)
  {
    var k := SplitOffset(m, off + m - 1);
  }

  lemma {:induction false} EndsInChain(m: nat, k: nat, off: nat, n: nat)
    requires EndsIn(m, k, off) && off <= Base(m, n)
    ensures k < n
  {
    if k > n { BaseMono(m, n, k); }
  }

  lemma NoCeil(m: nat)
    requires m > 0
    ensures (0 + m - 1) / m == 0
  {
    DivUnique(m - 1, m, 0, m - 1);
  }

  lemma SameCeil(g: Geometry, s: seq<nat>, off: nat, off': nat, cur: Option<nat>, k: nat)
    requires CursorAt(g, s, off, cur) && off > 0 && off' > 0 && EndsIn(g.clusterSize, k, off) &&
             EndsIn(g.clusterSize, k, off')
    ensures CursorAt(g, s, off', cur)
  {
    var j: nat :| j < |s| && EndsIn(g.clusterSize, j, off) && cur == Some(s[j]);
    EndsInUnique(g.clusterSize, j, k, off);
  }

  lemma KeptClusters(g: Geometry, s: seq<nat>, off: nat, cur: Option<nat>) returns (keep: nat)
    requires CursorAt(g, s, off, cur) && cur.Some?
    ensures 0 < keep <= |s| && s[keep - 1] == cur.value && EndsIn(g.clusterSize, keep - 1, off) &&
            off <= Base(g.clusterSize, keep)
  {
    var j: nat :| j < |s| && EndsIn(g.clusterSize, j, off) && cur == Some(s[j]);
    keep := j + 1;
  }

  lemma CursorIs(g: Geometry, s: seq<nat>, off: nat, cur: Option<nat>, k: nat)
    requires CursorAt(g, s, off, cur) && cur.Some? && k < |s| && EndsIn(g.clusterSize, k, off)
    ensures cur == Some(s[k])
  {
    var j: nat :| j < |s| && EndsIn(g.clusterSize, j, off) && cur == Some(s[j]);
    EndsInUnique(g.clusterSize, j, k, off);
  }

  lemma {:induction false} CursorKept(g: Geometry, s: seq<nat>, off: nat, cur: Option<nat>, keep: nat)
    requires CursorAt(g, s, off, cur) && keep <= |s|
    requires if cur.Some? then keep > 0 && EndsIn(g.clusterSize, keep - 1, off) else keep == 0
    ensures CursorAt(g, s[..keep], off, cur) && off <= Base(g.clusterSize, keep)
  {
    if cur.Some? {
      CursorIs(g, s, off, cur, keep - 1);
      assert s[..keep][keep - 1] == s[keep - 1];
    }
  }

  lemma {:induction false} CutBytes(g: Geometry, disk: Bytes, disk': Bytes, tab: Table, tab': Table, files: Files,
                                    f: nat, size: nat, off: nat, keep: nat)
    requires Fitting(g, disk) && Fitting(g, disk') && SameData(g, disk, disk') && |tab| == |tab'| == g.End() &&
             f in files && keep <= |files[f]|
    requires ChainsOk(tab, files) && ChainsOk(tab', files[f := files[f][..keep]])
    requires off <= size <= Base(g.clusterSize, |files[f]|) && off <= Base(g.clusterSize, keep)
    ensures BytesOf(g, disk', tab', files[f := files[f][..keep]], f, off) ==
            BytesOf(g, disk, tab, files, f, size)[..off]
  {
    var s := files[f];
    ChainInVolume(g, tab, files, f);
    SameDataFlat(g, disk, disk', s);
    FlatPrefix(g, disk', s, keep);
    ChainInVolume(g, tab', files[f := s[..keep]], f);
  }

  /** A file cut at the cursor: its bytes, its cursor and the other files. */
  lemma {:induction false} CutFile(g: Geometry, disk: Bytes, disk': Bytes, tab: Table, tab': Table, files: Files,
                                   files': Files, f: nat, size: nat, off: nat, cur: Option<nat>, keep: nat,
                                   bytes: Bytes)
    requires Fitting(g, disk) && Fitting(g, disk') && SameData(g, disk, disk') && |tab| == |tab'| == g.End() &&
             f in files && keep <= |files[f]|
    requires ChainsOk(tab, files) && files' == files[f := files[f][..keep]] && ChainsOk(tab', files')
    requires off <= size <= Base(g.clusterSize, |files[f]|) && CursorAt(g, files[f], off, cur)
    requires if cur.Some? then keep > 0 && EndsIn(g.clusterSize, keep - 1, off) else keep == 0
    requires bytes == BytesOf(g, disk, tab, files, f, size)[..off]
    ensures off <= Base(g.clusterSize, |files'[f]|) && CursorAt(g, files'[f], off, cur)
    ensures BytesOf(g, disk', tab', files', f, off) == bytes && OthersSame(g, disk, disk', files, files', f)
  {
    CursorKept(g, files[f], off, cur, keep);
    CutBytes(g, disk, disk', tab, tab', files, f, size, off, keep);
    SameDataOthers(g, disk, disk', tab, files, files', f);
  }

  lemma ChainsSame(g: Geometry, disk: Bytes, tab: Table, files: Files, f: nat)
    requires Fitting(g, disk) && |tab| == g.End() && ChainsOk(tab, files)
    ensures OthersSame(g, disk, disk, files, files, f)
  {
    SameDataOthers(g, disk, disk, tab, files, files, f);
  }

  /** `v` is `start` with the first `n` bytes of `buf` written. */
  ghost predicate Appended(v: View, start: View, buf: Bytes, n: nat) {
    start.pos <= |start.bytes| && n <= |buf| && v == View(Overwrite(start.bytes, start.pos, buf[..n]), start.pos + n)
  }

  /** `v` is `start` moved on past the bytes `r`. */
  ghost predicate Consumed(v: View, start: View, r: Bytes) {
    v.bytes == start.bytes && start.pos <= v.pos <= |start.bytes| && r == start.bytes[start.pos..v.pos]
  }

  lemma LimitPositive(g: Geometry, off: nat, n: nat)
    requires g.clusterSize > 0 && n > 0
    ensures 0 < CallLimit(g, off, n) <= n
  {
  }

  lemma SliceJoin(b: Bytes, i: nat, j: nat, k: nat)
    requires i <= j <= k <= |b|
    ensures b[i..j] + b[j..k] == b[i..k]
  {
  }

  lemma NothingWritten(v: View, v': View, rest: Bytes)
    requires v.pos <= |v.bytes| && v' == View(Overwrite(v.bytes, v.pos, rest[..0]), v.pos)
    ensures v' == v
  {
  }

  lemma OverwriteTwice(b: Bytes, off: nat, w: Bytes, i: nat, n: nat)
    requires off <= |b| && i + n <= |w|
    ensures Overwrite(Overwrite(b, off, w[..i]), off + i, w[i..][..n]) == Overwrite(b, off, w[..i + n])
  {
    assert w[..i + n] == w[..i] + w[i..][..n];
  }

  lemma AppendedMore(v: View, v': View, start: View, buf: Bytes, i: nat, rest: Bytes, n: nat, j: nat)
    requires Appended(v, start, buf, i) && i + n == j <= |buf| && rest == buf[i..]
    requires v' == View(Overwrite(v.bytes, v.pos, rest[..n]), v.pos + n)
    ensures Appended(v', start, buf, j)
  {
    OverwriteTwice(start.bytes, start.pos, buf, i, n);
  }

  lemma OverwriteNothing(b: Bytes, off: nat)
    requires off <= |b|
    ensures Overwrite(b, off, []) == b
  {
  }

  /** Where the chain has no cluster for the offset, the cursor is on its last cluster. */
  lemma {:induction false} CursorLast(g: Geometry, s: seq<nat>, off: nat, size: nat, cur: Option<nat>, k: nat, o: nat)
    requires o < g.clusterSize && CursorAt(g, s, off, cur) && off == Base(g.clusterSize, k) + o
    requires off <= size <= Base(g.clusterSize, |s|) && k >= |s|
    ensures k == |s| && cur == if s == [] then None else Some(s[|s| - 1])
  {
    if k > |s| { BaseMono(g.clusterSize, |s|, k); }
    if off > 0 {
      var j: nat :| j < |s| && EndsIn(g.clusterSize, j, off) && cur == Some(s[j]);
      assert EndsIn(g.clusterSize, k - 1, off);
      EndsInUnique(g.clusterSize, j, k - 1, off);
    }
  }

  lemma CursorGrows(g: Geometry, s: seq<nat>, off: nat, cur: Option<nat>, c: nat)
    requires CursorAt(g, s, off, cur)
    ensures CursorAt(g, s + [c], off, cur) && (s != [] ==> (s + [c])[0] == s[0])
  {
    if off > 0 {
      var j: nat :| j < |s| && EndsIn(g.clusterSize, j, off) && cur == Some(s[j]);
      assert (s + [c])[j] == s[j];
    }
  }

  lemma GrownBytes(g: Geometry, disk: Bytes, disk': Bytes, tab: Table, tab': Table, files: Files, f: nat, c: nat,
                   size: nat)
    requires Fitting(g, disk) && Fitting(g, disk') && SameData(g, disk, disk') && |tab| == |tab'| == g.End() &&
             f in files
    requires ChainsOk(tab, files) && ChainsOk(tab', files[f := files[f] + [c]])
    requires size <= Base(g.clusterSize, |files[f]|)
    ensures size <= Base(g.clusterSize, |files[f] + [c]|)
    ensures BytesOf(g, disk', tab', files[f := files[f] + [c]], f, size) == BytesOf(g, disk, tab, files, f, size)
  {
    var s := files[f];
    var files' := files[f := s + [c]];
    ChainInVolume(g, tab, files, f);
    ChainInVolume(g, tab', files', f);
    SameDataFlat(g, disk, disk', s);
    FlatPrefix(g, disk', s + [c], |s|);
    assert (s + [c])[..|s|] == s;
    assert Flat(g, disk', s + [c])[..size] == Flat(g, disk', s + [c])[..Base(g.clusterSize, |s|)][..size];
  }

  lemma StoreFits(g: Geometry, disk: Bytes, tab: Table, files: Files, f: nat, k: nat, o: nat, w: Bytes)
    requires Fitting(g, disk) && |tab| == g.End() && ChainsOk(tab, files) && f in files && k < |files[f]| &&
             o + |w| <= g.clusterSize
    ensures RESERVED <= files[f][k] < g.End() && ClusterOffset(g, files[f][k]) + o + |w| <= |disk|
  {
    ChainInVolume(g, tab, files, f);
    ClusterBounds(g, disk, files[f][k]);
  }

  /** The file, the table and the other files after `w` has gone to offset `o` of cluster number `k`. */
  lemma {:induction false} StoreBytes(g: Geometry, disk: Bytes, tab: Table, files: Files, f: nat, size: nat, k: nat,
                                      o: nat, off: nat, w: Bytes, disk': Bytes, size': nat)
    requires Sound(g, disk) && tab == TableOf(g, disk) && ChainsOk(tab, files) && f in files && k < |files[f]|
    requires off <= size <= Base(g.clusterSize, |files[f]|) && off == Base(g.clusterSize, k) + o &&
             o + |w| <= g.clusterSize
    requires RESERVED <= files[f][k] < g.End() && ClusterOffset(g, files[f][k]) + o + |w| <= |disk|
    requires disk' == Splice(disk, ClusterOffset(g, files[f][k]) + o, w) && size' == Max(size, off + |w|)
    ensures Sound(g, disk') && TableOf(g, disk') == tab && size' <= Base(g.clusterSize, |files[f]|)
    ensures BytesOf(g, disk', tab, files, f, size') == Overwrite(BytesOf(g, disk, tab, files, f, size), off, w)
    ensures OthersSame(g, disk, disk', files, files, f)
  {
    var s, c := files[f], files[f][k];
    ChainInVolume(g, tab, files, f);
    ClusterBounds(g, disk, c);
    StoreContents(g, disk, s, size, k, o, off, w);
    DataWrite(g, disk, ClusterOffset(g, c) + o, w);
    WrittenOthers(g, disk, tab, files, f, c, o, w);
    assert Written(g, disk, c, o, w) == disk';
  }

  lemma {:induction false} StoreContents(g: Geometry, disk: Bytes, s: seq<nat>, size: nat, k: nat, o: nat, off: nat,
                                         w: Bytes)
    requires Fitting(g, disk) && InVolume(g, s) && NoRepeats(s) && k < |s|
    requires off <= size <= Base(g.clusterSize, |s|) && off == Base(g.clusterSize, k) + o && o + |w| <= g.clusterSize
    ensures var size' := Max(size, off + |w|);
            && size' <= Base(g.clusterSize, |s|)
            && Contents(g, Written(g, disk, s[k], o, w), s, size') == Overwrite(Contents(g, disk, s, size), off, w)
  {
    FlatWrite(g, disk, s, k, o, w, off);
    OverwritePrefix(Flat(g, disk, s), size, off, w);
  }
}
