/** A mounted FAT volume: the table with its mirrors and the data area on one disk,
    the cached free-cluster count and the allocation hint. */
module FatFs {
  import opened Disks
  import opened FatTables
  import opened Chains
  import opened Options
  import opened Sequences

  /** Where things are on the disk, in bytes. */
  datatype Geometry = Geometry(t: FatType, total: nat, clusterSize: nat, fatStart: nat, fatSize: nat, mirrors: nat,
      dataStart: nat)
  {
    /** One past the last cluster number. */
    function End(): nat { total + RESERVED }
  }

  /** Byte offset of a cluster: `offset_from_cluster`. */
  function ClusterOffset(g: Geometry, c: nat): nat
    requires c >= RESERVED
  {
    if c == RESERVED then g.dataStart else ClusterOffset(g, c - 1) + g.clusterSize
  }

  lemma {:induction false} ClusterOffsetProduct(g: Geometry, c: nat)
    requires c >= RESERVED
    ensures ClusterOffset(g, c) == g.dataStart + (c - RESERVED) * g.clusterSize
  {
    if c > RESERVED { ClusterOffsetProduct(g, c - 1); }
  }

  /** The table lies before the data area and holds an entry for every cluster, and the disk holds every cluster. */
  ghost predicate Fitting(g: Geometry, disk: Bytes) {
    && g.clusterSize > 0 && g.mirrors > 0 && g.total > 0
    && g.End() <= BadMark(g.t)
    && MirrorAt(g.fatStart, g.fatSize, g.mirrors) <= g.dataStart
    && ClusterOffset(g, g.End()) <= |disk|
    && EntryOffset(g.t, g.End() - 1) + EntryBytes(g.t) <= g.fatSize
  }

  /** The active copy of the table. */
  function Fat(g: Geometry, disk: Bytes): (r: Bytes)
    requires g.fatStart + g.fatSize <= |disk|
    ensures |r| == g.fatSize
  {
    Window(disk, g.fatStart, g.fatSize)
  }

  lemma FittingFat(g: Geometry, disk: Bytes)
    requires Fitting(g, disk)
    ensures g.fatStart + g.fatSize <= g.dataStart <= |disk|
    ensures Holds(g.t, Fat(g, disk), g.End())
    ensures forall c: nat | c < g.End() :: Fits(g.t, Fat(g, disk), c) && !Special(g.t, c)
  {
    MirrorMono(g.fatStart, g.fatSize, 0, g.mirrors);
    ClustersApart(g, RESERVED, g.End());
    forall c: nat | c < g.End() ensures Fits(g.t, Fat(g, disk), c) { HoldsFits(g.t, Fat(g, disk), g.End(), c); }
  }

  /** All mirrors are identical. */
  ghost predicate Mirrored(g: Geometry, disk: Bytes)
    requires Fitting(g, disk)
  {
    forall i: nat | i < g.mirrors :: MirrorBytes(g, disk, i) == Fat0(g, disk)
  }

  ghost function Fat0(g: Geometry, disk: Bytes): Bytes
    requires Fitting(g, disk)
  {
    FittingFat(g, disk);
    Fat(g, disk)
  }

  ghost function MirrorBytes(g: Geometry, disk: Bytes, i: nat): Bytes
    requires Fitting(g, disk) && i < g.mirrors
  {
    MirrorMono(g.fatStart, g.fatSize, i, g.mirrors);
    ClustersApart(g, RESERVED, g.End());
    Window(disk, MirrorAt(g.fatStart, g.fatSize, i), g.fatSize)
  }

  ghost predicate Sound(g: Geometry, disk: Bytes) { Fitting(g, disk) && Mirrored(g, disk) }

  ghost function TableOf(g: Geometry, disk: Bytes): (tab: Table)
    requires Fitting(g, disk)
    ensures |tab| == g.End()
  {
    FittingFat(g, disk);
    seq(g.End(), c requires 0 <= c < g.End() => Get(g.t, Fat(g, disk), c))
  }

  /** Nothing in the data area differs. */
  ghost predicate SameData(g: Geometry, disk: Bytes, disk': Bytes) {
    |disk'| == |disk| && forall at | g.dataStart <= at < |disk| :: disk'[at] == disk[at]
  }

  /** The disk after an entry has been written to every mirror. */
  function WriteEntry(g: Geometry, disk: Bytes, c: nat, v: FatValue): (r: Bytes)
    requires MirrorAt(g.fatStart, g.fatSize, g.mirrors) <= |disk| && g.fatStart + g.fatSize <= |disk|
    requires Fits(g.t, Fat(g, disk), c) && Storable(g.t, v)
    ensures |r| == |disk|
  {
    MirrorWrite(disk, g.fatStart, g.fatSize, g.mirrors, EntryOffset(g.t, c), NewBytes(g.t, Fat(g, disk), c, v))
  }

  lemma WriteEntryTable(g: Geometry, disk: Bytes, c: nat, v: FatValue)
    requires Sound(g, disk) && c < g.End() && Storable(g.t, v)
    ensures g.fatStart + g.fatSize <= |disk| && Fits(g.t, Fat(g, disk), c) &&
            MirrorAt(g.fatStart, g.fatSize, g.mirrors) <= |disk|
    ensures var disk' := WriteEntry(g, disk, c, v);
            Sound(g, disk') && TableOf(g, disk') == TableOf(g, disk)[c := v] && SameData(g, disk, disk')
  {
    FittingFat(g, disk);
    var b := Fat(g, disk);
    var off, w := EntryOffset(g.t, c), NewBytes(g.t, b, c, v);
    var disk' := WriteEntry(g, disk, c, v);
    forall i: nat | i < g.mirrors ensures MirrorBytes(g, disk', i) == Splice(b, off, w) {
      MirrorMono(g.fatStart, g.fatSize, i, g.mirrors);
      MirrorWriteWindows(disk, g.fatStart, g.fatSize, g.mirrors, off, w, i);
      assert MirrorBytes(g, disk, i) == Fat0(g, disk);
    }
    assert Fat(g, disk') == MirrorBytes(g, disk', 0) == Set(g.t, b, c, v);
    FittingFat(g, disk');
    forall d: nat | d < g.End() ensures Get(g.t, Fat(g, disk'), d) == if d == c then v else Get(g.t, b, d) {
      SetGet(g.t, b, c, v, d);
    }
    forall at | g.dataStart <= at < |disk| ensures disk'[at] == disk[at] {
      MirrorWriteElsewhere(disk, g.fatStart, g.fatSize, g.mirrors, off, w, at);
    }
  }

  /** A write to the data area leaves the table and its mirrors alone. */
  lemma DataWrite(g: Geometry, disk: Bytes, at: nat, w: Bytes)
    requires Sound(g, disk) && g.dataStart <= at && at + |w| <= |disk|
    ensures Sound(g, Splice(disk, at, w)) && TableOf(g, Splice(disk, at, w)) == TableOf(g, disk)
  {
    var disk' := Splice(disk, at, w);
    FittingFat(g, disk);
    assert Fitting(g, disk');
    forall i: nat | i < g.mirrors ensures MirrorBytes(g, disk', i) == MirrorBytes(g, disk, i) {
      MirrorMono(g.fatStart, g.fatSize, i, g.mirrors);
      WindowOutside(disk, MirrorAt(g.fatStart, g.fatSize, i), g.fatSize, at, w);
    }
    assert MirrorBytes(g, disk', 0) == Fat0(g, disk') && MirrorBytes(g, disk, 0) == Fat0(g, disk);
  }

  lemma {:induction false} ClusterBounds(g: Geometry, disk: Bytes, c: nat)
    requires Fitting(g, disk) && RESERVED <= c < g.End()
    ensures g.dataStart <= ClusterOffset(g, c) && ClusterOffset(g, c) + g.clusterSize <= |disk|
  {
    ClustersApart(g, c, g.End());
    if c > RESERVED { ClustersApart(g, RESERVED, c); }
  }

  /** Different clusters occupy different bytes. */
  lemma {:induction false} ClustersApart(g: Geometry, c: nat, d: nat)
    requires RESERVED <= c < d
    ensures ClusterOffset(g, c) + g.clusterSize <= ClusterOffset(g, d)
    decreases d
  {
    if c + 1 < d { ClustersApart(g, c, d - 1); }
  }

  /** A table of zeros: every cluster is free, and any files there are hold none. */
  lemma BlankVolume(g: Geometry, disk: Bytes, files: Files)
    requires Fitting(g, disk) && (forall at | g.fatStart <= at < g.dataStart && at < |disk| :: disk[at] == 0)
    requires forall f | f in files :: files[f] == []
    ensures Sound(g, disk) && (forall c | 0 <= c < g.End() :: TableOf(g, disk)[c] == Free)
    ensures InRange(TableOf(g, disk)) && ChainsOk(TableOf(g, disk), files)
  {
    FittingFat(g, disk);
    forall i: nat | i < g.mirrors ensures MirrorBytes(g, disk, i) == Fat0(g, disk) {
      MirrorMono(g.fatStart, g.fatSize, i, g.mirrors);
      MirrorProduct(g.fatStart, g.fatSize, i);
    }
    var b := Fat(g, disk);
    forall c: nat | c < g.End() ensures Get(g.t, b, c) == Free { ZeroEntry(g.t, b, c); }
  }

  lemma ZeroEntry(t: FatType, b: Bytes, c: nat)
    requires Fits(t, b, c) && !Special(t, c) && forall i | 0 <= i < |b| :: b[i] == 0
    ensures Get(t, b, c) == Free
  {
  }

  // ---------------------------------------------------------------- free clusters

  lemma FreeEntry(g: Geometry, disk: Bytes, c: nat)
    requires Fitting(g, disk) && c < g.End()
    ensures g.fatStart + g.fatSize <= |disk| && Holds(g.t, Fat(g, disk), g.End())
    ensures IsFree(g.t, Fat(g, disk), g.End(), c) <==> TableOf(g, disk)[c].Free?
  {
    FittingFat(g, disk);
  }

  ghost function FreeAbove(tab: Table, c: nat): set<nat> { set d | d in FreeSet(tab) && c <= d }

  lemma FreeAboveStep(tab: Table, c: nat)
    requires RESERVED <= c
    ensures c < |tab| ==> |FreeAbove(tab, c)| == |FreeAbove(tab, c + 1)| + (if tab[c].Free? then 1 else 0)
    ensures c >= |tab| ==> |FreeAbove(tab, c)| == 0
  {
    if c < |tab| {
      assert FreeAbove(tab, c) == FreeAbove(tab, c + 1) + (if tab[c].Free? then {c} else {});
    } else {
      assert FreeAbove(tab, c) == {};
    }
  }

  /** The streaming count is the number of free clusters of the table. */
  lemma {:induction false} CountsFree(g: Geometry, disk: Bytes, c: nat)
    requires Fitting(g, disk) && RESERVED <= c <= g.End()
    ensures g.fatStart + g.fatSize <= |disk| && Holds(g.t, Fat(g, disk), g.End())
    ensures NumFree(g.t, Fat(g, disk), c, g.End()) == |FreeAbove(TableOf(g, disk), c)|
    decreases g.End() - c
  {
    FittingFat(g, disk);
    FreeAboveStep(TableOf(g, disk), c);
    if c < g.End() {
      CountsFree(g, disk, c + 1);
      FreeEntry(g, disk, c);
    }
  }

  lemma CountsAllFree(g: Geometry, disk: Bytes)
    requires Fitting(g, disk)
    ensures g.fatStart + g.fatSize <= |disk| && Holds(g.t, Fat(g, disk), g.End())
    ensures NumFree(g.t, Fat(g, disk), RESERVED, g.End()) == |FreeSet(TableOf(g, disk))|
  {
    CountsFree(g, disk, RESERVED);
    assert FreeAbove(TableOf(g, disk), RESERVED) == FreeSet(TableOf(g, disk));
  }

  // ---------------------------------------------------------------- the mounted volume

  /** Where the search for a free cluster starts. */
  function HintOf(hint: Option<nat>, end: nat): nat {
    if hint.Some? && hint.value < end then hint.value else RESERVED
  }

  /** `c` is the first of `free` from `start` on, or the first of all when there is none from there on. */
  ghost predicate FirstAfter(free: set<nat>, start: nat, c: nat) {
    c in free && forall d | d in free :: if c >= start then d < start || c <= d else c <= d < start
  }

  class FileSystem {
    const g: Geometry
    var disk: Bytes
    var freeCount: Option<nat>
    var nextFree: Option<nat>
    ghost var files: Files

    ghost function Tab(): (tab: Table)
      reads this
      requires Fitting(g, disk)
      ensures |tab| == g.End()
    {
      TableOf(g, disk)
    }

    /** Chains are intact and disjoint, and a known free count is the true one. */
    ghost predicate Valid()
      reads this
    {
      && Sound(g, disk) && InRange(Tab()) && ChainsOk(Tab(), files)
      && (freeCount.Some? ==> freeCount.value == |FreeSet(Tab())|)
      && (nextFree.Some? ==> nextFree.value >= RESERVED)
    }

    /** Mount a sound volume; the cached count and hint come from its information sector. */
    constructor Mount(g: Geometry, disk: Bytes, freeCount: Option<nat>, nextFree: Option<nat>, ghost files: Files)
      requires Sound(g, disk) && InRange(TableOf(g, disk)) && ChainsOk(TableOf(g, disk), files)
      requires freeCount.Some? ==> freeCount.value == |FreeSet(TableOf(g, disk))|
      requires nextFree.Some? ==> nextFree.value >= RESERVED
      ensures Valid() && this.g == g && this.disk == disk && this.files == files
    {
      this.g, this.disk, this.freeCount, this.nextFree, this.files := g, disk, freeCount, nextFree, files;
    }

    /** Write an entry to every mirror. */
    method WriteFat(c: nat, v: FatValue)
      requires Sound(g, disk) && c < g.End() && Storable(g.t, v)
      modifies this`disk
      ensures Sound(g, disk) && Tab() == old(Tab())[c := v] && SameData(g, old(disk), disk)
    {
      WriteEntryTable(g, disk, c, v);
      MirrorLoop(EntryOffset(g.t, c), NewBytes(g.t, Fat(g, disk), c, v));
    }

    /** `DiskSlice::write`: the same bytes at the same offset of every mirror. */
    method MirrorLoop(off: nat, w: Bytes)
      requires MirrorAt(g.fatStart, g.fatSize, g.mirrors) <= |disk| && off + |w| <= g.fatSize
      modifies this`disk
      ensures disk == MirrorWrite(old(disk), g.fatStart, g.fatSize, g.mirrors, off, w)
    {
      var i := 0;
      while i < g.mirrors
        invariant i <= g.mirrors && MirrorAt(g.fatStart, g.fatSize, i) <= |old(disk)|
        invariant disk == MirrorWrite(old(disk), g.fatStart, g.fatSize, i, off, w)
      {
        MirrorProduct(g.fatStart, g.fatSize, i);
        NextMirror(g.fatStart, g.fatSize, i, g.mirrors);
        disk := Splice(disk, g.fatStart + i * g.fatSize + off, w);
        i := i + 1;
      }
    }

    method NextCluster(c: nat) returns (r: Option<nat>)
      requires Sound(g, disk) && c < g.End()
      ensures r == if Tab()[c].Data? then Some(Tab()[c].next) else None
    {
      FittingFat(g, disk);
      var v := Get(g.t, Fat(g, disk), c);
      r := if v.Data? then Some(v.next) else None;
    }

    /** Free everything reached from `first`; the loop ends on every in-range table, loops included. */
    method FreeLoop(first: Option<nat>) returns (n: nat)
      requires Sound(g, disk) && InRange(Tab()) && (first.Some? ==> RESERVED <= first.value < g.End())
      modifies this`disk
      ensures Sound(g, disk) && InRange(Tab()) && SameData(g, old(disk), disk)
      ensures first.None? ==> n == 0 && disk == old(disk)
      ensures first.Some? ==> (Tab(), n) == FreeFrom(old(Tab()), first.value)
    {
      n := 0;
      var cluster := first;
      while cluster.Some?
        invariant Sound(g, disk) && InRange(Tab()) && SameData(g, old(disk), disk)
        invariant cluster.Some? ==> RESERVED <= cluster.value < g.End()
        invariant first.None? ==> cluster.None? && n == 0 && disk == old(disk)
        invariant first.Some? && cluster.Some? ==>
                    FreeFrom(old(Tab()), first.value) ==
                        (FreeFrom(Tab(), cluster.value).0, FreeFrom(Tab(), cluster.value).1 + n)
        invariant first.Some? && cluster.None? ==> FreeFrom(old(Tab()), first.value) == (Tab(), n)
        decreases DataSet(Tab()), cluster.Some?
      {
        var c := cluster.value;
        ghost var tab := Tab();
        cluster := NextCluster(c);
        WriteFat(c, Free);
        n := n + 1;
        if cluster.Some? {
          assert c in DataSet(tab) && c !in DataSet(Tab());
          assert DataSet(Tab()) < DataSet(tab);
        }
        assert DataSet(Tab()) <= DataSet(tab);
      }
    }

    method FreeClusterChain(first: nat, ghost f: nat)
      requires Valid() && f in files && files[f] != [] && files[f][0] == first
      modifies this`disk, this`freeCount, this`files
      ensures Valid() && SameData(g, old(disk), disk)
      ensures files == old(files)[f := []] && Tab() == Cleared(old(Tab()), old(files)[f])
      ensures freeCount == if old(freeCount).Some? then Some(old(freeCount).value + |old(files)[f]|) else None
      ensures |FreeSet(Tab())| == |FreeSet(old(Tab()))| + |old(files)[f]|
    {
      ghost var tab, s := Tab(), files[f];
      assert IsChain(tab, s);
      FreeChain(tab, s);
      TruncateKeepsChains(tab, files, f, 0);
      TruncatedChain(tab, s, 0);
      TruncatedFree(tab, s, 0);
      var n := FreeLoop(Some(first));
      files := files[f := []];
      if freeCount.Some? {
        freeCount := Some(freeCount.value + n);
      }
    }

    /** Cut the chain after cluster `c`, its `keep`-th one. */
    method TruncateClusterChain(c: nat, ghost f: nat, ghost keep: nat)
      requires Valid() && f in files && 0 < keep <= |files[f]| && files[f][keep - 1] == c
      modifies this`disk, this`freeCount, this`files
      ensures Valid() && SameData(g, old(disk), disk)
      ensures files == old(files)[f := old(files)[f][..keep]]
      ensures (forall d | d in old(files)[f] :: d < |old(Tab())|) && Tab() == Truncated(old(Tab()), old(files)[f], keep)
      ensures freeCount == if old(freeCount).Some? then Some(old(freeCount).value + |old(files)[f]| - keep) else None
      ensures |FreeSet(Tab())| == |FreeSet(old(Tab()))| + |old(files)[f]| - keep
    {
      ghost var tab, s := Tab(), files[f];
      TruncateFacts(tab, files, f, keep);
      var n := CutBehind(c, if keep == |s| then None else Some(s[keep]), Truncated(tab, s, keep), |s| - keep);
      files := files[f := s[..keep]];
      if freeCount.Some? {
        freeCount := Some(freeCount.value + n);
      }
    }

    /** Make `c` the end of its chain and free what followed, from `next` on. */
    method CutBehind(c: nat, ghost next: Option<nat>, ghost tab': Table, ghost count: nat) returns (n: nat)
      requires Sound(g, disk) && c < g.End() && InRange(Tab()[c := EndOfChain]) &&
               (next.Some? ==> RESERVED <= next.value < g.End())
      requires next == if Tab()[c].Data? then Some(Tab()[c].next) else None
      requires next.None? ==> tab' == Tab()[c := EndOfChain] && count == 0
      requires next.Some? ==> FreeFrom(Tab()[c := EndOfChain], next.value) == (tab', count)
      modifies this`disk
      ensures Sound(g, disk) && SameData(g, old(disk), disk) && Tab() == tab' && n == count
    {
      var cluster := NextCluster(c);
      WriteFat(c, EndOfChain);
      n := FreeLoop(cluster);
    }

    /** Find a free cluster from the hint on, wrapping around. */
    method FindFreeCluster() returns (r: Option<nat>)
      requires Sound(g, disk) && (nextFree.Some? ==> nextFree.value >= RESERVED)
      ensures r.None? <==> FreeSet(Tab()) == {}
      ensures r.Some? ==> r.value in FreeSet(Tab())
      ensures r.Some? ==> FirstAfter(FreeSet(Tab()), HintOf(nextFree, g.End()), r.value)
    {
      FittingFat(g, disk);
      forall c: nat | c < g.End() ensures IsFree(g.t, Fat(g, disk), g.End(), c) <==> Tab()[c].Free? {
        FreeEntry(g, disk, c);
      }
      var end := g.End();
      var start := if nextFree.Some? && nextFree.value < end then nextFree.value else RESERVED;
      r := FindFree(g.t, Fat(g, disk), start, end);
      if r.Some? {
        assert r.value in FreeSet(Tab());
        return;
      }
      if start > RESERVED {
        HoldsLess(g.t, Fat(g, disk), start, end);
        r := FindFree(g.t, Fat(g, disk), RESERVED, start);
        if r.Some? { assert r.value in FreeSet(Tab()); }
      }
    }

    /** Mark `c` as an end of chain and link it after `prev`. */
    method LinkCluster(prev: Option<nat>, c: nat, ghost s: seq<nat>)
      requires Sound(g, disk) && RESERVED <= c < g.End()
      requires if s == [] then prev.None? else prev == Some(s[|s| - 1]) && prev.value < g.End()
      modifies this`disk
      ensures Sound(g, disk) && Tab() == Extended(old(Tab()), s, c) && SameData(g, old(disk), disk)
    {
      WriteFat(c, EndOfChain);
      if prev.Some? {
        WriteFat(prev.value, Data(c));
      }
    }

    /** Append a free cluster to file `f`, whose last cluster is `prev`; `None` when the volume is full. */
    method AllocCluster(prev: Option<nat>, ghost f: nat) returns (r: Option<nat>)
      requires Valid() && f in files
      requires prev == if files[f] == [] then None else Some(files[f][|files[f]| - 1])
      modifies this`disk, this`freeCount, this`nextFree, this`files
      ensures Valid() && SameData(g, old(disk), disk)
      ensures r.None? <==> FreeSet(old(Tab())) == {}
      ensures r.None? ==>
              disk == old(disk) && files == old(files) && freeCount == old(freeCount) && nextFree == old(nextFree)
      ensures r.Some? ==>
                && r.value in FreeSet(old(Tab())) && (forall h | h in old(files) :: r.value !in old(files)[h])
                && files == old(files)[f := old(files)[f] + [r.value]]
                && FirstAfter(FreeSet(old(Tab())), HintOf(old(nextFree), g.End()), r.value)
                && freeCount == (if old(freeCount).Some? then Some(|FreeSet(Tab())|) else None)
                && (old(files)[f] != [] ==> old(files)[f][|old(files)[f]| - 1] < |old(Tab())|)
                && Tab() == Extended(old(Tab()), old(files)[f], r.value)
                && nextFree == Some(r.value + 1) && |FreeSet(Tab())| == |FreeSet(old(Tab()))| - 1
    {
      r := FindFreeCluster();
      if r.None? {
        return;
      }
      var c := r.value;
      ghost var tab, s := Tab(), files[f];
      AllocFacts(tab, files, f, c);
      LinkCluster(prev, c, s);
      files := files[f := s + [c]];
      nextFree := Some(c + 1);
      if freeCount.Some? {
        freeCount := Some(freeCount.value - 1);
      }
    }

    /** The free count, recounted and cached when unknown: always the true number of free clusters. */
    method Stats() returns (n: nat)
      requires Valid()
      modifies this`freeCount
      ensures Valid() && n == |FreeSet(Tab())| && freeCount == Some(n)
    {
      if freeCount.Some? {
        return freeCount.value;
      }
      CountsAllFree(g, disk);
      n := CountFree(g.t, Fat(g, disk), g.End());
      freeCount := Some(n);
    }
  }

  lemma NextMirror(begin: nat, size: nat, i: nat, n: nat)
    requires i < n
    ensures MirrorAt(begin, size, i) + size <= MirrorAt(begin, size, n) &&
            MirrorAt(begin, size, i + 1) <= MirrorAt(begin, size, n)
  {
    MirrorMono(begin, size, i, n);
    if i + 1 < n { MirrorMono(begin, size, i + 1, n); }
  }

  lemma TruncateFacts(tab: Table, files: Files, f: nat, keep: nat)
    requires InRange(tab) && ChainsOk(tab, files) && f in files && 0 < keep <= |files[f]|
    ensures var s := files[f];
            && (forall d | d in s :: d < |tab|) && s[keep - 1] < |tab|
            && var tab' := Truncated(tab, s, keep);
               var t := tab[s[keep - 1] := EndOfChain];
               && InRange(tab') && ChainsOk(tab', files[f := s[..keep]])
               && |FreeSet(tab')| == |FreeSet(tab)| + (|s| - keep)
               && InRange(t)
               && if keep == |s| then !tab[s[keep - 1]].Data? && tab' == t
                  else
                    && tab[s[keep - 1]] == Data(s[keep]) && RESERVED <= s[keep] < |tab|
                    && FreeFrom(t, s[keep]) == (tab', |s| - keep)
  {
    var s := files[f];
    assert IsChain(tab, s);
    TruncateKeepsChains(tab, files, f, keep);
    TruncatedChain(tab, s, keep);
    TruncatedFree(tab, s, keep);
    TailChain(tab, s, keep);
  }

  lemma AllocFacts(tab: Table, files: Files, f: nat, c: nat)
    requires InRange(tab) && ChainsOk(tab, files) && f in files && c in FreeSet(tab)
    ensures var s := files[f];
            && (s != [] ==> RESERVED <= s[|s| - 1] < |tab| && s[|s| - 1] != c)
            && var tab' := Extended(tab, s, c);
               && InRange(tab') && ChainsOk(tab', files[f := s + [c]])
               && |FreeSet(tab')| == |FreeSet(tab)| - 1
               && forall h | h in files :: c !in files[h]
  {
    var s := files[f];
    if s != [] { assert IsChain(tab, s); assert s[|s| - 1] in s; }
    AllocKeepsChains(tab, files, f, c);
    ExtendedChain(tab, s, c);
  }

  lemma HoldsLess(t: FatType, b: Bytes, n: nat, end: nat)
    requires Holds(t, b, end) && 0 < n <= end
    ensures Holds(t, b, n)
    ensures forall c | 0 <= c < n :: IsFree(t, b, n, c) == IsFree(t, b, end, c)
  {
    HoldsFits(t, b, end, n - 1);
  }

  /** Freeing from the successor of the last kept cluster is freeing the tail of the chain. */
  lemma TailChain(tab: Table, s: seq<nat>, keep: nat)
    requires InRange(tab) && IsChain(tab, s) && 0 < keep <= |s|
    ensures s[keep - 1] < |tab|
    ensures var t := tab[s[keep - 1] := EndOfChain];
            && InRange(t)
            && if keep == |s| then !tab[s[keep - 1]].Data? && Truncated(tab, s, keep) == t
               else
                 && tab[s[keep - 1]] == Data(s[keep])
                 && FreeFrom(t, s[keep]) == (Truncated(tab, s, keep), |s| - keep)
  {
    var t := tab[s[keep - 1] := EndOfChain];
    if keep == |s| {
      assert Cleared(t, s[keep..]) == t;
    } else {
      var r := s[keep..];
      assert Link(tab, s, keep - 1);
      assert forall i | 0 <= i < |r| :: r[i] == s[keep + i];
      NoRepeatsSplit(s, keep);
      assert s[..keep][keep - 1] in s[..keep];
      assert IsChain(t, r) by {
        forall i: nat | i + 1 < |r| ensures Link(t, r, i) { assert Link(tab, s, keep + i); }
      }
      FreeChain(t, r);
    }
  }
}
