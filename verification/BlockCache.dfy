/** A write-back cache of 16 disk blocks, and the byte cursor that reads and writes through it. */
module BlockCaches {
  import opened Bits
  import opened Disks
  import opened Options

  const BLOCK_SIZE: nat := 512
  const BLOCK_CACHE_SIZE: nat := 16
  const U32_SPAN: nat := 0x1_0000_0000
  const U64_SPAN: nat := 0x1_0000_0000_0000_0000

  datatype Cached = Cached(id: nat, bytes: Bytes, modified: bool)

  type Blocks = seq<Bytes>

  ghost predicate Sized(d: Blocks) { forall b | 0 <= b < |d| :: |d[b]| == BLOCK_SIZE }

  /** A cached block: a clean one equals the block on the device. */
  ghost predicate EntryOk(d: Blocks, c: Cached) {
    c.id < |d| && |c.bytes| == BLOCK_SIZE && (!c.modified ==> c.bytes == d[c.id])
  }

  ghost predicate At(q: seq<Cached>, i: int, id: nat) { 0 <= i < |q| && q[i].id == id }

  /** At most 16 entries, no block twice, clean entries up to date. */
  ghost predicate CacheOk(d: Blocks, q: seq<Cached>) {
    && Sized(d) && |q| <= BLOCK_CACHE_SIZE
    && (forall i | 0 <= i < |q| :: EntryOk(d, q[i]))
    && (forall i, j, id | At(q, i, id) && At(q, j, id) :: i == j)
  }

  /** Block `b` as callers see it: the cached copy if there is one. */
  ghost function Seen(d: Blocks, q: seq<Cached>, b: nat): Bytes
    requires b < |d|
  {
    if exists i :: At(q, i, b) then var i :| At(q, i, b); q[i].bytes else d[b]
  }

  ghost function View(d: Blocks, q: seq<Cached>): (v: Blocks)
    ensures |v| == |d| && forall b | 0 <= b < |d| :: v[b] == Seen(d, q, b)
  {
    seq(|d|, b requires 0 <= b < |d| => Seen(d, q, b))
  }

  lemma SeenAt(d: Blocks, q: seq<Cached>, i: nat)
    requires CacheOk(d, q) && i < |q|
    ensures Seen(d, q, q[i].id) == q[i].bytes
  {
    assert At(q, i, q[i].id);
  }

  lemma SameView(d: Blocks, q: seq<Cached>, d': Blocks, q': seq<Cached>)
    requires |d'| == |d| && forall b | 0 <= b < |d| :: Seen(d', q', b) == Seen(d, q, b)
    ensures View(d', q') == View(d, q)
  {
  }

  // ---------------------------------------------------------------- eviction, loading, writing

  /** Writing a dirty entry back. */
  function WrittenBack(d: Blocks, c: Cached): (r: Blocks)
    requires c.id < |d|
    ensures |r| == |d|
  {
    if c.modified then d[c.id := c.bytes] else d
  }

  function Dropped(q: seq<Cached>, i: nat): seq<Cached>
    requires i < |q|
  {
    q[..i] + q[i + 1..]
  }

  /** Dropping an entry, with write-back, does not show. */
  lemma EvictKeeps(d: Blocks, q: seq<Cached>, i: nat)
    requires CacheOk(d, q) && i < |q|
    ensures CacheOk(WrittenBack(d, q[i]), Dropped(q, i)) && View(WrittenBack(d, q[i]), Dropped(q, i)) == View(d, q)
  {
    var d', q' := WrittenBack(d, q[i]), Dropped(q, i);
    forall j | 0 <= j < |q'| ensures EntryOk(d', q'[j]) {
      var k := if j < i then j else j + 1;
      assert q'[j] == q[k] && At(q, k, q[k].id) && At(q, i, q[i].id);
    }
    forall j, k, id | At(q', j, id) && At(q', k, id) ensures j == k {
      assert At(q, if j < i then j else j + 1, id) && At(q, if k < i then k else k + 1, id);
    }
    forall b | 0 <= b < |d| ensures Seen(d', q', b) == Seen(d, q, b) { EvictSeen(d, q, i, b); }
    SameView(d, q, d', q');
  }

  lemma EvictSeen(d: Blocks, q: seq<Cached>, i: nat, b: nat)
    requires CacheOk(d, q) && i < |q| && b < |d|
    ensures Seen(WrittenBack(d, q[i]), Dropped(q, i), b) == Seen(d, q, b)
  {
    var q' := Dropped(q, i);
    assert forall k :: At(q', k, b) ==> At(q, if k < i then k else k + 1, b);
    assert At(q, i, q[i].id);
    if j :| At(q, j, b) {
      SeenAt(d, q, j);
      if j != i { assert At(q', if j < i then j else j - 1, b); }
    }
  }

  /** A clean copy of an uncached block does not show. */
  lemma LoadKeeps(d: Blocks, q: seq<Cached>, id: nat)
    requires CacheOk(d, q) && |q| < BLOCK_CACHE_SIZE && id < |d| && forall i | 0 <= i < |q| :: q[i].id != id
    ensures var q' := q + [Cached(id, d[id], false)];
            CacheOk(d, q') && View(d, q') == View(d, q)
  {
    var q' := q + [Cached(id, d[id], false)];
    assert forall i :: !At(q, i, id);
    forall j, k, x | At(q', j, x) && At(q', k, x) ensures j == k {
      assert j < |q| ==> At(q, j, x);
      assert k < |q| ==> At(q, k, x);
    }
    forall b | 0 <= b < |d| ensures Seen(d, q', b) == Seen(d, q, b) {
      if i :| At(q, i, b) {
        SeenAt(d, q, i);
        assert At(q', i, b);
        SeenAt(d, q', i);
      } else if b == id {
        assert At(q', |q|, b);
        SeenAt(d, q', |q|);
      } else {
        forall k ensures !At(q', k, b) { assert k < |q| ==> (At(q', k, b) <==> At(q, k, b)); }
      }
    }
    SameView(d, q, d, q');
  }

  /** Writing into an entry and marking it dirty writes the block callers see. */
  lemma PutView(d: Blocks, q: seq<Cached>, i: nat, bytes: Bytes)
    requires CacheOk(d, q) && i < |q| && |bytes| == BLOCK_SIZE
    ensures var q' := q[i := Cached(q[i].id, bytes, true)];
            CacheOk(d, q') && View(d, q') == View(d, q)[q[i].id := bytes]
  {
    var q' := q[i := Cached(q[i].id, bytes, true)];
    assert forall j, x :: At(q', j, x) <==> At(q, j, x);
    forall b | 0 <= b < |d| ensures Seen(d, q', b) == if b == q[i].id then bytes else Seen(d, q, b) {
      if j :| At(q, j, b) {
        assert At(q', j, b);
        SeenAt(d, q, j);
        SeenAt(d, q', j);
        assert At(q, i, q[i].id);
      } else {
        assert At(q, i, q[i].id);
      }
    }
    assert View(d, q') == View(d, q)[q[i].id := bytes];
  }

  // ---------------------------------------------------------------- the flat array

  /** The blocks one after the other. */
  ghost function Joined(v: Blocks): (r: Bytes)
    requires Sized(v)
    ensures |r| == BLOCK_SIZE * |v|
  {
    if v == [] then [] else Joined(v[..|v| - 1]) + v[|v| - 1]
  }

  lemma {:induction false} JoinedBlock(v: Blocks, b: nat)
    requires Sized(v) && b < |v|
    ensures Window(Joined(v), BLOCK_SIZE * b, BLOCK_SIZE) == v[b]
    decreases |v|
  {
    if b < |v| - 1 { JoinedBlock(v[..|v| - 1], b); }
  }

  lemma {:induction false} JoinedPut(v: Blocks, b: nat, o: nat, w: Bytes)
    requires Sized(v) && b < |v| && o + |w| <= BLOCK_SIZE
    ensures Joined(v[b := Splice(v[b], o, w)]) == Splice(Joined(v), BLOCK_SIZE * b + o, w)
    decreases |v|
  {
    var n := |v| - 1;
    var v' := v[b := Splice(v[b], o, w)];
    if b < n {
      JoinedPut(v[..n], b, o, w);
      assert v'[..n] == v[..n][b := Splice(v[b], o, w)];
      SpliceLeft(Joined(v[..n]), v[n], BLOCK_SIZE * b + o, w);
    } else {
      assert v'[..n] == v[..n];
      SpliceRight(Joined(v[..n]), v[n], o, w);
    }
  }

  /** `n` bytes, `o` bytes into block `b`, which starts at `lo`. */
  lemma {:induction false} JoinedSlice(v: Blocks, b: nat, lo: nat, o: nat, n: nat)
    requires Sized(v) && b < |v| && lo == BLOCK_SIZE * b && o + n <= BLOCK_SIZE
    ensures lo + BLOCK_SIZE <= |Joined(v)| && v[b][o..o + n] == Joined(v)[lo + o..lo + o + n]
  {
    JoinedBlock(v, b);
    var j := Joined(v);
    assert lo + BLOCK_SIZE <= |j|;
    WindowSlice(j, lo, BLOCK_SIZE, o, n);
  }

  // ---------------------------------------------------------------- the copy loops

  /** Bytes one block access moves: the buffer length is cut to 32 bits first. */
  function Chunk(o: nat, len: nat): (n: nat)
    requires o < BLOCK_SIZE
    ensures o + n <= BLOCK_SIZE && n <= len && (0 < len < U32_SPAN ==> n > 0)
  {
    Min(BLOCK_SIZE - o, len % U32_SPAN)
  }

  /** What is left of `len` bytes from block offset `o` after `rounds` rounds of a copy loop. */
  function Rest(o: nat, len: nat, rounds: nat): nat
    requires o < BLOCK_SIZE
    decreases rounds
  {
    if rounds == 0 then len
    else var n := Chunk(o, len); Rest((o + n) % BLOCK_SIZE, len - n, rounds - 1)
  }

  lemma ChunkStuck(o: nat, len: nat)
    requires o < BLOCK_SIZE && len >= U32_SPAN
    ensures len - Chunk(o, len) >= U32_SPAN
  {
  }

  lemma {:induction false} RestStuck(o: nat, len: nat, rounds: nat)
    requires o < BLOCK_SIZE && len >= U32_SPAN
    ensures Rest(o, len, rounds) >= U32_SPAN
    decreases rounds
  {
    if rounds > 0 {
      var n := Chunk(o, len);
      ChunkStuck(o, len);
      RestStuck((o + n) % BLOCK_SIZE, len - n, rounds - 1);
    }
  }

  lemma {:induction false} RestDone(o: nat, len: nat, rounds: nat)
    requires o < BLOCK_SIZE && len < U32_SPAN && len <= rounds
    ensures Rest(o, len, rounds) == 0
    decreases rounds
  {
    if rounds > 0 {
      var n := Chunk(o, len);
      RestDone((o + n) % BLOCK_SIZE, len - n, rounds - 1);
    }
  }

  /** The copy loops end exactly for buffers below 2^32 bytes: a longer one is cut down to a multiple of 2^32 and stays
      there. */
  lemma CopyEndsIff(o: nat, len: nat)
    requires o < BLOCK_SIZE
    ensures (exists rounds: nat :: Rest(o, len, rounds) == 0) <==> len < U32_SPAN
  {
    if len < U32_SPAN {
      RestDone(o, len, len);
      assert Rest(o, len, len) == 0;
    } else {
      forall rounds: nat ensures Rest(o, len, rounds) != 0 { RestStuck(o, len, rounds); }
    }
  }

  // ---------------------------------------------------------------- the cache

  /** After a sync the device is what callers see. */
  lemma SyncedView(d: Blocks, q: seq<Cached>)
    requires CacheOk(d, q) && forall i | 0 <= i < |q| :: !q[i].modified
    ensures View(d, q) == d
  {
    forall b | 0 <= b < |d| ensures Seen(d, q, b) == d[b] {
      if i :| At(q, i, b) {
        SeenAt(d, q, i);
        assert EntryOk(d, q[i]);
      }
    }
  }

  /** Writing one dirty entry back and marking it clean does not show. */
  lemma SyncKeeps(d: Blocks, q: seq<Cached>, i: nat)
    requires CacheOk(d, q) && i < |q|
    ensures var d', q' := WrittenBack(d, q[i]), q[i := q[i].(modified := false)];
            CacheOk(d', q') && View(d', q') == View(d, q)
  {
    var d', q' := WrittenBack(d, q[i]), q[i := q[i].(modified := false)];
    assert forall j, x :: At(q', j, x) <==> At(q, j, x);
    assert At(q, i, q[i].id);
    forall j | 0 <= j < |q| ensures EntryOk(d', q'[j]) {
      assert EntryOk(d, q[j]) && At(q, j, q[j].id);
    }
    forall b | 0 <= b < |d| ensures Seen(d', q', b) == Seen(d, q, b) {
      if j :| At(q, j, b) {
        SeenAt(d, q, j);
        assert At(q', j, b);
        SeenAt(d', q', j);
      }
    }
    SameView(d, q, d', q');
  }

  /** Entry `i` is the oldest one no handle refers to. */
  ghost predicate FirstUnused(q: seq<Cached>, held: set<nat>, i: nat) {
    i < |q| && q[i].id !in held && forall j | 0 <= j < i :: q[j].id in held
  }

  /** How the queue changes when block `id` is asked for: a hit changes nothing, a miss appends a clean copy, in place
      of the oldest unused entry when the cache is full. */
  ghost predicate Fetched(d: Blocks, q: seq<Cached>, id: nat, held: set<nat>, q': seq<Cached>) {
    if exists i :: At(q, i, id) then q' == q
    else if id >= |d| then false
    else if |q| < BLOCK_CACHE_SIZE then q' == q + [Cached(id, d[id], false)]
    else exists i: nat :: FirstUnused(q, held, i) && q' == Dropped(q, i) + [Cached(id, d[id], false)]
  }

  class BlockCacheManager {
    var device: Blocks
    var queue: seq<Cached>

    ghost predicate Valid()
      reads this
    {
      CacheOk(device, queue)
    }

    /** The disk as callers see it. */
    ghost function Contents(): Blocks
      reads this
    {
      View(device, queue)
    }

    /** An empty cache in front of a device. */
    constructor (device: Blocks)
      requires Sized(device)
      ensures Valid() && this.device == device && queue == [] && Contents() == device
    {
      this.device, queue := device, [];
      new;
      SyncedView(device, []);
    }

    /** The first entry for block `id`. */
    method Find(id: nat) returns (r: Option<nat>)
      ensures r.Some? ==> At(queue, r.value, id)
      ensures r.None? ==> forall i | 0 <= i < |queue| :: queue[i].id != id
    {
      for i := 0 to |queue|
        invariant forall j | 0 <= j < i :: queue[j].id != id
      {
        if queue[i].id == id {
          return Some(i);
        }
      }
      return None;
    }

    /** The first entry no handle refers to. */
    method FindUnused(held: set<nat>) returns (r: Option<nat>)
      ensures r.Some? ==> FirstUnused(queue, held, r.value)
      ensures r.None? ==> forall i | 0 <= i < |queue| :: queue[i].id in held
    {
      for i := 0 to |queue|
        invariant forall j | 0 <= j < i :: queue[j].id in held
      {
        if queue[i].id !in held {
          return Some(i);
        }
      }
      return None;
    }

    /** The entry of a block, loaded in place of the oldest unused one if need be; `None` is the panic when all 16
        are in use. */
    method GetBlockCache(id: nat, held: set<nat>) returns (r: Option<nat>)
      requires Valid() && id < |device|
      modifies this
      ensures Valid() && Contents() == old(Contents()) && |device| == |old(device)|
      ensures (r.Some? ==> At(queue, r.value, id)) && (held == {} ==> r.Some?)
      ensures r.None? ==> |queue| == BLOCK_CACHE_SIZE && forall i | 0 <= i < |queue| ::
              queue[i].id in held && queue[i].id != id
      ensures forall i | 0 <= i < |old(queue)| && old(queue)[i].id in held :: old(queue)[i] in queue
      ensures r.Some? ==> Fetched(old(device), old(queue), id, held, queue)
    {
      r := Find(id);
      if r.Some? {
        return;
      }
      assert forall i :: !At(queue, i, id);
      if |queue| == BLOCK_CACHE_SIZE {
        var idx := FindUnused(held);
        if idx.None? {
          assert queue[0].id in held;
          return None;
        }
        Evict(idx.value);
      }
      LoadKeeps(device, queue, id);
      queue := queue + [Cached(id, device[id], false)];
      return Some(|queue| - 1);
    }

    /** Drop an entry, writing it back if dirty. */
    method Evict(i: nat)
      requires Valid() && i < |queue|
      modifies this
      ensures Valid() && Contents() == old(Contents()) && |device| == |old(device)|
      ensures queue == Dropped(old(queue), i) && device == WrittenBack(old(device), old(queue)[i])
    {
      EvictKeeps(device, queue, i);
      if queue[i].modified {
        device := device[queue[i].id := queue[i].bytes];
      }
      queue := queue[..i] + queue[i + 1..];
    }

    /** Up to `len` bytes of an entry from `offset` on. */
    method Read(i: nat, offset: nat, len: nat) returns (r: Bytes)
      requires Valid() && i < |queue| && offset < BLOCK_SIZE
      ensures |r| == Chunk(offset, len) && r == Contents()[queue[i].id][offset..offset + |r|]
    {
      SeenAt(device, queue, i);
      var n := Min(BLOCK_SIZE - offset, len % U32_SPAN);
      r := queue[i].bytes[offset..offset + n];
    }

    /** Write the front of `buf` into an entry. */
    method Write(i: nat, offset: nat, buf: Bytes) returns (n: nat)
      requires Valid() && i < |queue| && offset < BLOCK_SIZE
      modifies this`queue
      ensures Valid() && n == Chunk(offset, |buf|) && |old(Contents())[old(queue)[i].id]| == BLOCK_SIZE
      ensures Contents() ==
              old(Contents())[old(queue)[i].id := Splice(old(Contents())[old(queue)[i].id], offset, buf[..n])]
    {
      var c := queue[i];
      SeenAt(device, queue, i);
      n := Min(BLOCK_SIZE - offset, |buf| % U32_SPAN);
      var bytes := Splice(c.bytes, offset, buf[..n]);
      if buf == [] {
        assert bytes == c.bytes && Contents()[c.id := bytes] == Contents();
        return;
      }
      PutView(device, queue, i, bytes);
      queue := queue[i := Cached(c.id, bytes, true)];
    }

    /** Write every dirty entry back. */
    method SyncAll()
      requires Valid()
      modifies this
      ensures Valid() && Contents() == old(Contents()) == device && |queue| == |old(queue)|
    {
      for i := 0 to |queue|
        invariant Valid() && Contents() == old(Contents()) && |queue| == |old(queue)|
        invariant forall j | 0 <= j < i :: !queue[j].modified
      {
        SyncKeeps(device, queue, i);
        if queue[i].modified {
          device := device[queue[i].id := queue[i].bytes];
        }
        queue := queue[i := queue[i].(modified := false)];
      }
      SyncedView(device, queue);
    }
  }

  // ---------------------------------------------------------------- the disk cursor

  datatype SeekFrom = Start(pos: nat) | Current(delta: int)

  class DiskDriver {
    const cache: BlockCacheManager
    var blockId: nat
    var blockOffset: nat

    constructor (cache: BlockCacheManager)
      ensures this.cache == cache && blockId == 0 && blockOffset == 0
    {
      this.cache := cache;
      blockId, blockOffset := 0, 0;
    }

    ghost predicate Valid()
      reads this, cache
    {
      cache.Valid() && blockOffset < BLOCK_SIZE
    }

    ghost function Pos(): nat
      reads this
    {
      BLOCK_SIZE * blockId + blockOffset
    }

    /** The disk as one array of bytes. */
    ghost function Flat(): Bytes
      reads this, cache
      requires Valid()
    {
      ViewSized(cache.device, cache.queue);
      Joined(cache.Contents())
    }

    method Advance(n: nat)
      requires blockOffset + n <= BLOCK_SIZE && blockOffset < BLOCK_SIZE
      modifies this
      ensures Pos() == old(Pos()) + n && blockOffset < BLOCK_SIZE
    {
      blockOffset := blockOffset + n;
      if blockOffset >= BLOCK_SIZE {
        blockId := blockId + 1;
        blockOffset := blockOffset - BLOCK_SIZE;
      }
    }

    /** One round of the read loop: a nonempty piece of the disk at the cursor. */
    method ReadMore(left: nat) returns (part: Bytes)
      requires Valid() && 0 < left < U32_SPAN && Pos() + left <= |Flat()|
      modifies this, cache
      ensures Valid() && Flat() == old(Flat())
      ensures 0 < |part| <= left && Pos() == old(Pos()) + |part| && part == old(Flat())[old(Pos())..old(Pos()) + |part|]
    {
      var i := cache.GetBlockCache(blockId, {});
      part := ReadBlock(i.value, left);
      Advance(|part|);
    }

    /** Read from the cached block under the cursor. */
    method ReadBlock(i: nat, left: nat) returns (part: Bytes)
      requires Valid() && At(cache.queue, i, blockId)
      ensures |part| == Chunk(blockOffset, left) && Pos() + |part| <= |Flat()| && part == Flat()[Pos()..Pos() + |part|]
    {
      part := cache.Read(i, blockOffset, left);
      ViewSized(cache.device, cache.queue);
      JoinedSlice(cache.Contents(), blockId, BLOCK_SIZE * blockId, blockOffset, |part|);
    }

    /** Read `len` bytes at the cursor. */
    method Read(len: nat) returns (buf: Bytes)
      requires Valid() && len < U32_SPAN && Pos() + len <= |Flat()|
      modifies this, cache
      ensures Valid() && Flat() == old(Flat()) && Pos() == old(Pos()) + len
      ensures buf == old(Flat())[old(Pos())..old(Pos()) + len]
    {
      buf := [];
      while |buf| < len
        invariant Valid() && Flat() == old(Flat()) && |buf| <= len && Pos() == old(Pos()) + |buf|
        invariant buf == old(Flat())[old(Pos())..old(Pos()) + |buf|]
        decreases len - |buf|
      {
        var part := ReadMore(len - |buf|);
        buf := buf + part;
      }
    }

    /** The front of `rest` goes to the disk at the cursor. */
    method WriteSome(rest: Bytes) returns (n: nat)
      requires Valid() && 0 < |rest| < U32_SPAN && Pos() + |rest| <= |Flat()|
      modifies this, cache
      ensures Valid() && 0 < n <= |rest| && Pos() == old(Pos()) + n
      ensures Flat() == Splice(old(Flat()), old(Pos()), rest[..n])
    {
      var i := cache.GetBlockCache(blockId, {});
      n := WriteBlock(i.value, rest);
      Advance(n);
    }

    /** Write into the cached block under the cursor. */
    method WriteBlock(i: nat, rest: Bytes) returns (n: nat)
      requires Valid() && At(cache.queue, i, blockId)
      modifies cache`queue
      ensures Valid() && n == Chunk(blockOffset, |rest|) && Pos() + n <= |old(Flat())| &&
              Flat() == Splice(old(Flat()), Pos(), rest[..n])
    {
      ViewSized(cache.device, cache.queue);
      ghost var v := cache.Contents();
      n := cache.Write(i, blockOffset, rest);
      ghost var w := rest[..n];
      assert cache.Contents() == v[blockId := Splice(v[blockId], blockOffset, w)];
      JoinedPut(v, blockId, blockOffset, w);
    }

    /** One round of the write loop. */
    method WriteMore(buf: Bytes, done: nat, ghost flat: Bytes, ghost pos: nat) returns (next: nat)
      requires Valid() && done < |buf| < U32_SPAN && Pos() == pos + done && Progress(flat, pos, buf, done, Flat())
      modifies this, cache
      ensures Valid() && done < next <= |buf| && Pos() == pos + next && Progress(flat, pos, buf, next, Flat())
    {
      ghost var now := Flat();
      var n := WriteSome(buf[done..]);
      ProgressMore(flat, pos, buf, done, n, now, Flat());
      return done + n;
    }

    /** Write `buf` at the cursor. */
    method Write(buf: Bytes)
      requires Valid() && |buf| < U32_SPAN && Pos() + |buf| <= |Flat()|
      modifies this, cache
      ensures Valid() && Pos() == old(Pos()) + |buf| && Flat() == Splice(old(Flat()), old(Pos()), buf)
    {
      ghost var flat, pos := Flat(), Pos();
      var done := 0;
      SpliceNothing(flat, pos);
      while done < |buf|
        invariant done <= |buf| && Valid() && Pos() == pos + done && Progress(flat, pos, buf, done, Flat())
      {
        done := WriteMore(buf, done, flat, pos);
      }
      assert buf[..done] == buf;
    }

    /** Write everything cached back to the device. */
    method Flush()
      requires Valid()
      modifies cache
      ensures Valid() && Flat() == old(Flat()) && cache.device == cache.Contents()
    {
      cache.SyncAll();
    }

    /** Move the cursor; `None` when the position would be negative or not fit 64 bits. */
    method Seek(p: SeekFrom) returns (r: Option<nat>)
      requires Valid() && (p.Start? ==> p.pos < U64_SPAN)
      modifies this
      ensures Valid() && Flat() == old(Flat())
      ensures var target := if p.Start? then p.pos else old(Pos()) + p.delta;
              if 0 <= target < U64_SPAN then r == Some(target) && Pos() == target else r == None && Pos() == old(Pos())
    {
      var target := if p.Start? then p.pos else blockId * BLOCK_SIZE + blockOffset + p.delta;
      if !(0 <= target < U64_SPAN) {
        return None;
      }
      blockId, blockOffset := target / BLOCK_SIZE, target % BLOCK_SIZE;
      return Some(target);
    }
  }

  lemma ViewSized(d: Blocks, q: seq<Cached>)
    requires CacheOk(d, q)
    ensures Sized(View(d, q))
  {
    forall b | 0 <= b < |d| ensures |Seen(d, q, b)| == BLOCK_SIZE {
      if i :| At(q, i, b) {
        SeenAt(d, q, i);
        assert EntryOk(d, q[i]);
      }
    }
  }

  lemma SpliceNothing(b: Bytes, at: nat)
    requires at <= |b|
    ensures Splice(b, at, []) == b
  {
  }

  /** `now` is `flat` with the first `done` bytes of `buf` written at `pos`. */
  ghost predicate Progress(flat: Bytes, pos: nat, buf: Bytes, done: nat, now: Bytes) {
    pos + |buf| <= |flat| && done <= |buf| && now == Splice(flat, pos, buf[..done])
  }

  lemma ProgressMore(flat: Bytes, pos: nat, buf: Bytes, done: nat, n: nat, now: Bytes, next: Bytes)
    requires Progress(flat, pos, buf, done, now) && done + n <= |buf| &&
             next == Splice(now, pos + done, buf[done..][..n])
    ensures Progress(flat, pos, buf, done + n, next)
  {
    SpliceTwice(flat, pos, buf, done, n);
  }

  lemma SpliceTwice(b: Bytes, at: nat, w: Bytes, i: nat, n: nat)
    requires i + n <= |w| && at + |w| <= |b|
    ensures Splice(Splice(b, at, w[..i]), at + i, w[i..][..n]) == Splice(b, at, w[..i + n])
  {
    assert w[..i + n] == w[..i] + w[i..][..n];
  }

  // ---------------------------------------------------------------- runs

  datatype Op = ReadOp(len: nat) | WriteOp(buf: Bytes) | SeekOp(to: SeekFrom) | FlushOp

  /** What a call gave back: bytes, a position or a failure, or nothing. */
  datatype Outcome = Got(bytes: Bytes) | Moved(pos: Option<nat>) | Done

  /** A disk to its user: bytes and a cursor. */
  datatype Flat = Flat(bytes: Bytes, pos: nat)

  /** What the source assumes of a call: it stays on the disk, and a buffer is shorter than 2^32 bytes. */
  predicate Legal(v: Flat, op: Op) {
    match op
    case ReadOp(len) => len < U32_SPAN && v.pos + len <= |v.bytes|
    case WriteOp(buf) => |buf| < U32_SPAN && v.pos + |buf| <= |v.bytes|
    case SeekOp(to) => to.Start? ==> to.pos < U64_SPAN
    case FlushOp => true
  }

  /** One call on a flat array with a cursor. */
  function Applied(v: Flat, op: Op): (Outcome, Flat) {
    if !Legal(v, op) then (Done, v)
    else
      match op
      case ReadOp(len) => (Got(v.bytes[v.pos..v.pos + len]), v.(pos := v.pos + len))
      case WriteOp(buf) => (Done, Flat(Splice(v.bytes, v.pos, buf), v.pos + |buf|))
      case SeekOp(to) =>
        var target := if to.Start? then to.pos else v.pos + to.delta;
        if 0 <= target < U64_SPAN then (Moved(Some(target)), v.(pos := target)) else (Moved(None), v)
      case FlushOp => (Done, v)
  }

  /** The first `n` calls one after the other. */
  function AppliedAll(v: Flat, ops: seq<Op>, n: nat): (r: (seq<Outcome>, Flat))
    requires n <= |ops|
  {
    if n == 0 then ([], v)
    else
      var (rs, u) := AppliedAll(v, ops, n - 1);
      var (r, w) := Applied(u, ops[n - 1]);
      (rs + [r], w)
  }

  ghost predicate AllLegal(v: Flat, ops: seq<Op>) {
    forall i: nat | i < |ops| :: Legal(AppliedAll(v, ops, i).1, ops[i])
  }

  ghost function FlatOf(d: DiskDriver): Flat
    reads d, d.cache
    requires d.Valid()
  {
    Flat(d.Flat(), d.Pos())
  }

  method RunOne(d: DiskDriver, op: Op) returns (r: Outcome)
    requires d.Valid() && Legal(FlatOf(d), op)
    modifies d, d.cache
    ensures d.Valid() && (r, FlatOf(d)) == Applied(old(FlatOf(d)), op)
    ensures op.FlushOp? ==> d.cache.device == d.cache.Contents()
  {
    match op
    case ReadOp(len) =>
      var b := d.Read(len);
      r := Got(b);
    case WriteOp(buf) =>
      d.Write(buf);
      r := Done;
    case SeekOp(to) =>
      var p := d.Seek(to);
      r := Moved(p);
    case FlushOp =>
      d.Flush();
      r := Done;
  }

  /** Any sequence of calls, whatever is loaded, evicted and written back on the way, is the same sequence on a flat
      array; and after a flush the device itself holds that array. */
  method RunAll(d: DiskDriver, ops: seq<Op>) returns (rs: seq<Outcome>)
    requires d.Valid() && AllLegal(FlatOf(d), ops)
    modifies d, d.cache
    ensures d.Valid() && (rs, FlatOf(d)) == AppliedAll(old(FlatOf(d)), ops, |ops|)
    ensures ops != [] && ops[|ops| - 1].FlushOp? ==>
              Sized(d.cache.device) && Joined(d.cache.device) == AppliedAll(old(FlatOf(d)), ops, |ops|).1.bytes
  {
    rs := [];
    ghost var start := FlatOf(d);
    for i := 0 to |ops|
      invariant d.Valid() && (rs, FlatOf(d)) == AppliedAll(start, ops, i)
      invariant i > 0 && ops[i - 1].FlushOp? ==> d.cache.device == d.cache.Contents()
    {
      var r := RunOne(d, ops[i]);
      rs := rs + [r];
    }
  }
}
