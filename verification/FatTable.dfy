/** File allocation tables packed into bytes: 12-, 16- and 32-bit entries. */
module FatTables {
  import opened Bits
  import opened Disks
  import opened Options

  const RESERVED := 2

  datatype FatType = Fat12 | Fat16 | Fat32

  datatype FatValue = Free | Data(next: nat) | Bad | EndOfChain

  // ---------------------------------------------------------------- entries

  function EntryOffset(t: FatType, c: nat): nat {
    match t
    case Fat12 => c + c / 2
    case Fat16 => c * 2
    case Fat32 => c * 4
  }

  function EntryBytes(t: FatType): nat { if t.Fat32? then 4 else 2 }

  predicate Fits(t: FatType, b: Bytes, c: nat) { EntryOffset(t, c) + EntryBytes(t) <= |b| }

  function U16(b: Bytes, o: nat): nat
    requires o + 2 <= |b|
  {
    b[o] as nat + 256 * (b[o + 1] as nat)
  }

  function U32(b: Bytes, o: nat): nat
    requires o + 4 <= |b|
  {
    U16(b, o) + 65536 * U16(b, o + 2)
  }

  function Le16(v: nat): (r: Bytes)
    ensures |r| == 2
    ensures v < 65536 ==> U16(r, 0) == v
  {
    [v % 256, v / 256 % 256]
  }

  function Le32(v: nat): (r: Bytes)
    ensures |r| == 4
    ensures v < 0x1_0000_0000 ==> U32(r, 0) == v
  {
    var r := Le16(v % 65536) + Le16(v / 65536 % 65536);
    assert U16(r, 0) == U16(Le16(v % 65536), 0) && U16(r, 2) == U16(Le16(v / 65536 % 65536), 0);
    r
  }

  function GetRaw(t: FatType, b: Bytes, c: nat): nat
    requires Fits(t, b, c)
  {
    match t
    case Fat12 => var packed := U16(b, EntryOffset(t, c)); if c % 2 == 0 then packed % 4096 else packed / 16
    case Fat16 => U16(b, EntryOffset(t, c))
    case Fat32 => U32(b, EntryOffset(t, c))
  }

  /** The raw entry without the reserved top four bits of a 32-bit one. */
  function Value(t: FatType, b: Bytes, c: nat): nat
    requires Fits(t, b, c)
  {
    if t.Fat32? then GetRaw(t, b, c) % 0x1000_0000 else GetRaw(t, b, c)
  }

  function BadMark(t: FatType): nat {
    match t
    case Fat12 => 0xFF7
    case Fat16 => 0xFFF7
    case Fat32 => 0x0FFF_FFF7
  }

  /** Cluster numbers of a 32-bit table that equal a marker value are never usable. */
  predicate Special(t: FatType, c: nat) { t.Fat32? && 0x0FFF_FFF7 <= c <= 0x0FFF_FFFF }

  function Decode(t: FatType, c: nat, v: nat): FatValue {
    if v == 0 then (if Special(t, c) then Bad else Free)
    else if v == BadMark(t) then Bad
    else if BadMark(t) < v <= BadMark(t) + 8 then EndOfChain
    else if Special(t, c) then Bad
    else Data(v)
  }

  /** Every raw value: all marks from 8 below the largest value up end a chain, whichever of them was written. */
  lemma DecodeMeans(c: nat, v: nat)
    ensures v < 0x1000 ==>
            Decode(Fat12, c, v) == if v == 0 then Free else if v == 0xFF7 then Bad else if v >= 0xFF8 then EndOfChain
                                   else Data(v)
    ensures v < 0x1_0000 ==>
            Decode(Fat16, c, v) == if v == 0 then Free else if v == 0xFFF7 then Bad else if v >= 0xFFF8 then EndOfChain
                                   else Data(v)
    ensures v < 0x1000_0000 && !(0x0FFF_FFF7 <= c <= 0x0FFF_FFFF) ==>
            Decode(Fat32, c, v) == if v == 0 then Free else if v == 0x0FFF_FFF7 then Bad
                                   else if v >= 0x0FFF_FFF8 then EndOfChain else Data(v)
    ensures v < 0x1000_0000 && 0x0FFF_FFF7 <= c <= 0x0FFF_FFFF ==>
            Decode(Fat32, c, v) == if v >= 0x0FFF_FFF8 then EndOfChain else Bad
  {
  }

  /** Where the bits of an entry are: two 12-bit entries share three bytes, others have two or four, lowest first. */
  lemma EntryLayout(b: Bytes, k: nat)
    ensures Fits(Fat12, b, 2 * k) ==>
            3 * k + 1 < |b| && GetRaw(Fat12, b, 2 * k) == b[3 * k] as nat + 256 * (b[3 * k + 1] as nat % 16)
    ensures Fits(Fat12, b, 2 * k + 1) ==>
            3 * k + 2 < |b| && GetRaw(Fat12, b, 2 * k + 1) == b[3 * k + 1] as nat / 16 + 16 * (b[3 * k + 2] as nat)
    ensures Fits(Fat16, b, k) ==>
            2 * k + 1 < |b| && GetRaw(Fat16, b, k) == b[2 * k] as nat + 256 * (b[2 * k + 1] as nat)
    ensures Fits(Fat32, b, k) ==>
            4 * k + 3 < |b| &&
            GetRaw(Fat32, b, k) ==
            b[4 * k] as nat + 256 * (b[4 * k + 1] as nat) + 65536 * (b[4 * k + 2] as nat) +
            16777216 * (b[4 * k + 3] as nat)
  {
    assert EntryOffset(Fat12, 2 * k) == 3 * k && EntryOffset(Fat12, 2 * k + 1) == 3 * k + 1;
    if Fits(Fat12, b, 2 * k) { LowNibbles(b[3 * k], b[3 * k + 1]); }
  }

  lemma LowNibbles(lo: nat, hi: nat)
    requires lo < 256 && hi < 256
    ensures (lo + 256 * hi) % 4096 == lo + 256 * (hi % 16)
  {
    DivUnique(lo + 256 * hi, 4096, hi / 16, lo + 256 * (hi % 16));
  }

  function Get(t: FatType, b: Bytes, c: nat): FatValue
    requires Fits(t, b, c)
  {
    Decode(t, c, Value(t, b, c))
  }

  function Encode(t: FatType, v: FatValue): nat {
    match v
    case Free => 0
    case Bad => BadMark(t)
    case EndOfChain => BadMark(t) + 8
    case Data(n) => n
  }

  /** A value an entry of this width can hold and give back. */
  predicate Storable(t: FatType, v: FatValue) { v.Data? ==> 0 < v.next < BadMark(t) }

  /** The bytes `set` writes at the entry's offset, merged with the bits of its neighbours. */
  function NewBytes(t: FatType, b: Bytes, c: nat, v: FatValue): (w: Bytes)
    requires Fits(t, b, c) && Storable(t, v)
    ensures |w| == EntryBytes(t)
  {
    var o := EntryOffset(t, c);
    var raw := Encode(t, v);
    match t
    case Fat12 =>
      var old_ := U16(b, o);
      Le16(if c % 2 == 0 then old_ / 4096 * 4096 + raw else old_ % 16 + raw * 16)
    case Fat16 => Le16(raw)
    case Fat32 => Le32(raw + U32(b, o) / 0x1000_0000 * 0x1000_0000)
  }

  function Set(t: FatType, b: Bytes, c: nat, v: FatValue): (r: Bytes)
    requires Fits(t, b, c) && Storable(t, v)
    ensures |r| == |b|
  {
    Splice(b, EntryOffset(t, c), NewBytes(t, b, c, v))
  }

  lemma Nibbles(lo: nat, hi: nat, v: nat)
    requires lo < 256 && hi < 256 && v < 4096
    ensures var p := lo + 256 * hi;
            var e := p / 4096 * 4096 + v;
            var o := p % 16 + v * 16;
            && e < 65536 && e % 4096 == v && (e / 256) / 16 == hi / 16
            && o < 65536 && o / 16 == v && o % 16 == lo % 16
  {
  }

  /** Two neighbouring 12-bit entries share the middle byte of three. */
  lemma Set12(b: Bytes, c: nat, v: FatValue, d: nat)
    requires Fits(Fat12, b, c) && Fits(Fat12, b, d) && Storable(Fat12, v)
    ensures GetRaw(Fat12, Set(Fat12, b, c, v), d) == if d == c then Encode(Fat12, v) else GetRaw(Fat12, b, d)
  {
    var o, p := EntryOffset(Fat12, c), EntryOffset(Fat12, d);
    Offset12(c, d);
    if d == c {
      Set12Same(b, c, v);
    } else if c % 2 == 0 && d == c + 1 {
      Set12Next(b, c, v);
    } else if c % 2 == 1 && d + 1 == c {
      Set12Back(b, d, v);
    } else {
      var w := NewBytes(Fat12, b, c, v);
      SpliceAt(b, o, w, p);
      SpliceAt(b, o, w, p + 1);
    }
  }

  lemma Set12Same(b: Bytes, c: nat, v: FatValue)
    requires Fits(Fat12, b, c) && Storable(Fat12, v)
    ensures GetRaw(Fat12, Set(Fat12, b, c, v), c) == Encode(Fat12, v)
  {
    var o, w := EntryOffset(Fat12, c), NewBytes(Fat12, b, c, v);
    Nibbles(b[o], b[o + 1], Encode(Fat12, v));
    SpliceAt(b, o, w, o);
    SpliceAt(b, o, w, o + 1);
    assert U16(Set(Fat12, b, c, v), o) == U16(w, 0);
  }

  lemma Set12Next(b: Bytes, c: nat, v: FatValue)
    requires Fits(Fat12, b, c) && Fits(Fat12, b, c + 1) && Storable(Fat12, v) && c % 2 == 0
    ensures GetRaw(Fat12, Set(Fat12, b, c, v), c + 1) == GetRaw(Fat12, b, c + 1)
  {
    var o, w := EntryOffset(Fat12, c), NewBytes(Fat12, b, c, v);
    Offset12(c, c + 1);
    Nibbles(b[o], b[o + 1], Encode(Fat12, v));
    SpliceAt(b, o, w, o + 1);
    SpliceAt(b, o, w, o + 2);
    Shared(b[o], b[o + 1], Encode(Fat12, v), b[o + 2]);
  }

  lemma Set12Back(b: Bytes, d: nat, v: FatValue)
    requires Fits(Fat12, b, d) && Fits(Fat12, b, d + 1) && Storable(Fat12, v) && d % 2 == 0
    ensures GetRaw(Fat12, Set(Fat12, b, d + 1, v), d) == GetRaw(Fat12, b, d)
  {
    var p, w := EntryOffset(Fat12, d), NewBytes(Fat12, b, d + 1, v);
    Offset12(d + 1, d);
    Nibbles(b[p + 1], b[p + 2], Encode(Fat12, v));
    SpliceAt(b, p + 1, w, p);
    SpliceAt(b, p + 1, w, p + 1);
    SharedBack(b[p + 1], b[p + 2], Encode(Fat12, v), b[p]);
  }

  /** Entries other than the two that share a byte lie apart. */
  lemma Offset12(c: nat, d: nat)
    ensures var o, p := EntryOffset(Fat12, c), EntryOffset(Fat12, d);
            if d == c then o == p
            else if c % 2 == 0 && d == c + 1 then p == o + 1 && d % 2 == 1
            else if c % 2 == 1 && d + 1 == c then o == p + 1 && d % 2 == 0
            else p + 2 <= o || o + 2 <= p
  {
  }

  lemma Shared(lo: nat, hi: nat, v: nat, top: nat)
    requires lo < 256 && hi < 256 && v < 4096 && top < 256
    ensures var e := (lo + 256 * hi) / 4096 * 4096 + v;
            (e / 256 % 256 + 256 * top) / 16 == (hi + 256 * top) / 16
  {
  }

  lemma SharedBack(lo: nat, hi: nat, v: nat, first: nat)
    requires lo < 256 && hi < 256 && v < 4096 && first < 256
    ensures var o := (lo + 256 * hi) % 16 + v * 16;
            (first + 256 * (o % 256)) % 4096 == (first + 256 * lo) % 4096
  {
    var o := (lo + 256 * hi) % 16 + v * 16;
    var a, x := lo / 16, lo % 16;
    assert lo + 256 * hi == 16 * (a + 16 * hi) + x;
    DivUnique(lo + 256 * hi, 16, a + 16 * hi, x);
    var b, y := v / 16, v % 16;
    DivUnique(o, 256, b, 16 * y + x);
    DivUnique(first + 256 * (16 * y + x), 4096, y, first + 256 * x);
    DivUnique(first + 256 * lo, 4096, a, first + 256 * x);
  }

  lemma Set16(b: Bytes, c: nat, v: FatValue, d: nat)
    requires Fits(Fat16, b, c) && Fits(Fat16, b, d) && Storable(Fat16, v)
    ensures GetRaw(Fat16, Set(Fat16, b, c, v), d) == if d == c then Encode(Fat16, v) else GetRaw(Fat16, b, d)
  {
    var w := NewBytes(Fat16, b, c, v);
    SpliceAt(b, 2 * c, w, 2 * d);
    SpliceAt(b, 2 * c, w, 2 * d + 1);
    if d == c { assert U16(Set(Fat16, b, c, v), 2 * d) == U16(w, 0); }
  }

  /** A 32-bit entry keeps its reserved top bits. */
  lemma Set32(b: Bytes, c: nat, v: FatValue, d: nat)
    requires Fits(Fat32, b, c) && Fits(Fat32, b, d) && Storable(Fat32, v)
    ensures GetRaw(Fat32, Set(Fat32, b, c, v), d) ==
            if d == c then Encode(Fat32, v) + GetRaw(Fat32, b, c) / 0x1000_0000 * 0x1000_0000 else GetRaw(Fat32, b, d)
  {
    var w := NewBytes(Fat32, b, c, v);
    var b' := Set(Fat32, b, c, v);
    forall i | 0 <= i < 4 ensures b'[4 * d + i] == if d == c then w[i] else b[4 * d + i] {
      SpliceAt(b, 4 * c, w, 4 * d + i);
    }
    if d == c {
      assert U32(b', 4 * d) == U32(w, 0) by { assert b'[4 * d] == w[0] && b'[4 * d + 1] == w[1] &&
             b'[4 * d + 2] == w[2] && b'[4 * d + 3] == w[3]; }
    }
  }

  lemma DecodeEncode(t: FatType, c: nat, v: FatValue)
    requires Storable(t, v) && !Special(t, c)
    ensures Decode(t, c, Encode(t, v)) == v
  {
  }

  lemma SetValue(t: FatType, b: Bytes, c: nat, v: FatValue, d: nat)
    requires Fits(t, b, c) && Fits(t, b, d) && Storable(t, v)
    ensures Value(t, Set(t, b, c, v), d) == if d == c then Encode(t, v) else Value(t, b, d)
  {
    match t
    case Fat12 => Set12(b, c, v, d);
    case Fat16 => Set16(b, c, v, d);
    case Fat32 =>
      Set32(b, c, v, d);
      Reserved(Encode(t, v), GetRaw(t, b, c) / 0x1000_0000);
  }

  lemma Reserved(v: nat, top: nat)
    requires v < 0x1000_0000
    ensures (v + top * 0x1000_0000) % 0x1000_0000 == v
  {
  }

  /** Setting an entry stores its value and changes no other entry, shared bytes or not. */
  lemma SetGet(t: FatType, b: Bytes, c: nat, v: FatValue, d: nat)
    requires Fits(t, b, c) && Fits(t, b, d) && Storable(t, v) && !Special(t, c)
    ensures Get(t, Set(t, b, c, v), d) == if d == c then v else Get(t, b, d)
  {
    SetValue(t, b, c, v, d);
    DecodeEncode(t, c, v);
  }

  // ---------------------------------------------------------------- scans

  /** Every entry below `end` lies in the table. */
  predicate Holds(t: FatType, b: Bytes, end: nat) { end > 0 ==> Fits(t, b, end - 1) }

  lemma HoldsFits(t: FatType, b: Bytes, end: nat, c: nat)
    requires Holds(t, b, end) && c < end
    ensures Fits(t, b, c)
  {
  }

  predicate IsFree(t: FatType, b: Bytes, end: nat, c: nat)
    requires Holds(t, b, end) && c < end
  {
    HoldsFits(t, b, end, c);
    Value(t, b, c) == 0
  }

  /** The number of zero entries from `c` up to `end`. */
  function NumFree(t: FatType, b: Bytes, c: nat, end: nat): nat
    requires Holds(t, b, end)
    decreases end - c
  {
    if c >= end then 0 else (if IsFree(t, b, end, c) then 1 else 0) + NumFree(t, b, c + 1, end)
  }

  /** `r` is the first free entry of `[start, end)`, if there is one. */
  ghost predicate FirstFree(t: FatType, b: Bytes, start: nat, end: nat, r: Option<nat>)
    requires Holds(t, b, end)
  {
    match r
    case None => forall c | start <= c < end :: !IsFree(t, b, end, c)
    case Some(n) => start <= n < end && IsFree(t, b, end, n) && forall c | start <= c < n :: !IsFree(t, b, end, c)
  }

  /** The 12-bit scan slides a two-byte window over the stream instead of seeking to every entry. */
  method FindFree12(b: Bytes, start: nat, end: nat) returns (r: Option<nat>)
    requires start < end && Holds(Fat12, b, end)
    ensures FirstFree(Fat12, b, start, end, r)
  {
    var cluster := start;
    var pos := cluster + cluster / 2;
    HoldsFits(Fat12, b, end, cluster);
    var packed := U16(b, pos);
    pos := pos + 2;
    while true
      invariant start <= cluster < end && Fits(Fat12, b, cluster)
      invariant packed == U16(b, EntryOffset(Fat12, cluster)) && pos == EntryOffset(Fat12, cluster) + 2
      invariant forall c | start <= c < cluster :: !IsFree(Fat12, b, end, c)
      decreases end - cluster
    {
      var val := if cluster % 2 == 0 then packed % 4096 else packed / 16;
      if val == 0 {
        return Some(cluster);
      }
      cluster := cluster + 1;
      if cluster == end {
        return None;
      }
      HoldsFits(Fat12, b, end, cluster);
      if cluster % 2 == 0 {
        packed := U16(b, pos);
        pos := pos + 2;
      } else {
        var next := b[pos];
        pos := pos + 1;
        packed := packed / 256 + (next as nat) * 256;
      }
    }
  }

  /** The 16- and 32-bit scans. */
  method FindFreeWide(t: FatType, b: Bytes, start: nat, end: nat) returns (r: Option<nat>)
    requires !t.Fat12? && start <= end && Holds(t, b, end)
    ensures FirstFree(t, b, start, end, r)
  {
    var cluster := start;
    while cluster < end
      invariant start <= cluster <= end
      invariant forall c | start <= c < cluster :: !IsFree(t, b, end, c)
    {
      HoldsFits(t, b, end, cluster);
      var val := Value(t, b, cluster);
      if val == 0 {
        return Some(cluster);
      }
      cluster := cluster + 1;
    }
    return None;
  }

  method FindFree(t: FatType, b: Bytes, start: nat, end: nat) returns (r: Option<nat>)
    requires start < end && Holds(t, b, end)
    ensures FirstFree(t, b, start, end, r)
  {
    if t.Fat12? {
      r := FindFree12(b, start, end);
    } else {
      r := FindFreeWide(t, b, start, end);
    }
  }

  /** An odd entry assembled as `count_free` does is zero exactly when the entry is. */
  lemma OddAssembly(lo: nat, mid: nat, hi: nat)
    requires lo < 256 && mid < 256 && hi < 256
    ensures hi * 256 % 65536 + (lo + 256 * mid) / 4096 == 0 <==> (mid + 256 * hi) / 16 == 0
  {
  }

  method CountFree12(b: Bytes, end: nat) returns (count: nat)
    requires Holds(Fat12, b, end)
    ensures count == NumFree(Fat12, b, RESERVED, end)
  {
    count := 0;
    var cluster: nat := RESERVED;
    var pos := cluster * 3 / 2;
    var prev := 0;
    while cluster < end
      invariant RESERVED <= cluster && (RESERVED <= end ==> cluster <= end)
      invariant count + NumFree(Fat12, b, cluster, end) == NumFree(Fat12, b, RESERVED, end)
      invariant pos == if cluster % 2 == 0 then EntryOffset(Fat12, cluster) else EntryOffset(Fat12, cluster) + 1
      invariant cluster % 2 == 1 ==> Fits(Fat12, b, cluster - 1) && prev == U16(b, EntryOffset(Fat12, cluster - 1))
    {
      HoldsFits(Fat12, b, end, cluster);
      var packed;
      if cluster % 2 == 0 {
        packed := U16(b, pos);
        pos := pos + 2;
      } else {
        packed := b[pos] as nat;
        pos := pos + 1;
        OddAssembly(b[pos - 3] as nat, b[pos - 2] as nat, b[pos - 1] as nat);
      }
      var val := if cluster % 2 == 0 then packed % 4096 else packed * 256 % 65536 + prev / 4096;
      prev := packed;
      if val == 0 {
        count := count + 1;
      }
      cluster := cluster + 1;
    }
  }

  method CountFree(t: FatType, b: Bytes, end: nat) returns (count: nat)
    requires Holds(t, b, end)
    ensures count == NumFree(t, b, RESERVED, end)
  {
    if t.Fat12? {
      count := CountFree12(b, end);
      return;
    }
    count := 0;
    var cluster: nat := RESERVED;
    while cluster < end
      invariant RESERVED <= cluster && (RESERVED <= end ==> cluster <= end)
      invariant count + NumFree(t, b, cluster, end) == NumFree(t, b, RESERVED, end)
    {
      HoldsFits(t, b, end, cluster);
      if Value(t, b, cluster) == 0 {
        count := count + 1;
      }
      cluster := cluster + 1;
    }
  }
}
