/** Long file names: split over directory entries by a generator, reassembled by an incremental builder. */
module LongNames {
  import opened Bits
  import opened Disks
  import opened Options

  const PART: nat := 13
  const LAST_FLAG: nat := 64
  const MAX_ENTRIES: nat := 20
  const PADDING: Unit := 0xFFFF
  const LFN_ATTRS: Byte := 0x0F
  const SFN_SIZE: nat := 11

  /** A UCS-2 unit. */
  type Unit = x: int | 0 <= x < 65536

  type Units = seq<Unit>

  // ---------------------------------------------------------------- directory entries

  datatype LfnEntry = LfnEntry(order: Byte, name0: Units, attrs: Byte, entryType: Byte, checksum: Byte, name1: Units,
      reserved: Unit, name2: Units)

  /** A 32-byte directory entry: part of a long name, or a short-name entry kept as its bytes. */
  datatype DirEntry = Lfn(entry: LfnEntry) | File(name: Bytes, attrs: Byte, rest: Bytes)

  predicate WellFormed(e: LfnEntry) {
    |e.name0| == 5 && |e.name1| == 6 && |e.name2| == 2 && e.attrs % 16 == LFN_ATTRS && e.attrs < 64
  }

  function NameOf(e: LfnEntry): (r: Units)
    requires WellFormed(e)
    ensures |r| == PART
  {
    e.name0 + e.name1 + e.name2
  }

  function NewEntry(order: Byte, checksum: Byte, part: Units): (e: LfnEntry)
    requires |part| == PART
    ensures WellFormed(e) && NameOf(e) == part
  {
    LfnEntry(order, part[0..5], LFN_ATTRS, 0, checksum, part[5..11], 0, part[11..13])
  }

  /** Little-endian bytes of a run of units. */
  function Le(u: Units): (r: Bytes)
    ensures |r| == 2 * |u|
  {
    if u == [] then [] else [u[0] % 256, u[0] / 256] + Le(u[1..])
  }

  function UnLe(b: Bytes): (r: Units)
    requires |b| % 2 == 0
    ensures |r| == |b| / 2
  {
    if b == [] then [] else
      var lo: int, hi: int := b[0], b[1];
      [lo + 256 * hi] + UnLe(b[2..])
  }

  lemma {:induction false} UnLeLe(u: Units)
    ensures UnLe(Le(u)) == u
  {
    if u != [] {
      UnLeLe(u[1..]);
      assert Le(u)[2..] == Le(u[1..]);
    }
  }

  function Serialize(e: LfnEntry): (r: Bytes)
    requires WellFormed(e)
    ensures |r| == 32
  {
    [e.order] + Le(e.name0) + [e.attrs, e.entryType, e.checksum] + Le(e.name1) + Le([e.reserved]) + Le(e.name2)
  }

  lemma {:induction false} LeAt(u: Units, i: nat)
    requires i < |u|
    ensures Le(u)[2 * i] == u[i] % 256 && Le(u)[2 * i + 1] == u[i] / 256
  {
    if i > 0 {
      LeAt(u[1..], i - 1);
      assert Le(u)[2..] == Le(u[1..]);
      assert Le(u)[2 * i] == Le(u)[2..][2 * (i - 1)] && Le(u)[2 * i + 1] == Le(u)[2..][2 * (i - 1) + 1];
    }
  }

  /** Where the fields are in the 32 bytes of an entry; units have their low byte first. */
  lemma SerializedAt(e: LfnEntry, i: nat)
    requires WellFormed(e)
    ensures var b := Serialize(e);
            && b[0] == e.order && b[11] == e.attrs && b[12] == e.entryType && b[13] == e.checksum
            && b[26] == e.reserved % 256 && b[27] == e.reserved / 256
            && (i < 5 ==> b[1 + 2 * i] == e.name0[i] % 256 && b[2 + 2 * i] == e.name0[i] / 256)
            && (i < 6 ==> b[14 + 2 * i] == e.name1[i] % 256 && b[15 + 2 * i] == e.name1[i] / 256)
            && (i < 2 ==> b[28 + 2 * i] == e.name2[i] % 256 && b[29 + 2 * i] == e.name2[i] / 256)
  {
    if i < 5 { LeAt(e.name0, i); }
    if i < 6 { LeAt(e.name1, i); }
    if i < 2 { LeAt(e.name2, i); }
    LeAt([e.reserved], 0);
  }

  /** Attribute bits choose between the two kinds; unknown bits are dropped. */
  function Deserialize(b: Bytes): DirEntry
    requires |b| == 32
  {
    var attrs := b[11] % 64;
    if attrs % 16 == LFN_ATTRS
    then Lfn(LfnEntry(b[0], UnLe(b[1..11]), attrs, b[12], b[13], UnLe(b[14..26]), UnLe(b[26..28])[0], UnLe(b[28..32])))
    else File(b[0..11], attrs, b[12..])
  }

  lemma SerializedParts(e: LfnEntry)
    requires WellFormed(e)
    ensures var b := Serialize(e);
            && b[0] == e.order && b[1..11] == Le(e.name0) && b[14..26] == Le(e.name1)
            && b[26..28] == Le([e.reserved]) && b[28..32] == Le(e.name2)
            && b[11] == e.attrs && b[12] == e.entryType && b[13] == e.checksum
  {
    var b := Serialize(e);
    assert |Le(e.name0)| == 10 && |Le(e.name1)| == 12 && |Le([e.reserved])| == 2 && |Le(e.name2)| == 4;
    assert b[1..11] == Le(e.name0);
    assert b[14..26] == Le(e.name1);
    assert b[26..28] == Le([e.reserved]);
    assert b[28..32] == Le(e.name2);
  }

  /** What is written is read back. */
  lemma SerializeRoundTrip(e: LfnEntry)
    requires WellFormed(e)
    ensures Deserialize(Serialize(e)) == Lfn(e)
  {
    SerializedParts(e);
    UnLeLe(e.name0);
    UnLeLe(e.name1);
    UnLeLe([e.reserved]);
    UnLeLe(e.name2);
  }

  // ---------------------------------------------------------------- checksum of the short name

  function Rotate(c: Byte, b: Byte): Byte { (c * 128 % 256 + c / 2 + b) % 256 }

  /** A rotation to the right by one bit, which one to the left undoes, and an addition, both modulo 2^8. */
  lemma RotateMeans(c: Byte, b: Byte)
    ensures var r: int := Rotate(c, 0); r * 2 % 256 + r / 128 == c && Rotate(c, b) == (r + b) % 256
  {
    var h: int, l: int := c / 2, c % 2;
    Halves(h, l);
  }

  lemma Halves(h: int, l: int)
    requires 0 <= h < 128 && 0 <= l < 2
    ensures (2 * h + l) * 128 % 256 == 128 * l
    ensures var r := 128 * l + h; r * 2 % 256 == 2 * h && r / 128 == l
  {
    assert (2 * h + l) * 128 == 256 * h + 128 * l;
  }

  function ChecksumOf(s: Bytes): Byte { if s == [] then 0 else Rotate(ChecksumOf(s[..|s| - 1]), s[|s| - 1]) }

  method LfnChecksum(s: Bytes) returns (c: Byte)
    ensures c == ChecksumOf(s)
  {
    c := 0;
    for i := 0 to |s|
      invariant c == ChecksumOf(s[..i])
    {
      assert s[..i + 1][..i] == s[..i];
      c := Rotate(c, s[i]);
    }
    assert s[..|s|] == s;
  }

  // ---------------------------------------------------------------- generating

  function NumEntries(name: Units): nat { (|name| + PART - 1) / PART }

  /** Chunk `p` of the name; the last one may be shorter. */
  function ChunkOf(name: Units, p: nat): (r: Units)
    requires PART * p < |name|
    ensures 0 < |r| <= PART
  {
    name[PART * p..Min(PART * p + PART, |name|)]
  }

  /** A chunk padded to 13 units, with a terminator only if it is shorter. */
  function PartOf(chunk: Units): (r: Units)
    requires |chunk| <= PART
    ensures |r| == PART
  {
    if |chunk| == PART then chunk else chunk + [0] + seq(PART - 1 - |chunk|, _ => PADDING)
  }

  /** Entry number `i` in the order they are written: the last chunk first. */
  function EntryAt(name: Units, checksum: Byte, i: nat): (e: LfnEntry)
    requires i < NumEntries(name) <= MAX_ENTRIES
    ensures WellFormed(e)
  {
    var n := NumEntries(name);
    NewEntry(n - i + (if i == 0 then LAST_FLAG else 0), checksum, PartOf(ChunkOf(name, n - 1 - i)))
  }

  /** The entries as the format has them: 13 units each, the last part first and marked with 64, parts counted from 1;
      a part that ends early has a zero and then 0xFFFF. */
  lemma EntryLayout(name: Units, checksum: Byte, i: nat, j: nat)
    requires i < NumEntries(name) <= 20 && j < 13
    ensures var n, e := NumEntries(name), EntryAt(name, checksum, i);
            && 13 * (n - 1) < |name| <= 13 * n
            && e.order == n - i + (if i == 0 then 64 else 0) && e.attrs == 15 && e.entryType == 0 && e.reserved == 0
            && e.checksum == checksum
            && var at := 13 * (n - 1 - i) + j;
               NameOf(e)[j] == if at < |name| then name[at] else if at == |name| then 0 else 0xFFFF
  {
    var n := NumEntries(name);
    var p := n - 1 - i;
    var chunk := ChunkOf(name, p);
    assert NameOf(EntryAt(name, checksum, i)) == PartOf(chunk);
  }

  class LfnEntriesGenerator {
    const name: Units
    const checksum: Byte
    var index: nat
    const num: nat
    var ended: bool

    ghost predicate Valid()
      reads this
    {
      num == NumEntries(name) && index <= num && num <= MAX_ENTRIES && (ended ==> index == num)
    }

    constructor (name: Units, checksum: Byte)
      requires |name| <= PART * MAX_ENTRIES
      ensures Valid() && this.name == name && this.checksum == checksum && index == 0
    {
      this.name, this.checksum := name, checksum;
      index, num, ended := 0, (|name| + PART - 1) / PART, false;
    }

    /** The entries of the name in order, then nothing. */
    method Next() returns (r: Option<LfnEntry>)
      requires Valid()
      modifies this`index, this`ended
      ensures Valid()
      ensures if old(index) < num then r == Some(EntryAt(name, checksum, old(index))) && index == old(index) + 1
              else r == None && index == old(index)
    {
      if ended {
        return None;
      }
      if index < num {
        var lfnIndex := num - index;
        var order := lfnIndex;
        if index == 0 {
          order := order + LAST_FLAG;
        }
        var chunk := ChunkOf(name, lfnIndex - 1);
        var part := PartOf(chunk);
        index := index + 1;
        return Some(NewEntry(order, checksum, part));
      } else {
        ended := true;
        return None;
      }
    }
  }

  // ---------------------------------------------------------------- building

  /** A builder: the units so far, the checksum of the sequence and the index of its latest entry, 0 for none. */
  datatype Builder = Builder(buf: Units, chksum: Byte, index: nat)

  predicate BuilderOk(b: Builder) { b.index <= MAX_ENTRIES && (b.index > 0 ==> PART * b.index <= |b.buf|) }

  function Cleared(b: Builder): Builder { Builder([], b.chksum, 0) }

  /** `Vec::resize` with zeros. */
  function Resized(s: Units, n: nat): (r: Units)
    ensures |r| == n
  {
    if n <= |s| then s[..n] else s + seq(n - |s|, _ => 0)
  }

  function Placed(s: Units, at: nat, part: Units): (r: Units)
    requires at + |part| <= |s|
    ensures |r| == |s|
  {
    s[..at] + part + s[at + |part|..]
  }

  /** One entry fed to a builder. */
  function Processed(b: Builder, e: LfnEntry): (r: Builder)
    requires BuilderOk(b) && WellFormed(e)
    ensures BuilderOk(r)
  {
    var isLast := e.order / LAST_FLAG % 2 == 1;
    var index := e.order % 32;
    if index == 0 || index > MAX_ENTRIES then Cleared(b)
    else if isLast then
      Builder(Placed(Resized(b.buf, index * PART), PART * (index - 1), NameOf(e)), e.checksum, index)
    else if b.index == 0 || index != b.index - 1 || e.checksum != b.chksum then Cleared(b)
    else Builder(Placed(b.buf, PART * (index - 1), NameOf(e)), b.chksum, index)
  }

  /** `s` without the zeros and paddings at its end. */
  function Trimmed(s: Units): (r: Units)
    ensures r <= s
  {
    if s != [] && (s[|s| - 1] == 0 || s[|s| - 1] == PADDING) then Trimmed(s[..|s| - 1]) else s
  }

  /** The name a finished builder gives for a short name. */
  function Finished(b: Builder, short: Bytes): Units {
    if b.index == 0 then b.buf
    else if ChecksumOf(short) != b.chksum then []
    else if b.index == 1 then Trimmed(b.buf)
    else []
  }

  class LongNameBuilder {
    var buf: Units
    var chksum: Byte
    var index: nat

    function Value(): Builder
      reads this
    {
      Builder(buf, chksum, index)
    }

    constructor ()
      ensures Value() == Builder([], 0, 0)
    {
      buf, chksum, index := [], 0, 0;
    }

    method Clear()
      modifies this
      ensures Value() == Cleared(old(Value()))
    {
      buf := [];
      index := 0;
    }

    method Process(e: LfnEntry)
      requires BuilderOk(Value()) && WellFormed(e)
      modifies this
      ensures Value() == Processed(old(Value()), e)
    {
      var isLast := e.order / LAST_FLAG % 2 == 1;
      var i := e.order % 32;
      if i == 0 || i > MAX_ENTRIES {
        Clear();
        return;
      }
      if isLast {
        index := i;
        chksum := e.checksum;
        buf := Resized(buf, i * PART);
      } else if index == 0 || i != index - 1 || e.checksum != chksum {
        Clear();
        return;
      } else {
        index := index - 1;
      }
      var pos := PART * (i - 1);
      buf := Placed(buf, pos, NameOf(e));
    }

    /** Cut the buffer behind the last unit that is neither 0 nor padding. */
    method Truncate()
      modifies this`buf
      ensures buf == Trimmed(old(buf))
    {
      var n: nat := |buf|;
      assert buf[..n] == buf;
      while n > 0 && (buf[n - 1] == 0 || buf[n - 1] == PADDING)
        invariant n <= |buf| && Trimmed(buf) == Trimmed(buf[..n])
      {
        assert buf[..n][..n - 1] == buf[..n - 1];
        n := n - 1;
      }
      buf := buf[..n];
    }

    method ValidateChksum(short: Bytes)
      modifies this
      ensures Value() == if old(index) != 0 && ChecksumOf(short) != old(chksum) then Cleared(old(Value()))
              else old(Value())
    {
      if index == 0 {
        return;
      }
      var c := LfnChecksum(short);
      if c != chksum {
        Clear();
      }
    }

    /** The name, for the entry of the given short name. */
    method Finish(short: Bytes) returns (name: Units)
      modifies this
      ensures name == Finished(old(Value()), short)
    {
      ValidateChksum(short);
      name := IntoBuf();
    }

    method IntoBuf() returns (name: Units)
      modifies this
      ensures name == if old(index) == 1 then Trimmed(old(buf)) else if old(index) == 0 then old(buf) else []
    {
      if index == 1 {
        Truncate();
      } else if index != 0 {
        Clear();
      }
      return buf;
    }
  }

  // ---------------------------------------------------------------- the round trip

  /** The entries of a name as stored: 32 bytes each. */
  function Stored(name: Units, checksum: Byte, i: nat): (r: Bytes)
    requires i < NumEntries(name) <= MAX_ENTRIES
    ensures |r| == 32
  {
    Serialize(EntryAt(name, checksum, i))
  }

  /** A builder fed a stored directory entry. */
  function Fed(b: Builder, bytes: Bytes): (r: Builder)
    requires BuilderOk(b) && |bytes| == 32
    ensures BuilderOk(r)
  {
    match Deserialize(bytes)
    case Lfn(e) => if WellFormed(e) then Processed(b, e) else b
    case File(_, _, _) => b
  }

  /** A builder fed the first `k` stored entries of a name. */
  function FedAll(b: Builder, name: Units, checksum: Byte, k: nat): (r: Builder)
    requires BuilderOk(b) && k <= NumEntries(name) <= MAX_ENTRIES
    ensures BuilderOk(r)
  {
    if k == 0 then b else Fed(FedAll(b, name, checksum, k - 1), Stored(name, checksum, k - 1))
  }

  /** Unit `i` of the padded name. */
  function PadAt(name: Units, i: nat): Unit { if i < |name| then name[i] else if i == |name| then 0 else PADDING }

  lemma PartAt(name: Units, p: nat, i: nat)
    requires PART * p < |name| && i < PART
    ensures PartOf(ChunkOf(name, p))[i] == PadAt(name, PART * p + i)
  {
  }

  /** The units from `lo` on are those of the padded name. */
  ghost predicate PaddedFrom(buf: Units, name: Units, lo: int) {
    forall i | lo <= i < |buf| && 0 <= i :: buf[i] == PadAt(name, i)
  }

  lemma PlacedPart(buf: Units, name: Units, p: nat)
    requires PART * p < |name| && PART * p + PART <= |buf| && PaddedFrom(buf, name, PART * p + PART)
    ensures PaddedFrom(Placed(buf, PART * p, PartOf(ChunkOf(name, p))), name, PART * p)
  {
    var part := PartOf(ChunkOf(name, p));
    var r := Placed(buf, PART * p, part);
    forall i | PART * p <= i < |r| ensures r[i] == PadAt(name, i) {
      if i < PART * p + PART {
        PartAt(name, p, i - PART * p);
        assert r[i] == part[i - PART * p];
      } else {
        assert r[i] == buf[i];
      }
    }
  }

  /** After `k` entries, whatever came before, the builder holds the last `k` parts. */
  lemma {:induction false} FedParts(b: Builder, name: Units, checksum: Byte, k: nat)
    requires BuilderOk(b) && 0 < k <= NumEntries(name) <= MAX_ENTRIES
    ensures var n := NumEntries(name);
            var r := FedAll(b, name, checksum, k);
            r.index == n - k + 1 && r.chksum == checksum && |r.buf| == PART * n &&
                PaddedFrom(r.buf, name, PART * (n - k))
    decreases k
  {
    var n := NumEntries(name);
    if k > 1 { FedParts(b, name, checksum, k - 1); }
    FedOne(FedAll(b, name, checksum, k - 1), name, checksum, k);
  }

  lemma FedOne(b: Builder, name: Units, checksum: Byte, k: nat)
    requires BuilderOk(b) && 0 < k <= NumEntries(name) <= MAX_ENTRIES
    requires var n := NumEntries(name);
             k > 1 ==>
             b.index == n - k + 2 && b.chksum == checksum && |b.buf| == PART * n &&
             PaddedFrom(b.buf, name, PART * (n - k + 1))
    ensures var n := NumEntries(name);
            var r := Fed(b, Stored(name, checksum, k - 1));
            r.index == n - k + 1 && r.chksum == checksum && |r.buf| == PART * n &&
                PaddedFrom(r.buf, name, PART * (n - k))
  {
    var n := NumEntries(name);
    var e := StoredFacts(name, checksum, k);
    var buf := if k == 1 then Resized(b.buf, n * PART) else b.buf;
    var part := PartOf(ChunkOf(name, n - k));
    PlacedPart(buf, name, n - k);
    assert Processed(b, e) == Builder(Placed(buf, PART * (n - k), part), checksum, n - k + 1);
  }

  /** What the builder sees of the stored entry number `k - 1`. */
  lemma StoredFacts(name: Units, checksum: Byte, k: nat) returns (e: LfnEntry)
    requires 0 < k <= NumEntries(name) <= MAX_ENTRIES
    ensures WellFormed(e) && Deserialize(Stored(name, checksum, k - 1)) == Lfn(e)
    ensures var n := NumEntries(name);
            && PART * (n - k) < |name| && NameOf(e) == PartOf(ChunkOf(name, n - k)) && e.checksum == checksum
            && e.order % 32 == n - k + 1 && (e.order / LAST_FLAG % 2 == 1 <==> k == 1)
  {
    e := EntryAt(name, checksum, k - 1);
    EntryFacts(name, checksum, k);
    SerializeRoundTrip(e);
  }

  lemma EntryFacts(name: Units, checksum: Byte, k: nat)
    requires 0 < k <= NumEntries(name) <= MAX_ENTRIES
    ensures var n, e := NumEntries(name), EntryAt(name, checksum, k - 1);
            && PART * (n - k) < |name| && NameOf(e) == PartOf(ChunkOf(name, n - k)) && e.checksum == checksum
            && e.order % 32 == n - k + 1 && (e.order / LAST_FLAG % 2 == 1 <==> k == 1)
  {
    OrderBits(NumEntries(name) - k + 1);
  }

  lemma OrderBits(i: nat)
    requires 0 < i <= MAX_ENTRIES
    ensures (i + LAST_FLAG) / LAST_FLAG % 2 == 1 && (i + LAST_FLAG) % 32 == i && i / LAST_FLAG % 2 == 0 && i % 32 == i
  {
  }

  /** Trimming takes off all the padding and whatever of the name looks like it. */
  lemma {:induction false} TrimPadded(s: Units, name: Units)
    requires |s| >= |name| && PaddedFrom(s, name, 0)
    ensures Trimmed(s) == Trimmed(name)
    decreases |s|
  {
    if |s| == |name| {
      assert s == name;
    } else {
      TrimPadded(s[..|s| - 1], name);
    }
  }

  /** A name written and read back, whatever the builder saw before: the name without trailing zeros and paddings if
      the checksum fits the short name, and nothing otherwise. */
  lemma {:induction false} LongNameRoundTrip(b: Builder, name: Units, checksum: Byte, short: Bytes)
    requires BuilderOk(b) && 0 < |name| <= PART * MAX_ENTRIES
    ensures Finished(FedAll(b, name, checksum, NumEntries(name)), short) == if ChecksumOf(short) == checksum
            then Trimmed(name) else []
  {
    var n := NumEntries(name);
    FedParts(b, name, checksum, n);
    TrimPadded(FedAll(b, name, checksum, n).buf, name);
  }

  /** The round trip gives the name back exactly when it does not end in a zero or a padding unit. */
  lemma {:induction false} RoundTripIff(b: Builder, name: Units, short: Bytes)
    requires BuilderOk(b) && 0 < |name| <= PART * MAX_ENTRIES
    ensures Finished(FedAll(b, name, ChecksumOf(short), NumEntries(name)), short) == name <==>
            name[|name| - 1] != 0 && name[|name| - 1] != PADDING
  {
    LongNameRoundTrip(b, name, ChecksumOf(short), short);
    assert |Trimmed(name[..|name| - 1])| < |name|;
  }

  // ---------------------------------------------------------------- any entries

  predicate IsLast(e: LfnEntry) { e.order / 64 % 2 == 1 }

  function IndexOf(e: LfnEntry): nat { e.order % 32 }

  /** What a directory holds before a short name: parts of long names, and entries to be skipped. */
  type Entries = seq<Option<LfnEntry>>

  ghost predicate AllWellFormed(es: Entries) { forall e | e in es && e.Some? :: WellFormed(e.value) }

  /** The last `m` of `es` are the end of a name, down to the part with index `i`: the first of them is marked, the
      others count down unmarked, and all have checksum `c`. */
  ghost predicate Series(es: Entries, m: nat, i: nat, c: Byte)
    decreases m
  {
    && es != [] && es[|es| - 1].Some?
    && var e := es[|es| - 1].value;
       && IndexOf(e) == i && 1 <= i <= 20 && e.checksum == c
       && if IsLast(e) then m == 1 else m > 1 && Series(es[..|es| - 1], m - 1, i + 1, c)
  }

  /** The units of the last `m` entries, in the order of the name. */
  ghost function PartsOf(es: Entries, m: nat): Units
    requires AllWellFormed(es)
    decreases m
  {
    if m == 0 || es == [] || es[|es| - 1].None? then []
    else NameOf(es[|es| - 1].value) + PartsOf(es[..|es| - 1], m - 1)
  }

  /** A new builder fed the entries one after the other. */
  ghost function FedList(es: Entries): (b: Builder)
    requires AllWellFormed(es)
    ensures BuilderOk(b)
  {
    if es == [] then Builder([], 0, 0)
    else
      var b, e := FedList(es[..|es| - 1]), es[|es| - 1];
      if e.Some? then Processed(b, e.value) else Cleared(b)
  }

  /** The builder has taken up the last `m` entries: index and checksum are theirs, and their units are in place. */
  ghost predicate Holding(es: Entries, m: nat, b: Builder)
    requires AllWellFormed(es)
  {
    && b.index > 0 && Series(es, m, b.index, b.chksum)
    && PART * (b.index - 1) <= |b.buf| && b.buf[PART * (b.index - 1)..] == PartsOf(es, m)
  }

  lemma PlacedTail(buf: Units, at: nat, part: Units)
    requires at + |part| <= |buf|
    ensures Placed(buf, at, part)[at..] == part + buf[at + |part|..]
  {
  }

  lemma HoldingMore(es: Entries, m: nat, b: Builder, e: LfnEntry)
    requires AllWellFormed(es) && WellFormed(e) && Holding(es, m, b) && BuilderOk(b) && b.index > 1
    requires !IsLast(e) && IndexOf(e) == b.index - 1 && e.checksum == b.chksum
    ensures AllWellFormed(es + [Some(e)]) && Holding(es + [Some(e)], m + 1, Processed(b, e))
  {
    var all, at := es + [Some(e)], PART * (b.index - 2);
    assert all[..|all| - 1] == es;
    PlacedTail(b.buf, at, NameOf(e));
  }

  lemma HoldingFirst(es: Entries, b: Builder, e: LfnEntry)
    requires AllWellFormed(es) && WellFormed(e) && BuilderOk(b) && IsLast(e) && 0 < IndexOf(e) <= 20
    ensures AllWellFormed(es + [Some(e)]) && Holding(es + [Some(e)], 1, Processed(b, e))
  {
    var all, at := es + [Some(e)], PART * (IndexOf(e) - 1);
    assert all[..|all| - 1] == es && PartsOf(es, 0) == [];
    PlacedTail(Resized(b.buf, IndexOf(e) * PART), at, NameOf(e));
  }

  /** A builder has a name under way exactly when the latest entries are the end of one, and holds its units. */
  lemma {:induction false} Building(es: Entries)
    requires AllWellFormed(es)
    ensures var b := FedList(es);
            && (b.index == 0 ==> b.buf == []) && (b.index > 0 ==> exists m: nat :: Holding(es, m, b))
            && forall m: nat, i: nat, c: Byte | Series(es, m, i, c) :: b.index == i && b.chksum == c
    decreases |es|
  {
    if es != [] {
      var front, last := es[..|es| - 1], es[|es| - 1];
      assert es == front + [last];
      Building(front);
      var b0, b := FedList(front), FedList(es);
      if b.index > 0 {
        var e := last.value;
        assert WellFormed(e);
        if IsLast(e) {
          HoldingFirst(front, b0, e);
        } else {
          var m: nat :| Holding(front, m, b0);
          HoldingMore(front, m, b0, e);
        }
      }
    }
  }

  /** A series starts at the latest marked entry. */
  lemma {:induction false} SeriesOnce(es: Entries, m: nat, i: nat, c: Byte, k: nat, c': Byte)
    requires Series(es, m, i, c) && Series(es, k, i, c')
    ensures k == m && c == c'
    decreases m
  {
    if m > 1 { SeriesOnce(es[..|es| - 1], m - 1, i + 1, c, k - 1, c'); }
  }

  /** Which long name a short one has, whatever entries precede it: that of the entries just before it if they are a
      whole name with its checksum, and none otherwise. */
  lemma {:induction false} NameOrNothing(es: Entries, short: Bytes)
    requires AllWellFormed(es)
    ensures forall m: nat | Series(es, m, 1, ChecksumOf(short)) ::
              Finished(FedList(es), short) == Trimmed(PartsOf(es, m))
    ensures (forall m: nat :: !Series(es, m, 1, ChecksumOf(short))) ==> Finished(FedList(es), short) == []
  {
    var b, c := FedList(es), ChecksumOf(short);
    Building(es);
    if b.index == 1 {
      var m: nat :| Holding(es, m, b);
      assert b.buf[0..] == b.buf;
      forall k: nat | Series(es, k, 1, c) ensures k == m { SeriesOnce(es, m, 1, b.chksum, k, c); }
    }
  }

  /** Reading a directory up to a short name. */
  method ReadName(es: Entries, short: Bytes) returns (name: Units)
    requires AllWellFormed(es)
    ensures forall m: nat | Series(es, m, 1, ChecksumOf(short)) :: name == Trimmed(PartsOf(es, m))
    ensures (forall m: nat :: !Series(es, m, 1, ChecksumOf(short))) ==> name == []
  {
    var b := new LongNameBuilder();
    for i := 0 to |es|
      invariant AllWellFormed(es[..i]) && b.Value() == FedList(es[..i])
    {
      assert es[..i + 1][..i] == es[..i] && es[i] in es;
      if es[i].Some? {
        b.Process(es[i].value);
      } else {
        b.Clear();
      }
    }
    assert es[..|es|] == es;
    NameOrNothing(es, short);
    name := b.Finish(short);
  }
}
