/** The size of the allocation table chosen when a volume is formatted. */
module Formats {
  import opened FatTables
  import opened Options

  const FAT16_MIN: nat := 4085
  const FAT32_MIN: nat := 65525
  const FAT32_MAX: nat := 0x0FFF_FFF4

  function FromClusters(n: nat): FatType { if n < FAT16_MIN then Fat12 else if n < FAT32_MIN then Fat16 else Fat32 }

  function BitsPerEntry(t: FatType): (b: nat)
    ensures b > 0
  {
    match t case Fat12 => 12 case Fat16 => 16 case Fat32 => 32
  }

  function MaxClusters(t: FatType): nat {
    match t case Fat12 => FAT16_MIN - 1 case Fat16 => FAT32_MIN - 1 case Fat32 => FAT32_MAX
  }

  function ReservedSectors(t: FatType): nat { if t == Fat32 then 8 else 1 }

  /** Entries of the table that describe one cluster's worth of sectors, rounded down. */
  function EntriesPerCluster(bps: nat, spc: nat, t: FatType): nat { spc * bps * 8 / BitsPerEntry(t) }

  /** `space` is what is left for tables and data. */
  function SectorsPerFat(space: nat, bps: nat, spc: nat, t: FatType, fats: nat): nat
    requires fats > 0
  {
    var t1 := space + 2 * spc;
    var t2 := EntriesPerCluster(bps, spc, t) + fats;
    (t1 + t2 - 1) / t2
  }

  /** Sectors a volume can be cut into sensibly. */
  predicate Sensible(bps: nat, spc: nat, fats: nat) { 512 <= bps < 65536 && 1 <= spc < 256 && 1 <= fats <= 2 }

  lemma Mul(a: nat, b: nat, c: nat)
    requires a <= b
    ensures a * c <= b * c
  {
  }

  lemma Division(x: nat, d: nat)
    requires d > 0
    ensures d * (x / d) <= x < d * (x / d) + d
  {
  }

  /** Rounding up: the quotient reaches the dividend and does not overshoot by a divisor. */
  lemma CeilFacts(x: nat, d: nat)
    requires d > 0
    ensures x <= d * ((x + d - 1) / d) <= x + d - 1
  {
    Division(x + d - 1, d);
  }

  lemma EntriesBounds(bps: nat, spc: nat, t: FatType)
    requires bps >= 512
    ensures var n, e := EntriesPerCluster(bps, spc, t), BitsPerEntry(t);
            n >= 128 * spc && e * n <= spc * bps * 8 < e * n + e && (t == Fat12 ==> n >= 341 * spc)
  {
    var e := BitsPerEntry(t);
    Division(spc * bps * 8, e);
    Mul(512, bps, spc);
    var n := EntriesPerCluster(bps, spc, t);
    assert spc * bps * 8 >= 4096 * spc;
  }

  /** The table copies take no more than the space there is, whatever the rounding. */
  lemma TablesFit(space: nat, bps: nat, spc: nat, t: FatType, fats: nat)
    requires Sensible(bps, spc, fats) && space >= 9
    ensures SectorsPerFat(space, bps, spc, t, fats) * fats <= space
  {
    var n := EntriesPerCluster(bps, spc, t);
    var s := SectorsPerFat(space, bps, spc, t, fats);
    EntriesBounds(bps, spc, t);
    CeilFacts(space + 2 * spc, n + fats);
    FewSectors(space, spc, fats, n, s);
  }

  lemma FewSectors(space: nat, spc: nat, fats: nat, n: nat, s: nat)
    requires 1 <= spc && 1 <= fats <= 2 && space >= 9 && n >= 128 * spc &&
             (n + fats) * s <= space + 2 * spc + (n + fats) - 1
    ensures s * fats <= space
  {
    var d := n + fats;
    if s > 1 {
      assert d * s == d + d * (s - 1);
      assert d * (s - 1) <= space + 2 * spc;
      Mul(128 * spc, d, s - 1);
      assert 128 * spc * (s - 1) <= space + 2 * spc;
      Mul(1, s - 1, 2 * spc);
      assert 126 * spc * (s - 1) <= space;
      Mul(1, spc, 126 * (s - 1));
      assert 126 * (s - 1) <= space;
    }
  }

  /** Data clusters left when `s` sectors go to each table; partial clusters do not count. */
  function Clusters(space: nat, spc: nat, fats: nat, s: nat): nat
    requires spc > 0 && s * fats <= space
  {
    (space - s * fats) / spc
  }

  /** Entries a table of `s` sectors holds. */
  function Capacity(bps: nat, t: FatType, s: nat): nat { s * (bps * 8) / BitsPerEntry(t) }

  lemma CancelLe(a: nat, b: nat, c: nat)
    requires c > 0 && a * c <= b * c
    ensures a <= b
  {
    if a > b { Mul(b + 1, a, c); }
  }

  lemma AtLeast(x: nat, e: nat, k: nat)
    requires e > 0 && e * k <= x
    ensures x / e >= k
  {
    Division(x, e);
    if x / e < k { Mul(x / e + 1, k, e); }
  }

  /** The entries the table is made of, against the clusters there are, in sectors of data. */
  lemma SizeFacts(space: nat, bps: nat, spc: nat, t: FatType, fats: nat) returns (n: nat, s: nat, c: nat)
    requires Sensible(bps, spc, fats) && space >= 9
    ensures n == EntriesPerCluster(bps, spc, t) && s == SectorsPerFat(space, bps, spc, t, fats)
    ensures s * fats <= space && c == Clusters(space, spc, fats, s)
    ensures (c + 2) * spc <= s * n <= (c + 3) * spc + n
  {
    n, s := EntriesPerCluster(bps, spc, t), SectorsPerFat(space, bps, spc, t, fats);
    TablesFit(space, bps, spc, t, fats);
    c := Clusters(space, spc, fats, s);
    EntriesBounds(bps, spc, t);
    CeilFacts(space + 2 * spc, n + fats);
    Division(space - s * fats, spc);
    Balance(space, spc, fats, n, s, c);
  }

  lemma Balance(space: nat, spc: nat, fats: nat, n: nat, s: nat, c: nat)
    requires s * fats <= space && fats <= 2
    requires space + 2 * spc <= (n + fats) * s <= space + 2 * spc + (n + fats) - 1
    requires spc * c <= space - s * fats < spc * c + spc
    ensures (c + 2) * spc <= s * n <= (c + 3) * spc + n
  {
    assert (n + fats) * s == s * n + s * fats;
    assert (c + 2) * spc == spc * c + 2 * spc;
    assert (c + 3) * spc == spc * c + 3 * spc;
  }

  /** The table has an entry for every data cluster and the two reserved ones. */
  lemma TableHolds(space: nat, bps: nat, spc: nat, t: FatType, fats: nat)
    requires Sensible(bps, spc, fats) && space >= 9
    ensures var s := SectorsPerFat(space, bps, spc, t, fats);
            s * fats <= space && Capacity(bps, t, s) >= Clusters(space, spc, fats, s) + 2
  {
    var e := BitsPerEntry(t);
    var n, s, c := SizeFacts(space, bps, spc, t, fats);
    EntriesBounds(bps, spc, t);
    assert spc * bps * 8 == spc * (bps * 8);
    EnoughBits(s, n, spc, bps * 8, e, c + 2);
    AtLeast(s * (bps * 8), e, c + 2);
  }

  lemma EnoughBits(s: nat, n: nat, spc: nat, bits: nat, e: nat, k: nat)
    requires spc > 0 && s * n >= k * spc && e * n <= spc * bits
    ensures e * k <= s * bits
  {
    Mul(k * spc, s * n, e);
    Mul(e * n, spc * bits, s);
    assert (k * spc) * e == (e * k) * spc && (s * n) * e == (e * n) * s && (spc * bits) * s == (s * bits) * spc;
    CancelLe(e * k, s * bits, spc);
  }

  /** A 16-bit or 32-bit table has at most one sector of entries and one more than it needs. */
  lemma SurplusWide(space: nat, bps: nat, spc: nat, t: FatType, fats: nat)
    requires Sensible(bps, spc, fats) && space >= 9 && bps % 4 == 0 && t != Fat12
    ensures var s := SectorsPerFat(space, bps, spc, t, fats);
            && s * fats <= space
            && Capacity(bps, t, s) - 2 <= Clusters(space, spc, fats, s) + bps * 8 / BitsPerEntry(t) + 1
  {
    var per := PerSector(bps, t);
    var n, s, c := SizeFacts(space, bps, spc, t, fats);
    WideFacts(bps, spc, t, per);
    WideFacts(bps, s, t, per);
    WideEntries(s, spc, per, c);
  }

  /** A sector holds a whole number of 16-bit or 32-bit entries. */
  lemma PerSector(bps: nat, t: FatType) returns (per: nat)
    requires bps >= 512 && bps % 4 == 0 && t != Fat12
    ensures per == bps * 8 / BitsPerEntry(t) && per > 0 && bps * 8 == per * BitsPerEntry(t)
  {
    per := bps * 8 / BitsPerEntry(t);
  }

  lemma WideFacts(bps: nat, k: nat, t: FatType, per: nat)
    requires bps * 8 == per * BitsPerEntry(t)
    ensures EntriesPerCluster(bps, k, t) == k * per && Capacity(bps, t, k) == k * per
  {
    WholeEntries(bps * 8, k, per, BitsPerEntry(t));
    assert k * bps * 8 == k * (bps * 8);
  }

  lemma WideEntries(s: nat, spc: nat, per: nat, c: nat)
    requires spc > 0 && s * (spc * per) <= (c + 3) * spc + spc * per
    ensures s * per <= c + 3 + per
  {
    assert s * (spc * per) == (s * per) * spc;
    assert (c + 3) * spc + spc * per == (c + 3 + per) * spc;
    CancelLe(s * per, c + 3 + per, spc);
  }

  lemma WholeEntries(bits: nat, k: nat, per: nat, e: nat)
    requires e > 0 && bits == per * e
    ensures k * bits / e == k * per
  {
    assert k * bits == (k * per) * e;
    Exact(k * per, e);
  }

  lemma Exact(q: nat, e: nat)
    requires e > 0
    ensures q * e / e == q
  {
    Division(q * e, e);
    if q * e / e < q { Mul(q * e / e + 1, q, e); }
    if q * e / e > q { Mul(q + 1, q * e / e, e); }
  }

  /** A 12-bit table of a volume small enough for one has at most one sector of entries and 12 more than it needs. */
  lemma SurplusNarrow(space: nat, bps: nat, spc: nat, fats: nat)
    requires Sensible(bps, spc, fats) && space >= 9
    ensures var s := SectorsPerFat(space, bps, spc, Fat12, fats);
            && s * fats <= space
            && (Clusters(space, spc, fats, s) < FAT16_MIN ==>
                Capacity(bps, Fat12, s) - 2 <= Clusters(space, spc, fats, s) + bps * 8 / 12 + 12)
  {
    var n, s, c := SizeFacts(space, bps, spc, Fat12, fats);
    EntriesBounds(bps, spc, Fat12);
    assert spc * bps * 8 == spc * (bps * 8);
    if c < FAT16_MIN {
      NarrowSectors(s, n, spc, c);
      NarrowCapacity(s, n, spc, bps * 8, c);
    }
  }

  lemma NarrowSectors(s: nat, n: nat, spc: nat, c: nat)
    requires spc > 0 && n >= 341 * spc && s * n <= (c + 3) * spc + n && c < FAT16_MIN
    ensures s <= 12
  {
    if s > 12 {
      Mul(13, s, n);
      Mul(c + 3, 4087, spc);
      assert false;
    }
  }

  lemma NarrowCapacity(s: nat, n: nat, spc: nat, bits: nat, c: nat)
    requires spc > 0 && s <= 12 && bits >= 4096 && spc * bits < 12 * n + 12 && 12 * n <= spc * bits &&
             s * n <= (c + 3) * spc + n
    ensures s * bits / 12 <= c + 2 + bits / 12 + 12
  {
    var x, y := s * bits, s * n;
    assert spc * x <= 12 * y + 11 * s by { NarrowBits(s, n, spc, bits); }
    assert 12 * y <= 12 * (c + 3) * spc + spc * bits;
    assert spc * x <= spc * (12 * (c + 3) + bits) + 132;
    NarrowCancel(x, 12 * (c + 3) + bits, spc);
    Division(x, 12);
    Division(bits, 12);
  }

  lemma NarrowBits(s: nat, n: nat, spc: nat, bits: nat)
    requires spc * bits < 12 * n + 12
    ensures spc * (s * bits) <= 12 * (s * n) + 11 * s
  {
    Mul(spc * bits, 12 * n + 11, s);
    assert (spc * bits) * s == spc * (s * bits);
    assert (12 * n + 11) * s == 12 * (s * n) + 11 * s;
  }

  lemma NarrowCancel(x: nat, y: nat, spc: nat)
    requires spc > 0 && spc * x <= spc * y + 132
    ensures x <= y + 132
  {
    Mul(1, spc, 132);
    assert (y + 132) * spc == spc * y + 132 * spc;
    CancelLe(x, y + 132, spc);
  }

  /** `try_fs_geometry`: reserved sectors and sectors per table, or nothing for a volume unfit for the type. */
  function TryGeometry(total: nat, bps: nat, spc: nat, t: FatType, root: nat, fats: nat): Option<(nat, nat)>
    requires Sensible(bps, spc, fats)
  {
    var reserved := ReservedSectors(t);
    if total <= reserved + root + 8 then None
    else
      var space := total - reserved - root;
      var s := SectorsPerFat(space, bps, spc, t, fats);
      TablesFit(space, bps, spc, t, fats);
      var c := Clusters(space, spc, fats, s);
      if t != FromClusters(c) || c > MaxClusters(t) then None else Some((reserved, s))
  }

  /** What an accepted geometry promises: the parts add up to no more than the volume, there are enough entries, few
      are wasted, and the cluster count is one of the type. */
  lemma GeometryOk(total: nat, bps: nat, spc: nat, t: FatType, root: nat, fats: nat)
    requires Sensible(bps, spc, fats) && bps % 4 == 0
    ensures var g := TryGeometry(total, bps, spc, t, root, fats);
            g.Some? ==>
              var (reserved, s) := g.value;
              && reserved + root + s * fats <= total
              && var c := (total - reserved - root - s * fats) / spc;
                 && c + 2 <= Capacity(bps, t, s)
                 && Capacity(bps, t, s) <= c + 2 + bps * 8 / BitsPerEntry(t) + (if t == Fat12 then 12 else 1)
                 && FromClusters(c) == t && c <= MaxClusters(t)
  {
    var reserved := ReservedSectors(t);
    if total > reserved + root + 8 {
      var space := total - reserved - root;
      TableHolds(space, bps, spc, t, fats);
      if t == Fat12 { SurplusNarrow(space, bps, spc, fats); } else { SurplusWide(space, bps, spc, t, fats); }
    }
  }

  lemma CeilUnique(x: nat, d: nat, s: nat)
    requires d > 0 && x <= d * s < x + d
    ensures (x + d - 1) / d == s
  {
    CeilFacts(x, d);
    var q := (x + d - 1) / d;
    if q < s { Mul(q + 1, s, d); }
    if q > s { Mul(s + 1, q, d); }
  }

  /** The cluster counts of each type. */
  predicate CountFor(t: FatType, c: nat) {
    match t case Fat12 => c <= 4084 case Fat16 => 4085 <= c <= 65524 case Fat32 => 65525 <= c <= 268435444
  }

  lemma CountForIs(t: FatType, c: nat)
    ensures CountFor(t, c) <==> t == FromClusters(c) && c <= MaxClusters(t)
  {
  }

  /** When a geometry is accepted. With `s` the least number of table sectors that covers the space left and two
      clusters more, the volume must have more than eight sectors besides the reserved ones and the root directory, and
      the number of clusters left by the tables must be one of the type. */
  lemma GeometryIff(total: nat, bps: nat, spc: nat, t: FatType, root: nat, fats: nat, n: nat, s: nat)
    requires Sensible(bps, spc, fats)
    requires n == spc * bps * 8 / match t case Fat12 => 12 case Fat16 => 16 case Fat32 => 32
    requires var need := total - (if t.Fat32? then 8 else 1) - root + 2 * spc;
             need <= (n + fats) * s < need + (n + fats)
    ensures var reserved := if t.Fat32? then 8 else 1;
            if total <= reserved + root + 8 then TryGeometry(total, bps, spc, t, root, fats) == None
            else
              && s * fats <= total - reserved - root
              && var c := (total - reserved - root - s * fats) / spc;
                 TryGeometry(total, bps, spc, t, root, fats) == if CountFor(t, c) then Some((reserved, s)) else None
  {
    var reserved := ReservedSectors(t);
    if total > reserved + root + 8 {
      var space := total - reserved - root;
      CeilUnique(space + 2 * spc, n + fats, s);
      TablesFit(space, bps, spc, t, fats);
      assert SectorsPerFat(space, bps, spc, t, fats) == s;
      CountForIs(t, Clusters(space, spc, fats, s));
    }
  }
}
