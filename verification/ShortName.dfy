/** Short 8.3 names made for long ones so that they collide with no name in the directory. */
module ShortNames {
  import opened Bits
  import opened Disks
  import opened Options

  const SFN_SIZE: nat := 11
  const SPACE: Byte := 32
  const TILDE: Byte := 126
  const U16: nat := 65536

  /** Raw short names: 8 bytes of base name and 3 of extension. */
  type Name = n: Bytes | |n| == SFN_SIZE witness [32, 32, 32, 32, 32, 32, 32, 32, 32, 32, 32]

  /** A name as its code points. */
  type Text = seq<nat>

  // ---------------------------------------------------------------- copying characters

  /** Letters, digits and the marks an 8.3 name may hold. */
  predicate Allowed(c: nat) {
    || 65 <= c <= 90 || 97 <= c <= 122 || 48 <= c <= 57
    || c in {33, 35, 36, 37, 38, 39, 40, 41, 45, 64, 94, 95, 96, 123, 125, 126}
  }

  function Upper(c: nat): nat { if 97 <= c <= 122 then c - 32 else c }

  function UpperText(t: Text): (r: Text)
    ensures |r| == |t| && forall i | 0 <= i < |t| :: r[i] == Upper(t[i])
  {
    seq(|t|, i requires 0 <= i < |t| => Upper(t[i]))
  }

  function Padded(t: Text, size: nat): Text
    requires |t| <= size
  {
    t + seq(size - |t|, _ => 32)
  }

  /** What is left of a text in a short name: no spaces and dots, `_` for other characters not allowed, and capitals. */
  function Kept(t: Text): (r: Text)
    ensures |r| <= |t| && forall c | c in r :: Allowed(c) && !(97 <= c <= 122)
  {
    if t == [] then []
    else
      var front, c := Kept(t[..|t| - 1]), t[|t| - 1];
      if c == ' ' as int || c == '.' as int then front
      else front + [Upper(if Allowed(c) then c else '_' as int)]
  }

  /** Character by character: kept, replaced or dropped, in order. */
  lemma {:induction false} KeptJoin(a: Text, b: Text)
    ensures Kept(a + b) == Kept(a) + Kept(b)
  {
    if b == [] {
      assert a + b == a;
    } else {
      var n := |b| - 1;
      assert (a + b)[..|a + b| - 1] == a + b[..n];
      KeptJoin(a, b[..n]);
    }
  }

  /** A text of allowed characters is kept as it is, in capitals. */
  lemma {:induction false} KeptAllowed(t: Text)
    requires forall c | c in t :: Allowed(c)
    ensures Kept(t) == UpperText(t)
  {
    if t != [] {
      assert t == t[..|t| - 1] + [t[|t| - 1]];
      KeptAllowed(t[..|t| - 1]);
    }
  }

  /** A field of `size` bytes for a part of the name. */
  function Field(part: Text, size: nat): (r: Text)
    ensures |r| == size
  {
    Padded(Kept(part)[..Min(size, |Kept(part)|)], size)
  }

  /** Fill a field of `size` bytes from `src`: spaces and dots are stripped, other characters not allowed become `_`. */
  method CopyShortNamePart(size: nat, src: Text) returns (dst: Bytes, pos: nat, fits: bool, lossy: bool)
    ensures |dst| == size && pos <= size
    ensures forall i | 0 <= i < pos :: Allowed(dst[i]) && !(97 <= dst[i] <= 122)
    ensures forall i | pos <= i < size :: dst[i] == SPACE
    ensures pos == Min(size, |Kept(src)|) && dst == Field(src, size)
    ensures fits && !lossy <==> |src| <= size && forall c | c in src :: Allowed(c)
    ensures fits && !lossy ==> dst == Padded(UpperText(src), size)
  {
    dst := seq(size, _ => SPACE);
    pos, lossy := 0, false;
    for n := 0 to |src|
      invariant pos == |Kept(src[..n])| <= size && dst == Padded(Kept(src[..n]), size)
      invariant lossy <==> exists j | 0 <= j < n :: !Allowed(src[j])
    {
      if pos == size {
        fits := false;
        KeptPrefix(src, n, size);
        return;
      }
      var c := src[n];
      assert src[..n + 1][..n] == src[..n];
      if c == 32 || c == 46 {
        lossy := true;
        assert !Allowed(src[n]);
      } else {
        var fixed := if Allowed(c) then c else 95;
        lossy := lossy || fixed != c;
        dst := dst[pos := Upper(fixed)];
        pos := pos + 1;
      }
    }
    fits := true;
    assert src[..|src|] == src;
    assert (exists c | c in src :: !Allowed(c)) <==> exists j | 0 <= j < |src| :: !Allowed(src[j]);
    FitsAll(src, size, lossy);
  }

  /** What a full field holds does not depend on the rest of the text. */
  lemma KeptPrefix(src: Text, n: nat, size: nat)
    requires n < |src| && |Kept(src[..n])| == size
    ensures Kept(src)[..Min(size, |Kept(src)|)] == Kept(src[..n]) && |Kept(src)| >= size
    ensures !(|src| <= size && forall c | c in src :: Allowed(c))
  {
    assert src == src[..n] + src[n..];
    KeptJoin(src[..n], src[n..]);
  }

  lemma FitsAll(src: Text, size: nat, lossy: bool)
    requires |Kept(src)| <= size && (lossy <==> exists c | c in src :: !Allowed(c))
    ensures !lossy <==> |src| <= size && forall c | c in src :: Allowed(c)
    ensures !lossy ==> Padded(Kept(src), size) == Padded(UpperText(src), size)
    ensures Kept(src)[..Min(size, |Kept(src)|)] == Kept(src)
  {
    if !lossy { KeptAllowed(src); }
  }

  // ---------------------------------------------------------------- the generator

  /** Collision bitmaps are kept as the sets of their bits. */
  datatype Generator = Generator(chksum: nat, longBits: set<nat>, chksumBits: set<nat>, nameFits: bool, lossy: bool,
                                 exact: bool, baseLen: nat, short: Name)

  ghost predicate Ok(g: Generator) { g.baseLen <= 8 && g.chksum < U16 }

  function Digit(b: Byte): Option<nat> { if 48 <= b <= 57 then Some(b - 48) else None }

  function HexDigit(b: Byte): Option<nat> {
    if 48 <= b <= 57 then Some(b - 48)
    else if 65 <= b <= 70 then Some(b - 55)
    else if 97 <= b <= 102 then Some(b - 87)
    else None
  }

  /** Hexadecimal digits of either case, most significant first. */
  function HexValue(s: Bytes): Option<nat> {
    if s == [] then Some(0)
    else
      var high, low := HexValue(s[..|s| - 1]), HexDigit(s[|s| - 1]);
      if high.Some? && low.Some? then Some(16 * high.value + low.value) else None
  }

  /** `u16::from_str_radix` on four bytes: a leading plus sign is accepted. */
  function ParseHex(s: Bytes): Option<nat>
    requires |s| == 4
  {
    if s[0] == 43 then HexValue(s[1..]) else HexValue(s)
  }

  function HexChar(d: nat): Byte
    requires d < 16
  {
    if d < 10 then 48 + d else 55 + d
  }

  function ToHex(x: nat): (r: Bytes)
    requires x < U16
    ensures |r| == 4
  {
    [HexChar(x / 4096 % 16), HexChar(x / 256 % 16), HexChar(x / 16 % 16), HexChar(x % 16)]
  }

  lemma {:induction false} HexStep(s: Bytes, d: nat)
    requires d < 16 && HexValue(s).Some?
    ensures HexValue(s + [HexChar(d)]) == Some(16 * HexValue(s).value + d)
  {
    assert (s + [HexChar(d)])[..|s|] == s;
  }

  lemma HexDigits(a: nat, b: nat, c: nat, d: nat)
    requires a < 16 && b < 16 && c < 16 && d < 16
    ensures ParseHex([HexChar(a), HexChar(b), HexChar(c), HexChar(d)]) == Some(4096 * a + 256 * b + 16 * c + d)
  {
    var s1, s2, s3 := [HexChar(a)], [HexChar(a), HexChar(b)], [HexChar(a), HexChar(b), HexChar(c)];
    assert [] + [HexChar(a)] == s1 && s1 + [HexChar(b)] == s2 && s2 + [HexChar(c)] == s3;
    assert s3 + [HexChar(d)] == [HexChar(a), HexChar(b), HexChar(c), HexChar(d)];
    HexStep([], a);
    HexStep(s1, b);
    HexStep(s2, c);
    HexStep(s3, d);
  }

  lemma HexRoundTrip(x: nat)
    requires x < U16
    ensures ParseHex(ToHex(x)) == Some(x)
  {
    HexDigits(x / 4096 % 16, x / 256 % 16, x / 16 % 16, x % 16);
    Nibbles(x);
  }

  lemma Nibbles(x: nat)
    requires x < U16
    ensures x == 4096 * (x / 4096 % 16) + 256 * (x / 256 % 16) + 16 * (x / 16 % 16) + x % 16
  {
    var a := x / 16;
    var b := a / 16;
    var c := b / 16;
    assert x / 256 == b && x / 4096 == c;
    assert x == 16 * a + x % 16 && a == 16 * b + a % 16 && b == 16 * c + b % 16 && c < 16;
  }

  /** The digit of an existing name of the form PREFIX~1.EXT. */
  function LongHit(g: Generator, n: Name): Option<nat>
    requires g.baseLen <= 8
  {
    var len := Min(g.baseLen, 6);
    if n[len] == TILDE && n[..len] == g.short[..len] && n[8..] == g.short[8..] then Digit(n[len + 1]) else None
  }

  /** Checksum and digit of an existing name of the form PR021F~1.EXT. */
  function ChksumHit(g: Generator, n: Name): Option<(nat, nat)>
    requires g.baseLen <= 8
  {
    var len := Min(g.baseLen, 2);
    if n[len + 4] == TILDE && n[..len] == g.short[..len] && n[8..] == g.short[8..] then
      var d, c := Digit(n[len + 5]), ParseHex(n[len..len + 4]);
      if d.Some? && c.Some? then Some((c.value, d.value)) else None
    else None
  }

  function PrefixedName(g: Generator, num: nat, withChksum: bool): (r: Name)
    requires g.baseLen <= 8 && g.chksum < U16 && num < 10
  {
    var head := if withChksum then g.short[..Min(g.baseLen, 2)] + ToHex(g.chksum) else g.short[..Min(g.baseLen, 6)];
    var base := head + [TILDE, 48 + num];
    base + seq(8 - |base|, _ => SPACE) + g.short[8..]
  }

  /** Where everything is in a prefixed name: up to six characters of the base name, or up to two and the checksum in
      four hexadecimal digits; then `~`, the digit, spaces, and the extension. */
  lemma PrefixedLayout(g: Generator, num: nat)
    requires Ok(g) && num < 10
    ensures var n, k := PrefixedName(g, num, false), Min(g.baseLen, 6);
            && n[..k] == g.short[..k] && n[k] == '~' as int && n[k + 1] == '0' as int + num
            && (forall i | k + 2 <= i < 8 :: n[i] == ' ' as int) && n[8..] == g.short[8..]
    ensures var n, k := PrefixedName(g, num, true), Min(g.baseLen, 2);
            && n[..k] == g.short[..k] && HexValue(n[k..k + 4]) == Some(g.chksum)
            && n[k + 4] == '~' as int && n[k + 5] == '0' as int + num
            && (forall i | k + 6 <= i < 8 :: n[i] == ' ' as int) && n[8..] == g.short[8..]
  {
    var n, k := PrefixedName(g, num, true), Min(g.baseLen, 2);
    assert n[k..k + 4] == ToHex(g.chksum);
    HexRoundTrip(g.chksum);
  }

  /** A prefixed name is seen as a collision with its own digit. */
  lemma PrefixedHit(g: Generator, num: nat)
    requires Ok(g) && num < 10
    ensures LongHit(g, PrefixedName(g, num, false)) == Some(num)
    ensures ChksumHit(g, PrefixedName(g, num, true)) == Some((g.chksum, num))
  {
    var n, len := PrefixedName(g, num, false), Min(g.baseLen, 6);
    assert n[..len] == g.short[..len] && n[8..] == g.short[8..];
    var m, k := PrefixedName(g, num, true), Min(g.baseLen, 2);
    assert m[..k] == g.short[..k] && m[k..k + 4] == ToHex(g.chksum) && m[8..] == g.short[8..];
    HexRoundTrip(g.chksum);
  }

  /** Which names are collisions: those that agree with a prefixed name in prefix, tilde, digit and extension, whatever
      comes between; for the checksum form any spelling of its number will do. */
  lemma HitsMean(g: Generator, n: Name, d: nat)
    requires Ok(g)
    ensures LongHit(g, n) == Some(d) <==>
            && d < 10
            && var p, k := PrefixedName(g, d, false), Min(g.baseLen, 6);
               n[..k + 2] == p[..k + 2] && n[8..] == p[8..]
    ensures ChksumHit(g, n) == Some((g.chksum, d)) <==>
            && d < 10
            && var p, k := PrefixedName(g, d, true), Min(g.baseLen, 2);
               && n[..k] == p[..k] && ParseHex(n[k..k + 4]) == Some(g.chksum) && n[k + 4..k + 6] == p[k + 4..k + 6]
               && n[8..] == p[8..]
  {
    if d < 10 {
      PrefixedLayout(g, d);
      var p, k := PrefixedName(g, d, false), Min(g.baseLen, 6);
      assert n[..k + 2] == n[..k] + [n[k], n[k + 1]] && p[..k + 2] == p[..k] + [p[k], p[k + 1]];
      var q, j := PrefixedName(g, d, true), Min(g.baseLen, 2);
      assert n[j + 4..j + 6] == [n[j + 4], n[j + 5]] && q[j + 4..j + 6] == [q[j + 4], q[j + 5]];
      SplitHit(n[..k], n[k], n[k + 1], p[..k], p[k], p[k + 1]);
    }
  }

  lemma SplitHit(a: Bytes, x: Byte, y: Byte, b: Bytes, u: Byte, v: Byte)
    requires |a| == |b|
    ensures a + [x, y] == b + [u, v] <==> a == b && x == u && y == v
  {
    if a + [x, y] == b + [u, v] {
      assert a == (a + [x, y])[..|a|] && b == (b + [u, v])[..|b|];
      assert (a + [x, y])[|a|] == x && (b + [u, v])[|b|] == u;
      assert (a + [x, y])[|a| + 1] == y && (b + [u, v])[|b| + 1] == v;
    }
  }

  // ---------------------------------------------------------------- scanning a directory

  /** `add_existing`. */
  function Added(g: Generator, n: Name): (r: Generator)
    requires g.baseLen <= 8
    ensures r.baseLen == g.baseLen && r.short == g.short && r.chksum == g.chksum
  {
    var l, c := LongHit(g, n), ChksumHit(g, n);
    g.(exact := g.exact || n == g.short,
       longBits := if l.Some? then g.longBits + {l.value} else g.longBits,
       chksumBits := if c.Some? && c.value.0 == g.chksum then g.chksumBits + {c.value.1} else g.chksumBits)
  }

  function Scanned(g: Generator, names: seq<Name>): (r: Generator)
    requires g.baseLen <= 8
    ensures r.baseLen == g.baseLen && r.chksum == g.chksum && r.short == g.short
  {
    if names == [] then g else Added(Scanned(g, names[..|names| - 1]), names[|names| - 1])
  }

  /** Some name collides with digit `d` of the long-prefix form. */
  ghost predicate LongTaken(g: Generator, names: seq<Name>, d: nat)
    requires g.baseLen <= 8
  {
    exists n :: n in names && LongHit(g, n) == Some(d)
  }

  /** Some name collides with checksum `c` and digit `d`. */
  ghost predicate ChksumTaken(g: Generator, names: seq<Name>, c: nat, d: nat)
    requires g.baseLen <= 8
  {
    exists n :: n in names && ChksumHit(g, n) == Some((c, d))
  }

  /** A scan records exactly the collisions there are. */
  lemma {:induction false} ScanFinds(g: Generator, names: seq<Name>)
    requires g.baseLen <= 8
    ensures var r := Scanned(g, names);
            && r == g.(exact := r.exact, longBits := r.longBits, chksumBits := r.chksumBits)
            && (r.exact <==> g.exact || g.short in names)
            && (forall d: nat :: d in r.longBits <==> d in g.longBits || LongTaken(g, names, d))
            && (forall d: nat :: d in r.chksumBits <==> d in g.chksumBits || ChksumTaken(g, names, g.chksum, d))
  {
    if names != [] {
      var front, last := names[..|names| - 1], names[|names| - 1];
      ScanFinds(g, front);
      var s := Scanned(g, front);
      assert names == front + [last];
      assert LongHit(s, last) == LongHit(g, last) && ChksumHit(s, last) == ChksumHit(g, last);
      TakenOne(g, front, last);
    }
  }

  lemma TakenOne(g: Generator, front: seq<Name>, last: Name)
    requires g.baseLen <= 8
    ensures forall d: nat :: LongTaken(g, front + [last], d) <==> LongTaken(g, front, d) || LongHit(g, last) == Some(d)
    ensures forall c: nat, d: nat ::
              ChksumTaken(g, front + [last], c, d) <==>
              ChksumTaken(g, front, c, d) || ChksumHit(g, last) == Some((c, d))
  {
    var all := front + [last];
    assert forall n :: n in all <==> n in front || n == last;
  }

  function FirstFree(bits: set<nat>, lo: nat, hi: nat): Option<nat>
    decreases hi - lo
  {
    if lo >= hi then None else if lo !in bits then Some(lo) else FirstFree(bits, lo + 1, hi)
  }

  lemma {:induction false} FirstFreeIs(bits: set<nat>, lo: nat, hi: nat)
    ensures FirstFree(bits, lo, hi).None? <==> forall i | lo <= i < hi :: i in bits
    ensures FirstFree(bits, lo, hi).Some? ==>
            lo <= FirstFree(bits, lo, hi).value < hi && FirstFree(bits, lo, hi).value !in bits
    ensures FirstFree(bits, lo, hi).Some? ==> forall i | lo <= i < FirstFree(bits, lo, hi).value :: i in bits
    decreases hi - lo
  {
    if lo < hi { FirstFreeIs(bits, lo + 1, hi); }
  }

  /** `generate`: the name as it is, with a digit, or with checksum and digit. */
  function Generated(g: Generator): Option<Name>
    requires Ok(g)
  {
    if !g.lossy && g.nameFits && !g.exact then Some(g.short)
    else
      var l, c := FirstFree(g.longBits, 1, 5), FirstFree(g.chksumBits, 1, 10);
      FirstFreeIs(g.longBits, 1, 5);
      FirstFreeIs(g.chksumBits, 1, 10);
      if l.Some? then Some(PrefixedName(g, l.value, false))
      else if c.Some? then Some(PrefixedName(g, c.value, true))
      else None
  }

  /** Which name is generated: the plain one if it is exact and free, else the long prefix with the smallest free digit
      up to 4, else the checksum with the smallest free digit. */
  lemma GeneratedIs(g: Generator)
    requires Ok(g)
    ensures !g.lossy && g.nameFits && !g.exact ==> Generated(g) == Some(g.short)
    ensures (g.lossy || !g.nameFits || g.exact) ==>
            forall d: nat | 1 <= d < 5 && d !in g.longBits && (forall e | 1 <= e < d :: e in g.longBits) ::
              Generated(g) == Some(PrefixedName(g, d, false))
    ensures (g.lossy || !g.nameFits || g.exact) && (forall e: nat | 1 <= e < 5 :: e in g.longBits) ==>
            forall d: nat | 1 <= d < 10 && d !in g.chksumBits && (forall e | 1 <= e < d :: e in g.chksumBits) ::
              Generated(g) == Some(PrefixedName(g, d, true))
  {
    FirstFreeIs(g.longBits, 1, 5);
    FirstFreeIs(g.chksumBits, 1, 10);
  }

  lemma GeneratedNone(g: Generator)
    requires Ok(g)
    ensures Generated(g).None? <==>
            (g.lossy || !g.nameFits || g.exact) && (forall d: nat | 1 <= d < 5 :: d in g.longBits) &&
                (forall d: nat | 1 <= d < 10 :: d in g.chksumBits)
  {
    FirstFreeIs(g.longBits, 1, 5);
    FirstFreeIs(g.chksumBits, 1, 10);
  }

  /** A generated name is none of those scanned. */
  lemma {:induction false} GeneratedIsNew(g: Generator, names: seq<Name>)
    requires Ok(g)
    ensures Generated(Scanned(g, names)).Some? ==> Generated(Scanned(g, names)).value !in names
  {
    var r := Scanned(g, names);
    ScanFinds(g, names);
    FirstFreeIs(r.longBits, 1, 5);
    FirstFreeIs(r.chksumBits, 1, 10);
    var l, c := FirstFree(r.longBits, 1, 5), FirstFree(r.chksumBits, 1, 10);
    if l.Some? { PrefixedHit(g, l.value); }
    if c.Some? { PrefixedHit(g, c.value); }
  }

  // ---------------------------------------------------------------- retrying with other checksums

  function NextIteration(g: Generator): Generator {
    g.(chksum := (g.chksum + 1) % U16, longBits := {}, chksumBits := {})
  }

  /** The generator at the start of round `r` over the same directory. */
  function AtRound(g: Generator, names: seq<Name>, r: nat): (s: Generator)
    requires g.baseLen <= 8
    ensures s.baseLen <= 8
  {
    if r == 0 then g else NextIteration(Scanned(AtRound(g, names, r - 1), names))
  }

  /** The checksum of round `r`. */
  function ChksumAt(c: nat, r: nat): nat { if r == 0 then c else (ChksumAt(c, r - 1) + 1) % U16 }

  lemma {:induction false} ChksumAtIs(c: nat, r: nat)
    requires c < U16
    ensures ChksumAt(c, r) == (c + r) % U16
  {
    if r > 0 {
      ChksumAtIs(c, r - 1);
      ModStep(c + r - 1);
    }
  }

  lemma ModStep(x: nat)
    ensures (x % U16 + 1) % U16 == (x + 1) % U16
  {
    var q, m := x / U16, x % U16;
    if m + 1 == U16 { DivUnique(x + 1, U16, q + 1, 0); } else { DivUnique(x + 1, U16, q, m + 1); }
  }

  lemma {:induction false} RoundFacts(g: Generator, names: seq<Name>, r: nat)
    requires Ok(g) && g.longBits == {} && g.chksumBits == {}
    ensures var s := AtRound(g, names, r);
            && Ok(s) && s == g.(chksum := ChksumAt(g.chksum, r), exact := s.exact)
            && (s.exact <==> g.exact || (r > 0 && g.short in names))
  {
    if r > 0 {
      RoundFacts(g, names, r - 1);
      ScanFinds(AtRound(g, names, r - 1), names);
    }
  }

  /** Round `r` finds no name. */
  predicate Fails(g: Generator, names: seq<Name>, r: nat)
    requires g.baseLen <= 8
  {
    var s := Scanned(AtRound(g, names, r), names);
    s.chksum < U16 && Generated(s).None?
  }

  /** Checksums and digits taken by the names of a directory. */
  function Taken(g: Generator, names: seq<Name>): set<(nat, nat)>
    requires g.baseLen <= 8
  {
    set n | n in names && ChksumHit(g, n).Some? :: ChksumHit(g, n).value
  }

  lemma {:induction false} TakenAtMost(g: Generator, names: seq<Name>)
    requires g.baseLen <= 8
    ensures |Taken(g, names)| <= |names|
  {
    if names != [] {
      var front, last := names[..|names| - 1], names[|names| - 1];
      TakenAtMost(g, front);
      assert names == front + [last];
      var more := if ChksumHit(g, last).Some? then {ChksumHit(g, last).value} else {};
      assert Taken(g, names) == Taken(g, front) + more;
    }
  }

  /** Collisions depend on the short name alone. */
  lemma SameHits(s: Generator, g: Generator, names: seq<Name>)
    requires s.baseLen == g.baseLen <= 8 && s.short == g.short
    ensures forall d: nat :: LongTaken(s, names, d) <==> LongTaken(g, names, d)
    ensures forall c: nat, d: nat :: ChksumTaken(s, names, c, d) <==> ChksumTaken(g, names, c, d)
  {
    assert forall n :: LongHit(s, n) == LongHit(g, n) && ChksumHit(s, n) == ChksumHit(g, n);
  }

  /** All nine digits are taken with checksum `c`. */
  ghost predicate Exhausted(g: Generator, names: seq<Name>, c: nat)
    requires g.baseLen <= 8
  {
    forall d: nat | 1 <= d < 10 :: ChksumTaken(g, names, c, d)
  }

  /** A round fails exactly when the plain name and all digits of both prefixed forms are taken. */
  lemma {:induction false} FailsIff(g: Generator, names: seq<Name>, r: nat)
    requires Ok(g) && g.longBits == {} && g.chksumBits == {}
    ensures Fails(g, names, r) <==>
            && (g.lossy || !g.nameFits || g.exact || g.short in names)
            && (forall d: nat | 1 <= d < 5 :: LongTaken(g, names, d))
            && Exhausted(g, names, ChksumAt(g.chksum, r))
  {
    RoundFacts(g, names, r);
    var s := AtRound(g, names, r);
    ScanFinds(s, names);
    GeneratedNone(Scanned(s, names));
    SameHits(s, g, names);
  }

  /** All pairs of the checksums of the first `r` rounds and a digit. */
  function Pairs(c: nat, r: nat): set<(nat, nat)> {
    if r == 0 then {} else Pairs(c, r - 1) + Row(ChksumAt(c, r - 1))
  }

  function Row(c: nat): set<(nat, nat)> { set d: nat | 1 <= d < 10 :: (c, d) }

  lemma RowSize(c: nat)
    ensures |Row(c)| == 9
  {
    assert Row(c) == {(c, 1), (c, 2), (c, 3), (c, 4), (c, 5), (c, 6), (c, 7), (c, 8), (c, 9)};
  }

  /** Round `i` is the first with the checksum of `p`. */
  ghost predicate FromRound(c: nat, i: nat, p: (nat, nat)) { p.0 == ChksumAt(c, i) }

  lemma {:induction false} PairsFirst(c: nat, r: nat, p: (nat, nat)) returns (i: nat)
    requires p in Pairs(c, r)
    ensures i < r && FromRound(c, i, p)
  {
    if p in Pairs(c, r - 1) {
      i := PairsFirst(c, r - 1, p);
    } else {
      i := r - 1;
    }
  }

  lemma {:induction false} ChksumsDiffer(c: nat, i: nat, j: nat)
    requires c < U16 && i < j < i + U16
    ensures ChksumAt(c, i) != ChksumAt(c, j)
  {
    ChksumAtIs(c, i);
    ChksumAtIs(c, j);
  }

  lemma {:induction false} PairsCount(c: nat, r: nat)
    requires c < U16 && r <= U16
    ensures |Pairs(c, r)| == 9 * r
  {
    if r > 0 {
      PairsCount(c, r - 1);
      var before, row := Pairs(c, r - 1), Row(ChksumAt(c, r - 1));
      forall p | p in before ensures p !in row {
        var i := PairsFirst(c, r - 1, p);
        ChksumsDiffer(c, i, r - 1);
      }
      assert before !! row;
      RowSize(ChksumAt(c, r - 1));
    }
  }

  lemma RowTaken(g: Generator, names: seq<Name>, c: nat)
    requires g.baseLen <= 8 && Exhausted(g, names, c)
    ensures Row(c) <= Taken(g, names)
  {
    var taken := Taken(g, names);
    forall p | p in Row(c) ensures p in taken {
      assert ChksumTaken(g, names, c, p.1);
      var n :| n in names && ChksumHit(g, n) == Some((c, p.1));
    }
  }

  /** The first `r` rounds find no name. */
  ghost predicate FailedBefore(g: Generator, names: seq<Name>, r: nat)
    requires g.baseLen <= 8
  {
    forall i: nat | i < r :: Fails(g, names, i)
  }

  lemma FailedMore(g: Generator, names: seq<Name>, r: nat)
    requires g.baseLen <= 8 && FailedBefore(g, names, r) && Fails(g, names, r)
    ensures FailedBefore(g, names, r + 1)
  {
  }

  lemma {:induction false} FailedPairs(g: Generator, names: seq<Name>, r: nat)
    requires Ok(g) && g.longBits == {} && g.chksumBits == {} && FailedBefore(g, names, r)
    ensures Pairs(g.chksum, r) <= Taken(g, names)
  {
    if r > 0 {
      FailedPairs(g, names, r - 1);
      FailsIff(g, names, r - 1);
      RowTaken(g, names, ChksumAt(g.chksum, r - 1));
    }
  }

  lemma SubsetSize<T>(a: set<T>, b: set<T>)
    requires a <= b
    ensures |a| <= |b|
  {
    if a != {} {
      var x :| x in a;
      SubsetSize(a - {x}, b - {x});
    }
  }

  /** Every failed round uses up nine names of the directory. */
  lemma FailedRounds(g: Generator, names: seq<Name>, r: nat)
    requires Ok(g) && g.longBits == {} && g.chksumBits == {} && r <= U16 && FailedBefore(g, names, r)
    ensures 9 * r <= |names|
  {
    FailedPairs(g, names, r);
    PairsCount(g.chksum, r);
    TakenAtMost(g, names);
    SubsetSize(Pairs(g.chksum, r), Taken(g, names));
  }

  /** Every checksum is used up, and neither other form is free. */
  ghost predicate AllTaken(g: Generator, names: seq<Name>)
    requires g.baseLen <= 8
  {
    && (g.lossy || !g.nameFits || g.exact || g.short in names)
    && (forall d: nat | 1 <= d < 5 :: LongTaken(g, names, d))
    && (forall c: nat | c < U16 :: Exhausted(g, names, c))
  }

  /** Every checksum has its round. */
  lemma RoundOf(start: nat, c: nat) returns (r: nat)
    requires start < U16 && c < U16
    ensures ChksumAt(start, r) == c
  {
    r := if c >= start then c - start else c + U16 - start;
    ChksumAtIs(start, r);
  }

  /** The search never ends exactly when every checksum is used up and neither other form is free. */
  lemma FailsForeverIff(g: Generator, names: seq<Name>)
    requires Ok(g) && g.longBits == {} && g.chksumBits == {}
    ensures (forall r: nat :: Fails(g, names, r)) <==> AllTaken(g, names)
  {
    if forall r: nat :: Fails(g, names, r) {
      FailsIff(g, names, 0);
      forall c: nat | c < U16 ensures Exhausted(g, names, c) {
        var r := RoundOf(g.chksum, c);
        assert Fails(g, names, r);
        FailsIff(g, names, r);
      }
    }
    if AllTaken(g, names) {
      forall r: nat ensures Fails(g, names, r) {
        ChksumAtIs(g.chksum, r);
        FailsIff(g, names, r);
      }
    }
  }

  /** The nine names with the checksum of `g`. */
  function NamesWith(g: Generator): (r: seq<Name>)
    requires Ok(g)
    ensures |r| == 9 && forall i | 0 <= i < 9 :: r[i] == PrefixedName(g, i + 1, true)
  {
    seq(9, i requires 0 <= i < 9 => PrefixedName(g, i + 1, true))
  }

  /** The nine names of each of the first `n` checksums. */
  function NamesBelow(g: Generator, n: nat): seq<Name>
    requires Ok(g) && n <= U16
  {
    if n == 0 then [] else NamesBelow(g, n - 1) + NamesWith(g.(chksum := n - 1))
  }

  lemma {:induction false} NamesExhaust(g: Generator, n: nat, c: nat)
    requires Ok(g) && c < n <= U16
    ensures Exhausted(g, NamesBelow(g, n), c)
  {
    var front, g' := NamesBelow(g, n - 1), g.(chksum := n - 1);
    var back := NamesWith(g');
    if c < n - 1 { NamesExhaust(g, n - 1, c); }
    forall d: nat | 1 <= d < 10 ensures ChksumTaken(g, front + back, c, d) {
      if c < n - 1 {
        assert ChksumTaken(g, front, c, d);
        var x :| x in front && ChksumHit(g, x) == Some((c, d));
        assert x in front + back;
      } else {
        PrefixedHit(g', d);
        assert back[d - 1] in front + back && ChksumHit(g, back[d - 1]) == Some((c, d));
      }
    }
  }

  /** A full directory exists for every name: one in which the search never ends. */
  lemma FullDirectory(g: Generator) returns (names: seq<Name>)
    requires Ok(g) && g.longBits == {} && g.chksumBits == {}
    ensures forall r: nat :: Fails(g, names, r)
  {
    var long: seq<Name> := [PrefixedName(g, 1, false), PrefixedName(g, 2, false), PrefixedName(g, 3, false),
                            PrefixedName(g, 4, false)];
    var all := NamesBelow(g, U16);
    names := [g.short] + long + all;
    forall d: nat | 1 <= d < 5 ensures LongTaken(g, names, d) {
      PrefixedHit(g, d);
      assert long[d - 1] == names[d] && names[d] in names;
    }
    forall c: nat | c < U16 ensures Exhausted(g, names, c) {
      NamesExhaust(g, U16, c);
      forall d: nat | 1 <= d < 10 ensures ChksumTaken(g, names, c, d) {
        assert ChksumTaken(g, all, c, d);
        var x :| x in all && ChksumHit(g, x) == Some((c, d));
        assert x in names;
      }
    }
    assert names[0] == g.short && names[0] in names;
    FailsForeverIff(g, names);
  }

  // ---------------------------------------------------------------- the generator object

  function Rotate(c: nat, x: nat): nat { (c / 2 + c % 2 * 32768 + x % U16) % U16 }

  /** A rotation to the right by one bit, which one to the left undoes, and an addition, both modulo 2^16. */
  lemma RotateMeans(c: nat, x: nat)
    requires c < 65536
    ensures var r := Rotate(c, 0); r < 65536 && r * 2 % 65536 + r / 32768 == c && Rotate(c, x) == (r + x) % 65536
  {
    var h, l := c / 2, c % 2;
    Halves(h, l);
    assert Rotate(c, 0) == h + l * 32768;
  }

  lemma Halves(h: nat, l: nat)
    requires h < 32768 && l < 2
    ensures var r := h + l * 32768; r * 2 % 65536 == h * 2 && r / 32768 == l
  {
    if l == 0 { assert (h + l * 32768) == h; } else { assert (h + l * 32768) * 2 == h * 2 + 65536; }
  }

  function ChecksumOf(name: Text): (c: nat)
    ensures c < U16
  {
    if name == [] then 0 else Rotate(ChecksumOf(name[..|name| - 1]), name[|name| - 1])
  }

  method Checksum(name: Text) returns (c: nat)
    ensures c == ChecksumOf(name)
  {
    c := 0;
    for i := 0 to |name|
      invariant c == ChecksumOf(name[..i])
    {
      assert name[..i + 1][..i] == name[..i];
      c := Rotate(c, name[i]);
    }
    assert name[..|name|] == name;
  }

  /** The dot before the extension: the last one, but not at the start of the name. */
  function DotAt(name: Text, n: nat): (r: Option<nat>)
    requires n <= |name|
    ensures r.Some? ==> 0 < r.value < n && name[r.value] == 46 && forall i | r.value < i < n :: name[i] != 46
    ensures r.None? ==> forall i | 0 < i < n :: name[i] != 46
  {
    if n <= 1 then None else if name[n - 1] == 46 then Some(n - 1) else DotAt(name, n - 1)
  }

  function BaseOf(name: Text): Text {
    var dot := DotAt(name, |name|);
    if dot.Some? then name[..dot.value] else name
  }

  function ExtensionOf(name: Text): Text {
    var dot := DotAt(name, |name|);
    if dot.Some? then name[dot.value + 1..] else []
  }

  predicate AllAllowed(t: Text) { forall c | c in t :: Allowed(c) }

  predicate FitsShort(name: Text) {
    |BaseOf(name)| <= 8 && AllAllowed(BaseOf(name)) && |ExtensionOf(name)| <= 3 && AllAllowed(ExtensionOf(name))
  }

  /** Base name and extension copied to their fields. */
  method ShortForm(name: Text) returns (short: Name, baseLen: nat, fits: bool, lossy: bool)
    ensures baseLen == Min(8, |Kept(BaseOf(name))|) && short == Field(BaseOf(name), 8) + Field(ExtensionOf(name), 3)
    ensures fits && !lossy <==> FitsShort(name)
    ensures fits && !lossy ==> short == Padded(UpperText(BaseOf(name)), 8) + Padded(UpperText(ExtensionOf(name)), 3)
  {
    var dot := DotAt(name, |name|);
    var base;
    var src := if dot.Some? then name[..dot.value] else name;
    assert src == BaseOf(name);
    base, baseLen, fits, lossy := CopyShortNamePart(8, src);
    if dot.None? {
      short := base + [SPACE, SPACE, SPACE];
      NoExtension();
      return;
    }
    src := name[dot.value + 1..];
    assert src == ExtensionOf(name);
    var ext, _, extFits, extLossy := CopyShortNamePart(3, src);
    short, fits, lossy := base + ext, fits && extFits, lossy || extLossy;
  }

  lemma NoExtension()
    ensures Padded(UpperText([]), 3) == Field([], 3) == [SPACE, SPACE, SPACE]
  {
    assert UpperText([]) == Kept([]) == [];
  }

  class ShortNameGenerator {
    var chksum: nat
    var longBits: set<nat>
    var chksumBits: set<nat>
    var exact: bool
    const nameFits: bool
    const lossy: bool
    const baseLen: nat
    const short: Name

    function Value(): Generator
      reads this
    {
      Generator(chksum, longBits, chksumBits, nameFits, lossy, exact, baseLen, short)
    }

    /** The plain form is offered exactly when base and extension fit their fields and hold allowed characters only,
        and then it spells the name in capitals. */
    constructor (name: Text)
      requires name != [] && name[0] < 128
      ensures Ok(Value()) && longBits == {} && chksumBits == {} && !exact && chksum == ChecksumOf(name)
      ensures baseLen == Min(8, |Kept(BaseOf(name))|)
      ensures short == Field(BaseOf(name), 8) + Field(ExtensionOf(name), 3)
      ensures nameFits && !lossy <==> FitsShort(name)
      ensures nameFits && !lossy ==>
              short == Padded(UpperText(BaseOf(name)), 8) + Padded(UpperText(ExtensionOf(name)), 3)
    {
      var n, len, fits, loss := ShortForm(name);
      var c := Checksum(name);
      short, baseLen, nameFits, lossy := n, len, fits, loss;
      chksum, longBits, chksumBits, exact := c, {}, {}, false;
    }

    method AddExisting(n: Name)
      requires Ok(Value())
      modifies this`longBits, this`chksumBits, this`exact
      ensures Value() == Added(old(Value()), n)
    {
      if n == short {
        exact := true;
      }
      var long := Min(baseLen, 6);
      if n[long] == TILDE {
        var num := Digit(n[long + 1]);
        if num.Some? && n[..long] == short[..long] && n[8..] == short[8..] {
          longBits := longBits + {num.value};
        }
      }
      var len := Min(baseLen, 2);
      if n[len + 4] == TILDE {
        var num := Digit(n[len + 5]);
        if num.Some? && n[..len] == short[..len] && n[8..] == short[8..] && ParseHex(n[len..len + 4]) == Some(chksum) {
          chksumBits := chksumBits + {num.value};
        }
      }
    }

    method Generate() returns (r: Option<Name>)
      requires Ok(Value())
      ensures r == Generated(Value())
    {
      if !lossy && nameFits && !exact {
        return Some(short);
      }
      for i := 1 to 5
        invariant FirstFree(longBits, 1, 5) == FirstFree(longBits, i, 5)
      {
        if i !in longBits {
          return Some(PrefixedName(Value(), i, false));
        }
      }
      for i := 1 to 10
        invariant FirstFree(chksumBits, 1, 10) == FirstFree(chksumBits, i, 10)
      {
        if i !in chksumBits {
          return Some(PrefixedName(Value(), i, true));
        }
      }
      return None;
    }

    method NextRound()
      requires Ok(Value())
      modifies this`chksum, this`longBits, this`chksumBits
      ensures Value() == NextIteration(old(Value())) && Ok(Value())
    {
      chksum := (chksum + 1) % U16;
      longBits, chksumBits := {}, {};
    }
  }

  // ---------------------------------------------------------------- the search

  /** A directory entry as the search sees it: its raw short name, whether it has the wanted name, its kind. */
  datatype Entry = Entry(short: Name, sameName: bool, isDir: bool)

  datatype Outcome = Existing(index: nat) | WrongKind | Fresh(name: Name)

  function NamesOf(entries: seq<Entry>): (r: seq<Name>)
    ensures |r| == |entries| && forall i | 0 <= i < |r| :: r[i] == entries[i].short
  {
    seq(|entries|, i requires 0 <= i < |entries| => entries[i].short)
  }

  lemma NotAmong(entries: seq<Entry>, n: Name)
    requires n !in NamesOf(entries)
    ensures forall e | e in entries :: e.short != n
  {
    var names := NamesOf(entries);
    forall e | e in entries ensures e.short != n {
      var i :| 0 <= i < |entries| && entries[i] == e;
      assert names[i] in names;
    }
  }

  /** Entry `i` is the first one with the wanted name. */
  ghost predicate FirstSame(entries: seq<Entry>, i: nat) {
    i < |entries| && entries[i].sameName && forall j | 0 <= j < i :: !entries[j].sameName
  }

  /** The outcome names the first entry of that name, or says that it is of the wrong kind. */
  ghost predicate Names(entries: seq<Entry>, wanted: Option<bool>, r: Outcome) {
    exists i: nat :: FirstSame(entries, i) &&
      r == if wanted.Some? && Some(entries[i].isDir) != wanted then WrongKind else Existing(i)
  }

  /** Look for the name; on the way show every other short name to the generator. */
  method FindEntry(entries: seq<Entry>, wanted: Option<bool>, gen: ShortNameGenerator) returns (r: Option<Outcome>)
    requires Ok(gen.Value())
    modifies gen`longBits, gen`chksumBits, gen`exact
    ensures r.None? <==> forall e | e in entries :: !e.sameName
    ensures r.None? ==> gen.Value() == Scanned(old(gen.Value()), NamesOf(entries))
    ensures r.Some? ==> Names(entries, wanted, r.value)
  {
    ghost var names := NamesOf(entries);
    for i := 0 to |entries|
      invariant Ok(gen.Value()) && gen.Value() == Scanned(old(gen.Value()), names[..i])
      invariant forall j | 0 <= j < i :: !entries[j].sameName
    {
      if entries[i].sameName {
        assert FirstSame(entries, i);
        if wanted.Some? && Some(entries[i].isDir) != wanted {
          return Some(WrongKind);
        }
        return Some(Existing(i));
      }
      gen.AddExisting(entries[i].short);
      assert names[..i + 1][..i] == names[..i];
    }
    assert names[..|entries|] == names;
    return None;
  }

  /** One round of the search. */
  method TryRound(entries: seq<Entry>, wanted: Option<bool>, gen: ShortNameGenerator, ghost g: Generator,
                  ghost rounds: nat)
    returns (r: Option<Outcome>)
    requires Ok(g) && Ok(gen.Value()) && gen.Value() == AtRound(g, NamesOf(entries), rounds)
    modifies gen
    ensures r.None? ==>
            Ok(gen.Value()) && gen.Value() == AtRound(g, NamesOf(entries), rounds + 1) &&
            Fails(g, NamesOf(entries), rounds)
    ensures (r.None? || r.value.Fresh?) <==> forall e | e in entries :: !e.sameName
    ensures r.Some? && r.value.Fresh? ==> forall e | e in entries :: e.short != r.value.name
    ensures r.Some? && !r.value.Fresh? ==> Names(entries, wanted, r.value)
  {
    ghost var s, names := gen.Value(), NamesOf(entries);
    r := FindEntry(entries, wanted, gen);
    if r.Some? {
      return;
    }
    var short := gen.Generate();
    if short.Some? {
      GeneratedIsNew(s, names);
      NotAmong(entries, short.value);
      return Some(Fresh(short.value));
    }
    gen.NextRound();
  }

  /** Find an entry or a short name no entry has, trying one checksum after another. */
  method CheckForExistence(entries: seq<Entry>, wanted: Option<bool>, name: Text)
                           returns (r: Outcome, ghost rounds: nat)
    requires name != [] && name[0] < 128 && |entries| < 9 * U16
    ensures r.Fresh? <==> forall e | e in entries :: !e.sameName
    ensures r.Fresh? ==> forall e | e in entries :: e.short != r.name
    ensures !r.Fresh? ==> Names(entries, wanted, r)
    ensures 9 * rounds <= |entries|
  {
    var gen := new ShortNameGenerator(name);
    ghost var g, names := gen.Value(), NamesOf(entries);
    rounds := 0;
    while true
      invariant Ok(gen.Value()) && gen.Value() == AtRound(g, names, rounds)
      invariant rounds < U16 && 9 * rounds <= |entries| && FailedBefore(g, names, rounds)
      decreases |entries| - 9 * rounds
    {
      var done := TryRound(entries, wanted, gen, g, rounds);
      if done.Some? {
        return done.value, rounds;
      }
      FailedMore(g, names, rounds);
      FailedRounds(g, names, rounds + 1);
      rounds := rounds + 1;
    }
  }
}
