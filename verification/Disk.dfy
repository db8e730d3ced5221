/** A storage device as a flat byte sequence, and a window of it that is written to several mirrors. */
module Disks {
  type Byte = x: int | 0 <= x < 256

  type Bytes = seq<Byte>

  /** `b` with the bytes from `at` on overwritten by `w`. */
  function Splice(b: Bytes, at: nat, w: Bytes): (r: Bytes)
    requires at + |w| <= |b|
    ensures |r| == |b|
  {
    b[..at] + w + b[at + |w|..]
  }

  lemma SpliceAt(b: Bytes, at: nat, w: Bytes, i: nat)
    requires at + |w| <= |b| && i < |b|
    ensures Splice(b, at, w)[i] == if at <= i < at + |w| then w[i - at] else b[i]
  {
  }

  function Window(b: Bytes, begin: nat, size: nat): (r: Bytes)
    requires begin + size <= |b|
    ensures |r| == size
  {
    b[begin..begin + size]
  }

  /** A write inside a window changes that window like a write to it alone. */
  lemma WindowInside(b: Bytes, begin: nat, size: nat, off: nat, w: Bytes)
    requires begin + size <= |b| && off + |w| <= size
    ensures Window(Splice(b, begin + off, w), begin, size) == Splice(Window(b, begin, size), off, w)
  {
    var c := Splice(b, begin + off, w);
    forall i | 0 <= i < size ensures Window(c, begin, size)[i] == Splice(Window(b, begin, size), off, w)[i] {
      SpliceAt(b, begin + off, w, begin + i);
      SpliceAt(Window(b, begin, size), off, w, i);
    }
  }

  /** A write outside a window leaves it alone. */
  lemma WindowOutside(b: Bytes, begin: nat, size: nat, at: nat, w: Bytes)
    requires begin + size <= |b| && at + |w| <= |b| && (at + |w| <= begin || begin + size <= at)
    ensures Window(Splice(b, at, w), begin, size) == Window(b, begin, size)
  {
    var c := Splice(b, at, w);
    forall i | 0 <= i < size ensures Window(c, begin, size)[i] == Window(b, begin, size)[i] {
      SpliceAt(b, at, w, begin + i);
    }
  }

  lemma SpliceLeft(a: Bytes, b: Bytes, at: nat, w: Bytes)
    requires at + |w| <= |a|
    ensures Splice(a + b, at, w) == Splice(a, at, w) + b
  {
  }

  lemma SpliceRight(a: Bytes, b: Bytes, at: nat, w: Bytes)
    requires at + |w| <= |b|
    ensures Splice(a + b, |a| + at, w) == a + Splice(b, at, w)
  {
  }

  lemma WindowSlice(b: Bytes, begin: nat, size: nat, o: nat, n: nat)
    requires begin + size <= |b| && o + n <= size
    ensures Window(b, begin, size)[o..o + n] == b[begin + o..begin + o + n]
  {
    var x, y := Window(b, begin, size)[o..o + n], b[begin + o..begin + o + n];
    assert |x| == |y|;
    forall i | 0 <= i < n ensures x[i] == y[i] {}
  }

  // ---------------------------------------------------------------- mirrored windows

  /** The start of mirror `i` of a window of `size` bytes at `begin`. */
  function MirrorAt(begin: nat, size: nat, i: nat): nat
    ensures MirrorAt(begin, size, i) >= begin
  {
    if i == 0 then begin else MirrorAt(begin, size, i - 1) + size
  }

  lemma {:induction false} MirrorProduct(begin: nat, size: nat, i: nat)
    ensures MirrorAt(begin, size, i) == begin + i * size
  {
    if i > 0 { MirrorProduct(begin, size, i - 1); assert i * size == (i - 1) * size + size; }
  }

  lemma {:induction false} MirrorMono(begin: nat, size: nat, i: nat, j: nat)
    requires i < j
    ensures MirrorAt(begin, size, i) + size <= MirrorAt(begin, size, j)
    decreases j
  {
    if i + 1 < j { MirrorMono(begin, size, i, j - 1); }
  }

  /** The bytes `w` written at offset `off` of the first `n` mirrors. */
  function MirrorWrite(b: Bytes, begin: nat, size: nat, n: nat, off: nat, w: Bytes): (r: Bytes)
    requires MirrorAt(begin, size, n) <= |b| && off + |w| <= size
    ensures |r| == |b|
  {
    if n == 0 then b
    else Splice(MirrorWrite(b, begin, size, n - 1, off, w), MirrorAt(begin, size, n - 1) + off, w)
  }

  lemma {:induction false} MirrorStep(c: Bytes, begin: nat, size: nat, j: nat, off: nat, w: Bytes, i: nat)
    requires MirrorAt(begin, size, j) + size <= |c| && MirrorAt(begin, size, i) + size <= |c| && off + |w| <= size
    ensures Window(Splice(c, MirrorAt(begin, size, j) + off, w), MirrorAt(begin, size, i), size) ==
            if i == j then Splice(Window(c, MirrorAt(begin, size, i), size), off, w)
            else Window(c, MirrorAt(begin, size, i), size)
  {
    if i < j { MirrorMono(begin, size, i, j); }
    if j < i { MirrorMono(begin, size, j, i); }
    ApartStep(c, MirrorAt(begin, size, j), MirrorAt(begin, size, i), size, off, w);
  }

  /** A write inside one window, seen through a window that is the same or apart. */
  lemma ApartStep(c: Bytes, at: nat, other: nat, size: nat, off: nat, w: Bytes)
    requires at + size <= |c| && other + size <= |c| && off + |w| <= size &&
             (at == other || at + size <= other || other + size <= at)
    ensures at == other ==> Window(Splice(c, at + off, w), other, size) == Splice(Window(c, other, size), off, w)
    ensures at != other ==> Window(Splice(c, at + off, w), other, size) == Window(c, other, size) || size == 0
  {
    if at == other {
      WindowInside(c, at, size, off, w);
    } else {
      WindowOutside(c, other, size, at + off, w);
    }
  }

  /** Every mirror takes the write, and only the mirrors written to. */
  lemma {:induction false} MirrorWriteWindows(b: Bytes, begin: nat, size: nat, n: nat, off: nat, w: Bytes, i: nat)
    requires MirrorAt(begin, size, n) <= |b| && off + |w| <= size
    requires MirrorAt(begin, size, i) + size <= |b|
    ensures Window(MirrorWrite(b, begin, size, n, off, w), MirrorAt(begin, size, i), size) ==
            if i < n then Splice(Window(b, MirrorAt(begin, size, i), size), off, w)
            else Window(b, MirrorAt(begin, size, i), size)
    decreases n
  {
    if n > 0 {
      MirrorWriteWindows(b, begin, size, n - 1, off, w, i);
      MirrorStep(MirrorWrite(b, begin, size, n - 1, off, w), begin, size, n - 1, off, w, i);
    }
  }

  lemma {:induction false} MirrorWriteElsewhere(b: Bytes, begin: nat, size: nat, n: nat, off: nat, w: Bytes, at: nat)
    requires MirrorAt(begin, size, n) <= |b| && off + |w| <= size
    requires at < |b| && (at < begin || MirrorAt(begin, size, n) <= at)
    ensures MirrorWrite(b, begin, size, n, off, w)[at] == b[at]
    decreases n
  {
    if n > 0 {
      MirrorWriteElsewhere(b, begin, size, n - 1, off, w, at);
      SpliceAt(MirrorWrite(b, begin, size, n - 1, off, w), MirrorAt(begin, size, n - 1) + off, w, at);
    }
  }
}
