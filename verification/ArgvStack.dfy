/** The initial user stack: the kernel writes it through its own addresses, user code reads it back. */
module ArgvStacks {
  import opened Bits
  import opened Disks

  const PAGE_SIZE: nat := 4096
  const PTR_SIZE: nat := 8
  const WORD_SPAN: nat := 0x1_0000_0000_0000_0000
  const AT_RANDOM: nat := 25

  // ---------------------------------------------------------------- addresses

  /** Frames of the stack's pages: page number to kernel address of its frame. */
  type Pages = map<nat, nat>

  ghost predicate FramesApart(pages: Pages) {
    && (forall p | p in pages :: pages[p] % PAGE_SIZE == 0)
    && forall p, q | p in pages && q in pages && p != q :: pages[p] != pages[q]
  }

  /** The kernel address of the byte at user address `va`. */
  function Alias(pages: Pages, va: nat): nat
    requires va / PAGE_SIZE in pages
  {
    pages[va / PAGE_SIZE] + va % PAGE_SIZE
  }

  lemma AliasInjective(pages: Pages, a: nat, b: nat)
    requires FramesApart(pages) && a / PAGE_SIZE in pages && b / PAGE_SIZE in pages && a != b
    ensures Alias(pages, a) != Alias(pages, b)
  {
    if a / PAGE_SIZE != b / PAGE_SIZE {
      ApartPages(pages[a / PAGE_SIZE], pages[b / PAGE_SIZE], a % PAGE_SIZE, b % PAGE_SIZE);
    }
  }

  lemma ApartPages(f: nat, g: nat, x: nat, y: nat)
    requires f % PAGE_SIZE == 0 && g % PAGE_SIZE == 0 && f != g && x < PAGE_SIZE && y < PAGE_SIZE
    ensures f + x != g + y
  {
  }

  /** Going down inside a page moves the kernel address by the same amount. */
  lemma AliasDown(pages: Pages, va: nat, n: nat)
    requires va / PAGE_SIZE in pages && n <= va % PAGE_SIZE
    ensures (va - n) / PAGE_SIZE in pages && Alias(pages, va - n) == Alias(pages, va) - n
  {
    SamePage(va - n, n);
  }

  lemma SamePage(va: nat, n: nat)
    requires n <= (va + n) % PAGE_SIZE
    ensures (va + n) / PAGE_SIZE == va / PAGE_SIZE && (va + n) % PAGE_SIZE == va % PAGE_SIZE + n
  {
  }

  /** The bytes of an aligned word share a page. */
  lemma AliasWord(pages: Pages, va: nat, k: nat)
    requires va / PAGE_SIZE in pages && va % PTR_SIZE == 0 && k < PTR_SIZE
    ensures (va + k) / PAGE_SIZE in pages && Alias(pages, va + k) == Alias(pages, va) + k
  {
    assert va % PAGE_SIZE % PTR_SIZE == 0;
  }

  // ---------------------------------------------------------------- user memory

  /** The bytes user code sees from address `base` on. */
  datatype Memory = Memory(base: nat, bytes: Bytes)

  /** The 8 little-endian bytes of a word. */
  function WordBytes(w: nat, n: nat): (b: Bytes)
    ensures |b| == n
  {
    if n == 0 then [] else [w % 256] + WordBytes(w / 256, n - 1)
  }

  /** Byte `i` of a word counts 256^i. */
  lemma {:induction false} WordBytesAt(w: nat, n: nat, i: nat)
    requires i < n
    ensures Pow256(i) > 0 && WordBytes(w, n)[i] == w / Pow256(i) % 256
  {
    if i > 0 {
      WordBytesAt(w / 256, n - 1, i - 1);
      DivTwice(w, 256, Pow256(i - 1));
    }
  }

  lemma DivTwice(w: nat, a: nat, b: nat)
    requires a > 0 && b > 0
    ensures a * b > 0 && w / a / b == w / (a * b)
  {
    var x, y := w / a, w % a;
    var q, z := x / b, x % b;
    Nested(a, b, q, z, y);
    assert w == a * x + y && x == b * q + z;
    DivUnique(w, a * b, q, a * z + y);
  }

  lemma Nested(a: nat, b: nat, q: nat, z: nat, y: nat)
    requires y < a && z < b
    ensures a * (b * q + z) + y == (a * b) * q + (a * z + y) && a * z + y < a * b
  {
    assert a * (z + 1) <= a * b;
  }

  function BytesWord(b: Bytes): nat { if b == [] then 0 else b[0] + 256 * BytesWord(b[1..]) }

  function Pow256(n: nat): nat { if n == 0 then 1 else 256 * Pow256(n - 1) }

  lemma {:induction false} WordRoundTrip(w: nat, n: nat)
    requires w < Pow256(n)
    ensures BytesWord(WordBytes(w, n)) == w
  {
    if n > 0 {
      WordRoundTrip(w / 256, n - 1);
      assert WordBytes(w, n)[1..] == WordBytes(w / 256, n - 1);
    }
  }

  lemma Pow256Eight()
    ensures Pow256(8) == WORD_SPAN
  {
    assert Pow256(4) == 0x1_0000_0000;
  }

  ghost predicate Inside(u: Memory, at: nat, n: nat) { u.base <= at && at + n <= u.base + |u.bytes| }

  /** The `n` bytes at an address. */
  function Bytewise(u: Memory, at: nat, n: nat): (r: Bytes)
    requires Inside(u, at, n)
    ensures |r| == n
  {
    u.bytes[at - u.base..at - u.base + n]
  }

  ghost predicate BytesAt(u: Memory, at: nat, b: Bytes) { Inside(u, at, |b|) && Bytewise(u, at, |b|) == b }

  function Write(u: Memory, at: nat, b: Bytes): Memory
    requires Inside(u, at, |b|)
  {
    u.(bytes := Splice(u.bytes, at - u.base, b))
  }

  /** Nothing at or above `lo` changed. */
  ghost predicate KeptFrom(u: Memory, u': Memory, lo: nat) {
    u'.base == u.base && |u'.bytes| == |u.bytes| &&
        (Inside(u, lo, 0) ==> u'.bytes[lo - u.base..] == u.bytes[lo - u.base..])
  }

  ghost predicate SameRegion(u: Memory, u': Memory) { u'.base == u.base && |u'.bytes| == |u.bytes| }

  lemma WriteFacts(u: Memory, at: nat, b: Bytes)
    requires Inside(u, at, |b|)
    ensures BytesAt(Write(u, at, b), at, b) && KeptFrom(u, Write(u, at, b), at + |b|)
  {
  }

  lemma KeptTrans(u: Memory, u1: Memory, u2: Memory, hi: nat, lo: nat)
    requires KeptFrom(u, u1, hi) && KeptFrom(u1, u2, lo) && lo <= hi && Inside(u, lo, 0)
    ensures KeptFrom(u, u2, hi)
  {
    if Inside(u, hi, 0) {
      KeptHigher(u1, u2, lo, hi);
    }
  }

  lemma KeptHigher(u: Memory, u': Memory, lo: nat, hi: nat)
    requires KeptFrom(u, u', lo) && lo <= hi && Inside(u, lo, 0)
    ensures KeptFrom(u, u', hi)
  {
    if Inside(u, hi, 0) {
      var l, h := lo - u.base, hi - u.base;
      assert u.bytes[l..][h - l..] == u.bytes[h..] && u'.bytes[l..][h - l..] == u'.bytes[h..];
    }
  }

  lemma KeptBytes(u: Memory, u': Memory, lo: nat, at: nat, b: Bytes)
    requires KeptFrom(u, u', lo) && lo <= at && BytesAt(u, at, b) && Inside(u, lo, 0)
    ensures BytesAt(u', at, b)
  {
    KeptHigher(u, u', lo, at);
    var i := at - u.base;
    assert u.bytes[i..][..|b|] == u.bytes[i..i + |b|] && u'.bytes[i..][..|b|] == u'.bytes[i..i + |b|];
  }

  // ---------------------------------------------------------------- the layout

  /** A NUL-terminated string. */
  ghost predicate StringAt(u: Memory, at: nat, s: Bytes) { BytesAt(u, at, s + [0]) }

  ghost predicate WordAt(u: Memory, at: nat, w: nat) { BytesAt(u, at, WordBytes(w, PTR_SIZE)) }

  /** Pointer `i` at `base` leads to string `i`. */
  ghost predicate ArgAt(u: Memory, base: nat, ptrs: seq<nat>, args: seq<Bytes>, i: nat)
    requires i < |ptrs| && |ptrs| == |args|
  {
    ptrs[i] < WORD_SPAN && WordAt(u, base + PTR_SIZE * i, ptrs[i]) && StringAt(u, ptrs[i], args[i])
  }

  ghost predicate ArgvAt(u: Memory, base: nat, ptrs: seq<nat>, args: seq<Bytes>) {
    |ptrs| == |args| && forall i: nat | i < |args| :: ArgAt(u, base, ptrs, args, i)
  }

  /** What a reader of NUL-terminated strings sees of `s`. */
  function UpToNul(s: Bytes): (r: Bytes)
    ensures r <= s && 0 !in r
  {
    if s == [] || s[0] == 0 then [] else [s[0]] + UpToNul(s[1..])
  }

  lemma {:induction false} UpToNulIff(s: Bytes)
    ensures UpToNul(s) == s <==> 0 !in s
  {
    if s != [] && s[0] != 0 {
      UpToNulIff(s[1..]);
      assert s == [s[0]] + s[1..];
    }
  }

  lemma {:induction false} UpToNulEnd(s: Bytes)
    ensures |UpToNul(s)| < |s| ==> s[|UpToNul(s)|] == 0
  {
    if s != [] && s[0] != 0 { UpToNulEnd(s[1..]); }
  }

  // ---------------------------------------------------------------- the reader in user mode

  /** The byte at an address. */
  function ByteAt(u: Memory, at: nat): Byte
    requires Inside(u, at, 1)
  {
    u.bytes[at - u.base]
  }

  /** The length of the string at `at`: the first zero byte. */
  method StringLength(u: Memory, at: nat, ghost s: Bytes) returns (len: nat)
    requires StringAt(u, at, s)
    ensures len == |UpToNul(s)|
  {
    len := 0;
    ghost var t := s + [0];
    UpToNulEnd(s);
    assert forall k | 0 <= k < |UpToNul(s)| :: UpToNul(s)[k] == s[k] && UpToNul(s)[k] in UpToNul(s);
    ghost var i := at - u.base;
    assert forall k | 0 <= k < |t| :: u.bytes[i..i + |t|][k] == t[k];
    while ByteAt(u, at + len) != 0
      invariant len <= |UpToNul(s)| <= |s|
      decreases |s| - len
    {
      assert t[len] == ByteAt(u, at + len) != 0;
      len := len + 1;
    }
    assert t[len] == ByteAt(u, at + len) == 0;
  }

  lemma ReadWordAt(u: Memory, at: nat, w: nat)
    requires WordAt(u, at, w) && w < WORD_SPAN
    ensures Inside(u, at, PTR_SIZE) && BytesWord(Bytewise(u, at, PTR_SIZE)) == w
  {
    Pow256Eight();
    WordRoundTrip(w, 8);
  }

  /** `_start`: collect the arguments from argc and argv. */
  method Start(u: Memory, argc: nat, argv: nat, ghost ptrs: seq<nat>, ghost args: seq<Bytes>) returns (v: seq<Bytes>)
    requires argc == |args| && ArgvAt(u, argv, ptrs, args)
    ensures |v| == argc && forall i | 0 <= i < argc :: v[i] == UpToNul(args[i])
  {
    v := [];
    for i := 0 to argc
      invariant |v| == i && forall j | 0 <= j < i :: v[j] == UpToNul(args[j])
    {
      assert ArgAt(u, argv, ptrs, args, i);
      ReadWordAt(u, argv + PTR_SIZE * i, ptrs[i]);
      var start := BytesWord(Bytewise(u, argv + PTR_SIZE * i, PTR_SIZE));
      var len := StringLength(u, start, args[i]);
      StringPrefix(u, start, args[i], len);
      v := v + [Bytewise(u, start, len)];
    }
  }

  lemma StringPrefix(u: Memory, at: nat, s: Bytes, n: nat)
    requires StringAt(u, at, s) && n <= |s|
    ensures Inside(u, at, n) && Bytewise(u, at, n) == s[..n]
  {
    var i, t := at - u.base, s + [0];
    WindowSlice(u.bytes, i, |t|, 0, n);
    assert t[0..n] == s[..n];
  }

  // ---------------------------------------------------------------- kernel memory

  /** Bytes stored one after the other from a kernel address on. */
  function Put(m: map<nat, Byte>, at: nat, b: Bytes): map<nat, Byte>
    decreases |b|
  {
    if b == [] then m else Put(m[at := b[0]], at + 1, b[1..])
  }

  lemma {:induction false} PutAt(m: map<nat, Byte>, at: nat, b: Bytes, a: nat)
    ensures a in Put(m, at, b) <==> a in m || at <= a < at + |b|
    ensures a in Put(m, at, b) ==> Put(m, at, b)[a] == if at <= a < at + |b| then b[a - at] else m[a]
    decreases |b|
  {
    if b != [] { PutAt(m[at := b[0]], at + 1, b[1..], a); }
  }

  ghost predicate BackedAt(m: map<nat, Byte>, pages: Pages, u: Memory, va: nat)
    requires Inside(u, va, 1)
  {
    va / PAGE_SIZE in pages && Alias(pages, va) in m && m[Alias(pages, va)] == ByteAt(u, va)
  }

  /** Kernel memory holds the user's bytes in the frames of the user's pages. */
  ghost predicate Backs(m: map<nat, Byte>, pages: Pages, u: Memory) {
    forall va: nat | u.base <= va < u.base + |u.bytes| :: BackedAt(m, pages, u, va)
  }

  /** Kernel addresses `at`, `at + 1`, ... are the aliases of user addresses `va`, `va + 1`, ... */
  ghost predicate Run(pages: Pages, va: nat, at: nat, n: nat) {
    forall a: nat | va <= a < va + n :: a / PAGE_SIZE in pages && Alias(pages, a) == at + (a - va)
  }

  /** A store through the alias is a write to user memory. */
  lemma {:induction false} StoreThrough(m: map<nat, Byte>, pages: Pages, u: Memory, va: nat, at: nat, b: Bytes)
    requires FramesApart(pages) && Backs(m, pages, u) && Inside(u, va, |b|) && Run(pages, va, at, |b|)
    ensures Backs(Put(m, at, b), pages, Write(u, va, b))
  {
    var m', u' := Put(m, at, b), Write(u, va, b);
    forall a: nat | u.base <= a < u.base + |u.bytes| ensures BackedAt(m', pages, u', a) {
      assert BackedAt(m, pages, u, a);
      PutAt(m, at, b, Alias(pages, a));
      SpliceAt(u.bytes, va - u.base, b, a - u.base);
      if !(va <= a < va + |b|) {
        var x := Alias(pages, a);
        if at <= x < at + |b| {
          AliasInjective(pages, a, va + (x - at));
        }
      }
    }
  }

  lemma RunByte(pages: Pages, va: nat)
    requires va / PAGE_SIZE in pages
    ensures Run(pages, va, Alias(pages, va), 1)
  {
  }

  lemma RunWord(pages: Pages, va: nat)
    requires va / PAGE_SIZE in pages && va % PTR_SIZE == 0
    ensures Run(pages, va, Alias(pages, va), PTR_SIZE)
  {
    forall a: nat | va <= a < va + PTR_SIZE ensures a / PAGE_SIZE in pages &&
        Alias(pages, a) == Alias(pages, va) + (a - va) {
      AliasWord(pages, va, a - va);
    }
  }

  // ---------------------------------------------------------------- building the stack

  class StackInit {
    const pages: Pages
    var sp: nat
    var spKernelVa: nat
    var mem: map<nat, Byte>
    /** What the user will see. */
    ghost var u: Memory

    /** Off a page boundary the kernel address is the alias of the stack pointer. */
    ghost predicate Valid()
      reads this
    {
      && FramesApart(pages) && Backs(mem, pages, u) && Inside(u, sp, 0)
      && (sp % PAGE_SIZE != 0 ==> sp / PAGE_SIZE in pages && spKernelVa == Alias(pages, sp))
    }

    constructor (pages: Pages, sp: nat, mem: map<nat, Byte>, ghost u: Memory)
      requires FramesApart(pages) && Backs(mem, pages, u) && sp == u.base + |u.bytes| && sp % PAGE_SIZE == 0
      ensures Valid() && this.pages == pages && this.sp == sp && this.mem == mem && this.u == u
    {
      this.pages, this.sp, this.mem, this.u := pages, sp, mem, u;
      spKernelVa := 0;
    }

    /** Move down without leaving the page, or into the page below from a page boundary. */
    method SpDown(len: nat)
      requires Valid() && u.base + len <= sp && 0 < len <= PAGE_SIZE && (sp % PAGE_SIZE == 0 || len <= sp % PAGE_SIZE)
      modifies this`sp, this`spKernelVa
      ensures sp == old(sp) - len && sp / PAGE_SIZE in pages && spKernelVa == Alias(pages, sp)
    {
      assert BackedAt(mem, pages, u, sp - len);
      if sp % PAGE_SIZE == 0 {
        sp := sp - len;
        spKernelVa := Alias(pages, sp);
      } else {
        AliasDown(pages, sp, len);
        sp := sp - len;
        spKernelVa := spKernelVa - len;
      }
    }

    method PushByte(b: Byte)
      requires Valid() && u.base < sp
      modifies this
      ensures Valid() && sp == old(sp) - 1 && spKernelVa == AliasOf(sp) && u == Write(old(u), sp, [b])
    {
      SpDown(1);
      RunByte(pages, sp);
      StoreThrough(mem, pages, u, sp, spKernelVa, [b]);
      assert Put(mem, spKernelVa, [b]) == mem[spKernelVa := b];
      mem := mem[spKernelVa := b];
      u := Write(u, sp, [b]);
    }

    ghost function AliasOf(va: nat): nat
      reads this
    {
      if va / PAGE_SIZE in pages then Alias(pages, va) else 0
    }

    method PushUsize(w: nat)
      requires Valid() && u.base + PTR_SIZE <= sp && sp % PTR_SIZE == 0
      modifies this
      ensures Valid() && sp == old(sp) - PTR_SIZE && sp % PTR_SIZE == 0 && spKernelVa == AliasOf(sp)
      ensures u == Write(old(u), sp, WordBytes(w, PTR_SIZE))
    {
      WordRoom(sp);
      SpDown(PTR_SIZE);
      RunWord(pages, sp);
      StoreThrough(mem, pages, u, sp, spKernelVa, WordBytes(w, PTR_SIZE));
      mem := Put(mem, spKernelVa, WordBytes(w, PTR_SIZE));
      u := Write(u, sp, WordBytes(w, PTR_SIZE));
    }

    /** A NUL-terminated string, pushed from its end. */
    method PushStr(s: Bytes) returns (p: nat)
      requires Valid() && u.base + |s| + 1 <= sp
      modifies this
      ensures Valid() && p == sp == old(sp) - |s| - 1 && StringAt(u, p, s) && KeptFrom(old(u), u, old(sp))
    {
      ghost var t := s + [0];
      WriteFacts(u, sp - 1, [0]);
      PushByte(0);
      for k := |s| downto 0
        invariant Valid() && sp == old(sp) - 1 - (|s| - k)
        invariant BytesAt(u, sp, t[k..]) && KeptFrom(old(u), u, old(sp))
      {
        ghost var above, all := t[k + 1..], t[k..];
        assert [s[k]] + above == all;
        PushOnto(s[k], above, old(u), old(sp));
      }
      p := sp;
    }

    /** Push one byte below the bytes `above`. */
    method PushOnto(b: Byte, ghost above: Bytes, ghost u0: Memory, ghost hi: nat)
      requires Valid() && u.base < sp <= hi && KeptFrom(u0, u, hi) && BytesAt(u, sp, above)
      modifies this
      ensures Valid() && sp == old(sp) - 1 && KeptFrom(u0, u, hi) && BytesAt(u, sp, [b] + above)
    {
      ghost var was := u;
      WriteFacts(u, sp - 1, [b]);
      PushByte(b);
      Pushed(was, u, sp, [b], above);
      KeptTrans(u0, was, u, hi, sp + 1);
    }

    /** Push one word below the words `ws`. */
    method PushBelow(w: nat, ghost ws: seq<nat>, ghost u0: Memory, ghost hi: nat)
      requires Valid() && u.base + PTR_SIZE <= sp <= hi && sp % PTR_SIZE == 0 && KeptFrom(u0, u, hi) &&
               WordsAt(u, sp, ws)
      modifies this
      ensures Valid() && sp == old(sp) - PTR_SIZE && sp % PTR_SIZE == 0 && KeptFrom(u0, u, hi) &&
              WordsAt(u, sp, [w] + ws)
    {
      ghost var was := u;
      WriteFacts(u, sp - PTR_SIZE, WordBytes(w, PTR_SIZE));
      PushUsize(w);
      KeptTrans(u0, was, u, hi, sp + PTR_SIZE);
      Pushed(was, u, sp, WordBytes(w, PTR_SIZE), AllBytes(ws));
      assert ([w] + ws)[1..] == ws;
    }

    /** Words, pushed from the last. */
    method PushPtrs(ptrs: seq<nat>, ghost ws: seq<nat>, ghost u0: Memory, ghost hi: nat)
      requires Valid() && sp <= hi && sp % PTR_SIZE == 0 && u.base + PTR_SIZE * |ptrs| <= sp && KeptFrom(u0, u, hi) &&
               WordsAt(u, sp, ws)
      modifies this
      ensures Valid() && sp == old(sp) - PTR_SIZE * |ptrs| && sp % PTR_SIZE == 0 && KeptFrom(u0, u, hi) &&
              WordsAt(u, sp, ptrs + ws)
    {
      assert ptrs[|ptrs|..] + ws == ws;
      for k := |ptrs| downto 0
        invariant Valid() && sp % PTR_SIZE == 0 && sp == old(sp) - PTR_SIZE * (|ptrs| - k) && KeptFrom(u0, u, hi)
        invariant WordsAt(u, sp, ptrs[k..] + ws)
      {
        ghost var above, all := ptrs[k + 1..] + ws, ptrs[k..] + ws;
        assert [ptrs[k]] + above == all;
        PushBelow(ptrs[k], above, u0, hi);
      }
    }

    /** All strings, first one highest; their addresses. */
    method PushArgs(args: seq<Bytes>) returns (ptrs: seq<nat>)
      requires Valid() && u.base + Total(args) <= sp
      modifies this
      ensures Valid() && sp == old(sp) - Total(args) && StringsAt(u, sp, old(sp), ptrs, args) &&
              KeptFrom(old(u), u, old(sp))
    {
      ptrs := [];
      TotalPrefix(args, 0);
      for i := 0 to |args|
        invariant Valid() && sp == old(sp) - Total(args[..i]) && KeptFrom(old(u), u, old(sp)) &&
                  StringsAt(u, sp, old(sp), ptrs, args[..i])
      {
        TotalPrefix(args, i);
        ghost var was, top := u, sp;
        var p := PushStr(args[i]);
        KeptTrans(old(u), was, u, old(sp), top);
        MoreStrings(was, u, top, p, old(sp), ptrs, args, i);
        ptrs := ptrs + [p];
      }
      assert args[..|args|] == args;
    }

    /** Clear the low three bits of both addresses. */
    method AlignDown()
      requires Valid() && u.base % PTR_SIZE == 0
      modifies this`sp, this`spKernelVa
      ensures Valid() && sp == old(sp) - old(sp) % PTR_SIZE && sp % PTR_SIZE == 0
    {
      AlignAlias(pages, u, mem, sp, spKernelVa);
      sp := sp - sp % PTR_SIZE;
      spKernelVa := spKernelVa - spKernelVa % PTR_SIZE;
    }

    /** Push two words, the second one above the first. */
    method PushPair(pair: (nat, nat), ghost ws: seq<nat>, ghost u0: Memory, ghost hi: nat)
      requires Valid() && u.base + 2 * PTR_SIZE <= sp <= hi && sp % PTR_SIZE == 0 && KeptFrom(u0, u, hi) &&
               WordsAt(u, sp, ws)
      modifies this
      ensures Valid() && sp == old(sp) - 2 * PTR_SIZE && sp % PTR_SIZE == 0 && KeptFrom(u0, u, hi)
      ensures WordsAt(u, sp, [pair.0, pair.1] + ws)
    {
      ghost var value := [pair.1] + ws;
      assert [pair.0] + value == [pair.0, pair.1] + ws;
      PushBelow(pair.1, ws, u0, hi);
      PushBelow(pair.0, value, u0, hi);
    }

    /** The end of the auxiliary vector and the pair for the random bytes. */
    method PushVectorEnd(randomPos: nat, ghost u0: Memory, ghost hi: nat)
      requires Valid() && u.base + 4 * PTR_SIZE <= sp <= hi && sp % PTR_SIZE == 0 && KeptFrom(u0, u, hi)
      modifies this
      ensures Valid() && sp == old(sp) - 4 * PTR_SIZE && sp % PTR_SIZE == 0 && KeptFrom(u0, u, hi)
      ensures WordsAt(u, sp, [randomPos, AT_RANDOM, 0, 0])
    {
      PushBelow(0, [], u0, hi);
      PushBelow(0, [0], u0, hi);
      PushBelow(AT_RANDOM, [0, 0], u0, hi);
      PushBelow(randomPos, [AT_RANDOM, 0, 0], u0, hi);
    }

    /** The auxiliary vector, values above their types but for the first pair, and the end of the environment. */
    method PushAuxv(auxv: seq<(nat, nat)>, randomPos: nat, ghost u0: Memory, ghost hi: nat)
      requires Valid() && sp <= hi && sp % PTR_SIZE == 0 && KeptFrom(u0, u, hi) &&
               u.base + PTR_SIZE * (5 + 2 * |auxv|) <= sp
      modifies this
      ensures Valid() && sp == old(sp) - PTR_SIZE * (5 + 2 * |auxv|) && sp % PTR_SIZE == 0 && KeptFrom(u0, u, hi)
      ensures WordsAt(u, sp, [0] + AuxWords(auxv, |auxv|, randomPos))
    {
      PushVectorEnd(randomPos, u0, hi);
      for i := 0 to |auxv|
        invariant Valid() && sp % PTR_SIZE == 0 && KeptFrom(u0, u, hi) && sp == old(sp) - PTR_SIZE * (4 + 2 * i)
        invariant WordsAt(u, sp, AuxWords(auxv, i, randomPos))
      {
        PushPair(auxv[i], AuxWords(auxv, i, randomPos), u0, hi);
      }
      PushBelow(0, AuxWords(auxv, |auxv|, randomPos), u0, hi);
    }

    /** The word of padding, the random bytes and the end marker above the strings. */
    method PushHeader(now: (nat, nat)) returns (randomPos: nat)
      requires Valid() && sp % PTR_SIZE == 0 && u.base + 4 * PTR_SIZE <= sp
      modifies this
      ensures Valid() && sp == old(sp) - 4 * PTR_SIZE && SameRegion(old(u), u)
      ensures randomPos == sp + PTR_SIZE && WordsAt(u, randomPos, [now.1, now.0, 0])
    {
      ghost var u0, hi := u, sp;
      PushBelow(0, [], u0, hi);
      PushBelow(now.0, [0], u0, hi);
      PushBelow(now.1, [now.0, 0], u0, hi);
      randomPos := sp;
      ghost var ws := [now.1, now.0, 0];
      PushBelow(0, ws, u0, hi);
      WordsTail(u, sp, 0, ws);
    }

    /** The pointer vectors and argc, below the strings. */
    method PushTables(argv: seq<nat>, auxv: seq<(nat, nat)>, randomPos: nat, ghost args: seq<Bytes>)
                      returns (argvBase: nat)
      requires Valid() && sp % PTR_SIZE == 0 && u.base + PTR_SIZE * (7 + 2 * |auxv| + |argv|) <= sp &&
               StringsAt(u, sp, WORD_SPAN, argv, args)
      modifies this
      ensures Valid() && sp % PTR_SIZE == 0 && argvBase == sp + PTR_SIZE &&
              WordsAt(u, sp, Layout(argv, auxv, randomPos))
      ensures ArgvAt(u, argvBase, argv, args) && KeptFrom(old(u), u, old(sp))
    {
      ghost var strings, low, aux := u, sp, [0] + AuxWords(auxv, |auxv|, randomPos);
      PushAuxv(auxv, randomPos, strings, low);
      PushBelow(0, aux, strings, low);
      PushPtrs(argv, [0] + aux, strings, low);
      argvBase := sp;
      ghost var words := argv + ([0] + aux);
      PushBelow(|argv|, words, strings, low);
      WordsTail(u, sp, |argv|, words);
      LaidOut(strings, u, low, argvBase, argv, [0] + aux, args);
    }

    /** `init_stack` with no environment; `now` stands for the clock readings used as random bytes. */
    method InitStack(args: seq<Bytes>, auxv: seq<(nat, nat)>, now: (nat, nat))
                     returns (argvBase: nat, ghost ptrs: seq<nat>, ghost randomPos: nat)
      requires Valid() && sp % PTR_SIZE == 0 && u.base % PTR_SIZE == 0 && u.base + Room(args, auxv) <= sp < WORD_SPAN
      modifies this
      ensures Valid() && sp % PTR_SIZE == 0 && argvBase == sp + PTR_SIZE && SameRegion(old(u), u)
      ensures WordsAt(u, sp, Layout(ptrs, auxv, randomPos)) && ArgvAt(u, argvBase, ptrs, args) &&
              WordsAt(u, randomPos, [now.1, now.0, 0])
    {
      var random := PushHeader(now);
      ghost var header, top := u, sp;
      var argv := PushArgs(args);
      AlignDown();
      ghost var strings, low := u, sp;
      argvBase := PushTables(argv, auxv, random, args);
      ptrs, randomPos := argv, random;
      KeptTrans(header, strings, u, top, low);
      KeptBytes(header, u, top, random, AllBytes([now.1, now.0, 0]));
    }
  }

  /** The auxiliary vector in memory: the first `n` pairs, last one lowest, below the pair for the random bytes. */
  function AuxWords(auxv: seq<(nat, nat)>, n: nat, randomPos: nat): seq<nat>
    requires n <= |auxv|
  {
    if n == 0 then [randomPos, AT_RANDOM, 0, 0] else [auxv[n - 1].0, auxv[n - 1].1] + AuxWords(auxv, n - 1, randomPos)
  }

  /** The words from the stack pointer up: argc, argv and its end, the end of an empty environment, the auxiliary
      vector. */
  function Layout(argv: seq<nat>, auxv: seq<(nat, nat)>, randomPos: nat): seq<nat> {
    [|argv|] + (argv + ([0] + ([0] + AuxWords(auxv, |auxv|, randomPos))))
  }

  /** Where every word is. */
  lemma LayoutAt(argv: seq<nat>, auxv: seq<(nat, nat)>, randomPos: nat, i: nat)
    ensures var ws, n, m := Layout(argv, auxv, randomPos), |argv|, |auxv|;
            && |ws| == n + 2 * m + 7 && ws[0] == n && (i < n ==> ws[1 + i] == argv[i])
            && ws[n + 1] == 0 && ws[n + 2] == 0
            && (i < m ==> ws[n + 3 + 2 * i] == auxv[m - 1 - i].0 && ws[n + 4 + 2 * i] == auxv[m - 1 - i].1)
            && ws[n + 2 * m + 3..] == [randomPos, 25, 0, 0]
  {
    var aux, n := AuxWords(auxv, |auxv|, randomPos), |argv|;
    AuxAt(auxv, |auxv|, randomPos, i);
    var ws := Layout(argv, auxv, randomPos);
    assert ws[n + 3..] == aux;
    assert ws[n + 2 * |auxv| + 3..] == aux[2 * |auxv|..];
    if i < |auxv| { assert ws[n + 3 + 2 * i] == aux[2 * i] && ws[n + 4 + 2 * i] == aux[2 * i + 1]; }
  }

  lemma {:induction false} AuxAt(auxv: seq<(nat, nat)>, n: nat, randomPos: nat, i: nat)
    requires n <= |auxv|
    ensures var ws := AuxWords(auxv, n, randomPos);
            && |ws| == 2 * n + 4 && ws[2 * n..] == [randomPos, 25, 0, 0]
            && (i < n ==> ws[2 * i] == auxv[n - 1 - i].0 && ws[2 * i + 1] == auxv[n - 1 - i].1)
  {
    if n > 0 {
      AuxAt(auxv, n - 1, randomPos, if i > 0 then i - 1 else 0);
      var ws, rest := AuxWords(auxv, n, randomPos), AuxWords(auxv, n - 1, randomPos);
      assert ws[2..] == rest && ws[2 * n..] == rest[2 * (n - 1)..];
      if 0 < i < n { assert ws[2 * i] == rest[2 * (i - 1)] && ws[2 * i + 1] == rest[2 * (i - 1) + 1]; }
    }
  }

  /** How user code reads an auxiliary vector: pairs of type and value up to a zero type. */
  function ReadAux(ws: seq<nat>): seq<(nat, nat)> {
    if |ws| < 2 || ws[0] == 0 then [] else [(ws[0], ws[1])] + ReadAux(ws[2..])
  }

  function Backwards(auxv: seq<(nat, nat)>, n: nat): seq<(nat, nat)>
    requires n <= |auxv|
  {
    if n == 0 then [] else [auxv[n - 1]] + Backwards(auxv, n - 1)
  }

  /** User code finds every pair of `auxv`, last one first, but the pair for the random bytes the wrong way round. */
  lemma {:induction false} AuxvRead(auxv: seq<(nat, nat)>, n: nat, randomPos: nat)
    requires n <= |auxv| && randomPos != 0 && forall i | 0 <= i < n :: auxv[i].0 != 0
    ensures ReadAux(AuxWords(auxv, n, randomPos)) == Backwards(auxv, n) + [(randomPos, AT_RANDOM)]
  {
    var ws := AuxWords(auxv, n, randomPos);
    if n == 0 {
      assert ws[2..] == [0, 0];
      assert ReadAux(ws) == [(randomPos, AT_RANDOM)] + ReadAux([0, 0]);
    } else {
      assert ws[2..] == AuxWords(auxv, n - 1, randomPos);
      AuxvRead(auxv, n - 1, randomPos);
      assert ReadAux(ws) == [auxv[n - 1]] + ReadAux(ws[2..]);
    }
  }

  lemma {:induction false} BackwardsHas(auxv: seq<(nat, nat)>, n: nat, x: (nat, nat))
    requires n <= |auxv|
    ensures x in Backwards(auxv, n) <==> x in auxv[..n]
  {
    if n > 0 {
      BackwardsHas(auxv, n - 1, x);
      assert auxv[..n] == auxv[..n - 1] + [auxv[n - 1]];
    }
  }

  /** So the address of the random bytes, a multiple of 8, is found under its type exactly when `auxv` itself names
      it. */
  lemma RandomFoundIff(auxv: seq<(nat, nat)>, randomPos: nat)
    requires randomPos != 0 && randomPos != AT_RANDOM && forall i | 0 <= i < |auxv| :: auxv[i].0 != 0
    ensures (AT_RANDOM, randomPos) in ReadAux(AuxWords(auxv, |auxv|, randomPos)) <==> (AT_RANDOM, randomPos) in auxv
  {
    var x, back := (AT_RANDOM, randomPos), Backwards(auxv, |auxv|);
    AuxvRead(auxv, |auxv|, randomPos);
    assert x in back + [(randomPos, AT_RANDOM)] <==> x in back;
    BackwardsHas(auxv, |auxv|, x);
    assert auxv[..|auxv|] == auxv;
  }

  /** Bytes taken by the strings and their terminators. */
  function Total(args: seq<Bytes>): nat { if args == [] then 0 else Total(args[..|args| - 1]) + |args[|args| - 1]| + 1 }

  /** Bytes `InitStack` may need. */
  function Room(args: seq<Bytes>, auxv: seq<(nat, nat)>): nat {
    Total(args) + PTR_SIZE * (4 + 1 + 5 + 2 * |auxv| + 1 + |args| + 1)
  }

  lemma {:induction false} TotalPrefix(args: seq<Bytes>, i: nat)
    requires i <= |args|
    ensures i < |args| ==> Total(args[..i + 1]) == Total(args[..i]) + |args[i]| + 1 <= Total(args)
    ensures Total(args[..0]) == 0 && Total(args[..i]) <= Total(args)
    decreases |args| - i
  {
    if i < |args| {
      assert args[..i + 1][..i] == args[..i];
      TotalPrefix(args, i + 1);
    } else {
      assert args[..i] == args;
    }
  }

  /** The strings lie between `lo` and `hi`. */
  ghost predicate StringsAt(u: Memory, lo: nat, hi: nat, ptrs: seq<nat>, args: seq<Bytes>) {
    Inside(u, lo, 0) && |ptrs| == |args| && forall j | 0 <= j < |args| ::
    lo <= ptrs[j] < hi && StringAt(u, ptrs[j], args[j])
  }

  lemma MoreStrings(u: Memory, u': Memory, sp: nat, p: nat, hi: nat, ptrs: seq<nat>, args: seq<Bytes>, i: nat)
    requires i < |args| && StringsAt(u, sp, hi, ptrs, args[..i]) && KeptFrom(u, u', sp) && p < sp <= hi &&
             StringAt(u', p, args[i])
    ensures StringsAt(u', p, hi, ptrs + [p], args[..i + 1])
  {
    var all, more := args[..i + 1], ptrs + [p];
    forall j | 0 <= j < |all| ensures p <= more[j] < hi && StringAt(u', more[j], all[j]) {
      if j < i {
        assert args[..i][j] == all[j];
        KeptBytes(u, u', sp, ptrs[j], all[j] + [0]);
      }
    }
  }

  lemma AlignAlias(pages: Pages, u: Memory, m: map<nat, Byte>, sp: nat, kva: nat)
    requires FramesApart(pages) && Backs(m, pages, u) && Inside(u, sp, 0) && u.base % PTR_SIZE == 0
    requires sp % PAGE_SIZE != 0 ==> sp / PAGE_SIZE in pages && kva == Alias(pages, sp)
    ensures var sp' := sp - sp % PTR_SIZE;
            && Inside(u, sp', 0) && sp' % PTR_SIZE == 0
            && (sp' % PAGE_SIZE != 0 ==> sp' / PAGE_SIZE in pages && kva - kva % PTR_SIZE == Alias(pages, sp'))
  {
    if sp % PAGE_SIZE != 0 {
      AlignOffset(pages[sp / PAGE_SIZE], sp);
      AliasDown(pages, sp, sp % PTR_SIZE);
    } else {
      PageWord(sp);
    }
    AlignBase(u.base, sp);
  }

  lemma AlignOffset(f: nat, sp: nat)
    requires f % PAGE_SIZE == 0
    ensures (f + sp % PAGE_SIZE) % PTR_SIZE == sp % PTR_SIZE <= sp % PAGE_SIZE
  {
    var q, p, o := f / PAGE_SIZE, sp / PAGE_SIZE, sp % PAGE_SIZE;
    DivUnique(sp, PTR_SIZE, 512 * p + o / PTR_SIZE, o % PTR_SIZE);
    DivUnique(f + o, PTR_SIZE, 512 * q + o / PTR_SIZE, o % PTR_SIZE);
  }

  lemma AlignBase(base: nat, sp: nat)
    requires base % PTR_SIZE == 0 && base <= sp
    ensures base <= sp - sp % PTR_SIZE && (sp - sp % PTR_SIZE) % PTR_SIZE == 0
  {
  }

  /** Strings above, pointers to them below: the layout `_start` expects. */
  lemma LaidOut(strings: Memory, u: Memory, low: nat, base: nat, ptrs: seq<nat>, rest: seq<nat>, args: seq<Bytes>)
    requires StringsAt(strings, low, WORD_SPAN, ptrs, args) && KeptFrom(strings, u, low) &&
             WordsAt(u, base, ptrs + rest)
    ensures ArgvAt(u, base, ptrs, args)
  {
    forall i: nat | i < |args| ensures ArgAt(u, base, ptrs, args, i) {
      WordsIndex(u, base, ptrs + rest, i);
      KeptBytes(strings, u, low, ptrs[i], args[i] + [0]);
    }
  }

  // ---------------------------------------------------------------- the round trip

  /** Memory as user code sees it through its page table. */
  function UserView(m: map<nat, Byte>, pages: Pages, base: nat, n: nat): Memory
    requires forall va: nat | base <= va < base + n :: va / PAGE_SIZE in pages && Alias(pages, va) in m
  {
    Memory(base, seq(n, i requires 0 <= i < n => m[Alias(pages, base + i)]))
  }

  lemma UserSees(m: map<nat, Byte>, pages: Pages, u: Memory)
    requires Backs(m, pages, u)
    ensures forall va: nat | u.base <= va < u.base + |u.bytes| :: va / PAGE_SIZE in pages && Alias(pages, va) in m
    ensures UserView(m, pages, u.base, |u.bytes|) == u
  {
    forall va: nat | u.base <= va < u.base + |u.bytes| ensures va / PAGE_SIZE in pages && Alias(pages, va) in m {
      assert BackedAt(m, pages, u, va);
    }
    var v := UserView(m, pages, u.base, |u.bytes|);
    forall i | 0 <= i < |u.bytes| ensures v.bytes[i] == u.bytes[i] { assert BackedAt(m, pages, u, u.base + i); }
  }

  /** The kernel lays out the arguments on a fresh stack, user code reads them: it gets them back exactly when none of
      them holds a NUL. */
  method Launch(pages: Pages, mem: map<nat, Byte>, base: nat, size: nat, args: seq<Bytes>, auxv: seq<(nat, nat)>,
                now: (nat, nat), ghost u: Memory)
    returns (v: seq<Bytes>)
    requires FramesApart(pages) && Backs(mem, pages, u) && u.base == base && |u.bytes| == size
    requires base % PTR_SIZE == 0 && (base + size) % PAGE_SIZE == 0 && Room(args, auxv) <= size &&
             base + size < WORD_SPAN
    ensures |v| == |args| && forall i | 0 <= i < |args| :: v[i] == UpToNul(args[i])
    ensures v == args <==> forall i | 0 <= i < |args| :: 0 !in args[i]
  {
    var stack := new StackInit(pages, base + size, mem, u);
    PageWord(base + size);
    var argv, ptrs, _ := stack.InitStack(args, auxv, now);
    UserSees(stack.mem, pages, stack.u);
    v := Start(UserView(stack.mem, pages, base, size), |args|, argv, ptrs, args);
    forall i | 0 <= i < |args| ensures UpToNul(args[i]) == args[i] <==> 0 !in args[i] { UpToNulIff(args[i]); }
  }

  lemma PageWord(a: nat)
    requires a % PAGE_SIZE == 0
    ensures a % PTR_SIZE == 0
  {
  }

  /** The bytes of words one after the other. */
  function AllBytes(ws: seq<nat>): (r: Bytes)
    ensures |r| == PTR_SIZE * |ws|
  {
    if ws == [] then [] else WordBytes(ws[0], PTR_SIZE) + AllBytes(ws[1..])
  }

  ghost predicate WordsAt(u: Memory, at: nat, ws: seq<nat>) { BytesAt(u, at, AllBytes(ws)) }

  lemma {:induction false} WordsIndex(u: Memory, at: nat, ws: seq<nat>, i: nat)
    requires WordsAt(u, at, ws) && i < |ws|
    ensures WordAt(u, at + PTR_SIZE * i, ws[i])
    decreases i
  {
    SplitBytes(u, at, WordBytes(ws[0], PTR_SIZE), AllBytes(ws[1..]));
    if i > 0 { WordsIndex(u, at + PTR_SIZE, ws[1..], i - 1); }
  }

  lemma WordsTail(u: Memory, at: nat, w: nat, ws: seq<nat>)
    requires WordsAt(u, at, [w] + ws)
    ensures WordsAt(u, at + PTR_SIZE, ws) && WordAt(u, at, w)
  {
    assert ([w] + ws)[1..] == ws;
    SplitBytes(u, at, WordBytes(w, PTR_SIZE), AllBytes(ws));
  }

  /** A write just below known bytes extends them. */
  lemma Pushed(u: Memory, u': Memory, at: nat, b: Bytes, rest: Bytes)
    requires BytesAt(u, at + |b|, rest) && Inside(u, at, |b|) && u' == Write(u, at, b)
    ensures BytesAt(u', at, b + rest)
  {
    WriteFacts(u, at, b);
    KeptBytes(u, u', at + |b|, at + |b|, rest);
    JoinBytes(u', at, b, rest);
  }

  lemma SplitBytes(u: Memory, at: nat, a: Bytes, b: Bytes)
    requires BytesAt(u, at, a + b)
    ensures BytesAt(u, at, a) && BytesAt(u, at + |a|, b)
  {
    var i, n := at - u.base, |a + b|;
    assert u.bytes[i..i + n][..|a|] == u.bytes[i..i + |a|] && (a + b)[..|a|] == a;
    assert u.bytes[i..i + n][|a|..] == u.bytes[i + |a|..i + n] && (a + b)[|a|..] == b;
  }

  lemma JoinBytes(u: Memory, at: nat, a: Bytes, b: Bytes)
    requires BytesAt(u, at, a) && BytesAt(u, at + |a|, b)
    ensures BytesAt(u, at, a + b)
  {
    var i := at - u.base;
    assert u.bytes[i..i + |a + b|] == u.bytes[i..i + |a|] + u.bytes[i + |a|..i + |a + b|];
  }

  lemma WordRoom(sp: nat)
    requires sp % PTR_SIZE == 0 && sp >= PTR_SIZE
    ensures (sp % PAGE_SIZE == 0 || PTR_SIZE <= sp % PAGE_SIZE) && (sp - PTR_SIZE) % PTR_SIZE == 0
  {
    assert sp % PAGE_SIZE % PTR_SIZE == 0;
  }
}
