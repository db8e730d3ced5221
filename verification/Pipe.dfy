/** Pipes: a ring buffer of 32 bytes, and readers and writers that yield to each other around it. */
module Pipes {
  import opened Bits
  import opened Disks

  const RING_BUFFER_SIZE: nat := 32

  datatype Status = Full | Empty | Normal

  /** The position `i` places after `head` in the ring. */
  function Around(head: nat, i: nat): nat {
    if head + i < RING_BUFFER_SIZE then head + i else head + i - RING_BUFFER_SIZE
  }

  /** The `n` bytes from `head` on, around the end of the array. */
  function Held(a: Bytes, head: nat, n: nat): (s: Bytes)
    requires |a| == RING_BUFFER_SIZE && head < RING_BUFFER_SIZE && n <= RING_BUFFER_SIZE
    ensures |s| == n && forall i | 0 <= i < n :: s[i] == a[Around(head, i)]
  {
    seq(n, i requires 0 <= i < n => a[Around(head, i)])
  }

  lemma HeldPop(a: Bytes, head: nat, n: nat)
    requires |a| == RING_BUFFER_SIZE && head < RING_BUFFER_SIZE && 0 < n <= RING_BUFFER_SIZE
    ensures [a[head]] + Held(a, Around(head, 1), n - 1) == Held(a, head, n)
  {
  }

  lemma HeldPush(a: Bytes, head: nat, n: nat, b: Byte)
    requires |a| == RING_BUFFER_SIZE && head < RING_BUFFER_SIZE && n < RING_BUFFER_SIZE
    ensures Held(a[Around(head, n) := b], head, n + 1) == Held(a, head, n) + [b]
  {
  }

  class PipeRingBuffer {
    const arr: array<Byte>
    var head: nat
    var tail: nat
    var status: Status

    ghost predicate Valid()
      reads this, arr
    {
      && arr.Length == RING_BUFFER_SIZE && head < RING_BUFFER_SIZE && tail < RING_BUFFER_SIZE
      && (head == tail <==> status != Normal)
    }

    function AvailableRead(): nat
      reads this
      requires head < RING_BUFFER_SIZE
    {
      if status == Empty then 0 else if tail > head then tail - head else tail + RING_BUFFER_SIZE - head
    }

    /** The bytes in the ring, oldest first. */
    ghost function Contents(): (s: Bytes)
      reads this, arr
      requires Valid()
      ensures |s| == AvailableRead() <= RING_BUFFER_SIZE
    {
      Held(arr[..], head, AvailableRead())
    }

    constructor ()
      ensures Valid() && Contents() == [] && fresh(arr)
    {
      arr := new Byte[RING_BUFFER_SIZE](_ => 0);
      head, tail, status := 0, 0, Empty;
    }

    /** Take the oldest byte; the ring must not be empty. */
    method ReadByte() returns (c: Byte)
      requires Valid() && Contents() != []
      modifies this`head, this`status
      ensures Valid() && [c] + Contents() == old(Contents())
    {
      HeldPop(arr[..], head, AvailableRead());
      status := Normal;
      c := arr[head];
      head := (head + 1) % RING_BUFFER_SIZE;
      if head == tail {
        status := Empty;
      }
    }

    /** Append a byte; the ring must not be full. */
    method WriteByte(b: Byte)
      requires Valid() && |Contents()| < RING_BUFFER_SIZE
      modifies this`tail, this`status, arr
      ensures Valid() && Contents() == old(Contents()) + [b]
    {
      HeldPush(arr[..], head, AvailableRead(), b);
      status := Normal;
      arr[tail] := b;
      tail := (tail + 1) % RING_BUFFER_SIZE;
      if head == tail {
        status := Full;
      }
      assert arr[..] == old(arr[..])[old(tail) := b];
    }
  }

  // ---------------------------------------------------------------- rounds of the two loops

  /** One round of a read: ring, bytes got and whether the call returns. It returns when the buffer is full and a byte
      is still there, or when the ring is empty and no writer is left. */
  function ReadRound(ring: Bytes, closed: bool, want: nat, got: Bytes): (r: (Bytes, Bytes, bool))
    requires |got| <= want
  {
    if ring == [] then (ring, got, closed)
    else var k := Min(|ring|, want - |got|); (ring[k..], got + ring[..k], k < |ring|)
  }

  /** One round of a write. It returns when everything is written and the ring still has room. */
  function WriteRound(ring: Bytes, data: Bytes, sent: nat): (r: (Bytes, nat, bool))
    requires |ring| <= RING_BUFFER_SIZE && sent <= |data|
  {
    var space := RING_BUFFER_SIZE - |ring|;
    var k := Min(space, |data| - sent);
    (ring + data[sent..sent + k], sent + k, k < space)
  }

  lemma Popped(all: Bytes, i: nat, c: Byte, rest: Bytes, got: Bytes, got': Bytes)
    requires i < |all| && [c] + rest == all[i..] && got' == got + all[..i]
    ensures rest == all[i + 1..] && got' + [c] == got + all[..i + 1]
  {
    assert all[i..][0] == all[i] && all[i..][1..] == all[i + 1..] && ([c] + rest)[1..] == rest;
  }

  method ReadOnce(ring: PipeRingBuffer, closed: bool, want: nat, got: Bytes) returns (got': Bytes, done: bool)
    requires ring.Valid() && |got| <= want
    modifies ring`head, ring`status
    ensures ring.Valid() && (ring.Contents(), got', done) == ReadRound(old(ring.Contents()), closed, want, got)
    ensures var all := old(ring.Contents());
            var k := if |all| < want - |got| then |all| else want - |got|;
            && ring.Contents() == all[k..] && got' == got + all[..k]
            && (done <==> if all == [] then closed else want - |got| < |all|)
  {
    got' := got;
    var available := ring.AvailableRead();
    if available == 0 {
      return got, closed;
    }
    ghost var before := ring.Contents();
    for i := 0 to available
      invariant ring.Valid() && |got| + i <= want && i <= |before|
      invariant ring.Contents() == before[i..] && got' == got + before[..i]
    {
      if |got'| == want {
        return got', true;
      }
      var c := ring.ReadByte();
      Popped(before, i, c, ring.Contents(), got, got');
      got' := got' + [c];
    }
    done := false;
  }

  method WriteOnce(ring: PipeRingBuffer, data: Bytes, sent: nat) returns (sent': nat, done: bool)
    requires ring.Valid() && sent <= |data|
    modifies ring`tail, ring`status, ring.arr
    ensures ring.Valid() && (ring.Contents(), sent', done) == WriteRound(old(ring.Contents()), data, sent)
    ensures var space := 32 - |old(ring.Contents())|;
            var k := if space < |data| - sent then space else |data| - sent;
            && sent' == sent + k && ring.Contents() == old(ring.Contents()) + data[sent..sent']
            && (done <==> |data| - sent < space)
  {
    sent' := sent;
    var space := RING_BUFFER_SIZE - ring.AvailableRead();
    ghost var before := ring.Contents();
    for i := 0 to space
      invariant ring.Valid() && sent' == sent + i <= |data|
      invariant ring.Contents() == before + data[sent..sent']
    {
      if sent' == |data| {
        return sent', true;
      }
      ring.WriteByte(data[sent']);
      assert data[sent..sent' + 1] == data[sent..sent'] + [data[sent']];
      sent' := sent' + 1;
    }
    done := false;
  }

  // ---------------------------------------------------------------- readers and writers

  /** Bytes in the order they went through one end of the ring, each with the caller it came from or went to. */
  type History = seq<(nat, Byte)>

  function Tagged(id: nat, b: Bytes): (h: History)
    ensures |h| == |b|
  {
    seq(|b|, i requires 0 <= i < |b| => (id, b[i]))
  }

  function Untagged(h: History): (b: Bytes)
    ensures |b| == |h|
  {
    seq(|h|, i requires 0 <= i < |h| => h[i].1)
  }

  /** The bytes of one caller. */
  function Of(h: History, id: nat): Bytes {
    if h == [] then [] else Of(h[..|h| - 1], id) + (if h[|h| - 1].0 == id then [h[|h| - 1].1] else [])
  }

  lemma UntaggedMore(h: History, id: nat, b: Bytes)
    ensures Untagged(h + Tagged(id, b)) == Untagged(h) + b
  {
  }

  lemma {:induction false} OfMore(h: History, id: nat, b: Bytes, other: nat)
    ensures Of(h + Tagged(id, b), other) == if other == id then Of(h, other) + b else Of(h, other)
    decreases |b|
  {
    if b == [] {
      assert h + Tagged(id, b) == h;
    } else {
      var n := |b| - 1;
      OfMore(h, id, b[..n], other);
      var all := h + Tagged(id, b);
      assert all[..|all| - 1] == h + Tagged(id, b[..n]);
      assert b[..n] + [b[n]] == b;
    }
  }

  datatype Reader = Reader(want: nat, got: Bytes, done: bool)
  datatype Writer = Writer(data: Bytes, sent: nat, done: bool)

  /** The pipe and every call made on it; `open` counts the write ends that exist. */
  datatype Sys = Sys(ring: Bytes, open: nat, readers: map<nat, Reader>, writers: map<nat, Writer>, accepted: History,
                     delivered: History)

  datatype Op =
    | BeginRead(id: nat, want: nat)
    | BeginWrite(id: nat, data: Bytes)
    | TurnRead(id: nat)
    | TurnWrite(id: nat)
    | DupEnd
    | CloseEnd

  function Start(): Sys { Sys([], 1, map[], map[], [], []) }

  /** A writer holds a write end until its call returns. */
  predicate Writing(s: Sys) { exists w :: w in s.writers && !s.writers[w].done }

  predicate Enabled(s: Sys, op: Op) {
    match op
    case BeginRead(id, _) => id !in s.readers
    case BeginWrite(id, _) => id !in s.writers && s.open > 0
    case TurnRead(id) => id in s.readers && !s.readers[id].done && |s.readers[id].got| <= s.readers[id].want
    case TurnWrite(id) =>
      && id in s.writers && !s.writers[id].done && s.writers[id].sent <= |s.writers[id].data|
      && |s.ring| <= RING_BUFFER_SIZE
    case DupEnd => s.open > 0
    case CloseEnd => s.open > 1 || (s.open == 1 && !Writing(s))
  }

  /** A call's turn runs from one yield to the next; here every round of its loop may be followed by a yield. */
  function Step(s: Sys, op: Op): Sys
    requires Enabled(s, op)
  {
    match op
    case BeginRead(id, want) => s.(readers := s.readers[id := Reader(want, [], false)])
    case BeginWrite(id, data) => s.(writers := s.writers[id := Writer(data, 0, false)])
    case TurnRead(id) =>
      var r := s.readers[id];
      var (ring, got, done) := ReadRound(s.ring, s.open == 0, r.want, r.got);
      s.(ring := ring, readers := s.readers[id := Reader(r.want, got, done)],
          delivered := s.delivered + Tagged(id, got[|r.got|..]))
    case TurnWrite(id) =>
      var w := s.writers[id];
      var (ring, sent, done) := WriteRound(s.ring, w.data, w.sent);
      s.(ring := ring, writers := s.writers[id := Writer(w.data, sent, done)],
          accepted := s.accepted + Tagged(id, w.data[w.sent..sent]))
    case DupEnd => s.(open := s.open + 1)
    case CloseEnd => s.(open := s.open - 1)
  }

  /** A reader has its part of what was delivered, and stopped short only at the end of the stream. */
  ghost predicate ReaderOk(s: Sys, r: nat)
    requires r in s.readers
  {
    var c := s.readers[r];
    && |c.got| <= c.want && Of(s.delivered, r) == c.got
    && (c.done && |c.got| < c.want ==> s.ring == [] && s.open == 0)
  }

  /** A writer's part of what was accepted is the front of its data, and all of it once its call has returned. */
  ghost predicate WriterOk(s: Sys, w: nat)
    requires w in s.writers
  {
    var c := s.writers[w];
    c.sent <= |c.data| && Of(s.accepted, w) == c.data[..c.sent] && (c.done ==> c.sent == |c.data|)
  }

  ghost predicate Inv(s: Sys) {
    && |s.ring| <= RING_BUFFER_SIZE
    && Untagged(s.delivered) + s.ring == Untagged(s.accepted)
    && (forall r | r in s.readers :: ReaderOk(s, r)) && (forall w | w in s.writers :: WriterOk(s, w))
    && (forall r: nat | r !in s.readers :: Of(s.delivered, r) == []) &&
       (forall w: nat | w !in s.writers :: Of(s.accepted, w) == [])
    && (s.open == 0 ==> !Writing(s))
  }

  lemma StartInv()
    ensures Inv(Start())
  {
  }

  /** A read round moves bytes from the front of the ring and stops short only at the end of the stream. */
  lemma ReadRoundFacts(ring: Bytes, closed: bool, want: nat, got: Bytes) returns (ring': Bytes, more: Bytes, done: bool)
    requires |got| <= want
    ensures ReadRound(ring, closed, want, got) == (ring', got + more, done) && (got + more)[|got|..] == more
    ensures more + ring' == ring && |got + more| <= want && (done && |got + more| < want ==> ring' == [] && closed)
    ensures |ring'| <= |ring| && (ring == [] ==> ring' == [])
  {
    var k := if ring == [] then 0 else Min(|ring|, want - |got|);
    ring', more, done := ring[k..], ring[..k], if ring == [] then closed else k < |ring|;
    if ring == [] { assert ring' == ring && got + more == got; }
  }

  /** `more` handed to reader `id`. */
  function Delivered(s: Sys, id: nat, ring: Bytes, more: Bytes, done: bool): Sys
    requires id in s.readers
  {
    var r := s.readers[id];
    s.(ring := ring, readers := s.readers[id := Reader(r.want, r.got + more, done)],
        delivered := s.delivered + Tagged(id, more))
  }

  lemma ReadInv(s: Sys, id: nat)
    requires Inv(s) && Enabled(s, TurnRead(id))
    ensures Inv(Step(s, TurnRead(id)))
  {
    var r := s.readers[id];
    var ring, more, done := ReadRoundFacts(s.ring, s.open == 0, r.want, r.got);
    assert Step(s, TurnRead(id)) == Delivered(s, id, ring, more, done);
    DeliveredInv(s, id, ring, more, done);
  }

  lemma DeliveredInv(s: Sys, id: nat, ring: Bytes, more: Bytes, done: bool)
    requires Inv(s) && id in s.readers && more + ring == s.ring && |s.readers[id].got + more| <= s.readers[id].want
    requires done && |s.readers[id].got + more| < s.readers[id].want ==> ring == [] && s.open == 0
    ensures Inv(Delivered(s, id, ring, more, done))
  {
    var s' := Delivered(s, id, ring, more, done);
    UntaggedMore(s.delivered, id, more);
    assert Untagged(s.delivered) + (more + ring) == (Untagged(s.delivered) + more) + ring;
    forall x: nat { OfMore(s.delivered, id, more, x); }
    forall x | x in s'.readers ensures ReaderOk(s', x) {
      assert ReaderOk(s, x);
    }
    forall w | w in s'.writers ensures WriterOk(s', w) { assert WriterOk(s, w); }
  }

  lemma WriteInv(s: Sys, id: nat)
    requires Inv(s) && Enabled(s, TurnWrite(id))
    ensures Inv(Step(s, TurnWrite(id)))
  {
    var w := s.writers[id];
    var (ring, sent, done) := WriteRound(s.ring, w.data, w.sent);
    assert WriterOk(s, id);
    assert s.ring + w.data[w.sent..sent] == ring && w.data[..w.sent] + w.data[w.sent..sent] == w.data[..sent];
    assert Writing(s);
    AcceptedInv(s, id, ring, sent, done);
  }

  lemma AcceptedInv(s: Sys, id: nat, ring: Bytes, sent: nat, done: bool)
    requires Inv(s) && id in s.writers && s.open > 0 && s.writers[id].sent <= sent <= |s.writers[id].data| &&
             |ring| <= RING_BUFFER_SIZE
    requires s.ring + s.writers[id].data[s.writers[id].sent..sent] == ring && (done ==> sent == |s.writers[id].data|)
    ensures var w := s.writers[id];
            Inv(s.(ring := ring, writers := s.writers[id := Writer(w.data, sent, done)],
                accepted := s.accepted + Tagged(id, w.data[w.sent..sent])))
  {
    var w := s.writers[id];
    var more := w.data[w.sent..sent];
    var s' := s.(ring := ring, writers := s.writers[id := Writer(w.data, sent, done)],
        accepted := s.accepted + Tagged(id, more));
    UntaggedMore(s.accepted, id, more);
    assert w.data[..w.sent] + more == w.data[..sent];
    assert Untagged(s.delivered) + (s.ring + more) == (Untagged(s.delivered) + s.ring) + more;
    forall x: nat { OfMore(s.accepted, id, more, x); }
    forall x | x in s'.readers ensures ReaderOk(s', x) { assert ReaderOk(s, x); }
    forall x | x in s'.writers ensures WriterOk(s', x) { assert WriterOk(s, x); }
  }

  lemma StepInv(s: Sys, op: Op)
    requires Inv(s) && Enabled(s, op)
    ensures Inv(Step(s, op))
  {
    if op.TurnRead? {
      ReadInv(s, op.id);
    } else if op.TurnWrite? {
      WriteInv(s, op.id);
    } else {
      var s' := Step(s, op);
      forall x | x in s'.readers ensures ReaderOk(s', x) { if x in s.readers { assert ReaderOk(s, x); } }
      forall x | x in s'.writers ensures WriterOk(s', x) { if x in s.writers { assert WriterOk(s, x); } }
    }
  }

  /** A run: every operation is enabled when it happens. */
  ghost predicate Runs(s: Sys, ops: seq<Op>, t: Sys)
    decreases |ops|
  {
    if ops == [] then t == s
    else Enabled(s, ops[0]) && Runs(Step(s, ops[0]), ops[1..], t)
  }

  /** Over every interleaving, what was delivered followed by the ring is what was accepted, in order. */
  lemma {:induction false} RunInv(s: Sys, ops: seq<Op>, t: Sys)
    requires Inv(s) && Runs(s, ops, t)
    ensures Inv(t)
    decreases |ops|
  {
    if ops != [] {
      StepInv(s, ops[0]);
      RunInv(Step(s, ops[0]), ops[1..], t);
    }
  }

  /** One writer and one reader, however they take turns: the reader has a prefix of the data, the ring holds the rest
      of what was sent; a returned write sent everything, and a short read means the end of the stream. */
  lemma {:induction false} OneToOne(ops: seq<Op>, t: Sys, r: nat, w: nat)
    requires Runs(Start(), ops, t) && t.readers.Keys == {r} && t.writers.Keys == {w}
    ensures t.writers[w].sent <= |t.writers[w].data| &&
            t.readers[r].got + t.ring == t.writers[w].data[..t.writers[w].sent]
    ensures t.writers[w].done ==> t.readers[r].got + t.ring == t.writers[w].data
    ensures t.readers[r].done && |t.readers[r].got| < t.readers[r].want ==> t.readers[r].got == t.writers[w].data
  {
    StartInv();
    RunInv(Start(), ops, t);
    assert ReaderOk(t, r) && WriterOk(t, w);
    OnlyOne(t.delivered, r);
    OnlyOne(t.accepted, w);
    if t.readers[r].done && |t.readers[r].got| < t.readers[r].want {
      assert !Writing(t);
      assert t.writers[w].done;
    }
  }

  lemma {:induction false} OnlyOne(h: History, id: nat)
    requires forall x: nat | x != id :: Of(h, x) == []
    ensures Of(h, id) == Untagged(h)
  {
    if h != [] {
      var n := |h| - 1;
      forall x: nat | x != id ensures Of(h[..n], x) == [] { assert Of(h, x) == []; }
      OnlyOne(h[..n], id);
      assert Of(h, h[n].0) != [];
      assert Untagged(h) == Untagged(h[..n]) + [h[n].1];
    }
  }

  // ---------------------------------------------------------------- when calls return

  /** In the course of `ops` writer `w` gets a turn when the ring has more room than it has bytes left. */
  ghost predicate WriteChance(s: Sys, ops: seq<Op>, w: nat)
    requires w in s.writers
    decreases |ops|
  {
    if ops == [] || !Enabled(s, ops[0]) then false
    else
      || (ops[0] == TurnWrite(w) && |s.writers[w].data| - s.writers[w].sent < RING_BUFFER_SIZE - |s.ring|)
      || WriteChance(Step(s, ops[0]), ops[1..], w)
  }

  /** A step leaves a writer alone unless it is its turn; its turn fills the ring or sends what is left, and returns
      exactly when room is left over. */
  lemma WriteTurn(s: Sys, op: Op, w: nat)
    requires Enabled(s, op) && w in s.writers
    ensures var t := Step(s, op);
            && w in t.writers && t.writers[w].data == s.writers[w].data
            && (op != TurnWrite(w) ==> t.writers[w] == s.writers[w])
            && (op == TurnWrite(w) ==>
                (t.writers[w].done <==> |s.writers[w].data| - s.writers[w].sent < RING_BUFFER_SIZE - |s.ring|))
            && (op == TurnWrite(w) ==>
                && t.writers[w].sent == s.writers[w].sent + Min(32 - |s.ring|, |s.writers[w].data| - s.writers[w].sent)
                && t.ring == s.ring + s.writers[w].data[s.writers[w].sent..t.writers[w].sent])
  {
  }

  lemma {:induction false} WriteStaysDone(s: Sys, ops: seq<Op>, t: Sys, w: nat)
    requires Runs(s, ops, t) && w in s.writers && s.writers[w].done
    ensures w in t.writers && t.writers[w].done && !WriteChance(s, ops, w)
    decreases |ops|
  {
    if ops != [] {
      WriteTurn(s, ops[0], w);
      WriteStaysDone(Step(s, ops[0]), ops[1..], t, w);
    }
  }

  /** Over every run, a write has returned exactly when it got a turn that found more room than bytes left. */
  lemma {:induction false} WriteReturnsIff(s: Sys, ops: seq<Op>, t: Sys, w: nat)
    requires Runs(s, ops, t) && w in s.writers && !s.writers[w].done
    ensures w in t.writers && (t.writers[w].done <==> WriteChance(s, ops, w))
    decreases |ops|
  {
    if ops != [] {
      var s' := Step(s, ops[0]);
      WriteTurn(s, ops[0], w);
      if s'.writers[w].done {
        WriteStaysDone(s', ops[1..], t, w);
      } else {
        WriteReturnsIff(s', ops[1..], t, w);
      }
    }
  }

  /** A write whose last byte filled the ring does not return as long as nobody reads. */
  lemma {:induction false} FullRingWaits(s: Sys, ops: seq<Op>, t: Sys, w: nat)
    requires Runs(s, ops, t) && w in s.writers && !s.writers[w].done && |s.ring| == RING_BUFFER_SIZE
    requires forall op | op in ops :: !op.TurnRead?
    ensures w in t.writers && !t.writers[w].done && t.ring == s.ring && t.writers[w].sent == s.writers[w].sent
    decreases |ops|
  {
    if ops != [] {
      assert ops[0] in ops;
      WriteTurn(s, ops[0], w);
      FullRingWaits(Step(s, ops[0]), ops[1..], t, w);
    }
  }

  /** In the course of `ops` reader `r` gets a turn at the end of the stream, or with more bytes in the ring than it
      still wants. */
  ghost predicate ReadChance(s: Sys, ops: seq<Op>, r: nat)
    requires r in s.readers
    decreases |ops|
  {
    if ops == [] || !Enabled(s, ops[0]) then false
    else
      || (ops[0] == TurnRead(r) && ((s.ring == [] && s.open == 0) || s.readers[r].want - |s.readers[r].got| < |s.ring|))
      || ReadChance(Step(s, ops[0]), ops[1..], r)
  }

  /** A step leaves a reader alone unless it is its turn; its turn takes all it still wants, or all there is, and
      returns exactly at the end of the stream or when bytes are left over. */
  lemma ReadTurn(s: Sys, op: Op, r: nat)
    requires Enabled(s, op) && r in s.readers
    ensures var t := Step(s, op);
            && r in t.readers && t.readers[r].want == s.readers[r].want
            && (op != TurnRead(r) ==> t.readers[r] == s.readers[r])
            && (op == TurnRead(r) ==>
                (t.readers[r].done <==>
                  (s.ring == [] && s.open == 0) || s.readers[r].want - |s.readers[r].got| < |s.ring|))
            && (op == TurnRead(r) ==>
                var k := Min(|s.ring|, s.readers[r].want - |s.readers[r].got|);
                t.readers[r].got == s.readers[r].got + s.ring[..k] && t.ring == s.ring[k..])
  {
  }

  lemma {:induction false} ReadStaysDone(s: Sys, ops: seq<Op>, t: Sys, r: nat)
    requires Runs(s, ops, t) && r in s.readers && s.readers[r].done
    ensures r in t.readers && t.readers[r].done && !ReadChance(s, ops, r)
    decreases |ops|
  {
    if ops != [] {
      ReadTurn(s, ops[0], r);
      ReadStaysDone(Step(s, ops[0]), ops[1..], t, r);
    }
  }

  /** Over every run, a read has returned exactly when it got a turn at the end of the stream, or one that found more
      bytes than it still wanted. */
  lemma {:induction false} ReadReturnsIff(s: Sys, ops: seq<Op>, t: Sys, r: nat)
    requires Runs(s, ops, t) && r in s.readers && !s.readers[r].done
    ensures r in t.readers && (t.readers[r].done <==> ReadChance(s, ops, r))
    decreases |ops|
  {
    if ops != [] {
      var s' := Step(s, ops[0]);
      ReadTurn(s, ops[0], r);
      if s'.readers[r].done {
        ReadStaysDone(s', ops[1..], t, r);
      } else {
        ReadReturnsIff(s', ops[1..], t, r);
      }
    }
  }

  lemma {:induction false} ClosedStays(s: Sys, ops: seq<Op>, t: Sys)
    requires Runs(s, ops, t) && s.open == 0
    ensures t.open == 0
    decreases |ops|
  {
    if ops != [] { ClosedStays(Step(s, ops[0]), ops[1..], t); }
  }

  /** A read whose last wanted byte emptied the ring does not return until somebody writes or the last write end is
      closed, although it has all it wanted. */
  lemma {:induction false} EmptyRingWaits(s: Sys, ops: seq<Op>, t: Sys, r: nat)
    requires Runs(s, ops, t) && r in s.readers && !s.readers[r].done && s.ring == []
    requires t.open > 0 && forall op | op in ops :: !op.TurnWrite?
    ensures r in t.readers && !t.readers[r].done && t.ring == [] && t.readers[r].got == s.readers[r].got
    decreases |ops|
  {
    if ops != [] {
      assert ops[0] in ops;
      if s.open == 0 { ClosedStays(s, ops, t); }
      ReadTurn(s, ops[0], r);
      EmptyRingWaits(Step(s, ops[0]), ops[1..], t, r);
    }
  }

  /** A write of as many bytes as there is room for ends in that state: everything sent, the ring full, not returned. */
  lemma WriteFills(s: Sys, w: nat, data: Bytes) returns (t: Sys)
    requires w !in s.writers && s.open > 0 && |s.ring| + |data| == RING_BUFFER_SIZE
    ensures Runs(s, [BeginWrite(w, data), TurnWrite(w)], t)
    ensures w in t.writers && t.writers[w] == Writer(data, |data|, false) && t.ring == s.ring + data
    ensures t.readers == s.readers && t.open == s.open
  {
    var ops := [BeginWrite(w, data), TurnWrite(w)];
    var s1 := Step(s, ops[0]);
    t := Step(s1, ops[1]);
    assert data[0..|data|] == data;
    assert ops[1..] == [TurnWrite(w)] && ops[1..][1..] == [];
    assert Runs(t, ops[1..][1..], t) && Runs(s1, ops[1..], t);
  }

  /** A read of as many bytes as there are ends likewise: everything got, the ring empty, not returned. */
  lemma ReadEmpties(s: Sys, r: nat) returns (t: Sys)
    requires r !in s.readers && s.open > 0
    ensures Runs(s, [BeginRead(r, |s.ring|), TurnRead(r)], t)
    ensures r in t.readers && t.readers[r] == Reader(|s.ring|, s.ring, false) && t.ring == [] && t.open == s.open
  {
    var ops := [BeginRead(r, |s.ring|), TurnRead(r)];
    var s1 := Step(s, ops[0]);
    t := Step(s1, ops[1]);
    assert s.ring[..|s.ring|] == s.ring && [] + s.ring == s.ring;
    assert ops[1..] == [TurnRead(r)] && ops[1..][1..] == [];
    assert Runs(t, ops[1..][1..], t) && Runs(s1, ops[1..], t);
  }

  /** From the start: 32 bytes written are all in the ring while the write waits; 32 bytes read from there are all got
      while the read waits. */
  lemma BothWait(data: Bytes) returns (t: Sys, u: Sys)
    requires |data| == RING_BUFFER_SIZE
    ensures Runs(Start(), [BeginWrite(0, data), TurnWrite(0)], t)
    ensures 0 in t.writers && t.writers[0].sent == |data| && !t.writers[0].done && |t.ring| == RING_BUFFER_SIZE
    ensures Runs(t, [BeginRead(0, |data|), TurnRead(0)], u)
    ensures 0 in u.readers && u.readers[0].got == data && !u.readers[0].done && u.ring == [] && u.open > 0
  {
    t := WriteFills(Start(), 0, data);
    assert [] + data == data;
    u := ReadEmpties(t, 0);
  }

  // ---------------------------------------------------------------- progress

  /** The turns of reader `r`. */
  function TurnsOf(ops: seq<Op>, r: nat): nat {
    if ops == [] then 0 else (if ops[0] == TurnRead(r) then 1 else 0) + TurnsOf(ops[1..], r)
  }

  /** With all write ends closed, a reader that nobody disturbs returns with its second turn at the latest, and has
      then got all that was left in the ring, or all it wanted. */
  lemma {:induction false} LastRead(s: Sys, ops: seq<Op>, t: Sys, r: nat)
    requires Inv(s) && Runs(s, ops, t) && s.open == 0 && r in s.readers && !s.readers[r].done
    requires forall op | op in ops && op.TurnRead? :: op.id == r
    ensures r in t.readers && TurnsOf(ops, r) <= 2 && (TurnsOf(ops, r) == 2 ==> t.readers[r].done)
    ensures TurnsOf(ops, r) > 0 ==>
            var k := Min(|s.ring|, s.readers[r].want - |s.readers[r].got|);
            t.readers[r].got == s.readers[r].got + s.ring[..k] && t.ring == s.ring[k..]
    ensures TurnsOf(ops, r) == 0 ==> t.readers[r] == s.readers[r] && t.ring == s.ring
    decreases |ops|
  {
    if ops != [] {
      var s' := Step(s, ops[0]);
      assert ops[0] in ops && forall op | op in ops[1..] :: op in ops;
      StepInv(s, ops[0]);
      ReadTurn(s, ops[0], r);
      assert ReaderOk(s, r) && !Writing(s);
      if ops[0] == TurnRead(r) {
        AfterLastRead(s', ops[1..], t, r);
      } else {
        assert s'.ring == s.ring && s'.open == 0;
        LastRead(s', ops[1..], t, r);
      }
    }
  }

  /** After the first such turn: the ring is empty, or the reader has returned with all it wanted. */
  lemma {:induction false} AfterLastRead(s: Sys, ops: seq<Op>, t: Sys, r: nat)
    requires Inv(s) && Runs(s, ops, t) && s.open == 0 && r in s.readers
    requires s.readers[r].done || s.ring == []
    requires forall op | op in ops && op.TurnRead? :: op.id == r
    ensures r in t.readers && t.readers[r].got == s.readers[r].got && t.ring == s.ring
    ensures TurnsOf(ops, r) <= 1 && (TurnsOf(ops, r) == 1 ==> t.readers[r].done)
    decreases |ops|
  {
    if ops != [] {
      var s' := Step(s, ops[0]);
      assert ops[0] in ops && forall op | op in ops[1..] :: op in ops;
      StepInv(s, ops[0]);
      ReadTurn(s, ops[0], r);
      assert !Writing(s);
      AfterLastRead(s', ops[1..], t, r);
      if ops[0] == TurnRead(r) { NoMoreTurns(s', ops[1..], t, r); }
    }
  }

  lemma {:induction false} NoMoreTurns(s: Sys, ops: seq<Op>, t: Sys, r: nat)
    requires Runs(s, ops, t) && r in s.readers && s.readers[r].done
    ensures r in t.readers && t.readers[r] == s.readers[r] && TurnsOf(ops, r) == 0
    decreases |ops|
  {
    if ops != [] {
      ReadTurn(s, ops[0], r);
      NoMoreTurns(Step(s, ops[0]), ops[1..], t, r);
    }
  }

  /** How often in `ops` a turn of writer `w` is followed by one of reader `r`; `filled` if a turn of `w` came last. */
  function Rounds(ops: seq<Op>, w: nat, r: nat, filled: bool): nat {
    if ops == [] then 0
    else if !filled && ops[0] == TurnWrite(w) then Rounds(ops[1..], w, r, true)
    else if filled && ops[0] == TurnRead(r) then 1 + Rounds(ops[1..], w, r, false)
    else Rounds(ops[1..], w, r, filled)
  }

  /** Reader `r` has got, in order, what writer `w` has sent but for the ring, and wants all of it. */
  ghost predicate Feeding(s: Sys, w: nat, r: nat) {
    && w in s.writers && r in s.readers && |s.ring| <= RING_BUFFER_SIZE
    && s.writers[w].sent <= |s.writers[w].data| <= s.readers[r].want
    && s.readers[r].got + s.ring == s.writers[w].data[..s.writers[w].sent]
  }

  lemma FeedingStep(s: Sys, op: Op, w: nat, r: nat)
    requires Feeding(s, w, r) && Enabled(s, op) && (op.TurnRead? ==> op.id == r) && (op.TurnWrite? ==> op.id == w)
    ensures var t := Step(s, op);
            && Feeding(t, w, r) && t.writers[w].data == s.writers[w].data && |t.readers[r].got| >= |s.readers[r].got|
            && |t.readers[r].got| + |t.ring| >= |s.readers[r].got| + |s.ring|
            && (op == TurnRead(r) ==> t.readers[r].got == s.readers[r].got + s.ring)
            && (op == TurnWrite(w) ==> |t.ring| == RING_BUFFER_SIZE || t.writers[w].sent == |t.writers[w].data|)
  {
    var t, data := Step(s, op), s.writers[w].data;
    ReadTurn(s, op, r);
    WriteTurn(s, op, w);
    assert |s.readers[r].got + s.ring| == |data[..s.writers[w].sent]|;
    if op == TurnRead(r) {
      assert s.ring[..|s.ring|] == s.ring && s.ring[|s.ring|..] == [];
      assert t.readers[r].got + t.ring == s.readers[r].got + s.ring;
    } else if op == TurnWrite(w) {
      var i, j := s.writers[w].sent, t.writers[w].sent;
      assert data[..i] + data[i..j] == data[..j];
      assert s.readers[r].got + (s.ring + data[i..j]) == (s.readers[r].got + s.ring) + data[i..j];
    }
  }

  /** Of all readers and writers only these two have turns. */
  predicate OnlyTurns(ops: seq<Op>, w: nat, r: nat) {
    ops == [] ||
    ((ops[0].TurnRead? ==> ops[0].id == r) && (ops[0].TurnWrite? ==> ops[0].id == w) && OnlyTurns(ops[1..], w, r))
  }

  /** At least `base` bytes are across, or all there are; and 32 more are on their way if `filled`. */
  ghost predicate Carried(s: Sys, w: nat, r: nat, base: nat, filled: bool)
    requires w in s.writers && r in s.readers
  {
    var n := |s.writers[w].data|;
    && |s.readers[r].got| >= Min(n, base)
    && (filled ==> |s.readers[r].got| + |s.ring| >= Min(n, base + 32))
  }

  /** One step of that. */
  lemma CarriedStep(s: Sys, op: Op, w: nat, r: nat, base: nat, filled: bool)
    requires Feeding(s, w, r) && Enabled(s, op) && (op.TurnRead? ==> op.id == r) && (op.TurnWrite? ==> op.id == w)
    requires Carried(s, w, r, base, filled)
    ensures var t := Step(s, op);
            && Feeding(t, w, r) && t.writers[w].data == s.writers[w].data
            && (!filled && op == TurnWrite(w) ==> Carried(t, w, r, base, true))
            && (filled && op == TurnRead(r) ==> Carried(t, w, r, base + 32, false))
            && Carried(t, w, r, base, filled)
  {
    var t := Step(s, op);
    FeedingStep(s, op, w, r);
    assert |t.readers[r].got + t.ring| == t.writers[w].sent;
  }

  /** Between one reader and one writer, whatever else happens, every writer's turn followed by a reader's brings 32
      bytes across, or all there are: after |data| / 32 of them, rounded up, the reader has everything. */
  lemma {:induction false} Transfer(s: Sys, ops: seq<Op>, t: Sys, w: nat, r: nat, base: nat, filled: bool)
    requires Runs(s, ops, t) && Feeding(s, w, r) && Carried(s, w, r, base, filled)
    requires OnlyTurns(ops, w, r)
    ensures Feeding(t, w, r) && t.writers[w].data == s.writers[w].data
    ensures |t.readers[r].got| >= Min(|s.writers[w].data|, base + 32 * Rounds(ops, w, r, filled))
    decreases |ops|
  {
    if ops != [] {
      var op, s' := ops[0], Step(s, ops[0]);
      CarriedStep(s, op, w, r, base, filled);
      if !filled && op == TurnWrite(w) {
        Transfer(s', ops[1..], t, w, r, base, true);
      } else if filled && op == TurnRead(r) {
        Transfer(s', ops[1..], t, w, r, base + 32, false);
      } else {
        Transfer(s', ops[1..], t, w, r, base, filled);
      }
    }
  }

  /** From an empty pipe: the bytes got are a prefix of the data, and after enough rounds all of it. */
  lemma {:induction false} WholeTransfer(s: Sys, data: Bytes, want: nat, ops: seq<Op>, t: Sys, w: nat, r: nat)
    requires s.ring == [] && w in s.writers && s.writers[w] == Writer(data, 0, false)
    requires r in s.readers && s.readers[r] == Reader(want, [], false) && want >= |data| && Runs(s, ops, t)
    requires OnlyTurns(ops, w, r)
    ensures r in t.readers && t.readers[r].got <= data
    ensures 32 * Rounds(ops, w, r, false) >= |data| ==> t.readers[r].got == data
  {
    Transfer(s, ops, t, w, r, 0, false);
    var got, sent := t.readers[r].got, t.writers[w].sent;
    assert got == (got + t.ring)[..|got|] == data[..sent][..|got|];
  }
}
