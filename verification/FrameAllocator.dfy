/** The buddy frame allocator: one ordered set of block starts per class. */
module FrameAllocators {
  import opened Bits
  import opened Buddy
  import opened Carving
  import opened Options

  predicate IsLeast(s: set<nat>, m: nat) { m in s && forall x | x in s :: m <= x }

  function Least(s: set<nat>): (m: nat)
    requires s != {}
    ensures m in s && forall x | x in s :: m <= x
  {
    LeastExists(s);
    var m :| IsLeast(s, m);
    m
  }

  lemma {:induction false} LeastExists(s: set<nat>)
    requires s != {}
    ensures exists m :: IsLeast(s, m)
  {
    var y :| y in s;
    if s == {y} {
      assert IsLeast(s, y);
    } else {
      LeastExists(s - {y});
      var n :| IsLeast(s - {y}, n);
      LeastWith(s - {y}, y, n);
      assert s == s - {y} + {y};
    }
  }

  lemma LeastWith(r: set<nat>, y: nat, n: nat)
    requires IsLeast(r, n)
    ensures IsLeast(r + {y}, Min(n, y))
  {
  }

  // ---------------------------------------------------------------- returning a block

  /** The merge loop of deallocation; a merge out of the top class drops the block. */
  function Return(f: Lists, s: nat, k: nat): (r: Lists)
    ensures |r| == |f|
    decreases |f| - k
  {
    if k >= |f| then f
    else
      var buddy := BuddyOf(s, k);
      if buddy in f[k] then Return(Take(f, buddy, k), Min(s, buddy), k + 1) else Put(f, s, k)
  }

  /** The loop merges like `Coalesce`, except that it loses a block that would leave the top class. */
  lemma {:induction false} ReturnCoalesces(f: Lists, o: Lists, managed: set<nat>, s: nat, k: nat)
    requires k < |f| && !Has(f, s, k) && Split(Put(f, s, k), o, managed)
    ensures var h := Put(f, s, k);
            var (t, j) := Climb(h, s, k);
            var g := Coalesce(h, s, k);
            Return(f, s, k) == if Has(g, BuddyOf(t, j), j) then Take(Take(g, t, j), BuddyOf(t, j), j) else g
    decreases |f| - k
  {
    var h := Put(f, s, k);
    var b := BuddyOf(s, k);
    SplitParts(h, o, managed);
    BuddyHalves(s, k);
    SameLists(Take(Take(h, s, k), b, k), Take(f, b, k));
    if b in f[k] && k + 1 < |f| {
      SplitJoin(h, o, managed, s, k);
      ReturnCoalesces(Take(f, b, k), o, managed, Min(s, b), k + 1);
    }
  }

  /** The loop loses a whole window of 2^order frames if all buddies on the way up are free, and otherwise nothing. */
  lemma {:induction false} ReturnWeight(f: Lists, o: Lists, managed: set<nat>, s: nat, k: nat)
    requires k < |f| && !Has(f, s, k) && Split(Put(f, s, k), o, managed)
    ensures Weight(Return(f, s, k)) + (if BuddiesFree(f, s, k) then Pow2(|f|) else 0) == Weight(f) + Pow2(k)
    decreases |f| - k
  {
    var h, b := Put(f, s, k), BuddyOf(s, k);
    SplitParts(h, o, managed);
    BuddyHalves(s, k);
    if b in f[k] {
      var f' := Take(f, b, k);
      SameLists(Take(Take(h, s, k), b, k), f');
      WeightPut(f, b, k);
      BuddiesUp(f, f', s, k);
      if k + 1 < |f| {
        SplitJoin(h, o, managed, s, k);
        ReturnWeight(f', o, managed, Min(s, b), k + 1);
      }
    } else {
      WeightPut(f, s, k);
      assert Covers(s, k, s);
    }
  }

  // ---------------------------------------------------------------- the allocator as a state machine

  /** The allocator, with the frames it manages and the blocks it has handed out. */
  datatype State = State(free: Lists, out: Lists, managed: set<nat>, used: nat, total: nat)

  ghost predicate Inv(st: State) {
    && |st.free| > 0
    && Split(st.free, st.out, st.managed)
    && Weight(st.out) == st.used
    && Weight(st.free) + st.used == st.total
  }

  function Init(order: nat): State { State(Empty(order), Empty(order), {}, 0, 0) }

  function AddState(st: State, start: nat, end: nat): State
    requires |st.free| > 0 && start <= end
  {
    st.(free := Carve(st.free, start, end), managed := st.managed + Range(start, end),
        total := st.total + (end - start))
  }

  /** A request of class `k`: the lowest block of the smallest class that can serve it. */
  function AllocState(st: State, k: nat): (State, Option<nat>)
    requires |st.out| == |st.free|
  {
    var i := FirstNonEmpty(st.free, k);
    if i == |st.free| then (st, None)
    else
      var s := Least(st.free[i]);
      (st.(free := AllocFrom(st.free, s, i, k), out := Put(st.out, s, k), used := st.used + Pow2(k)), Some(s))
  }

  function FreeState(st: State, s: nat, k: nat): State
    requires Has(st.out, s, k) && Pow2(k) <= st.used
  {
    st.(free := Return(st.free, s, k), out := Take(st.out, s, k), used := st.used - Pow2(k))
  }

  /** Which block a request of class `k` gets: the lowest of the smallest class that has any, from `k` up. */
  lemma AllocMeans(st: State, k: nat) returns (i: nat)
    requires |st.out| == |st.free|
    ensures var (st', r) := AllocState(st, k);
            && (r.None? <==> forall c | k <= c < |st.free| :: st.free[c] == {})
            && (r.Some? ==>
                && k <= i < |st.free| && (forall c | k <= c < i :: st.free[c] == {})
                && r.value in st.free[i] && (forall s | s in st.free[i] :: r.value <= s)
                && st'.used == st.used + Pow2(k) && st'.total == st.total && st'.managed == st.managed)
  {
    i := FirstNonEmpty(st.free, k);
  }

  lemma InitInv(order: nat)
    requires order > 0
    ensures Inv(Init(order))
  {
    EmptySplit(order);
  }

  lemma AddInv(st: State, start: nat, end: nat)
    requires Inv(st) && start <= end && st.managed !! Range(start, end)
    ensures Inv(AddState(st, start, end))
  {
    CarveSplit(st.free, st.out, st.managed, start, end);
  }

  /** An allocation hands out an aligned block of frames that were all free. */
  lemma AllocInv(st: State, k: nat)
    requires Inv(st)
    ensures var (st', r) := AllocState(st, k);
            && Inv(st') && st'.managed == st.managed && st'.total == st.total
            && (r.Some? ==> Has(st'.out, r.value, k) && Aligned(r.value, k) && FreeRun(st.free, r.value, k))
            && (r.None? ==> st' == st)
            && (NoBuddies(st.free) ==> NoBuddies(st'.free))
  {
    var i := FirstNonEmpty(st.free, k);
    if i < |st.free| {
      var s := Least(st.free[i]);
      assert Has(st.free, s, i);
      AllocSplit(st.free, st.out, st.managed, s, i, k);
      SplitParts(st.free, st.out, st.managed);
      AlignedBelow(s, k, i);
      Pow2Mono(k, i);
      assert forall u :: Covers(s, k, u) ==> Holds(st.free, s, i, u);
      if NoBuddies(st.free) { AllocNoBuddies(st.free, |st.free|, s, i, k); }
    }
  }

  /** An outstanding block weighs at most all that is allocated. */
  lemma {:induction false} OutstandingWeight(st: State, s: nat, k: nat)
    requires Inv(st) && Has(st.out, s, k)
    ensures Pow2(k) <= st.used
  {
    WeightPut(st.out, s, k);
  }

  lemma {:induction false} FreeFacts(st: State, s: nat, k: nat)
    requires Inv(st) && Has(st.out, s, k)
    ensures !Has(st.free, s, k)
    ensures Split(Put(st.free, s, k), Take(st.out, s, k), st.managed)
    ensures Weight(Put(st.free, s, k)) == Weight(st.free) + Pow2(k)
    ensures Weight(Take(st.out, s, k)) == Weight(st.out) - Pow2(k)
  {
    SplitMove(st.free, st.out, st.managed, s, k);
    WeightPut(st.free, s, k);
    WeightPut(st.out, s, k);
  }

  /** In every state: freeing loses frames, and then 2^order of them, exactly when in every class from that of the block
      up the buddy of the block around it is free. */
  lemma {:induction false} FreeLosesIff(st: State, s: nat, k: nat)
    requires Inv(st) && Has(st.out, s, k)
    ensures Pow2(k) <= st.used
    ensures var st' := FreeState(st, s, k);
            Weight(st'.free) + st'.used + (if BuddiesFree(st.free, s, k) then Pow2(|st.free|) else 0) == st'.total
  {
    FreeFacts(st, s, k);
    OutstandingWeight(st, s, k);
    ReturnWeight(st.free, Take(st.out, s, k), st.managed, s, k);
  }

  /** Freeing keeps tiling and counts exactly when it loses nothing, and then also complete merging. */
  lemma {:induction false} FreeInv(st: State, s: nat, k: nat)
    requires Inv(st) && Has(st.out, s, k)
    ensures Pow2(k) <= st.used
    ensures Inv(FreeState(st, s, k)) <==> !BuddiesFree(st.free, s, k)
    ensures NoBuddies(st.free) && !BuddiesFree(st.free, s, k) ==> NoBuddies(FreeState(st, s, k).free)
  {
    var h, o := Put(st.free, s, k), Take(st.out, s, k);
    FreeFacts(st, s, k);
    FreeLosesIff(st, s, k);
    if !BuddiesFree(st.free, s, k) {
      SplitParts(h, o, st.managed);
      PutBuddiesFree(st.free, s, k);
      TopMerges(h, s, k);
      ReturnCoalesces(st.free, o, st.managed, s, k);
      CoalesceSplit(h, o, st.managed, s, k);
      if NoBuddies(st.free) {
        PutNoBuddiesBut(st.free, |st.free|, s, k);
        CoalesceNoBuddies(h, |h|, s, k);
      }
    }
  }

  /** Without unmerged buddies below the top class, freeing keeps the frame count exactly when the aligned 2^order
      window `w` around the block holds a frame that stays unmanaged or outstanding. */
  lemma {:induction false} FreeConservesIff(st: State, s: nat, k: nat, w: nat)
    requires Inv(st) && Has(st.out, s, k) && NoBuddiesBelow(st.free, |st.free| - 1)
    requires Aligned(w, |st.free|) && Covers(w, |st.free|, s)
    ensures Pow2(k) <= st.used
    ensures var st' := FreeState(st, s, k);
            Weight(st'.free) + st'.used == st'.total <==>
            exists u :: Covers(w, |st.free|, u) && (u !in st.managed || Covered(Take(st.out, s, k), u))
  {
    FreeLosesIff(st, s, k);
    WindowFreed(st.free, st.out, st.managed, s, k, w);
  }

  /** Losing frames is real: with one class, freeing frame 2 beside the free frame 3 drops both. */
  lemma FreeDropsExample()
    ensures var st := AllocState(AddState(Init(1), 2, 4), 0);
            st.1 == Some(2) && Has(st.0.out, 2, 0) && st.0.used == 1 && FreeState(st.0, 2, 0).free == [{}]
  {
    var e := Empty(1);
    assert TrailingZeros(2) == 1 && TrailingZeros(3) == 0;
    assert CarveClass(2, 4, 1) == 0 && CarveClass(3, 4, 1) == 0;
    var f1 := Put(e, 2, 0);
    var f2 := Put(f1, 3, 0);
    assert Carve(f1, 3, 4) == Carve(f2, 4, 4) == f2;
    assert f2[0] == {2, 3};
    assert Least({2, 3}) == 2;
    var f3 := Take(f2, 2, 0);
    assert f3[0] == {3};
    Halves(2, 0);
    assert Take(f3, 3, 0)[0] == {};
  }

  /** A request fails exactly when every aligned run of its size holds a frame that is
      unmanaged or handed out. */
  lemma AllocComplete(st: State, k: nat)
    requires Inv(st) && NoBuddies(st.free)
    ensures AllocState(st, k).1.None? <==>
            forall a :: Aligned(a, k) ==> exists u :: Covers(a, k, u) && (u !in st.managed || Covered(st.out, u))
  {
    SplitParts(st.free, st.out, st.managed);
    AllocFailsIff(st.free, k);
    forall u ensures Covered(st.free, u) <==> u in st.managed && !Covered(st.out, u) {
      FreeUnits(st.free, st.out, st.managed, u);
    }
    forall a ensures FreeRun(st.free, a, k) <==>
      Aligned(a, k) && !exists u :: Covers(a, k, u) && (u !in st.managed || Covered(st.out, u)) {
    }
  }

  /** Freeing what was just allocated restores the allocator exactly. */
  lemma {:induction false} AllocFreeRestores(st: State, k: nat)
    requires Inv(st) && NoBuddies(st.free) && AllocState(st, k).1.Some?
    ensures var (st', r) := AllocState(st, k);
            Has(st'.out, r.value, k) && Pow2(k) <= st'.used && FreeState(st', r.value, k) == st
  {
    var i := FirstNonEmpty(st.free, k);
    var s := Least(st.free[i]);
    assert Has(st.free, s, i);
    var f, o := st.free, st.out;
    AllocSplit(f, o, st.managed, s, i, k);
    AllocThenFree(f, o, st.managed, s, i, k);
    var f', o' := AllocFrom(f, s, i, k), Put(o, s, k);
    SplitMove(f', o', st.managed, s, k);
    SameLists(Take(o', s, k), o);
    ReturnCoalesces(f', o, st.managed, s, k);
    SplitParts(Put(f', s, k), o, st.managed);
    ClimbEnds(Put(f', s, k), s, k);
  }

  // ---------------------------------------------------------------- whole runs

  datatype Op = AllocOp(k: nat) | FreeOp(s: nat, k: nat)

  /** One call by a caller that only frees what it holds. */
  function Step(st: State, op: Op): State
    requires |st.out| == |st.free|
  {
    match op
    case AllocOp(k) => AllocState(st, k).0
    case FreeOp(s, k) => if Has(st.out, s, k) && Pow2(k) <= st.used then FreeState(st, s, k) else st
  }

  function Run(st: State, ops: seq<Op>): State
    requires |st.out| == |st.free|
    decreases |ops|
  {
    if ops == [] then st else Run(Step(st, ops[0]), ops[1..])
  }

  /** Over every run, free and outstanding blocks tile the managed frames, the counters account for
      all of them, and merging stays complete if it was complete at the start. */
  lemma {:induction false} RunInv(st: State, ops: seq<Op>)
    requires Inv(st) && NoTopWindow(st.managed, |st.free|)
    ensures var st' := Run(st, ops);
            && Inv(st') && st'.managed == st.managed && st'.total == st.total && |st'.free| == |st.free|
            && (NoBuddies(st.free) ==> NoBuddies(st'.free))
    decreases |ops|
  {
    if ops != [] {
      var st1 := Step(st, ops[0]);
      match ops[0] {
        case AllocOp(k) => AllocInv(st, k);
        case FreeOp(s, k) =>
          if Has(st.out, s, k) {
            NoWindowKept(st.free, st.out, st.managed, s, k);
            FreeInv(st, s, k);
          }
      }
      RunInv(st1, ops[1..]);
    }
  }

  /** Whatever was lost: free and outstanding blocks tile the frames `kept`. */
  ghost predicate Safe(st: State, kept: set<nat>) {
    && |st.free| > 0 && Split(st.free, st.out, kept) && kept <= st.managed
    && Weight(st.out) == st.used && Weight(st.free) + st.used <= st.total
  }

  /** The state as if the lost frames had never been managed. */
  ghost function Restrict(st: State, kept: set<nat>): (r: State)
    ensures Safe(st, kept) ==> Inv(r)
  {
    st.(managed := kept, total := Weight(st.free) + st.used)
  }

  lemma {:induction false} FreeSafe(st: State, kept: set<nat>, s: nat, k: nat) returns (kept': set<nat>)
    requires Safe(st, kept) && Has(st.out, s, k)
    ensures Pow2(k) <= st.used
    ensures var st' := FreeState(st, s, k);
            && Safe(st', kept') && kept' <= kept
            && (NoBuddiesBelow(st.free, |st.free| - 1) ==> NoBuddiesBelow(st'.free, |st.free| - 1))
  {
    var r := Restrict(st, kept);
    var f, h, o := st.free, Put(st.free, s, k), Take(st.out, s, k);
    OutstandingWeight(r, s, k);
    FreeFacts(r, s, k);
    FreeLosesIff(r, s, k);
    ReturnCoalesces(f, o, kept, s, k);
    CoalesceSplit(h, o, kept, s, k);
    SplitParts(h, o, kept);
    ClimbEnds(h, s, k);
    if NoBuddiesBelow(f, |f| - 1) {
      PutNoBuddiesBut(f, |f| - 1, s, k);
      CoalesceNoBuddies(h, |f| - 1, s, k);
    }
    kept' := DropSplit(Coalesce(h, s, k), o, kept, Climb(h, s, k).0, Climb(h, s, k).1);
  }

  /** Dropping a block and its buddy, if that is there, leaves a tiling of the other frames. */
  lemma DropSplit(g: Lists, o: Lists, kept: set<nat>, t: nat, j: nat) returns (kept': set<nat>)
    requires Split(g, o, kept) && Has(g, t, j)
    ensures var g' := if Has(g, BuddyOf(t, j), j) then Take(Take(g, t, j), BuddyOf(t, j), j) else g;
            && Split(g', o, kept') && kept' <= kept
            && (NoBuddiesBelow(g, |g| - 1) ==> NoBuddiesBelow(g', |g| - 1))
  {
    var b := BuddyOf(t, j);
    kept' := kept;
    if Has(g, b, j) {
      TakeSplit(g, o, kept, t, j);
      kept' := kept - Range(t, t + Pow2(j));
      TakeSplit(Take(g, t, j), o, kept', b, j);
      kept' := kept' - Range(b, b + Pow2(j));
    }
  }

  lemma AllocSafe(st: State, kept: set<nat>, k: nat)
    requires Safe(st, kept)
    ensures var (st', r) := AllocState(st, k);
            && Safe(st', kept)
            && (r.Some? ==> Has(st'.out, r.value, k) && FreeRun(st.free, r.value, k))
            && (NoBuddiesBelow(st.free, |st.free| - 1) ==> NoBuddiesBelow(st'.free, |st.free| - 1))
  {
    var r := Restrict(st, kept);
    AllocInv(r, k);
    SplitParts(st.free, st.out, kept);
    var i := FirstNonEmpty(st.free, k);
    if i < |st.free| && NoBuddiesBelow(st.free, |st.free| - 1) {
      var s := Least(st.free[i]);
      AllocNoBuddies(st.free, |st.free| - 1, s, i, k);
    }
  }

  /** Over every run, also one that loses frames: outstanding blocks are disjoint from each other and from the free
      ones, all lie in managed frames, the allocated count is right, and merging below the top class stays complete. */
  lemma {:induction false} RunSafe(st: State, kept: set<nat>, ops: seq<Op>) returns (kept': set<nat>)
    requires Safe(st, kept)
    ensures var st' := Run(st, ops);
            && Safe(st', kept') && kept' <= kept && st'.managed == st.managed && |st'.free| == |st.free|
            && (NoBuddiesBelow(st.free, |st.free| - 1) ==> NoBuddiesBelow(st'.free, |st.free| - 1))
    decreases |ops|
  {
    kept' := kept;
    if ops != [] {
      match ops[0] {
        case AllocOp(k) => AllocSafe(st, kept, k);
        case FreeOp(s, k) => if Has(st.out, s, k) { kept' := FreeSafe(st, kept, s, k); }
      }
      kept' := RunSafe(Step(st, ops[0]), kept', ops[1..]);
    }
  }

  /** Frames are accounted for: free or allocated. */
  ghost predicate Conserved(st: State) { Weight(st.free) + st.used == st.total }

  /** Requests of the top class hand out its blocks, lowest first, until `w` is out. */
  lemma {:induction false} TakeTop(st: State, w: nat, k: nat) returns (ops: seq<Op>)
    requires Inv(st) && k == |st.free| - 1 && Has(st.free, w, k) && Has(st.free, BuddyOf(w, k), k) && w < BuddyOf(w, k)
    ensures var st' := Run(st, ops + [FreeOp(w, k)]);
            Weight(st'.free) + st'.used + Pow2(k + 1) == st'.total
    decreases |st.free[k]|
  {
    var s, b := Least(st.free[k]), BuddyOf(w, k);
    var st1 := AllocState(st, k).0;
    AllocInv(st, k);
    assert FirstNonEmpty(st.free, k) == k;
    if s == w {
      ops := [AllocOp(k)];
      FreeLosesIff(st1, w, k);
      SplitParts(st1.free, st1.out, st1.managed);
      forall t | Aligned(t, k) && Covers(t, k, w) ensures t == w { SameClass(t, w, k, w); }
      assert ops + [FreeOp(w, k)] == [AllocOp(k), FreeOp(w, k)];
      assert Run(st, [AllocOp(k), FreeOp(w, k)]) == Run(st1, [FreeOp(w, k)]) == Step(st1, FreeOp(w, k));
    } else {
      var rest := TakeTop(st1, w, k);
      ops := [AllocOp(k)] + rest;
      assert (ops + [FreeOp(w, k)])[1..] == rest + [FreeOp(w, k)];
    }
  }

  /** A range with a whole top window: some run loses 2^order frames. */
  lemma {:induction false} WindowLoses(start: nat, end: nat, order: nat) returns (ops: seq<Op>)
    requires start <= end && order > 0 && HasTopWindow(start, end, order)
    ensures |AddState(Init(order), start, end).out| == order
    ensures var st := Run(AddState(Init(order), start, end), ops);
            Weight(st.free) + st.used + Pow2(order) == st.total
  {
    var st := AddState(Init(order), start, end);
    InitInv(order);
    AddInv(Init(order), start, end);
    var w: nat :| Aligned(w, order) && start <= w && w + Pow2(order) <= end;
    if w == 0 && order > 6 {
      ZeroLoses(end, order);
      ops := [AllocOp(5), FreeOp(0, 5)];
    } else {
      ops := PairLoses(start, end, order, w);
    }
  }

  lemma {:induction false} PairLoses(start: nat, end: nat, order: nat, w: nat) returns (ops: seq<Op>)
    requires start <= end && order > 0 && Aligned(w, order) && start <= w && w + Pow2(order) <= end
    requires !(w == 0 && order > 6) && Inv(AddState(Init(order), start, end))
    ensures |AddState(Init(order), start, end).out| == order
    ensures var st := Run(AddState(Init(order), start, end), ops);
            Weight(st.free) + st.used + Pow2(order) == st.total
  {
    TopPair(start, end, order, w);
    var pre := TakeTop(AddState(Init(order), start, end), w, order - 1);
    ops := pre + [FreeOp(w, order - 1)];
  }

  /** A block taken out of its class leaves the others unmerged as they were. */
  lemma TakeLeast(st: State, s: nat, k: nat)
    requires Inv(st) && Has(st.free, s, k) && s == Least(st.free[k]) && NoBuddiesBut(st.free, |st.free| - 1, s, k)
    ensures var (st', r) := AllocState(st, k);
            && r == Some(s) && st'.free == Take(st.free, s, k) && st'.out == Put(st.out, s, k)
            && Inv(st') && st'.managed == st.managed && st'.total == st.total
            && NoBuddiesBelow(st'.free, |st.free| - 1)
  {
    AllocInv(st, k);
    SplitParts(st.free, st.out, st.managed);
    var f := Take(st.free, s, k);
    forall t, j: nat | Has(f, t, j) && j < |f| - 1 ensures !Has(f, BuddyOf(t, j), j) { BuddyHalves(t, j); }
  }

  /** Taking a block of an all free window and giving it back merges the window away. */
  lemma {:induction false} TakeAndReturn(st: State, s: nat, k: nat, w: nat)
    requires Inv(st) && Has(st.free, s, k) && s == Least(st.free[k]) && NoBuddiesBut(st.free, |st.free| - 1, s, k)
    requires FreeRun(st.free, w, |st.free|) && Covers(w, |st.free|, s)
    ensures var st' := Run(st, [AllocOp(k), FreeOp(s, k)]);
            Weight(st'.free) + st'.used + Pow2(|st.free|) == st'.total
  {
    var st1 := AllocState(st, k).0;
    TakeLeast(st, s, k);
    FreeConservesIff(st1, s, k, w);
    SplitMove(st.free, st.out, st.managed, s, k);
    SameLists(Take(st1.out, s, k), st.out);
    forall u | Covers(w, |st.free|, u) ensures u in st.managed && !Covered(st.out, u) {
      FreeUnits(st.free, st.out, st.managed, u);
    }
    FreeLosesIff(st1, s, k);
    var ops := [AllocOp(k), FreeOp(s, k)];
    assert ops[1..] == [FreeOp(s, k)];
    assert Run(st1, ops[1..]) == Step(st1, FreeOp(s, k));
  }

  /** From frame 0 with more than 6 classes that block is block 0. */
  lemma {:induction false} ZeroLoses(end: nat, order: nat)
    requires order > 6 && Pow2(order) <= end
    ensures |AddState(Init(order), 0, end).out| == order
    ensures var st := Run(AddState(Init(order), 0, end), [AllocOp(5), FreeOp(0, 5)]);
            Weight(st.free) + st.used + Pow2(order) == st.total
  {
    var st := AddState(Init(order), 0, end);
    InitInv(order);
    AddInv(Init(order), 0, end);
    Pow2Mono(6, order);
    ZeroBlocks(end, order);
    LowBuddies(0, end, order);
    ZeroAligned(order);
    forall u | Covers(0, order, u) ensures Covered(st.free, u) { FreeUnits(st.free, st.out, st.managed, u); }
    TakeAndReturn(st, 0, 5, 0);
  }

  /** From one added range: the counters account for all frames after every run if and only if the range holds no whole
      aligned window of 2^order frames. */
  lemma {:induction false} ConservedIff(start: nat, end: nat, order: nat)
    requires start <= end && order > 0
    ensures |AddState(Init(order), start, end).out| == order
    ensures (forall ops: seq<Op> :: Conserved(Run(AddState(Init(order), start, end), ops))) <==>
            !HasTopWindow(start, end, order)
  {
    var st := AddState(Init(order), start, end);
    if HasTopWindow(start, end, order) {
      var ops := WindowLoses(start, end, order);
      assert !Conserved(Run(st, ops));
    } else {
      InitInv(order);
      AddInv(Init(order), start, end);
      assert st.managed == Range(start, end);
      RangeNoTopWindow(start, end, order);
      forall ops: seq<Op> ensures Conserved(Run(st, ops)) { RunInv(st, ops); }
    }
  }

  /** A request of class `k` fails exactly when no aligned run of 2^k frames is wholly free. */
  ghost predicate Served(st: State, k: nat) {
    |st.out| == |st.free| && (AllocState(st, k).1.None? <==> forall a :: !FreeRun(st.free, a, k))
  }

  /** From one added range with no whole top window, requests are served after every run if the range does not run
      from frame 0 to frame 64 or beyond. */
  lemma {:induction false} RunComplete(start: nat, end: nat, order: nat, ops: seq<Op>, k: nat)
    requires start <= end && order > 0 && !HasTopWindow(start, end, order) && !(start == 0 && end >= 64)
    ensures |AddState(Init(order), start, end).out| == order
    ensures var st := Run(AddState(Init(order), start, end), ops);
            Inv(st) && st.total == end - start && st.managed == Range(start, end) && Served(st, k)
  {
    var st0 := AddState(Init(order), start, end);
    InitInv(order);
    AddInv(Init(order), start, end);
    assert st0.managed == Range(start, end);
    RangeNoTopWindow(start, end, order);
    CarveNoBuddiesIff(start, end, order);
    RunInv(st0, ops);
    var st := Run(st0, ops);
    SplitParts(st.free, st.out, st.managed);
    AllocFailsIff(st.free, k);
  }

  /** Blocks 0 and 32 of class 5 are free: 64 free frames that no class above holds together. */
  ghost predicate Unmerged(f: Lists) { Has(f, 0, 5) && Has(f, 32, 5) }

  lemma UnmergedRun(f: Lists)
    requires Unmerged(f)
    ensures FreeRun(f, 0, 6)
  {
    assert Pow2(5) == 32 && Pow2(6) == 64;
    forall u | Covers(0, 6, u) ensures Covered(f, u) {
      assert Holds(f, 0, 5, u) || Holds(f, 32, 5, u);
    }
  }

  /** Requests for 64 frames leave the smaller blocks alone. */
  lemma {:induction false} AllocAbove(st: State)
    requires Inv(st) && AllocState(st, 6).1.Some? && Unmerged(st.free)
    ensures var st' := AllocState(st, 6).0;
            Inv(st') && Unmerged(st'.free) && Weight(st'.free) < Weight(st.free)
  {
    var i := FirstNonEmpty(st.free, 6);
    var s := Least(st.free[i]);
    AllocInv(st, 6);
    AllocSplit(st.free, st.out, st.managed, s, i, 6);
    forall t | t == 0 || t == 32 ensures Has(AllocFrom(st.free, s, i, 6), t, 5) {
      SplitDownHas(st.free, s, i, 6, t, 5);
    }
  }

  /** Requests for 64 frames until one fails. */
  lemma {:induction false} Drain(st: State) returns (ops: seq<Op>)
    requires Inv(st) && Unmerged(st.free)
    ensures var st' := Run(st, ops);
            Inv(st') && Unmerged(st'.free) && AllocState(st', 6).1.None?
    decreases Weight(st.free)
  {
    if AllocState(st, 6).1.None? {
      ops := [];
    } else {
      AllocAbove(st);
      var rest := Drain(AllocState(st, 6).0);
      ops := [AllocOp(6)] + rest;
      assert ops[1..] == rest;
    }
  }

  /** A range from frame 0 to frame 64 or beyond: some run ends with 64 aligned frames free and a request for them
      failing. */
  lemma {:induction false} ZeroStartIncomplete(end: nat, order: nat) returns (ops: seq<Op>)
    requires end >= 64 && order > 6
    ensures |AddState(Init(order), 0, end).out| == order
    ensures var st := Run(AddState(Init(order), 0, end), ops);
            Inv(st) && AllocState(st, 6).1.None? && FreeRun(st.free, 0, 6) && !Served(st, 6)
  {
    var st0 := AddState(Init(order), 0, end);
    InitInv(order);
    AddInv(Init(order), 0, end);
    ZeroBlocks(end, order);
    ops := Drain(st0);
    UnmergedRun(Run(st0, ops).free);
  }

  /** The smallest case: of 64 frames added from frame 0, all free, none can be had 64 at a time. */
  lemma ZeroStartExample()
    ensures AllocState(AddState(Init(7), 0, 64), 6).1.None?
    ensures FreeRun(AddState(Init(7), 0, 64).free, 0, 6)
  {
    var e := Empty(7);
    var f := Carve(e, 0, 64);
    LowClasses(64, 7);
    var f2 := Put(Put(e, 0, 5), 32, 5);
    assert f == Carve(Put(e, 0, 5), 32, 64) == Carve(f2, 64, 64) == f2;
    assert FirstNonEmpty(f, 6) == 7;
    UnmergedRun(f);
  }

  /** From one added range: every request after every run is served if and only if the range holds no whole top window
      and does not run from frame 0 to frame 64 or beyond. */
  lemma {:induction false} CompleteIff(start: nat, end: nat, order: nat)
    requires start <= end && order > 0
    ensures |AddState(Init(order), start, end).out| == order
    ensures (forall ops: seq<Op>, k: nat :: Served(Run(AddState(Init(order), start, end), ops), k)) <==>
            !HasTopWindow(start, end, order) && !(start == 0 && end >= 64)
  {
    var st := AddState(Init(order), start, end);
    if HasTopWindow(start, end, order) {
      WindowUnserved(start, end, order);
      assert Run(st, []) == st;
    } else if start == 0 && end >= 64 {
      SmallOrders(end, order);
      var ops := ZeroStartIncomplete(end, order);
      assert !Served(Run(st, ops), 6);
    } else {
      forall ops: seq<Op>, k: nat ensures Served(Run(st, ops), k) { RunComplete(start, end, order, ops, k); }
    }
  }

  /** A whole top window is free at first, but no class holds it. */
  lemma WindowUnserved(start: nat, end: nat, order: nat)
    requires start <= end && order > 0 && HasTopWindow(start, end, order)
    ensures !Served(AddState(Init(order), start, end), order)
  {
    var st := AddState(Init(order), start, end);
    InitInv(order);
    AddInv(Init(order), start, end);
    var w: nat :| Aligned(w, order) && start <= w && w + Pow2(order) <= end;
    forall u | Covers(w, order, u) ensures Covered(st.free, u) { FreeUnits(st.free, st.out, st.managed, u); }
    assert FreeRun(st.free, w, order);
  }

  lemma SmallOrders(end: nat, order: nat)
    requires end >= 64 && !HasTopWindow(0, end, order)
    ensures order > 6
  {
    assert Pow2(6) == 64;
    if order <= 6 {
      Pow2Mono(order, 6);
      assert Aligned(0, order) && 0 + Pow2(order) <= end;
    }
  }

  // ---------------------------------------------------------------- the allocator object

  /** After each split the lowest block of the class below is the one being split. */
  lemma {:induction false} SplitDownLeast(f: Lists, s: nat, i: nat, k: nat)
    requires k <= i < |f| && Has(f, s, i) && s == Least(f[i])
    requires forall c | k <= c < i :: f[c] == {}
    ensures SplitDown(f, s, i, k)[k] != {} && Least(SplitDown(f, s, i, k)[k]) == s
  {
    var g := SplitDown(f, s, i, k);
    SplitDownHas(f, s, i, k, s, k);
    assert Has(g, s, k);
    if k < i {
      forall t | t in g[k] ensures s <= t {
        SplitDownHas(f, s, i, k, t, k);
      }
    }
  }

  lemma {:induction false} HalveInPlace(f: Lists, s: nat, k: nat)
    requires k + 1 < |f|
    ensures var g := f[k := f[k] + {s + Pow2(k)}];
            var h := g[k := g[k] + {s}];
            h[k + 1 := h[k + 1] - {s}] == Halve(f, s, k)
  {
    var g := f[k := f[k] + {s + Pow2(k)}];
    var h := g[k := g[k] + {s}];
    SameLists(h[k + 1 := h[k + 1] - {s}], Halve(f, s, k));
  }

  /** `wordBits` is the width of a frame number (64 on the target). */
  class FrameAllocator {
    const wordBits: nat
    var freeList: seq<set<nat>>
    var used: nat
    var total: nat
    ghost var out: Lists
    ghost var managed: set<nat>

    ghost function StateOf(): State
      reads this
    {
      State(freeList, out, managed, used, total)
    }

    constructor (order: nat, wordBits: nat)
      requires order > 0
      ensures this.wordBits == wordBits
      ensures StateOf() == Init(order) && Inv(StateOf())
    {
      this.wordBits := wordBits;
      freeList := seq(order, _ => {});
      used, total := 0, 0;
      out, managed := Empty(order), {};
      EmptySplit(order);
    }

    method AddFrame(start: nat, end: nat)
      requires Inv(StateOf()) && start <= end < Pow2(wordBits)
      requires managed !! Range(start, end)
      modifies this
      ensures StateOf() == AddState(old(StateOf()), start, end) && Inv(StateOf())
      ensures forall a: nat :: a in managed <==> a in old(managed) || start <= a < end
      ensures total == old(total) + (end - start) && used == old(used) && out == old(out)
    {
      AddInv(StateOf(), start, end);
      var sum := CarveLoop(start, end);
      total := total + sum;
      managed := managed + Range(start, end);
    }

    /** Cut the range into blocks from its start on; `sum` counts their frames. */
    method CarveLoop(start: nat, end: nat) returns (sum: nat)
      requires |freeList| > 0 && start <= end < Pow2(wordBits)
      modifies this`freeList
      ensures freeList == Carve(old(freeList), start, end) && sum == end - start
    {
      sum := 0;
      var current := start;
      while current < end
        invariant start <= current <= end && sum == current - start
        invariant |freeList| == |old(freeList)|
        invariant Carve(freeList, current, end) == Carve(old(freeList), start, end)
      {
        var size := NextBlock(current, end);
        sum := sum + size;
        var c := TrailingZeros(size);
        freeList := freeList[c := freeList[c] + {current}];
        current := current + size;
      }
    }

    /** The size of the next block to carve: aligned, inside the range and of a class that has a list. */
    method NextBlock(current: nat, end: nat) returns (size: nat)
      requires |freeList| > 0 && current < end < Pow2(wordBits)
      ensures size > 0 && TrailingZeros(size) == CarveClass(current, end, |freeList|) &&
              size == Pow2(TrailingZeros(size)) && current + size <= end
    {
      var lowbit := if current > 0 then And(current, (Pow2(wordBits) - 1 - current) + 1) else 32;
      size := Min(Min(lowbit, PrevPowerOfTwo(end - current)), Pow2(|freeList| - 1));
      CarveSize(current, end, |freeList|, wordBits);
      CarveFits(current, end, |freeList|);
    }

    /** The inner empty checks of the source never fire: the assertions below prove it. */
    method AllocPowerOfTwo(size: nat) returns (r: Option<nat>)
      requires Inv(StateOf()) && size > 0 && size == Pow2(TrailingZeros(size))
      modifies this
      ensures (StateOf(), r) == AllocState(old(StateOf()), TrailingZeros(size))
      ensures Inv(StateOf())
    {
      AllocInv(StateOf(), TrailingZeros(size));
      var class_ := TrailingZeros(size);
      var i := class_;
      while i < |freeList|
        invariant class_ <= i
        invariant FirstNonEmpty(freeList, class_) == FirstNonEmpty(freeList, i)
        invariant StateOf() == old(StateOf())
        invariant forall c | class_ <= c < i && c < |freeList| :: freeList[c] == {}
      {
        if freeList[i] != {} {
          SplitLoop(class_, i);
          assert freeList[class_] != {};
          var block := Least(freeList[class_]);
          freeList := freeList[class_ := freeList[class_] - {block}];
          used := used + size;
          out := Put(out, block, class_);
          return Some(block);
        }
        i := i + 1;
      }
      return None;
    }

    /** Split the lowest block of class `j + 1`. */
    method HalveLeast(j: nat)
      requires j + 1 < |freeList| && freeList[j + 1] != {}
      modifies this`freeList
      ensures freeList == Halve(old(freeList), Least(old(freeList)[j + 1]), j)
    {
      var block := Least(freeList[j + 1]);
      HalveInPlace(freeList, block, j);
      freeList := freeList[j := freeList[j] + {block + Pow2(j)}];
      freeList := freeList[j := freeList[j] + {block}];
      freeList := freeList[j + 1 := freeList[j + 1] - {block}];
    }

    /** Split the lowest block of class `i` down to `class_`. */
    method SplitLoop(class_: nat, i: nat)
      requires Inv(StateOf()) && class_ <= i < |freeList| && freeList[i] != {}
      requires forall c | class_ <= c < i :: freeList[c] == {}
      modifies this`freeList
      ensures freeList == SplitDown(old(freeList), Least(old(freeList)[i]), i, class_)
      ensures freeList[class_] != {} && Least(freeList[class_]) == Least(old(freeList)[i])
    {
      ghost var f := freeList;
      ghost var s := Least(f[i]);
      assert Has(f, s, i);
      SplitDownSplit(f, out, managed, s, i, i);
      var j := i;
      while j > class_
        invariant class_ <= j <= i && |freeList| == |f|
        invariant freeList == SplitDown(f, s, i, j)
        invariant freeList[j] != {} && Least(freeList[j]) == s
      {
        HalveLeast(j - 1);
        SplitDownLeast(f, s, i, j - 1);
        j := j - 1;
      }
    }

    method Alloc(count: nat) returns (r: Option<nat>)
      requires Inv(StateOf())
      modifies this
      ensures (StateOf(), r) == AllocState(old(StateOf()), NextClass(count))
      ensures Inv(StateOf())
    {
      TrailingZerosPow2(NextClass(count));
      r := AllocPowerOfTwo(Pow2(NextClass(count)));
    }

    method DeallocPowerOfTwo(start: nat, size: nat)
      requires Inv(StateOf()) && size > 0 && size == Pow2(TrailingZeros(size))
      requires Has(out, start, TrailingZeros(size))
      modifies this
      ensures size <= old(used)
      ensures StateOf() == FreeState(old(StateOf()), start, TrailingZeros(size))
      ensures Inv(StateOf()) <==> !BuddiesFree(old(freeList), start, TrailingZeros(size))
    {
      OutstandingWeight(StateOf(), start, TrailingZeros(size));
      FreeInv(StateOf(), start, TrailingZeros(size));
      var current := start;
      var class_ := TrailingZeros(size);
      var looking := true;
      while looking && class_ < |freeList|
        invariant |freeList| == |old(freeList)|
        invariant used == old(used) && total == old(total) && out == old(out) && managed == old(managed)
        invariant Return(old(freeList), start, TrailingZeros(size)) == if looking
                  then Return(freeList, current, class_) else freeList
        decreases looking, |freeList| - class_
      {
        var buddy := BuddyOf(current, class_);
        if buddy in freeList[class_] {
          freeList := freeList[class_ := freeList[class_] - {buddy}];
          current := Min(current, buddy);
          class_ := class_ + 1;
        } else {
          freeList := freeList[class_ := freeList[class_] + {current}];
          looking := false;
        }
      }
      used := used - size;
      out := Take(out, start, TrailingZeros(size));
    }

    method Dealloc(start: nat, count: nat)
      requires Inv(StateOf()) && Has(out, start, NextClass(count))
      modifies this
      ensures Pow2(NextClass(count)) <= old(used)
      ensures StateOf() == FreeState(old(StateOf()), start, NextClass(count))
      ensures Inv(StateOf()) <==> !BuddiesFree(old(freeList), start, NextClass(count))
    {
      TrailingZerosPow2(NextClass(count));
      DeallocPowerOfTwo(start, Pow2(NextClass(count)));
    }
  }
}
