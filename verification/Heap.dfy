/** The buddy heap: free lists kept inside the free memory itself. */
module Heaps {
  import opened Bits
  import opened Buddy
  import opened Carving
  import opened LinkedLists
  import opened Options
  import opened Sequences

  /** Bytes per word: `size_of::<usize>()`. */
  const WORD := 8

  function Sets(l: seq<seq<nat>>): (r: Lists)
    ensures |r| == |l|
  {
    seq(|l|, k requires 0 <= k < |l| => SetOf(l[k]))
  }

  lemma HasSets(l: seq<seq<nat>>)
    ensures forall s, k: nat :: Has(Sets(l), s, k) <==> k < |l| && s in l[k]
  {
  }

  lemma AbsentSets(l: seq<seq<nat>>, x: nat)
    ensures Absent(l, x) <==> forall k: nat :: !Has(Sets(l), x, k)
  {
    if Absent(l, x) {
      forall k: nat ensures !Has(Sets(l), x, k) {}
    } else {
      var k :| 0 <= k < |l| && x in l[k];
      assert Has(Sets(l), x, k);
    }
  }

  /** No block of a disjoint family starts strictly inside another. */
  lemma {:induction false} InnerAbsent(f: Lists, s: nat, k: nat, x: nat)
    requires Disjoint(f) && Has(f, s, k) && s < x < s + Pow2(k)
    ensures forall c: nat :: !Has(f, x, c)
  {
    forall c: nat | Has(f, x, c) ensures false {
      assert Holds(f, s, k, x) && Holds(f, x, c, x);
    }
  }

  function EmptyLists(order: nat): (r: seq<seq<nat>>)
    ensures |r| == order && forall k | 0 <= k < order :: r[k] == []
  {
    seq(order, _ => [])
  }

  // ---------------------------------------------------------------- splitting on lists

  /** One split: the head of class j+1 becomes the two first blocks of class j, lower half first. */
  function SplitHead(l: seq<seq<nat>>, j: nat): (r: seq<seq<nat>>)
    requires j + 1 < |l| && l[j + 1] != []
    ensures |r| == |l|
  {
    var s := l[j + 1][0];
    l[j + 1 := l[j + 1][1..]][j := [s, s + Pow2(j)] + l[j]]
  }

  function ListSplit(l: seq<seq<nat>>, i: nat, j: nat): (r: seq<seq<nat>>)
    requires j <= i < |l| && l[i] != []
    ensures |r| == |l| && r[j] != [] && r[j][0] == l[i][0]
    decreases i - j
  {
    if j == i then l else SplitHead(ListSplit(l, i, j + 1), j)
  }

  lemma SeparateList(l: seq<seq<nat>>, k: nat)
    requires Separate(l) && k < |l|
    ensures NoRepeats(l[k])
  {
    var s := l[k];
    forall i: nat, j: nat, x: nat | Nth(s, i, x) && Nth(s, j, x) ensures i == j {
      assert At(l, k, i, x) && At(l, k, j, x);
    }
  }

  lemma TailSet(s: seq<nat>)
    requires s != [] && NoRepeats(s)
    ensures SetOf(s[1..]) == SetOf(s) - {s[0]}
  {
    var t := s[1..];
    assert s == [s[0]] + t;
    forall j: nat | j < |t| ensures t[j] != s[0] { Differ(s, 0, j + 1); }
    assert s[0] !in t;
    assert forall x :: x in s <==> x == s[0] || x in t;
  }

  lemma SplitHeadSets(l: seq<seq<nat>>, j: nat)
    requires Separate(l) && j + 1 < |l| && l[j + 1] != []
    ensures Sets(SplitHead(l, j)) == Halve(Sets(l), l[j + 1][0], j)
  {
    var s := l[j + 1][0];
    SeparateList(l, j + 1);
    TailSet(l[j + 1]);
    var r := SplitHead(l, j);
    assert SetOf(r[j]) == SetOf(l[j]) + {s + Pow2(j)} + {s};
  }

  // ---------------------------------------------------------------- merging on lists

  function IndexOf(s: seq<nat>, x: nat): (n: nat)
    requires x in s
    ensures n < |s| && s[n] == x && x !in s[..n]
  {
    if s[0] == x then 0
    else
      assert s[1..][IndexOf(s[1..], x)] == x;
      assert s[..1 + IndexOf(s[1..], x)] == [s[0]] + s[1..][..IndexOf(s[1..], x)];
      1 + IndexOf(s[1..], x)
  }

  /** One merge: the buddy leaves its list, the block is popped, and their union is pushed one class up. */
  function MergeHead(l: seq<seq<nat>>, k: nat): (r: seq<seq<nat>>)
    requires k + 1 < |l| && l[k] != [] && BuddyOf(l[k][0], k) in l[k]
    ensures |r| == |l| && r[k + 1] != [] && r[k + 1][0] == Min(l[k][0], BuddyOf(l[k][0], k))
  {
    var s := l[k][0];
    var n := IndexOf(l[k], BuddyOf(s, k));
    l[k := RemoveAt(l[k], n)[1..]][k + 1 := [Min(s, BuddyOf(s, k))] + l[k + 1]]
  }

  function ListMerge(l: seq<seq<nat>>, k: nat): (r: seq<seq<nat>>)
    requires k < |l| && l[k] != []
    ensures |r| == |l|
    decreases |l| - k
  {
    if k + 1 < |l| && BuddyOf(l[k][0], k) in l[k] then ListMerge(MergeHead(l, k), k + 1) else l
  }

  lemma RemoveSet(s: seq<nat>, n: nat)
    requires n < |s| && NoRepeats(s)
    ensures SetOf(RemoveAt(s, n)) == SetOf(s) - {s[n]}
    ensures NoRepeats(RemoveAt(s, n))
  {
    var t := s[..n] + s[n + 1..];
    NoRepeatsWithout(s, n);
    assert RemoveAt(s, n) == t;
    assert forall x :: x in t <==> x in s && x != s[n];
  }

  lemma MergeHeadSets(l: seq<seq<nat>>, k: nat)
    requires Separate(l) && k + 1 < |l| && l[k] != [] && BuddyOf(l[k][0], k) in l[k]
    ensures IndexOf(l[k], BuddyOf(l[k][0], k)) > 0
    ensures Sets(MergeHead(l, k)) == Join(Sets(l), l[k][0], k)
  {
    var s := l[k][0];
    var b := BuddyOf(s, k);
    var n := IndexOf(l[k], b);
    SeparateList(l, k);
    RemoveSet(l[k], n);
    var t := RemoveAt(l[k], n);
    assert b != s;
    assert t[0] == s;
    TailSet(t);
    var r := MergeHead(l, k);
    assert SetOf(r[k]) == SetOf(l[k]) - {s} - {b};
    assert SetOf(r[k + 1]) == SetOf(l[k + 1]) + {Min(s, b)};
  }

  /** Merging the head of class `k` goes on with the merged lists one class up. */
  lemma MergeUnfolds(l: seq<seq<nat>>, k: nat)
    requires Separate(l) && k + 1 < |l| && l[k] != [] && BuddyOf(l[k][0], k) in l[k]
    ensures ListMerge(l, k) == ListMerge(MergeHead(l, k), k + 1)
    ensures Coalesce(Sets(l), l[k][0], k) == Coalesce(Sets(MergeHead(l, k)), Min(l[k][0], BuddyOf(l[k][0], k)), k + 1)
  {
    HasSets(l);
    MergeHeadSets(l, k);
    assert Has(Sets(l), BuddyOf(l[k][0], k), k);
  }

  /** Where the buddy is not in the list, merging is over. */
  lemma MergeStops(l: seq<seq<nat>>, k: nat)
    requires k < |l| && l[k] != [] && BuddyOf(l[k][0], k) !in l[k]
    ensures ListMerge(l, k) == l && Coalesce(Sets(l), l[k][0], k) == Sets(l)
    ensures Aligned(l[k][0], k) ==> !BuddiesFree(Sets(l), l[k][0], k)
  {
    HasSets(l);
    assert Covers(l[k][0], k, l[k][0]);
  }

  /** Whether all buddies are free does not change with a merge. */
  lemma MergeClimbs(l: seq<seq<nat>>, k: nat)
    requires Separate(l) && k + 1 < |l| && l[k] != [] && BuddyOf(l[k][0], k) in l[k] && Aligned(l[k][0], k)
    ensures BuddiesFree(Sets(l), l[k][0], k) <==>
            BuddiesFree(Sets(MergeHead(l, k)), Min(l[k][0], BuddyOf(l[k][0], k)), k + 1)
  {
    var f, s := Sets(l), l[k][0];
    HasSets(l);
    MergeHeadSets(l, k);
    HasJoin(f, s, k);
    BuddiesUp(f, Join(f, s, k), s, k);
  }

  /** Merging the head of class `k` of `l` comes to the same as merging the head of class `k'` of `l'`. */
  ghost predicate SameMerge(l: seq<seq<nat>>, k: nat, l': seq<seq<nat>>, k': nat) {
    && k < |l| == |l'| && k' < |l| && l[k] != [] && l'[k'] != []
    && ListMerge(l, k) == ListMerge(l', k') && Coalesce(Sets(l), l[k][0], k) == Coalesce(Sets(l'), l'[k'][0], k')
    && (BuddiesFree(Sets(l), l[k][0], k) <==> BuddiesFree(Sets(l'), l'[k'][0], k'))
  }

  lemma SameMergeNext(l0: seq<seq<nat>>, k0: nat, l: seq<seq<nat>>, k: nat, l': seq<seq<nat>>)
    requires SameMerge(l0, k0, l, k)
    requires Separate(l) && k + 1 < |l| && BuddyOf(l[k][0], k) in l[k] && Aligned(l[k][0], k) && l' == MergeHead(l, k)
    ensures SameMerge(l0, k0, l', k + 1) && l'[k + 1][0] == Min(l[k][0], BuddyOf(l[k][0], k))
  {
    MergeUnfolds(l, k);
    MergeClimbs(l, k);
  }

  /** How merging ends, told from where it began. */
  lemma SameMergeEnds(l0: seq<seq<nat>>, k0: nat, l: seq<seq<nat>>, k: nat)
    requires SameMerge(l0, k0, l, k) && Aligned(l[k][0], k)
    ensures BuddyOf(l[k][0], k) !in l[k] ==>
            ListMerge(l0, k0) == l && Coalesce(Sets(l0), l0[k0][0], k0) == Sets(l) &&
            !BuddiesFree(Sets(l0), l0[k0][0], k0)
    ensures BuddyOf(l[k][0], k) in l[k] && k + 1 == |l| ==> BuddiesFree(Sets(l0), l0[k0][0], k0)
  {
    if BuddyOf(l[k][0], k) !in l[k] { MergeStops(l, k); } else if k + 1 == |l| { TopBuddyFree(l, k); }
  }

  /** In the top class only one buddy is left to be free. */
  lemma TopBuddyFree(l: seq<seq<nat>>, k: nat)
    requires k + 1 == |l| && l[k] != [] && BuddyOf(l[k][0], k) in l[k] && Aligned(l[k][0], k)
    ensures BuddiesFree(Sets(l), l[k][0], k)
  {
    HasSets(l);
    forall t | Aligned(t, k) && Covers(t, k, l[k][0]) ensures t == l[k][0] { SameClass(t, l[k][0], k, l[k][0]); }
  }

  // ---------------------------------------------------------------- requested bytes

  /** The sum of the sizes of all live requests. */
  ghost function Requested(m: map<nat, nat>): nat
    decreases |m|
  {
    if m == map[] then 0 else
      var a :| a in m;
      m[a] + Requested(m - {a})
  }

  lemma {:induction false} RequestedRemove(m: map<nat, nat>, x: nat)
    requires x in m
    ensures Requested(m) == m[x] + Requested(m - {x})
    decreases |m|
  {
    var a :| a in m && Requested(m) == m[a] + Requested(m - {a});
    if a != x {
      RequestedRemove(m - {a}, x);
      RequestedRemove(m - {x}, a);
      assert m - {a} - {x} == m - {x} - {a};
    }
  }

  lemma RequestedAdd(m: map<nat, nat>, x: nat, v: nat)
    requires x !in m
    ensures Requested(m[x := v]) == Requested(m) + v
  {
    RequestedRemove(m[x := v], x);
    assert m[x := v] - {x} == m;
  }

  // ---------------------------------------------------------------- invariant

  datatype State = State(links: Links, lists: seq<seq<nat>>, out: Lists, managed: set<nat>,
                         requests: map<nat, nat>, user: nat, used: nat, total: nat)

  /** Every block is at least a word. */
  ghost predicate WordBlocks(b: Lists) { forall s, k :: Has(b, s, k) ==> k >= 3 }

  /** Managed memory excludes the null address and every managed word is backed by memory. */
  ghost predicate Backed(mem: Memory, managed: set<nat>) {
    0 !in managed && forall a | a in managed && a % WORD == 0 :: a in mem
  }

  /** Free and outstanding blocks tile the heap. */
  ghost predicate Blocks(lists: seq<seq<nat>>, out: Lists, managed: set<nat>) {
    && |lists| > 0
    && Split(Sets(lists), out, managed)
    && WordBlocks(Sets(lists)) && WordBlocks(out)
  }

  ghost predicate Shape(l: Links, lists: seq<seq<nat>>, out: Lists, managed: set<nat>) {
    LinksOk(l, lists) && Blocks(lists, out, managed) && Backed(l.mem, managed)
  }

  /** Exactly the outstanding blocks have a recorded request. */
  ghost predicate Live(requests: map<nat, nat>, o: Lists) {
    forall a :: a in requests <==> exists k :: Has(o, a, k)
  }

  /** The lists are well formed in memory, the blocks tile the heap and the counters account for them. */
  ghost predicate Inv(st: State) {
    && Shape(st.links, st.lists, st.out, st.managed)
    && Weight(st.out) == st.used
    && Weight(Sets(st.lists)) + st.used == st.total
    && Live(st.requests, st.out)
    && Requested(st.requests) == st.user
  }

  /** Nothing inside the blocks `o` has been written. */
  ghost predicate Untouched(m: Memory, m': Memory, o: Lists) {
    m'.Keys == m.Keys && forall a | a in m && Covered(o, a) :: m'[a] == m[a]
  }

  lemma AlignedWord(s: nat, k: nat)
    requires Aligned(s, k) && k >= 3
    ensures s % WORD == 0
  {
    AlignedBelow(s, 3, k);
    AlignedEight(s);
  }

  lemma {:induction false} AlignedEight(s: nat)
    ensures Aligned(s, 3) <==> s % WORD == 0
    ensures ClearLow(s, 3) == s - s % WORD
  {
    assert LowBitsZero(s / 2 / 2, 1) <==> s / 2 / 2 % 2 == 0;
    assert LowBitsZero(s / 2, 2) <==> s / 2 % 2 == 0 && LowBitsZero(s / 2 / 2, 1);
    assert ClearLow(s / 2 / 2, 1) == 2 * (s / 2 / 2 / 2);
    assert ClearLow(s / 2, 2) == 2 * ClearLow(s / 2 / 2, 1);
  }

  /** A word inside a free or outstanding block is a nonnull word of memory. */
  lemma BlockWord(mem: Memory, f: Lists, out: Lists, managed: set<nat>, s: nat, k: nat, x: nat)
    requires Split(f, out, managed) && Backed(mem, managed) && (Has(f, s, k) || Has(out, s, k))
    requires Covers(s, k, x) && x % WORD == 0
    ensures x in mem && x != 0
  {
    SplitParts(f, out, managed);
    assert Holds(f, s, k, x) || Holds(out, s, k, x);
  }

  /** Writing a word of a free block leaves outstanding blocks alone. */
  lemma FreeWrite(mem: Memory, f: Lists, out: Lists, managed: set<nat>, x: nat, v: nat)
    requires Split(f, out, managed) && Covered(f, x) && x in mem
    ensures Untouched(mem, mem[x := v], out)
  {
    FreeUnits(f, out, managed, x);
  }

  lemma UntouchedTrans(m0: Memory, m1: Memory, m2: Memory, o: Lists)
    requires Untouched(m0, m1, o) && Untouched(m1, m2, o)
    ensures Untouched(m0, m2, o)
  {
  }

  lemma SameMemory(m: Memory, o: Lists)
    ensures Untouched(m, m, o)
  {
  }

  // ---------------------------------------------------------------- one split in memory

  lemma {:induction false} SplitLinks(l: Links, lists: seq<seq<nat>>, j: nat)
    requires LinksOk(l, lists) && j + 1 < |lists| && lists[j + 1] != []
    requires Absent(lists, lists[j + 1][0] + Pow2(j))
    ensures var s := lists[j + 1][0];
            && l.heads[j + 1] == s && s in l.mem && s != 0
            && LinksOk(Push(Push(Pop(l, j + 1), j, s + Pow2(j)), j, s), SplitHead(lists, j))
  {
    var s := lists[j + 1][0];
    var u := s + Pow2(j);
    PopOk(l, lists, j + 1);
    var l1, lists1 := Pop(l, j + 1), lists[j + 1 := lists[j + 1][1..]];
    forall k | 0 <= k < |lists1| ensures u !in lists1[k] {
      assert u !in lists[k];
    }
    PushOk(l1, lists1, j, u);
    var l2, lists2 := Push(l1, j, u), lists1[j := [u] + lists1[j]];
    assert s !in lists1[j];
    PushOk(l2, lists2, j, s);
    assert [s] + ([u] + lists[j]) == [s, u] + lists[j];
    assert lists2[j := [s] + lists2[j]] == SplitHead(lists, j);
  }

  lemma {:induction false} SplitBlocks(lists: seq<seq<nat>>, out: Lists, managed: set<nat>, j: nat)
    requires Separate(lists) && Blocks(lists, out, managed)
    requires 3 <= j && j + 1 < |lists| && lists[j + 1] != []
    ensures var s := lists[j + 1][0];
            && Has(Sets(lists), s, j + 1)
            && Sets(SplitHead(lists, j)) == Halve(Sets(lists), s, j) && Blocks(SplitHead(lists, j), out, managed)
            && Absent(lists, s + Pow2(j)) && s % WORD == 0 && (s + Pow2(j)) % WORD == 0
  {
    var s := lists[j + 1][0];
    var f, u := Sets(lists), s + Pow2(j);
    HasSets(lists);
    assert Has(f, s, j + 1);
    SplitParts(f, out, managed);
    Halves(s, j);
    AlignedWord(s, j + 1);
    AlignedWord(u, j);
    assert Absent(lists, u) by {
      InnerAbsent(f, s, j + 1, u);
      AbsentSets(lists, u);
    }
    SplitHalve(f, out, managed, s, j);
    SplitHeadSets(lists, j);
    HasHalve(f, s, j);
  }

  /** Splitting the head of class j+1 inside memory: pop it, push its upper half, push it back one class down. */
  lemma {:induction false} SplitStep(l: Links, lists: seq<seq<nat>>, out: Lists, managed: set<nat>, j: nat)
    requires Shape(l, lists, out, managed) && 3 <= j && j + 1 < |lists| && lists[j + 1] != []
    ensures var s := lists[j + 1][0];
            && l.heads[j + 1] == s && s in l.mem
            && var l' := Push(Push(Pop(l, j + 1), j, s + Pow2(j)), j, s);
               Shape(l', SplitHead(lists, j), out, managed) && Untouched(l.mem, l'.mem, out)
  {
    var s := lists[j + 1][0];
    var u := s + Pow2(j);
    var f := Sets(lists);
    SplitBlocks(lists, out, managed, j);
    SplitLinks(l, lists, j);
    assert Holds(f, s, j + 1, s) && Holds(f, s, j + 1, u);
    BlockWord(l.mem, f, out, managed, s, j + 1, u);
    var l1 := Pop(l, j + 1);
    var l2 := Push(l1, j, u);
    FreeWrite(l.mem, f, out, managed, u, l1.heads[j]);
    FreeWrite(l2.mem, f, out, managed, s, u);
    UntouchedTrans(l.mem, l2.mem, l2.mem[s := u], out);
  }

  // ---------------------------------------------------------------- one merge in memory

  lemma MergeLinks(l: Links, lists: seq<seq<nat>>, k: nat)
    requires LinksOk(l, lists) && k + 1 < |lists| && lists[k] != [] && BuddyOf(lists[k][0], k) in lists[k]
    requires IndexOf(lists[k], BuddyOf(lists[k][0], k)) > 0
    ensures var s := lists[k][0];
            var b := BuddyOf(s, k);
            var n := IndexOf(lists[k], b);
            && b in l.mem
            && var l1 := Unlink(l, k, lists[k][n - 1], b);
               && l1.heads[k] == s && s in l1.mem
               && LinksOk(Push(Pop(l1, k), k + 1, Min(s, b)), MergeHead(lists, k))
  {
    var s := lists[k][0];
    var b := BuddyOf(s, k);
    var n := IndexOf(lists[k], b);
    UnlinkOk(l, lists, k, n);
    var l1, lists1 := Unlink(l, k, lists[k][n - 1], b), lists[k := RemoveAt(lists[k], n)];
    assert lists[k][n - 1] != 0 by { assert Linked(l.mem, l.heads[k], lists[k]); }
    RemoveSeparate(lists, k, n);
    assert lists1[k][0] == s;
    PopOk(l1, lists1, k);
    var l2, lists2 := Pop(l1, k), lists1[k := lists1[k][1..]];
    forall c | 0 <= c < |lists2| ensures b !in lists2[c] { assert b !in lists1[c]; }
    assert Linked(l.mem, l.heads[k], lists[k]);
    PushOk(l2, lists2, k + 1, Min(s, b));
    assert lists2[k + 1 := [Min(s, b)] + lists2[k + 1]] == MergeHead(lists, k);
  }

  lemma MergeBlocks(lists: seq<seq<nat>>, out: Lists, managed: set<nat>, k: nat)
    requires Separate(lists) && Blocks(lists, out, managed)
    requires k + 1 < |lists| && lists[k] != [] && BuddyOf(lists[k][0], k) in lists[k]
    ensures var s := lists[k][0];
            && Has(Sets(lists), s, k) && Has(Sets(lists), BuddyOf(s, k), k)
            && IndexOf(lists[k], BuddyOf(s, k)) > 0
            && Sets(MergeHead(lists, k)) == Join(Sets(lists), s, k)
            && Blocks(MergeHead(lists, k), out, managed)
  {
    var s := lists[k][0];
    var f := Sets(lists);
    HasSets(lists);
    assert Has(f, s, k) && Has(f, BuddyOf(s, k), k);
    SplitJoin(f, out, managed, s, k);
    MergeHeadSets(lists, k);
    HasJoin(f, s, k);
  }

  /** Merging the head of class k with its buddy inside memory: unlink the buddy, pop, push the union one class up. */
  lemma MergeStep(l: Links, lists: seq<seq<nat>>, out: Lists, managed: set<nat>, k: nat)
    requires Shape(l, lists, out, managed)
    requires k + 1 < |lists| && lists[k] != [] && BuddyOf(lists[k][0], k) in lists[k]
    ensures var s := lists[k][0];
            var b := BuddyOf(s, k);
            var n := IndexOf(lists[k], b);
            && n > 0 && b in l.mem
            && var l1 := Unlink(l, k, lists[k][n - 1], b);
               && l1.heads[k] == s && s in l1.mem
               && var l' := Push(Pop(l1, k), k + 1, Min(s, b));
                  Shape(l', MergeHead(lists, k), out, managed) && Untouched(l.mem, l'.mem, out)
  {
    var s := lists[k][0];
    var b := BuddyOf(s, k);
    var f := Sets(lists);
    MergeBlocks(lists, out, managed, k);
    MergeLinks(l, lists, k);
    var n := IndexOf(lists[k], b);
    var p := lists[k][n - 1];
    HasSets(lists);
    assert Holds(f, p, k, p) && Holds(f, s, k, s) && Holds(f, b, k, b);
    MemberWord(l, lists, k, n - 1);
    MemberWord(l, lists, k, n);
    MemberWord(l, lists, k, 0);
    FreeWrite(l.mem, f, out, managed, p, l.mem[b]);
    var l2 := Pop(Unlink(l, k, p, b), k);
    FreeWrite(l2.mem, f, out, managed, Min(s, b), l2.heads[k + 1]);
    UntouchedTrans(l.mem, l2.mem, l2.mem[Min(s, b) := l2.heads[k + 1]], out);
  }

  lemma MemberWord(l: Links, lists: seq<seq<nat>>, k: nat, n: nat)
    requires LinksOk(l, lists) && k < |lists| && n < |lists[k]|
    ensures lists[k][n] in l.mem && lists[k][n] != 0
  {
    assert Linked(l.mem, l.heads[k], lists[k]);
  }

  /** Putting an outstanding block back on its list writes only inside that block. */
  lemma FreeStep(l: Links, lists: seq<seq<nat>>, out: Lists, managed: set<nat>, s: nat, k: nat)
    requires Shape(l, lists, out, managed) && Has(out, s, k)
    ensures var l' := Push(l, k, s);
            var lists' := lists[k := [s] + lists[k]];
            && Shape(l', lists', Take(out, s, k), managed)
            && Untouched(l.mem, l'.mem, Take(out, s, k))
            && Sets(lists') == Put(Sets(lists), s, k) && !Has(Sets(lists), s, k)
  {
    var f := Sets(lists);
    var lists' := lists[k := [s] + lists[k]];
    SplitParts(f, out, managed);
    AlignedWord(s, k);
    OneBlockAt(f, out, managed, s, k);
    BlockWord(l.mem, f, out, managed, s, k, s);
    AbsentSets(lists, s);
    PushOk(l, lists, k, s);
    assert SetOf(lists'[k]) == SetOf(lists[k]) + {s};
    SameLists(Sets(lists'), Put(f, s, k));
    SplitMove(f, out, managed, s, k);
    HasMove(out, f, s, k);
    assert Holds(Put(f, s, k), s, k, s);
    FreeWrite(l.mem, Put(f, s, k), Take(out, s, k), managed, s, l.heads[k]);
  }

  /** Popping the head of class k hands it out without writing memory. */
  lemma TakeStep(l: Links, lists: seq<seq<nat>>, out: Lists, managed: set<nat>, k: nat)
    requires Shape(l, lists, out, managed) && k < |lists| && lists[k] != []
    ensures var s := lists[k][0];
            var lists' := lists[k := lists[k][1..]];
            && l.heads[k] == s && s in l.mem && s != 0 && Has(Sets(lists), s, k)
            && Shape(Pop(l, k), lists', Put(out, s, k), managed)
            && Sets(lists') == Take(Sets(lists), s, k)
  {
    var s := lists[k][0];
    var f := Sets(lists);
    var lists' := lists[k := lists[k][1..]];
    PopOk(l, lists, k);
    SeparateList(lists, k);
    TailSet(lists[k]);
    HasSets(lists);
    SameLists(Sets(lists'), Take(f, s, k));
    SplitMove(f, out, managed, s, k);
    HasMove(f, out, s, k);
  }

  // ---------------------------------------------------------------- adding memory

  function ListCarve(l: seq<seq<nat>>, s: nat, end: nat): (r: seq<seq<nat>>)
    requires |l| > 0
    ensures |r| == |l|
    decreases end - s
  {
    if s >= end then l
    else
      var k := CarveClass(s, end, |l|);
      ListCarve(l[k := [s] + l[k]], s + Pow2(k), end)
  }

  lemma {:induction false} ListCarveSets(l: seq<seq<nat>>, s: nat, end: nat)
    requires |l| > 0
    ensures Sets(ListCarve(l, s, end)) == Carve(Sets(l), s, end)
    decreases end - s
  {
    if s < end {
      var k := CarveClass(s, end, |l|);
      var l' := l[k := [s] + l[k]];
      assert SetOf(l'[k]) == SetOf(l[k]) + {s};
      SameLists(Sets(l'), Put(Sets(l), s, k));
      ListCarveSets(l', s + Pow2(k), end);
    }
  }

  /** A whole aligned window of 2^order bytes starts at `s`. */
  predicate WindowAt(s: nat, end: nat, order: nat) { Aligned(s, order) && s + Pow2(order) <= end }

  /** The uncapped size of the carving loop is a power of two whose class has a list exactly when no whole top window
      starts here, and is then the carved class. */
  lemma {:induction false} WordCarve(s: nat, end: nat, order: nat, wordBits: nat)
    requires 0 < s < end < Pow2(wordBits) && order > 0 && s % WORD == 0 && end % WORD == 0
    ensures var size := Min(And(s, (Pow2(wordBits) - 1 - s) + 1), PrevPowerOfTwo(end - s));
            size > 0 && var k := TrailingZeros(size);
              && size == Pow2(k) && (k < order <==> !WindowAt(s, end, order))
              && (k < order ==> k == CarveClass(s, end, order))
  {
    var a, b := TrailingZeros(s), BitLength(end - s) - 1;
    WordCarveClass(s, end, order);
    LowBit(s, wordBits);
    MinPow2(a, b);
    TrailingZerosPow2(Min(a, b));
  }

  lemma WordCarveNext(s: nat, end: nat, order: nat)
    requires 0 < s < end && order > 0 && s % WORD == 0 && end % WORD == 0 && !WindowAt(s, end, order)
    ensures var k := CarveClass(s, end, order);
            3 <= k < order && Aligned(s, k) && s + Pow2(k) <= end && (s + Pow2(k)) % WORD == 0
  {
    var k := CarveClass(s, end, order);
    WordCarveClass(s, end, order);
    CarveFits(s, end, order);
    TrailingZerosPow2(k);
    AlignedWord(Pow2(k), k);
    WordSum(s, Pow2(k));
  }

  lemma WordSum(a: nat, b: nat)
    requires a % WORD == 0 && b % WORD == 0
    ensures (a + b) % WORD == 0
  {
  }

  lemma {:induction false} WordCarveClass(s: nat, end: nat, order: nat)
    requires 0 < s < end && order > 0 && s % WORD == 0 && end % WORD == 0
    ensures BitLength(end - s) > 3 && 3 <= Min(TrailingZeros(s), BitLength(end - s) - 1)
    ensures Min(TrailingZeros(s), BitLength(end - s) - 1) < order <==> !WindowAt(s, end, order)
  {
    assert Pow2(3) == 8;
    AlignedEight(s);
    TrailingZerosAligned(s, 3);
    HighBit(end - s, 3);
    TrailingZerosAligned(s, order);
    if Min(TrailingZeros(s), BitLength(end - s) - 1) >= order {
      BitLengthBounds(end - s);
      Pow2Mono(order, BitLength(end - s) - 1);
    } else if WindowAt(s, end, order) {
      HighBit(end - s, order);
    }
  }

  /** Whole top windows of `[first, end)` start at `s` or later. */
  ghost predicate WindowsFrom(first: nat, s: nat, end: nat, order: nat) {
    forall w | first <= w && WindowAt(w, end, order) :: s <= w
  }

  lemma NoWindows(first: nat, end: nat, order: nat)
    requires WindowsFrom(first, end, end, order)
    ensures !HasTopWindow(first, end, order)
  {
    forall w: nat | Aligned(w, order) && first <= w ensures w + Pow2(order) > end {
      assert WindowAt(w, end, order) ==> end <= w;
    }
  }

  /** No window starts inside a carved block. */
  lemma WindowsNext(first: nat, s: nat, end: nat, order: nat)
    requires 0 < s < end && order > 0 && s % WORD == 0 && end % WORD == 0
    requires WindowsFrom(first, s, end, order) && !WindowAt(s, end, order)
    ensures WindowsFrom(first, s + Pow2(CarveClass(s, end, order)), end, order)
  {
    var k := CarveClass(s, end, order);
    WordCarveNext(s, end, order);
    forall w | first <= w && WindowAt(w, end, order) ensures s + Pow2(k) <= w {
      if w < s + Pow2(k) { Nested(s, k, w, order, w); }
    }
  }

  lemma {:induction false} CarveStep(l: Links, lists: seq<seq<nat>>, out: Lists, managed: set<nat>, s: nat, k: nat)
    requires Shape(l, lists, out, managed) && 3 <= k < |lists| && s > 0 && Aligned(s, k)
    requires managed !! Range(s, s + Pow2(k))
    requires forall a | a in Range(s, s + Pow2(k)) && a % WORD == 0 :: a in l.mem
    ensures var l' := Push(l, k, s);
            && Shape(l', lists[k := [s] + lists[k]], out, managed + Range(s, s + Pow2(k)))
            && Untouched(l.mem, l'.mem, out)
  {
    var f := Sets(lists);
    var lists' := lists[k := [s] + lists[k]];
    var managed' := managed + Range(s, s + Pow2(k));
    PutSplit(f, out, managed, s, k);
    SplitParts(f, out, managed);
    AlignedWord(s, k);
    assert s in Range(s, s + Pow2(k));
    forall c: nat ensures !Has(f, s, c) {
      assert Has(f, s, c) ==> Holds(f, s, c, s);
    }
    AbsentSets(lists, s);
    PushOk(l, lists, k, s);
    assert SetOf(lists'[k]) == SetOf(lists[k]) + {s};
    SameLists(Sets(lists'), Put(f, s, k));
    HasMove(f, f, s, k);
    assert Holds(Put(f, s, k), s, k, s);
    FreeWrite(l.mem, Put(f, s, k), out, managed', s, l.heads[k]);
  }

  // ---------------------------------------------------------------- requests

  /** The class that serves a request of `size` bytes aligned to the power of two `align`. */
  function RequestClass(size: nat, align: nat): nat
    requires align > 0
  {
    Max(NextClass(size), Max(TrailingZeros(align), 3))
  }

  lemma {:induction false} RequestBytes(size: nat, align: nat)
    requires align > 0 && align == Pow2(TrailingZeros(align))
    ensures var bytes := Max(Pow2(NextClass(size)), Max(align, WORD));
            && bytes == Pow2(RequestClass(size, align)) && TrailingZeros(bytes) == RequestClass(size, align)
            && bytes >= size && bytes >= align && bytes >= WORD
    ensures forall k | 0 <= k < RequestClass(size, align) ::
              Pow2(k) < size || Pow2(k) < align || Pow2(k) < WORD
  {
    assert Pow2(3) == 8;
    forall k | 0 <= k < RequestClass(size, align) ensures Pow2(k) < size || Pow2(k) < align || Pow2(k) < WORD {
      if k >= NextClass(size) {
        var j := Max(TrailingZeros(align), 3);
        Pow2Mono(k + 1, j);
      }
    }
    MaxPow2(TrailingZeros(align), 3);
    MaxPow2(NextClass(size), Max(TrailingZeros(align), 3));
    TrailingZerosPow2(RequestClass(size, align));
  }

  function AlignUp(a: nat): (r: nat)
    ensures r % WORD == 0 && a <= r < a + WORD
  {
    (a + (WORD - 1)) - (a + (WORD - 1)) % WORD
  }

  function AlignDown(a: nat): (r: nat)
    ensures r % WORD == 0 && r <= a < r + WORD
  {
    a - a % WORD
  }

  /** The range, rounded inwards to words, can be added: it is empty, or does not start at 0, and holds no whole aligned
      window of 2^order bytes. */
  ghost predicate Addable(start: nat, end: nat, order: nat) {
    && AlignUp(start) <= AlignDown(end) && (AlignUp(start) == 0 ==> AlignDown(end) == 0)
    && !HasTopWindow(AlignUp(start), AlignDown(end), order)
  }

  /** `a & (!8 + 1)` rounds down to a word. */
  lemma WordMask(a: nat, wordBits: nat)
    requires a < Pow2(wordBits) && 3 <= wordBits
    ensures Pow2(wordBits) >= 8
    ensures And(a, (Pow2(wordBits) - 1 - WORD) + 1) == a - a % WORD
  {
    assert Pow2(3) == 8;
    MaskLow(a, wordBits, 3);
    AlignedEight(a);
  }

  lemma {:induction false} FirstIndex(s: seq<nat>, x: nat, n: nat)
    requires n < |s| && s[n] == x && x !in s[..n]
    ensures IndexOf(s, x) == n
  {
    if n > 0 {
      assert s[..n][0] == s[0];
      assert s[1..][..n - 1] == s[..n][1..];
      FirstIndex(s[1..], x, n - 1);
    }
  }

  /** Counters and live requests after a block of class k has been taken from class i. */
  lemma {:induction false} AllocAccounts(st: State, s: nat, i: nat, k: nat, size: nat)
    requires Inv(st) && k <= i && Has(Sets(st.lists), s, i)
    requires forall c | k <= c < i :: Sets(st.lists)[c] == {}
    ensures var f := AllocFrom(Sets(st.lists), s, i, k);
            var o := Put(st.out, s, k);
            && Weight(o) == st.used + Pow2(k) && Weight(f) + Weight(o) == st.total
            && Live(st.requests[s := size], o)
            && Requested(st.requests[s := size]) == st.user + size
            && FreeRun(Sets(st.lists), s, k)
            && (NoBuddies(Sets(st.lists)) ==> NoBuddies(f))
  {
    var f := Sets(st.lists);
    AllocSplit(f, st.out, st.managed, s, i, k);
    SplitParts(f, st.out, st.managed);
    HasMove(f, st.out, s, k);
    AlignedBelow(s, k, i);
    Pow2Mono(k, i);
    assert forall u :: Covers(s, k, u) ==> Holds(f, s, i, u);
    OneBlockAt(f, st.out, st.managed, s, i);
    RequestedAdd(st.requests, s, size);
    if NoBuddies(f) { AllocNoBuddies(f, |f|, s, i, k); }
    var o := Put(st.out, s, k);
    var m := st.requests[s := size];
    forall a ensures a in m <==> exists c :: Has(o, a, c) {
      if a in st.requests && a != s { var c :| Has(st.out, a, c); assert Has(o, a, c); }
      if a == s { assert Has(o, a, k); }
    }
  }

  /** Counters and live requests after an outstanding block has been freed and merged. */
  lemma {:induction false} FreeAccounts(st: State, s: nat, k: nat)
    requires Inv(st) && Has(st.out, s, k) && s in st.requests && !BuddiesFree(Sets(st.lists), s, k)
    ensures var h := Put(Sets(st.lists), s, k);
            var o := Take(st.out, s, k);
            && Split(h, o, st.managed)
            && st.requests[s] <= st.user && Pow2(k) <= st.used
            && Weight(o) == st.used - Pow2(k)
            && Weight(Coalesce(h, s, k)) + Weight(o) == st.total
            && Live(st.requests - {s}, o)
            && Requested(st.requests - {s}) == st.user - st.requests[s]
            && (NoBuddies(Sets(st.lists)) ==> NoBuddies(Coalesce(h, s, k)))
  {
    var f := Sets(st.lists);
    var h, o := Put(f, s, k), Take(st.out, s, k);
    SplitParts(f, st.out, st.managed);
    SplitMove(f, st.out, st.managed, s, k);
    HasMove(st.out, f, s, k);
    WeightPut(f, s, k);
    WeightPut(st.out, s, k);
    CoalesceSplit(h, o, st.managed, s, k);
    SplitParts(h, o, st.managed);
    PutBuddiesFree(f, s, k);
    TopMerges(h, s, k);
    RequestedRemove(st.requests, s);
    if NoBuddies(f) { PutNoBuddiesBut(f, |f|, s, k); CoalesceNoBuddies(h, |h|, s, k); }
    OneBlockAt(f, st.out, st.managed, s, k);
    var m := st.requests - {s};
    forall a ensures a in m <==> exists c :: Has(o, a, c) {
      if a in st.requests && a != s { var c :| Has(st.out, a, c); assert Has(o, a, c); }
    }
  }

  /** The whole state after an outstanding block has been freed and merged. */
  lemma Freed(st: State, links: Links, lists: seq<seq<nat>>, s: nat, k: nat)
    requires Inv(st) && Has(st.out, s, k) && s in st.requests && !BuddiesFree(Sets(st.lists), s, k)
    requires Shape(links, lists, Take(st.out, s, k), st.managed)
    requires Sets(lists) == Coalesce(Put(Sets(st.lists), s, k), s, k)
    ensures st.requests[s] <= st.user && Pow2(k) <= st.used
    ensures Inv(State(links, lists, Take(st.out, s, k), st.managed, st.requests - {s}, st.user - st.requests[s],
                      st.used - Pow2(k), st.total))
    ensures NoBuddies(Sets(st.lists)) ==> NoBuddies(Sets(lists))
  {
    FreeAccounts(st, s, k);
  }

  /** The lists after the first block of class `i` has been split down to `k` and removed. */
  function ListTake(l: seq<seq<nat>>, i: nat, k: nat): seq<seq<nat>>
    requires k <= i < |l| && l[i] != []
  {
    var m := ListSplit(l, i, k);
    m[k := m[k][1..]]
  }

  lemma RangeSplit(a: nat, b: nat, c: nat, d: nat)
    requires a <= b <= c <= d
    ensures Range(a, c) == Range(a, b) + Range(b, c) && Range(a, b) !! Range(b, c) && Range(b, c) <= Range(a, d)
  {
  }

  /** The bytes between the rounded bounds are those of whole words inside the range. */
  lemma WholeWords(start: nat, end: nat, a: nat)
    ensures a in Range(AlignUp(start), AlignDown(end)) <==> start <= a - a % 8 && a - a % 8 + 8 <= end
  {
  }

  lemma {:induction false} RangeSize(a: nat, b: nat)
    requires a <= b
    ensures |Range(a, b)| == b - a
    decreases b - a
  {
    if a == b {
      assert Range(a, b) == {};
    } else {
      RangeSize(a, b - 1);
      assert Range(a, b) == Range(a, b - 1) + {b - 1};
    }
  }

  /** What a new region adds: the whole words in it, none of them managed before. */
  lemma AddedBytes(managed: set<nat>, start: nat, end: nat)
    requires AlignUp(start) <= AlignDown(end) && managed !! Range(AlignUp(start), AlignDown(end))
    ensures var now := managed + Range(AlignUp(start), AlignDown(end));
            && (forall a: nat :: a in now <==> a in managed || (start <= a - a % 8 && a - a % 8 + 8 <= end))
            && |now| == |managed| + (AlignDown(end) - AlignUp(start))
  {
    RangeSize(AlignUp(start), AlignDown(end));
    forall a: nat { WholeWords(start, end, a); }
  }

  lemma WordGap(a: nat, b: nat)
    requires a <= b && a % WORD == 0 && b % WORD == 0
    ensures a == b || a + WORD <= b
  {
  }

  lemma {:induction false} AddAccounts(st: State, first: nat, last: nat)
    requires Inv(st) && first <= last && st.managed !! Range(first, last)
    ensures Weight(Sets(ListCarve(st.lists, first, last))) + st.used == st.total + (last - first)
  {
    CarveSplit(Sets(st.lists), st.out, st.managed, first, last);
    ListCarveSets(st.lists, first, last);
  }

  /** One round of the carving loop. */
  lemma CarveIter(l: Links, lists: seq<seq<nat>>, out: Lists, managed: set<nat>, first: nat, current: nat, last: nat)
    requires Shape(l, lists, out, managed + Range(first, current)) && managed !! Range(first, last)
    requires 0 < first <= current < last && current % WORD == 0 && last % WORD == 0
    requires !WindowAt(current, last, |lists|)
    requires forall a | a in Range(first, last) && a % WORD == 0 :: a in l.mem
    ensures var k := CarveClass(current, last, |lists|);
            var next := current + Pow2(k);
            var l' := Push(l, k, current);
            && next <= last && next % WORD == 0
            && Shape(l', lists[k := [current] + lists[k]], out, managed + Range(first, next))
            && Untouched(l.mem, l'.mem, out)
  {
    WordCarveNext(current, last, |lists|);
    var k := CarveClass(current, last, |lists|);
    var next := current + Pow2(k);
    RangeSplit(first, current, next, last);
    CarveStep(l, lists, out, managed + Range(first, current), current, k);
    assert managed + Range(first, current) + Range(current, next) == managed + Range(first, next);
  }

  lemma HeadAligned(lists: seq<seq<nat>>, out: Lists, managed: set<nat>, k: nat)
    requires Blocks(lists, out, managed) && k < |lists| && lists[k] != []
    ensures Aligned(lists[k][0], k)
  {
    SplitParts(Sets(lists), out, managed);
    assert Has(Sets(lists), lists[k][0], k);
  }

  lemma FreedAligned(lists: seq<seq<nat>>, out: Lists, managed: set<nat>, s: nat, k: nat)
    requires Blocks(lists, out, managed) && Has(out, s, k)
    ensures BuddiesFree(Put(Sets(lists), s, k), s, k) <==> BuddiesFree(Sets(lists), s, k)
  {
    SplitParts(Sets(lists), out, managed);
    PutBuddiesFree(Sets(lists), s, k);
  }

  // ---------------------------------------------------------------- what the invariant means

  /** Every list node is the start of a free block: memory the callers do not hold. */
  lemma NodesAreFree(st: State, k: nat, n: nat)
    requires Inv(st) && k < |st.lists| && n < |st.lists[k]|
    ensures var x := st.lists[k][n];
            && x in st.managed && Covered(Sets(st.lists), x) && !Covered(st.out, x)
            && x in st.links.mem && st.links.mem[x] == NextOf(st.lists[k], n)
  {
    var x := st.lists[k][n];
    HasSets(st.lists);
    assert Holds(Sets(st.lists), x, k, x);
    FreeUnits(Sets(st.lists), st.out, st.managed, x);
    assert Linked(st.links.mem, st.links.heads[k], st.lists[k]);
  }

  /** A request finds no block exactly when every aligned run of its size holds a byte that is
      unmanaged or handed out. */
  lemma {:induction false} HeapComplete(st: State, k: nat)
    requires Inv(st) && NoBuddies(Sets(st.lists))
    ensures FirstNonEmpty(Sets(st.lists), k) == |st.lists| <==>
            forall a :: Aligned(a, k) ==> exists u :: Covers(a, k, u) && (u !in st.managed || Covered(st.out, u))
  {
    var f := Sets(st.lists);
    SplitParts(f, st.out, st.managed);
    AllocFailsIff(f, k);
    forall u ensures Covered(f, u) <==> u in st.managed && !Covered(st.out, u) { FreeUnits(f, st.out, st.managed, u); }
    forall a ensures FreeRun(f, a, k) <==>
      Aligned(a, k) && !exists u :: Covers(a, k, u) && (u !in st.managed || Covered(st.out, u)) {
    }
  }

  /** One region added to an empty heap leaves no unmerged buddies. */
  lemma {:induction false} FreshNoBuddies(order: nat, first: nat, last: nat)
    requires order > 0 && first <= last && (first == 0 ==> last == 0) && !HasTopWindow(first, last, order)
    ensures NoBuddies(Sets(ListCarve(EmptyLists(order), first, last)))
  {
    var l: seq<seq<nat>> := EmptyLists(order);
    ListCarveSets(l, first, last);
    SameLists(Sets(l), Empty(order));
    CarveNoBuddiesIff(first, last, order);
  }

  lemma MergeSplitHead(l: seq<seq<nat>>, j: nat)
    requires j + 1 < |l| && l[j + 1] != [] && Aligned(l[j + 1][0], j + 1)
    ensures var m := SplitHead(l, j);
            m[j] != [] && BuddyOf(m[j][0], j) in m[j] && MergeHead(m, j) == l
  {
    var s := l[j + 1][0];
    var m := SplitHead(l, j);
    Halves(s, j);
    FirstIndex(m[j], s + Pow2(j), 1);
    assert RemoveAt(m[j], 1)[1..] == l[j];
    assert [s] + l[j + 1][1..] == l[j + 1];
  }

  lemma {:induction false} MergeListSplit(l: seq<seq<nat>>, i: nat, k: nat)
    requires k <= i < |l| && l[i] != [] && Aligned(l[i][0], i) && BuddyOf(l[i][0], i) !in l[i]
    ensures ListMerge(ListSplit(l, i, k), k) == l
    decreases i - k
  {
    if k < i {
      AlignedBelow(l[i][0], k + 1, i);
      MergeSplitHead(ListSplit(l, i, k + 1), k);
      MergeListSplit(l, i, k + 1);
    }
  }

  /** Freeing a block straight after its allocation restores every list, order included. */
  lemma {:induction false} TakeThenFree(st: State, i: nat, k: nat)
    requires Inv(st) && NoBuddies(Sets(st.lists)) && k <= i < |st.lists| && st.lists[i] != []
    ensures var s := st.lists[i][0];
            var l := ListTake(st.lists, i, k);
            ListMerge(l[k := [s] + l[k]], k) == st.lists
  {
    var s := st.lists[i][0];
    var f := Sets(st.lists);
    HasSets(st.lists);
    assert Has(f, s, i);
    SplitParts(f, st.out, st.managed);
    MergeListSplit(st.lists, i, k);
    var m := ListSplit(st.lists, i, k);
    var l := ListTake(st.lists, i, k);
    assert [s] + m[k][1..] == m[k];
    assert l[k := [s] + l[k]] == m;
  }

  // ---------------------------------------------------------------- the heap object

  /** `wordBits` is the width of an address (64 on the target). */
  class Heap {
    const wordBits: nat
    var mem: Memory
    var heads: seq<nat>
    var user: nat
    var used: nat
    var total: nat
    ghost var lists: seq<seq<nat>>
    ghost var out: Lists
    ghost var managed: set<nat>
    ghost var requests: map<nat, nat>

    ghost function StateOf(): State
      reads this
    {
      State(Links(mem, heads), lists, out, managed, requests, user, used, total)
    }

    constructor (order: nat, wordBits: nat, mem: Memory)
      requires order > 0
      ensures Inv(StateOf()) && managed == {} && lists == EmptyLists(order) && total == 0
      ensures out == Empty(order) && requests == map[] && user == used == 0
      ensures this.wordBits == wordBits && this.mem == mem && |heads| == order
    {
      this.wordBits, this.mem := wordBits, mem;
      heads := seq(order, _ => 0);
      user, used, total := 0, 0, 0;
      lists, out, managed, requests := EmptyLists(order), Empty(order), {}, map[];
      new;
      assert forall k: nat | k < order :: SetOf(lists[k]) == {};
      SameLists(Sets(lists), Empty(order));
      EmptySplit(order);
      assert forall k: nat | k < order :: Linked(mem, heads[k], lists[k]);
    }

    // The operations of `LinkedList`, on the list of class `k`.

    method ListPush(k: nat, item: nat)
      requires k < |heads|
      modifies this`mem, this`heads
      ensures Links(mem, heads) == Push(old(Links(mem, heads)), k, item)
    {
      mem := mem[item := heads[k]];
      heads := heads[k := item];
    }

    method ListPop(k: nat) returns (r: Option<nat>)
      requires k < |heads| && (heads[k] != 0 ==> heads[k] in mem)
      modifies this`heads
      ensures old(heads)[k] == 0 ==> r == None && heads == old(heads)
      ensures old(heads)[k] != 0 ==> r == Some(old(heads)[k]) && Links(mem, heads) == Pop(old(Links(mem, heads)), k)
    {
      if heads[k] == 0 {
        return None;
      }
      var item := heads[k];
      heads := heads[k := mem[item]];
      return Some(item);
    }

    /** The mutable iteration of deallocation: walk the list, and unlink `x` if it is met.
        `prev` 0 stands for the head field itself. */
    method ListUnlink(k: nat, x: nat) returns (found: bool)
      requires LinksOk(Links(mem, heads), lists) && k < |lists|
      modifies this`mem, this`heads
      ensures found <==> x in lists[k]
      ensures found ==> var n := IndexOf(lists[k], x);
              x in old(mem) &&
                  Links(mem, heads) == Unlink(old(Links(mem, heads)), k, if n == 0 then 0 else lists[k][n - 1], x)
      ensures !found ==> mem == old(mem) && heads == old(heads)
    {
      ghost var s := lists[k];
      assert Linked(mem, heads[k], s);
      ghost var n := 0;
      var prev, curr := 0, heads[k];
      while curr != 0
        invariant n <= |s| && x !in s[..n]
        invariant curr == (if n < |s| then s[n] else 0) && prev == (if n == 0 then 0 else s[n - 1])
        invariant mem == old(mem) && heads == old(heads)
        decreases |s| - n
      {
        if curr == x {
          if prev == 0 {
            heads := heads[k := mem[curr]];
          } else {
            mem := mem[prev := mem[curr]];
          }
          assert IndexOf(s, x) == n by { FirstIndex(s, x, n); }
          return true;
        }
        assert mem[s[n]] == NextOf(s, n);
        assert s[..n + 1] == s[..n] + [s[n]];
        prev, curr, n := curr, mem[curr], n + 1;
      }
      assert s[..n] == s;
      return false;
    }

    /** False is a panic: the range ends before it starts, a block starts at address 0, whose lowest bit does not exist,
        or a block is too large for every list. */
    method AddToHeap(start: nat, end: nat) returns (ok: bool)
      requires Inv(StateOf()) && end < Pow2(wordBits) && start + (WORD - 1) < Pow2(wordBits) && 3 <= wordBits
      requires managed !! Range(AlignUp(start), AlignDown(end))
      requires forall a | a in Range(AlignUp(start), AlignDown(end)) && a % WORD == 0 :: a in mem
      modifies this
      ensures ok <==> Addable(start, end, |old(heads)|)
      ensures ok ==> Inv(StateOf())
      ensures ok ==> lists == ListCarve(old(lists), AlignUp(start), AlignDown(end))
      ensures ok ==> managed == old(managed) + Range(AlignUp(start), AlignDown(end))
      ensures ok ==> forall a: nat ::
                a in managed <==> a in old(managed) || (start <= a - a % 8 && a - a % 8 + 8 <= end)
      ensures ok ==> total - old(total) == AlignDown(end) - AlignUp(start) == |managed| - |old(managed)|
      ensures ok ==> out == old(out) && requests == old(requests) && user == old(user) && used == old(used)
      ensures ok ==> Untouched(old(mem), mem, out) && |heads| == |old(heads)|
    {
      var first, last := RoundToWords(start, end);
      if first > last {
        return false;
      }
      AddAccounts(StateOf(), first, last);
      var sum;
      ghost var before := managed;
      ok, sum := CarveLoop(first, last);
      total := total + sum;
      if ok { AddedBytes(before, start, end); }
    }

    /** Round the range inwards to whole words by masking the low bits. */
    method RoundToWords(start: nat, end: nat) returns (first: nat, last: nat)
      requires start + (WORD - 1) < Pow2(wordBits) && end < Pow2(wordBits) && 3 <= wordBits
      ensures first == AlignUp(start) && first % 8 == 0 && start <= first < start + 8
      ensures last == AlignDown(end) && last % 8 == 0 && last <= end < last + 8
    {
      WordMask(start + (WORD - 1), wordBits);
      WordMask(end, wordBits);
      first := And(start + (WORD - 1), (Pow2(wordBits) - 1 - WORD) + 1);
      last := And(end, (Pow2(wordBits) - 1 - WORD) + 1);
    }

    /** The largest block that starts at `current` and fits: its lowest set bit or the largest power of two left. */
    method BlockSize(current: nat, last: nat, ghost order: nat) returns (size: nat, class_: nat)
      requires 0 < current < last < Pow2(wordBits) && current % WORD == 0 && last % WORD == 0 && order > 0
      ensures size == Pow2(class_) && (class_ < order <==> !WindowAt(current, last, order))
      ensures class_ < order ==> class_ == CarveClass(current, last, order)
    {
      WordCarve(current, last, order, wordBits);
      var lowbit := And(current, (Pow2(wordBits) - 1 - current) + 1);
      size := Min(lowbit, PrevPowerOfTwo(last - current));
      class_ := TrailingZeros(size);
    }

    /** One round: push the largest aligned block that starts at `current` and fits, if there is a list for it. */
    method CarveOne(first: nat, current: nat, last: nat, ghost base: set<nat>) returns (ok: bool, size: nat)
      requires Shape(Links(mem, heads), lists, out, managed) && managed == base + Range(first, current)
      requires 0 < first <= current < last < Pow2(wordBits) && current % WORD == 0 && last % WORD == 0
      requires base !! Range(first, last)
      requires forall a | a in Range(first, last) && a % WORD == 0 :: a in mem
      modifies this`mem, this`heads, this`lists, this`managed
      ensures ok <==> !WindowAt(current, last, |lists|)
      ensures |lists| == |old(lists)|
      ensures ok ==> Shape(Links(mem, heads), lists, out, managed) && Untouched(old(mem), mem, out)
      ensures ok ==> size == Pow2(CarveClass(current, last, |lists|)) && current + size <= last
      ensures ok ==> (current + size) % WORD == 0 && managed == base + Range(first, current + size)
      ensures ok ==> ListCarve(lists, current + size, last) == ListCarve(old(lists), current, last)
    {
      var class_;
      size, class_ := BlockSize(current, last, |lists|);
      if class_ >= |heads| {
        return false, size;
      }
      CarveIter(Links(mem, heads), lists, out, base, first, current, last);
      ListPush(class_, current);
      lists := lists[class_ := [current] + lists[class_]];
      managed := base + Range(first, current + size);
      return true, size;
    }

    method CarveLoop(first: nat, last: nat) returns (ok: bool, sum: nat)
      requires Shape(Links(mem, heads), lists, out, managed)
      requires first <= last < Pow2(wordBits) && first % WORD == 0 && last % WORD == 0
      requires managed !! Range(first, last)
      requires forall a | a in Range(first, last) && a % WORD == 0 :: a in mem
      modifies this`mem, this`heads, this`lists, this`managed
      ensures ok <==> (first == 0 ==> last == 0) && !HasTopWindow(first, last, |old(lists)|)
      ensures ok ==> Shape(Links(mem, heads), lists, out, managed) && Untouched(old(mem), mem, out)
      ensures ok ==> lists == ListCarve(old(lists), first, last)
      ensures ok ==> managed == old(managed) + Range(first, last) && sum == last - first
    {
      sum := 0;
      var current := first;
      while current + WORD <= last
        invariant first <= current <= last && current % WORD == 0 && sum == current - first
        invariant (first == 0 ==> current == 0) && WindowsFrom(first, current, last, |lists|)
        invariant |lists| == |old(lists)| && managed == old(managed) + Range(first, current)
        invariant Shape(Links(mem, heads), lists, out, managed) && Untouched(old(mem), mem, out)
        invariant ListCarve(lists, current, last) == ListCarve(old(lists), first, last)
      {
        if current == 0 {
          return false, sum;
        }
        ghost var m := mem;
        var size;
        ok, size := CarveOne(first, current, last, old(managed));
        if !ok {
          return false, sum;
        }
        UntouchedTrans(old(mem), m, mem, out);
        WindowsNext(first, current, last, |lists|);
        sum := sum + size;
        current := current + size;
      }
      WordGap(current, last);
      NoWindows(first, last, |lists|);
      return true, sum;
    }

    /** Split the first block of class `i` down to `class_`. */
    method SplitLoop(class_: nat, i: nat)
      requires Shape(Links(mem, heads), lists, out, managed) && 3 <= class_ <= i < |lists| && lists[i] != []
      modifies this`mem, this`heads, this`lists
      ensures Shape(Links(mem, heads), lists, out, managed)
      ensures lists == ListSplit(old(lists), i, class_)
      ensures Sets(lists) == SplitDown(old(Sets(lists)), old(lists)[i][0], i, class_)
      ensures Untouched(old(mem), mem, out)
    {
      ghost var l0, m0 := lists, mem;
      ghost var s := l0[i][0];
      var j := i;
      while j > class_
        invariant class_ <= j <= i
        invariant Shape(Links(mem, heads), lists, out, managed)
        invariant lists == ListSplit(l0, i, j) && Sets(lists) == SplitDown(Sets(l0), s, i, j)
        invariant Untouched(m0, mem, out)
      {
        ghost var m := mem;
        SplitOnce(j - 1);
        UntouchedTrans(m0, m, mem, out);
        j := j - 1;
      }
    }

    /** The first block of class `j + 1` becomes the first two of class `j`. */
    method SplitOnce(j: nat)
      requires Shape(Links(mem, heads), lists, out, managed) && 3 <= j && j + 1 < |lists| && lists[j + 1] != []
      modifies this`mem, this`heads, this`lists
      ensures Shape(Links(mem, heads), lists, out, managed) && Untouched(old(mem), mem, out)
      ensures lists == SplitHead(old(lists), j) && Sets(lists) == Halve(old(Sets(lists)), old(lists)[j + 1][0], j)
    {
      SplitStep(Links(mem, heads), lists, out, managed, j);
      SplitHeadSets(lists, j);
      MemberWord(Links(mem, heads), lists, j + 1, 0);
      var block := ListPop(j + 1);
      ListPush(j, block.value + Pow2(j));
      ListPush(j, block.value);
      lists := SplitHead(lists, j);
    }

    /** Split the first block of class `i` down to `class_` and hand it out. */
    method TakeFrom(class_: nat, i: nat) returns (block: nat)
      requires Shape(Links(mem, heads), lists, out, managed) && 3 <= class_ <= i < |lists| && lists[i] != []
      modifies this`mem, this`heads, this`lists, this`out
      ensures Shape(Links(mem, heads), lists, out, managed)
      ensures block == old(lists)[i][0] != 0
      ensures lists == ListTake(old(lists), i, class_)
      ensures Sets(lists) == AllocFrom(old(Sets(lists)), block, i, class_)
      ensures out == Put(old(out), block, class_) && Untouched(old(mem), mem, old(out))
    {
      SplitLoop(class_, i);
      TakeStep(Links(mem, heads), lists, out, managed, class_);
      var popped := ListPop(class_);
      block := popped.value;
      lists := lists[class_ := lists[class_][1..]];
      out := Put(out, block, class_);
    }

    /** The first class from `class_` up with a free block. */
    method FindClass(class_: nat) returns (i: nat)
      requires LinksOk(Links(mem, heads), lists)
      ensures i == FirstNonEmpty(Sets(lists), class_)
      ensures i < |lists| ==> lists[i] != []
    {
      ghost var f := Sets(lists);
      i := class_;
      while i < |heads|
        invariant class_ <= i && FirstNonEmpty(f, class_) == FirstNonEmpty(f, i)
      {
        assert Linked(mem, heads[i], lists[i]);
        assert heads[i] == 0 <==> lists[i] == [];
        assert f[i] == {} <==> lists[i] == [] by { if lists[i] != [] { assert lists[i][0] in f[i]; } }
        if heads[i] != 0 { return; }
        i := i + 1;
      }
      i := |heads|;
    }

    /** Hand out a block of class `class_` for a request of `size` bytes; `used` is still to be raised. */
    method TakeAndCount(class_: nat, i: nat, size: nat) returns (block: nat)
      requires Inv(StateOf()) && 3 <= class_ <= i < |lists| && lists[i] != []
      requires forall c | class_ <= c < i :: Sets(lists)[c] == {}
      modifies this`mem, this`heads, this`lists, this`out, this`user, this`requests
      ensures Inv(StateOf().(used := used + Pow2(class_)))
      ensures block == old(lists)[i][0] != 0
      ensures lists == ListTake(old(lists), i, class_)
      ensures out == Put(old(out), block, class_) && FreeRun(old(Sets(lists)), block, class_)
      ensures requests == old(requests)[block := size] && user == old(user) + size
      ensures Untouched(old(mem), mem, old(out))
      ensures NoBuddies(old(Sets(lists))) ==> NoBuddies(Sets(lists))
    {
      HasSets(lists);
      AllocAccounts(StateOf(), lists[i][0], i, class_, size);
      block := TakeFrom(class_, i);
      requests := requests[block := size];
      user := user + size;
    }

    method Alloc(size: nat, align: nat) returns (r: Option<nat>)
      requires Inv(StateOf()) && align > 0 && align == Pow2(TrailingZeros(align))
      modifies this
      ensures Inv(StateOf()) && managed == old(managed) && total == old(total)
      ensures r.None? <==> FirstNonEmpty(old(Sets(lists)), RequestClass(size, align)) == |heads|
      ensures r.None? ==> StateOf() == old(StateOf())
      ensures r.Some? ==>
                var k := RequestClass(size, align);
                var i := FirstNonEmpty(old(Sets(lists)), k);
                && k <= i < |old(lists)| && old(lists)[i] != []
                && r.value == old(lists)[i][0] != 0
                && lists == ListTake(old(lists), i, k)
                && out == Put(old(out), r.value, k) && FreeRun(old(Sets(lists)), r.value, k)
                && requests == old(requests)[r.value := size] && user == old(user) + size && used == old(used) + Pow2(k)
      ensures Untouched(old(mem), mem, old(out))
      ensures NoBuddies(old(Sets(lists))) ==> NoBuddies(Sets(lists))
    {
      RequestBytes(size, align);
      var bytes := Max(Pow2(NextClass(size)), Max(align, WORD));
      var class_ := TrailingZeros(bytes);
      var i := FindClass(class_);
      if i == |heads| {
        return None;
      }
      var block := TakeAndCount(class_, i, size);
      used := used + bytes;
      return Some(block);
    }

    /** Merge the head of class `class_` with its buddies as far up as they are free. False is a panic: a block merged
        out of the top class has no list. */
    method MergeLoop(ptr: nat, class_: nat) returns (ok: bool)
      requires Shape(Links(mem, heads), lists, out, managed)
      requires class_ < |lists| && lists[class_] != [] && lists[class_][0] == ptr
      modifies this`mem, this`heads, this`lists
      ensures ok <==> !BuddiesFree(old(Sets(lists)), ptr, class_)
      ensures ok ==> Shape(Links(mem, heads), lists, out, managed) && Untouched(old(mem), mem, out)
      ensures ok ==> lists == ListMerge(old(lists), class_)
      ensures ok ==> Sets(lists) == Coalesce(old(Sets(lists)), ptr, class_)
    {
      ghost var l0, m0 := lists, mem;
      var current: nat, k: nat := ptr, class_;
      var going := true;
      while going
        invariant Shape(Links(mem, heads), lists, out, managed) && Untouched(m0, mem, out)
        invariant SameMerge(l0, class_, lists, k) && lists[k][0] == current
        invariant !going ==> BuddyOf(current, k) !in lists[k]
        decreases going, |heads| - k
      {
        current, k, going, ok := MergeRound(current, k, l0, class_, m0);
        if !ok {
          return;
        }
      }
      HeadAligned(lists, out, managed, k);
      SameMergeEnds(l0, class_, lists, k);
      return true;
    }

    /** One round of merging the head of class `k0` of `l0`. */
    method MergeRound(current: nat, k: nat, ghost l0: seq<seq<nat>>, ghost k0: nat, ghost m0: Memory)
      returns (next: nat, class_: nat, going: bool, ok: bool)
      requires Shape(Links(mem, heads), lists, out, managed) && Untouched(m0, mem, out)
      requires SameMerge(l0, k0, lists, k) && lists[k][0] == current
      modifies this`mem, this`heads, this`lists
      ensures !ok ==> BuddiesFree(Sets(l0), l0[k0][0], k0)
      ensures ok ==> Shape(Links(mem, heads), lists, out, managed) && Untouched(m0, mem, out)
      ensures ok ==> SameMerge(l0, k0, lists, class_) && lists[class_][0] == next
      ensures ok ==> if going then class_ == k + 1 else BuddyOf(next, class_) !in lists[class_]
    {
      ghost var m, l := mem, lists;
      HeadAligned(l, out, managed, k);
      next, going, ok := MergeOnce(current, k);
      if !ok {
        SameMergeEnds(l0, k0, l, k);
        return next, k, going, false;
      }
      UntouchedTrans(m0, m, mem, out);
      if !going {
        return current, k, false, true;
      }
      SameMergeNext(l0, k0, l, k, lists);
      return next, k + 1, true, true;
    }

    /** One round: if the buddy of the head of class `k` is in the list, both leave it and their union goes one class
        up, if there is one. */
    method MergeOnce(current: nat, k: nat) returns (next: nat, merged: bool, ok: bool)
      requires Shape(Links(mem, heads), lists, out, managed)
      requires k < |lists| && lists[k] != [] && lists[k][0] == current
      modifies this`mem, this`heads, this`lists
      ensures merged <==> BuddyOf(current, k) in old(lists)[k]
      ensures ok <==> !merged || k + 1 < |old(lists)|
      ensures ok ==> Shape(Links(mem, heads), lists, out, managed) && Untouched(old(mem), mem, out)
      ensures ok ==> |lists| == |old(lists)|
      ensures ok && merged ==> lists == MergeHead(old(lists), k) && next == Min(current, BuddyOf(current, k))
      ensures !merged ==> lists == old(lists)
    {
      var buddy := BuddyOf(current, k);
      next := Min(current, buddy);
      if buddy in lists[k] && k + 1 < |lists| {
        MergeStep(Links(mem, heads), lists, out, managed, k);
        MemberWord(Links(mem, heads), lists, k, 0);
      }
      merged := ListUnlink(k, buddy);
      if merged {
        if k + 1 >= |heads| {
          return next, true, false;
        }
        var popped := ListPop(k);
        ListPush(k + 1, next);
        lists := MergeHead(lists, k);
      } else {
        SameMemory(mem, out);
      }
      ok := true;
    }

    /** False is a panic: all buddies on the way up were free. */
    method Dealloc(ptr: nat, size: nat, align: nat) returns (ok: bool)
      requires Inv(StateOf()) && align > 0 && align == Pow2(TrailingZeros(align))
      requires Has(out, ptr, RequestClass(size, align)) && ptr in requests && requests[ptr] == size
      modifies this
      ensures ok <==> !BuddiesFree(old(Sets(lists)), ptr, RequestClass(size, align))
      ensures ok ==> Inv(StateOf()) && managed == old(managed) && total == old(total)
      ensures ok ==>
                var k := RequestClass(size, align);
                && lists == ListMerge(old(lists)[k := [ptr] + old(lists)[k]], k)
                && out == Take(old(out), ptr, k)
                && requests == old(requests) - {ptr} && user + size == old(user) && used + Pow2(k) == old(used)
      ensures ok ==> Untouched(old(mem), mem, out)
      ensures ok && NoBuddies(old(Sets(lists))) ==> NoBuddies(Sets(lists))
    {
      RequestBytes(size, align);
      var bytes := Max(Pow2(NextClass(size)), Max(align, WORD));
      var class_ := TrailingZeros(bytes);
      ghost var st := StateOf();
      ok := FreeAndMerge(ptr, class_);
      if ok {
        Freed(st, Links(mem, heads), lists, ptr, class_);
        requests := requests - {ptr};
        user := user - size;
        used := used - bytes;
      }
    }

    /** Push the block on its list, then merge. */
    method FreeAndMerge(ptr: nat, class_: nat) returns (ok: bool)
      requires Shape(Links(mem, heads), lists, out, managed) && Has(out, ptr, class_)
      modifies this`mem, this`heads, this`lists, this`out
      ensures ok <==> !BuddiesFree(old(Sets(lists)), ptr, class_)
      ensures ok ==> Shape(Links(mem, heads), lists, out, managed) && Untouched(old(mem), mem, out)
      ensures ok ==> out == Take(old(out), ptr, class_)
      ensures ok ==> lists == ListMerge(old(lists)[class_ := [ptr] + old(lists)[class_]], class_)
      ensures ok ==> Sets(lists) == Coalesce(Put(old(Sets(lists)), ptr, class_), ptr, class_)
    {
      FreeStep(Links(mem, heads), lists, out, managed, ptr, class_);
      FreedAligned(lists, out, managed, ptr, class_);
      ListPush(class_, ptr);
      lists := lists[class_ := [ptr] + lists[class_]];
      out := Take(out, ptr, class_);
      ghost var m := mem;
      ok := MergeLoop(ptr, class_);
      if ok {
        UntouchedTrans(old(mem), m, mem, out);
      }
    }
  }

  // ---------------------------------------------------------------- whole runs

  predicate AlignOk(align: nat) { align > 0 && align == Pow2(TrailingZeros(align)) }

  /** Size and alignment of a request; alignments are powers of two. */
  datatype Extent = Extent(size: nat, align: nat)

  type Layout = e: Extent | AlignOk(e.align) witness Extent(0, 1)

  function ClassOf(e: Layout): nat { RequestClass(e.size, e.align) }

  /** A call of the allocator, or a use of the block at `ptr` by its holder. */
  datatype Op =
    | AllocOp(layout: Layout)
    | FreeOp(ptr: nat, layout: Layout)
    | AddOp(start: nat, end: nat)
    | StoreOp(ptr: nat, at: nat, value: nat)
    | LoadOp(ptr: nat, at: nat)

  datatype Outcome = Got(block: Option<nat>) | Word(value: nat) | Done | Panicked

  /** What somebody holds: its layout and the words stored in it. */
  datatype Holding = Holding(layout: Layout, words: map<nat, nat>)

  /** The heap to its users: blocks and counters, and every holding with a memory of its own. `backed` are the addresses
      of memory there is. */
  datatype Model = Model(lists: seq<seq<nat>>, out: Lists, managed: set<nat>, requests: map<nat, nat>,
                         user: nat, used: nat, total: nat,
                         live: map<nat, Holding>, backed: set<nat>, wordBits: nat)

  ghost predicate Sized(m: Model) { |m.lists| == |m.out| > 0 }

  /** What the source assumes of a call: blocks are given back once, with their layout; holders stay inside their blocks
      and load what they have stored; a range added is memory not managed yet. */
  ghost predicate Legal(m: Model, op: Op) {
    match op
    case AllocOp(_) => true
    case FreeOp(ptr, layout) => ptr in m.live && m.live[ptr].layout == layout
    case AddOp(start, end) =>
      && end < Pow2(m.wordBits) && start + (WORD - 1) < Pow2(m.wordBits)
      && m.managed !! Range(AlignUp(start), AlignDown(end))
      && forall a | a in Range(AlignUp(start), AlignDown(end)) && a % WORD == 0 :: a in m.backed
    case StoreOp(ptr, at, _) => ptr in m.live && Covers(ptr, ClassOf(m.live[ptr].layout), at) && at % WORD == 0
    case LoadOp(ptr, at) => ptr in m.live && at in m.live[ptr].words
  }

  /** The first block of the smallest class that can serve the request, split down to its class. */
  ghost function AllocApplied(m: Model, e: Layout): (r: (Outcome, Model))
    requires Sized(m)
    ensures Sized(r.1)
  {
    var k := ClassOf(e);
    var i := FirstNonEmpty(Sets(m.lists), k);
    if i >= |m.lists| || m.lists[i] == [] then (Got(None), m)
    else
      var p := m.lists[i][0];
      (Got(Some(p)),
       m.(lists := ListTake(m.lists, i, k), out := Put(m.out, p, k), requests := m.requests[p := e.size],
          user := m.user + e.size, used := m.used + Pow2(k), live := m.live[p := Holding(e, map[])]))
  }

  /** The block goes to the front of its list and is merged upwards; a merge out of the top class panics. */
  ghost function FreeApplied(m: Model, p: nat, e: Layout): (r: (Outcome, Model))
    requires Sized(m)
    ensures Sized(r.1)
  {
    var k := ClassOf(e);
    if !(Has(m.out, p, k) && e.size <= m.user && Pow2(k) <= m.used) || BuddiesFree(Sets(m.lists), p, k)
    then (Panicked, m)
    else
      (Done,
       m.(lists := ListMerge(m.lists[k := [p] + m.lists[k]], k), out := Take(m.out, p, k), requests := m.requests - {p},
          user := m.user - e.size, used := m.used - Pow2(k), live := m.live - {p}))
  }

  ghost function AddApplied(m: Model, start: nat, end: nat): (r: (Outcome, Model))
    requires Sized(m)
    ensures Sized(r.1)
  {
    var first, last := AlignUp(start), AlignDown(end);
    if !Addable(start, end, |m.lists|) then (Panicked, m)
    else
      (Done, m.(lists := ListCarve(m.lists, first, last), managed := m.managed + Range(first, last),
                total := m.total + (last - first)))
  }

  /** One call on the model. */
  ghost function Applied(m: Model, op: Op): (r: (Outcome, Model))
    requires Sized(m)
    ensures Sized(r.1)
  {
    if !Legal(m, op) then (Done, m)
    else
      match op
      case AllocOp(e) => AllocApplied(m, e)
      case FreeOp(p, e) => FreeApplied(m, p, e)
      case AddOp(start, end) => AddApplied(m, start, end)
      case StoreOp(p, at, v) => (Done, m.(live := m.live[p := m.live[p].(words := m.live[p].words[at := v])]))
      case LoadOp(p, at) => (Word(m.live[p].words[at]), m)
  }

  predicate Stopped(rs: seq<Outcome>) { rs != [] && rs[|rs| - 1].Panicked? }

  /** The first `n` calls one after the other, up to a panic. */
  ghost function AppliedAll(m: Model, ops: seq<Op>, n: nat): (r: (seq<Outcome>, Model))
    requires Sized(m) && n <= |ops|
    ensures Sized(r.1)
  {
    if n == 0 then ([], m)
    else
      var (rs, u) := AppliedAll(m, ops, n - 1);
      if Stopped(rs) then (rs, u)
      else
        var (r, w) := Applied(u, ops[n - 1]);
        (rs + [r], w)
  }

  ghost predicate AllLegal(m: Model, ops: seq<Op>)
    requires Sized(m)
  {
    forall i: nat | i < |ops| && !Stopped(AppliedAll(m, ops, i).0) :: Legal(AppliedAll(m, ops, i).1, ops[i])
  }

  /** The holding at `p` is an outstanding block whose words memory holds. */
  ghost predicate Held(live: map<nat, Holding>, out: Lists, requests: map<nat, nat>, mem: Memory, p: nat)
    requires p in live
  {
    var k := ClassOf(live[p].layout);
    && Has(out, p, k) && p in requests && requests[p] == live[p].layout.size
    && forall a | a in live[p].words :: Covers(p, k, a) && a in mem && mem[a] == live[p].words[a]
  }

  ghost predicate AllHeld(live: map<nat, Holding>, out: Lists, requests: map<nat, nat>, mem: Memory) {
    forall p | p in live :: Held(live, out, requests, mem, p)
  }

  /** The heap is in the state the model says. */
  ghost predicate Matches(st: State, wordBits: nat, m: Model) {
    && m.lists == st.lists && m.out == st.out && m.managed == st.managed && m.requests == st.requests
    && m.user == st.user && m.used == st.used && m.total == st.total
    && m.backed == st.links.mem.Keys && m.wordBits == wordBits && 3 <= wordBits
    && AllHeld(m.live, st.out, st.requests, st.links.mem)
  }

  /** Words of an outstanding block that was not written are still there. */
  lemma HeldKept(live: map<nat, Holding>, o: Lists, requests: map<nat, nat>, mem: Memory, q: nat,
                 live': map<nat, Holding>, o': Lists, requests': map<nat, nat>, mem': Memory, kept: Lists)
    requires q in live && Held(live, o, requests, mem, q)
    requires q in live' && live'[q] == live[q] && q in requests' && requests'[q] == requests[q]
    requires Has(o', q, ClassOf(live[q].layout)) && Has(kept, q, ClassOf(live[q].layout)) && Untouched(mem, mem', kept)
    ensures Held(live', o', requests', mem', q)
  {
    var k := ClassOf(live[q].layout);
    forall a | a in live[q].words ensures a in mem' && mem'[a] == mem[a] { assert Holds(kept, q, k, a); }
  }

  lemma AllocHeld(st: State, live: map<nat, Holding>, p: nat, i: nat, e: Layout, mem': Memory)
    requires Inv(st) && AllHeld(live, st.out, st.requests, st.links.mem) && Has(Sets(st.lists), p, i)
    requires ClassOf(e) < |st.out| && Untouched(st.links.mem, mem', st.out)
    ensures p !in live
    ensures AllHeld(live[p := Holding(e, map[])], Put(st.out, p, ClassOf(e)), st.requests[p := e.size], mem')
  {
    OneBlockAt(Sets(st.lists), st.out, st.managed, p, i);
    assert p in live ==> Held(live, st.out, st.requests, st.links.mem, p);
    var live', o', requests' := live[p := Holding(e, map[])], Put(st.out, p, ClassOf(e)), st.requests[p := e.size];
    forall q | q in live' ensures Held(live', o', requests', mem', q) {
      if q != p {
        assert Held(live, st.out, st.requests, st.links.mem, q);
        HeldKept(live, st.out, st.requests, st.links.mem, q, live', o', requests', mem', st.out);
      }
    }
  }

  lemma FreeHeld(st: State, live: map<nat, Holding>, p: nat, mem': Memory)
    requires AllHeld(live, st.out, st.requests, st.links.mem) && p in live
    requires ClassOf(live[p].layout) < |st.out| ==>
             Untouched(st.links.mem, mem', Take(st.out, p, ClassOf(live[p].layout)))
    ensures Has(st.out, p, ClassOf(live[p].layout)) && p in st.requests
    ensures AllHeld(live - {p}, Take(st.out, p, ClassOf(live[p].layout)), st.requests - {p}, mem')
  {
    assert Held(live, st.out, st.requests, st.links.mem, p);
    var live', o', requests' := live - {p}, Take(st.out, p, ClassOf(live[p].layout)), st.requests - {p};
    forall q | q in live' ensures Held(live', o', requests', mem', q) {
      assert Held(live, st.out, st.requests, st.links.mem, q);
      HeldKept(live, st.out, st.requests, st.links.mem, q, live', o', requests', mem', o');
    }
  }

  lemma AddHeld(st: State, live: map<nat, Holding>, mem': Memory)
    requires AllHeld(live, st.out, st.requests, st.links.mem) && Untouched(st.links.mem, mem', st.out)
    ensures AllHeld(live, st.out, st.requests, mem')
  {
    forall q | q in live ensures Held(live, st.out, st.requests, mem', q) {
      assert Held(live, st.out, st.requests, st.links.mem, q);
      HeldKept(live, st.out, st.requests, st.links.mem, q, live, st.out, st.requests, mem', st.out);
    }
  }

  /** A store by a holder disturbs neither the free lists nor another holding. */
  lemma StoreHeld(st: State, live: map<nat, Holding>, p: nat, at: nat, v: nat)
    requires Inv(st) && AllHeld(live, st.out, st.requests, st.links.mem)
    requires p in live && Covers(p, ClassOf(live[p].layout), at) && at % WORD == 0
    ensures at in st.links.mem
    ensures Inv(st.(links := st.links.(mem := st.links.mem[at := v])))
    ensures AllHeld(live[p := live[p].(words := live[p].words[at := v])], st.out, st.requests, st.links.mem[at := v])
  {
    var mem, mem', k := st.links.mem, st.links.mem[at := v], ClassOf(live[p].layout);
    assert Held(live, st.out, st.requests, mem, p);
    BlockWord(mem, Sets(st.lists), st.out, st.managed, p, k, at);
    assert Holds(st.out, p, k, at);
    StoreLinks(st, at, v);
    SplitParts(Sets(st.lists), st.out, st.managed);
    var live' := live[p := live[p].(words := live[p].words[at := v])];
    forall q | q in live' ensures Held(live', st.out, st.requests, mem', q) {
      assert Held(live, st.out, st.requests, mem, q);
      if q != p { Unshared(st.out, live, p, q, k, at); }
    }
  }

  /** Two holdings share no word. */
  lemma Unshared(o: Lists, live: map<nat, Holding>, p: nat, q: nat, k: nat, at: nat)
    requires Disjoint(o) && q in live && p != q && Holds(o, p, k, at) && Has(o, q, ClassOf(live[q].layout))
    requires forall a | a in live[q].words :: Covers(q, ClassOf(live[q].layout), a)
    ensures at !in live[q].words
  {
    assert Covers(q, ClassOf(live[q].layout), at) ==> Holds(o, q, ClassOf(live[q].layout), at);
  }

  /** A word of an outstanding block is no list node. */
  lemma StoreLinks(st: State, at: nat, v: nat)
    requires Inv(st) && Covered(st.out, at) && at in st.links.mem
    ensures Inv(st.(links := st.links.(mem := st.links.mem[at := v])))
  {
    var l, l' := st.links, st.links.(mem := st.links.mem[at := v]);
    forall k: nat | k < |st.lists| ensures Linked(l'.mem, l'.heads[k], st.lists[k]) {
      assert Linked(l.mem, l.heads[k], st.lists[k]);
      forall n: nat | n < |st.lists[k]| ensures st.lists[k][n] != at { NodesAreFree(st, k, n); }
      LinkedElsewhere(l.mem, l.heads[k], st.lists[k], at, v);
    }
  }

  lemma AllocMatches(st: State, st': State, wordBits: nat, m: Model, e: Layout, i: nat)
    requires Inv(st) && Matches(st, wordBits, m) && ClassOf(e) <= i < |st.lists| && st.lists[i] != []
    requires i == FirstNonEmpty(Sets(st.lists), ClassOf(e)) && Untouched(st.links.mem, st'.links.mem, st.out)
    requires st' == State(st'.links, ListTake(st.lists, i, ClassOf(e)), Put(st.out, st.lists[i][0], ClassOf(e)),
                          st.managed, st.requests[st.lists[i][0] := e.size], st.user + e.size,
                          st.used + Pow2(ClassOf(e)), st.total)
    ensures AllocApplied(m, e).0 == Got(Some(st.lists[i][0])) && Matches(st', wordBits, AllocApplied(m, e).1)
    ensures st.lists[i][0] !in m.live
  {
    HasSets(st.lists);
    AllocHeld(st, m.live, st.lists[i][0], i, e, st'.links.mem);
  }

  method RunAlloc(h: Heap, e: Layout, ghost m: Model) returns (r: Option<nat>)
    requires Inv(h.StateOf()) && Matches(h.StateOf(), h.wordBits, m)
    modifies h
    ensures Inv(h.StateOf()) && Got(r) == AllocApplied(m, e).0
    ensures Matches(h.StateOf(), h.wordBits, AllocApplied(m, e).1)
    ensures r.Some? ==> r.value !in m.live
    ensures NoBuddies(Sets(m.lists)) ==> NoBuddies(Sets(h.lists))
  {
    ghost var st := h.StateOf();
    r := h.Alloc(e.size, e.align);
    if r.Some? {
      AllocMatches(st, h.StateOf(), h.wordBits, m, e, FirstNonEmpty(Sets(st.lists), ClassOf(e)));
    }
  }

  method RunFree(h: Heap, p: nat, e: Layout, ghost m: Model) returns (ok: bool)
    requires Inv(h.StateOf()) && Matches(h.StateOf(), h.wordBits, m) && Legal(m, FreeOp(p, e))
    modifies h
    ensures FreeApplied(m, p, e).0 == if ok then Done else Panicked
    ensures ok ==> Inv(h.StateOf()) && Matches(h.StateOf(), h.wordBits, FreeApplied(m, p, e).1)
    ensures ok && NoBuddies(Sets(m.lists)) ==> NoBuddies(Sets(h.lists))
    ensures NoTopWindow(m.managed, |m.lists|) ==> ok
  {
    ghost var st := h.StateOf();
    assert Held(m.live, st.out, st.requests, st.links.mem, p);
    ghost var k := ClassOf(e);
    if NoTopWindow(m.managed, |m.lists|) { NoWindowKept(Sets(st.lists), st.out, st.managed, p, k); }
    ok := h.Dealloc(p, e.size, e.align);
    if ok {
      FreeHeld(st, m.live, p, h.mem);
    } else {
      assert BuddiesFree(Sets(m.lists), p, k);
    }
  }

  method RunAdd(h: Heap, start: nat, end: nat, ghost m: Model) returns (ok: bool)
    requires Inv(h.StateOf()) && Matches(h.StateOf(), h.wordBits, m) && Legal(m, AddOp(start, end))
    modifies h
    ensures AddApplied(m, start, end).0 == if ok then Done else Panicked
    ensures ok ==> Inv(h.StateOf()) && Matches(h.StateOf(), h.wordBits, AddApplied(m, start, end).1)
  {
    ghost var st := h.StateOf();
    ok := h.AddToHeap(start, end);
    if ok {
      AddHeld(st, m.live, h.mem);
    }
  }

  /** One call is one step of the model, outcome included. */
  method RunOne(h: Heap, op: Op, ghost m: Model) returns (r: Outcome)
    requires Inv(h.StateOf()) && Matches(h.StateOf(), h.wordBits, m) && Legal(m, op)
    modifies h
    ensures r == Applied(m, op).0
    ensures !r.Panicked? ==> Inv(h.StateOf()) && Matches(h.StateOf(), h.wordBits, Applied(m, op).1)
    ensures r.Got? && r.block.Some? ==> r.block.value !in m.live
    ensures !op.AddOp? && !r.Panicked? && NoBuddies(Sets(m.lists)) ==> NoBuddies(Sets(h.lists))
    ensures !op.AddOp? && NoTopWindow(m.managed, |m.lists|) ==> !r.Panicked?
  {
    match op
    case AllocOp(e) =>
      var p := RunAlloc(h, e, m);
      r := Got(p);
    case FreeOp(p, e) =>
      var ok := RunFree(h, p, e, m);
      r := if ok then Done else Panicked;
    case AddOp(start, end) =>
      var ok := RunAdd(h, start, end, m);
      r := if ok then Done else Panicked;
    case StoreOp(p, at, v) =>
      StoreHeld(h.StateOf(), m.live, p, at, v);
      h.mem := h.mem[at := v];
      r := Done;
    case LoadOp(p, at) =>
      assert Held(m.live, h.out, h.requests, h.mem, p);
      r := Word(h.mem[at]);
  }

  ghost predicate NoAdds(ops: seq<Op>) { forall op | op in ops :: !op.AddOp? }

  lemma AppliedKeeps(m: Model, op: Op)
    requires Sized(m)
    ensures |Applied(m, op).1.lists| == |m.lists| && (!op.AddOp? ==> Applied(m, op).1.managed == m.managed)
  {
  }

  /** Nothing happens after a panic. */
  lemma {:induction false} StoppedStays(m: Model, ops: seq<Op>, i: nat, n: nat)
    requires Sized(m) && i <= n <= |ops| && Stopped(AppliedAll(m, ops, i).0)
    ensures AppliedAll(m, ops, n) == AppliedAll(m, ops, i)
    decreases n - i
  {
    if i < n { StoppedStays(m, ops, i, n - 1); }
  }

  /** After `i` calls without a panic the outcomes are `rs` and the model is `u`. */
  ghost predicate Reached(m: Model, ops: seq<Op>, i: nat, rs: seq<Outcome>, u: Model)
    requires Sized(m) && i <= |ops|
  {
    && AppliedAll(m, ops, i) == (rs, u) && !Stopped(rs) && |u.lists| == |m.lists|
    && (NoAdds(ops) ==> u.managed == m.managed)
  }

  lemma ReachedNext(m: Model, ops: seq<Op>, i: nat, rs: seq<Outcome>, u: Model)
    requires Sized(m) && i < |ops| && AllLegal(m, ops) && Reached(m, ops, i, rs, u)
    ensures Sized(u) && Legal(u, ops[i]) && (NoAdds(ops) ==> !ops[i].AddOp?)
    ensures var (r, w) := Applied(u, ops[i]);
            if r.Panicked? then rs + [r] == AppliedAll(m, ops, |ops|).0 && Stopped(rs + [r])
            else Reached(m, ops, i + 1, rs + [r], w)
  {
    assert ops[i] in ops;
    AppliedKeeps(u, ops[i]);
    if Applied(u, ops[i]).0.Panicked? { StoppedStays(m, ops, i + 1, |ops|); }
  }

  method RunNext(h: Heap, ops: seq<Op>, i: nat, rs: seq<Outcome>, ghost m: Model, ghost u: Model)
    returns (ok: bool, rs': seq<Outcome>, ghost u': Model)
    requires Sized(m) && i < |ops| && AllLegal(m, ops) && Reached(m, ops, i, rs, u)
    requires Inv(h.StateOf()) && Matches(h.StateOf(), h.wordBits, u)
    modifies h
    ensures !ok ==> rs' == AppliedAll(m, ops, |ops|).0 && Stopped(rs')
    ensures ok ==> Reached(m, ops, i + 1, rs', u') && Inv(h.StateOf()) && Matches(h.StateOf(), h.wordBits, u')
    ensures NoAdds(ops) && ok && NoBuddies(Sets(u.lists)) ==> NoBuddies(Sets(u'.lists))
    ensures NoAdds(ops) && NoTopWindow(m.managed, |m.lists|) ==> ok
  {
    ReachedNext(m, ops, i, rs, u);
    var r := RunOne(h, ops[i], u);
    return !r.Panicked?, rs + [r], Applied(u, ops[i]).1;
  }

  /** Any sequence of requests, frees, additions, stores and loads has the outcomes of the same sequence on the model,
      up to a panic: every holding keeps what its holder stored in it. Without additions complete merging stays, and
      there is no panic if no whole top window is managed. */
  method RunAll(h: Heap, ops: seq<Op>, ghost m: Model) returns (rs: seq<Outcome>)
    requires Inv(h.StateOf()) && Matches(h.StateOf(), h.wordBits, m) && AllLegal(m, ops)
    modifies h
    ensures rs == AppliedAll(m, ops, |ops|).0
    ensures !Stopped(rs) ==> Inv(h.StateOf()) && Matches(h.StateOf(), h.wordBits, AppliedAll(m, ops, |ops|).1)
    ensures NoAdds(ops) && !Stopped(rs) && NoBuddies(Sets(m.lists)) ==> NoBuddies(Sets(h.lists))
    ensures NoAdds(ops) && NoTopWindow(m.managed, |m.lists|) ==> !Stopped(rs) && h.managed == m.managed
  {
    rs := [];
    ghost var u := m;
    for i := 0 to |ops|
      invariant Reached(m, ops, i, rs, u) && Inv(h.StateOf()) && Matches(h.StateOf(), h.wordBits, u)
      invariant NoAdds(ops) && NoBuddies(Sets(m.lists)) ==> NoBuddies(Sets(u.lists))
    {
      var ok;
      ok, rs, u := RunNext(h, ops, i, rs, m, u);
      if !ok {
        return;
      }
    }
  }

  /** A heap of the one region from `start` to `end`. */
  ghost function FreshModel(order: nat, wordBits: nat, backed: set<nat>, start: nat, end: nat): (m: Model)
    requires order > 0 && Addable(start, end, order)
    ensures Sized(m)
  {
    var first, last := AlignUp(start), AlignDown(end);
    Model(ListCarve(EmptyLists(order), first, last), Empty(order), Range(first, last), map[], 0, 0, last - first,
          map[], backed, wordBits)
  }

  /** The region is memory that can be added to an empty heap. */
  ghost predicate RegionOk(order: nat, wordBits: nat, mem: Memory, start: nat, end: nat) {
    && order > 0 && end < Pow2(wordBits) && start + (WORD - 1) < Pow2(wordBits) && 3 <= wordBits
    && Addable(start, end, order)
    && forall a | a in Range(AlignUp(start), AlignDown(end)) && a % WORD == 0 :: a in mem
  }

  method FreshHeap(order: nat, wordBits: nat, mem: Memory, start: nat, end: nat) returns (h: Heap)
    requires RegionOk(order, wordBits, mem, start, end)
    ensures fresh(h) && h.wordBits == wordBits && Inv(h.StateOf())
    ensures Matches(h.StateOf(), wordBits, FreshModel(order, wordBits, mem.Keys, start, end))
    ensures NoBuddies(Sets(h.lists)) && NoTopWindow(h.managed, order) && |h.lists| == order
  {
    var first, last := AlignUp(start), AlignDown(end);
    h := new Heap(order, wordBits, mem);
    var _ := h.AddToHeap(start, end);
    FreshNoBuddies(order, first, last);
    RangeNoTopWindow(first, last, order);
  }

  /** Every aligned run of 2^k bytes holds a byte that is unmanaged or handed out. */
  ghost predicate NoRun(m: Model, k: nat) {
    forall a :: Aligned(a, k) ==> exists u :: Covers(a, k, u) && (u !in m.managed || Covered(m.out, u))
  }

  /** One region, any run of requests, frees, stores and loads, then a request: nothing panics, and the request fails
      if and only if after the run every aligned run of its size holds a byte that is not in the region or is handed
      out. */
  method Serve(order: nat, wordBits: nat, mem: Memory, start: nat, end: nat, ops: seq<Op>, e: Layout)
    returns (rs: seq<Outcome>, r: Option<nat>)
    requires RegionOk(order, wordBits, mem, start, end) && NoAdds(ops)
    requires AllLegal(FreshModel(order, wordBits, mem.Keys, start, end), ops)
    ensures var (os, m) := AppliedAll(FreshModel(order, wordBits, mem.Keys, start, end), ops, |ops|);
            && rs == os && !Stopped(rs) && m.managed == Range(AlignUp(start), AlignDown(end))
            && Got(r) == AllocApplied(m, e).0 && (r.None? <==> NoRun(m, ClassOf(e)))
  {
    ghost var m := FreshModel(order, wordBits, mem.Keys, start, end);
    var h := FreshHeap(order, wordBits, mem, start, end);
    rs := RunAll(h, ops, m);
    ghost var u := AppliedAll(m, ops, |ops|).1;
    HeapComplete(h.StateOf(), ClassOf(e));
    r := RunAlloc(h, e, u);
    AllocFinds(u, e);
  }

  /** The model's request fails exactly when no class from that of the request up holds a block. */
  lemma AllocFinds(m: Model, e: Layout)
    requires Sized(m)
    ensures AllocApplied(m, e).0 == Got(None) <==> FirstNonEmpty(Sets(m.lists), ClassOf(e)) == |m.lists|
  {
    var i := FirstNonEmpty(Sets(m.lists), ClassOf(e));
    if i < |m.lists| { assert m.lists[i] != []; }
  }
}
