/** Free lists threaded through raw memory: the first word of a free block holds the
    address of the next one, and address 0 ends the list. */
module LinkedLists {
  type Memory = map<nat, nat>

  function NextOf(s: seq<nat>, i: nat): nat { if i + 1 < |s| then s[i + 1] else 0 }

  /** Starting at `head`, memory links exactly the addresses `s` and then stops. */
  ghost predicate Linked(mem: Memory, head: nat, s: seq<nat>) {
    && head == (if s == [] then 0 else s[0])
    && (forall i: nat | i < |s| :: s[i] != 0 && s[i] in mem)
    && forall i: nat {:trigger NextOf(s, i)} | i < |s| :: mem[s[i]] == NextOf(s, i)
  }

  /** Address `x` is element `a` of list `i`. */
  ghost predicate At(lists: seq<seq<nat>>, i: nat, a: nat, x: nat) {
    i < |lists| && a < |lists[i]| && lists[i][a] == x
  }

  /** No address occurs twice, within a list or across lists. */
  ghost predicate Separate(lists: seq<seq<nat>>) {
    forall i, a, j, b, x :: At(lists, i, a, x) && At(lists, j, b, x) ==> i == j && a == b
  }

  ghost predicate Absent(lists: seq<seq<nat>>, x: nat) {
    forall k | 0 <= k < |lists| :: x !in lists[k]
  }

  /** Memory and the head of every list. */
  datatype Links = Links(mem: Memory, heads: seq<nat>)

  /** `push`: the block's first word takes the old head, and the block becomes the head. */
  function Push(l: Links, k: nat, x: nat): Links
    requires k < |l.heads|
  {
    Links(l.mem[x := l.heads[k]], l.heads[k := x])
  }

  /** `pop` of a nonempty list: the head moves to the word stored in the old head. */
  function Pop(l: Links, k: nat): Links
    requires k < |l.heads| && l.heads[k] in l.mem
  {
    l.(heads := l.heads[k := l.mem[l.heads[k]]])
  }

  ghost predicate LinksOk(l: Links, lists: seq<seq<nat>>) {
    && |l.heads| == |lists|
    && Separate(lists)
    && forall k: nat {:trigger Linked(l.mem, l.heads[k], lists[k])} | k < |lists| :: Linked(l.mem, l.heads[k], lists[k])
  }

  /** Memory determines the list: there is only one sequence linked from a head. */
  lemma {:induction false} LinkedUnique(mem: Memory, head: nat, s: seq<nat>, t: seq<nat>)
    requires Linked(mem, head, s) && Linked(mem, head, t)
    ensures s == t
    decreases |s|
  {
    if s != [] {
      assert s[0] == t[0] == head && mem[s[0]] == NextOf(s, 0) && mem[t[0]] == NextOf(t, 0);
      forall i: nat | i < |s| - 1 ensures NextOf(s[1..], i) == NextOf(s, i + 1) {}
      assert Linked(mem, mem[head], s[1..]) by { LinkedTail(mem, head, s); }
      assert Linked(mem, mem[head], t[1..]) by { LinkedTail(mem, head, t); }
      LinkedUnique(mem, mem[head], s[1..], t[1..]);
      assert s == [s[0]] + s[1..] && t == [t[0]] + t[1..];
    }
  }

  lemma LinkedTail(mem: Memory, head: nat, s: seq<nat>)
    requires Linked(mem, head, s) && s != []
    ensures Linked(mem, mem[head], s[1..])
  {
    var t := s[1..];
    assert mem[s[0]] == NextOf(s, 0);
    forall i: nat | i < |t| ensures t[i] != 0 && t[i] in mem && mem[t[i]] == NextOf(t, i) {
      assert t[i] == s[i + 1] && NextOf(t, i) == NextOf(s, i + 1);
    }
  }

  lemma LinkedPush(mem: Memory, head: nat, s: seq<nat>, x: nat)
    requires Linked(mem, head, s) && x != 0 && x !in s
    ensures Linked(mem[x := head], x, [x] + s)
  {
    var t, m := [x] + s, mem[x := head];
    forall i: nat | i < |t| ensures t[i] != 0 && t[i] in m && m[t[i]] == NextOf(t, i) {
      if i > 0 { assert t[i] == s[i - 1] && NextOf(t, i) == NextOf(s, i - 1); }
    }
  }

  lemma LinkedElsewhere(mem: Memory, head: nat, s: seq<nat>, x: nat, v: nat)
    requires Linked(mem, head, s) && x !in s
    ensures Linked(mem[x := v], head, s)
  {
  }

  lemma PushOk(l: Links, lists: seq<seq<nat>>, k: nat, x: nat)
    requires LinksOk(l, lists) && k < |lists| && x != 0 && Absent(lists, x)
    ensures LinksOk(Push(l, k, x), lists[k := [x] + lists[k]])
  {
    var l', lists' := Push(l, k, x), lists[k := [x] + lists[k]];
    LinkedPush(l.mem, l.heads[k], lists[k], x);
    forall j | 0 <= j < |lists| ensures Linked(l'.mem, l'.heads[j], lists'[j]) {
      if j != k { LinkedElsewhere(l.mem, l.heads[j], lists[j], x, l.heads[k]); }
    }
    forall i: nat, a: nat, j: nat, b: nat, y: nat | At(lists', i, a, y) && At(lists', j, b, y)
      ensures i == j && a == b
    {
      if i != k { assert At(lists, i, a, y); } else if a > 0 { assert At(lists, i, a - 1, y); }
      if j != k { assert At(lists, j, b, y); } else if b > 0 { assert At(lists, j, b - 1, y); }
    }
  }

  lemma PopOk(l: Links, lists: seq<seq<nat>>, k: nat)
    requires LinksOk(l, lists) && k < |lists| && lists[k] != []
    ensures l.heads[k] == lists[k][0] != 0 && l.heads[k] in l.mem
    ensures LinksOk(Pop(l, k), lists[k := lists[k][1..]])
    ensures Absent(lists[k := lists[k][1..]], l.heads[k])
  {
    assert Linked(l.mem, l.heads[k], lists[k]);
    LinkedTail(l.mem, l.heads[k], lists[k]);
    RemoveSeparate(lists, k, 0);
    assert lists[k][..0] + lists[k][1..] == lists[k][1..];
    assert lists[k][0] != 0;
  }

  function RemoveAt(s: seq<nat>, n: nat): seq<nat>
    requires n < |s|
  {
    s[..n] + s[n + 1..]
  }

  lemma RemoveSeparate(lists: seq<seq<nat>>, k: nat, n: nat)
    requires Separate(lists) && k < |lists| && n < |lists[k]|
    ensures Separate(lists[k := RemoveAt(lists[k], n)])
    ensures Absent(lists[k := RemoveAt(lists[k], n)], lists[k][n])
  {
    var l := lists[k := RemoveAt(lists[k], n)];
    forall i: nat, a: nat, x: nat | At(l, i, a, x)
      ensures At(lists, i, if i == k && a >= n then a + 1 else a, x)
    {
    }
    forall i: nat, a: nat, j: nat, b: nat, x: nat | At(l, i, a, x) && At(l, j, b, x)
      ensures i == j && a == b
    {
    }
    var y := lists[k][n];
    assert At(lists, k, n, y);
    forall j | 0 <= j < |l| ensures y !in l[j] {
      if y in l[j] {
        var b: nat :| b < |l[j]| && l[j][b] == y;
        assert At(l, j, b, y);
      }
    }
  }

  /** Removing the node `n` of list `k` through its predecessor, a node or the head itself. */
  function Unlink(l: Links, k: nat, prev: nat, curr: nat): Links
    requires k < |l.heads| && curr in l.mem
  {
    if prev == 0 then l.(heads := l.heads[k := l.mem[curr]]) else l.(mem := l.mem[prev := l.mem[curr]])
  }

  lemma UnlinkOk(l: Links, lists: seq<seq<nat>>, k: nat, n: nat)
    requires LinksOk(l, lists) && k < |lists| && n < |lists[k]|
    ensures lists[k][n] in l.mem
    ensures var prev := if n == 0 then 0 else lists[k][n - 1];
            LinksOk(Unlink(l, k, prev, lists[k][n]), lists[k := RemoveAt(lists[k], n)])
  {
    var s := lists[k];
    assert Linked(l.mem, l.heads[k], s);
    RemoveSeparate(lists, k, n);
    if n == 0 {
      PopOk(l, lists, k);
      assert RemoveAt(s, 0) == s[1..];
    } else {
      var p, v := s[n - 1], l.mem[s[n]];
      var m, t := l.mem[p := v], RemoveAt(s, n);
      forall i: nat | i < |t| ensures t[i] != 0 && t[i] in m && m[t[i]] == NextOf(t, i) {
        var i' := if i >= n then i + 1 else i;
        assert t[i] == s[i'] && l.mem[s[i']] == NextOf(s, i');
        assert At(lists, k, i', s[i']) && At(lists, k, n - 1, p);
        assert l.mem[s[n]] == NextOf(s, n);
      }
      forall j | 0 <= j < |lists| && j != k ensures Linked(m, l.heads[j], lists[j]) {
        assert At(lists, k, n - 1, p) && forall a: nat | a < |lists[j]| :: At(lists, j, a, lists[j][a]);
        LinkedElsewhere(l.mem, l.heads[j], lists[j], p, v);
      }
    }
  }
}
