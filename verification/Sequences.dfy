/** Sequences of numbers without repetition. */
module Sequences {
  ghost predicate Nth(s: seq<nat>, i: nat, c: nat) { i < |s| && s[i] == c }

  /** No element twice. */
  ghost predicate NoRepeats(s: seq<nat>) { forall i: nat, j: nat, c: nat | Nth(s, i, c) && Nth(s, j, c) :: i == j }

  function SetOf(s: seq<nat>): set<nat> { set x | x in s }

  lemma Differ(s: seq<nat>, i: nat, j: nat)
    requires NoRepeats(s) && i < |s| && j < |s| && i != j
    ensures s[i] != s[j]
  {
    assert Nth(s, i, s[i]) && Nth(s, j, s[j]);
  }

  lemma NoRepeatsSplit(s: seq<nat>, n: nat)
    requires NoRepeats(s) && n <= |s|
    ensures NoRepeats(s[..n]) && NoRepeats(s[n..]) && forall c | c in s[..n] :: c !in s[n..]
  {
    var front, back := s[..n], s[n..];
    forall i: nat, j: nat, c: nat | Nth(front, i, c) && Nth(front, j, c) ensures i == j {
      assert Nth(s, i, c) && Nth(s, j, c);
    }
    forall i: nat, j: nat, c: nat | Nth(back, i, c) && Nth(back, j, c) ensures i == j {
      assert Nth(s, n + i, c) && Nth(s, n + j, c);
    }
    forall c | c in front ensures c !in back {
      var i: nat :| i < n && s[i] == c;
      assert Nth(s, i, c);
      forall j: nat | j < |back| ensures back[j] != c { Differ(s, i, n + j); }
    }
  }

  lemma NoRepeatsJoin(a: seq<nat>, b: seq<nat>)
    requires NoRepeats(a) && NoRepeats(b) && forall x | x in a :: x !in b
    ensures NoRepeats(a + b)
  {
    var s := a + b;
    forall i: nat, j: nat, c: nat | Nth(s, i, c) && Nth(s, j, c) ensures i == j {
      if i < |a| { assert Nth(a, i, c) && c in a; } else { assert Nth(b, i - |a|, c) && c in b; }
      if j < |a| { assert Nth(a, j, c) && c in a; } else { assert Nth(b, j - |a|, c) && c in b; }
    }
  }

  lemma NoRepeatsAdd(s: seq<nat>, c: nat)
    requires NoRepeats(s) && c !in s
    ensures NoRepeats(s + [c])
  {
    NoRepeatsJoin(s, [c]);
  }

  /** Taking out element `i` leaves the others. */
  lemma NoRepeatsWithout(s: seq<nat>, i: nat)
    requires NoRepeats(s) && i < |s|
    ensures NoRepeats(s[..i] + s[i + 1..]) && forall x :: x in s[..i] + s[i + 1..] <==> x in s && x != s[i]
  {
    NoRepeatsSplit(s, i);
    NoRepeatsSplit(s, i + 1);
    var front, back := s[..i], s[i + 1..];
    forall x | x in front ensures x !in back { assert x in s[..i + 1]; }
    NoRepeatsJoin(front, back);
    assert s == front + [s[i]] + back;
    assert s[i] in s[i..] && s[i] in s[..i + 1];
  }
}
