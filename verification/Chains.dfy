/** Cluster chains in a file allocation table, as values. */
module Chains {
  import opened FatTables
  import opened Sequences

  type Table = seq<FatValue>

  /** Every link of the table points to a cluster of the volume. */
  ghost predicate InRange(tab: Table) {
    forall c | 0 <= c < |tab| :: tab[c].Data? ==> RESERVED <= tab[c].next < |tab|
  }

  /** Following links from `s[0]` visits exactly `s`, without repeating a cluster. */
  ghost predicate IsPath(tab: Table, s: seq<nat>) {
    && |s| > 0 && NoRepeats(s)
    && (forall i | 0 <= i < |s| :: RESERVED <= s[i] < |tab|)
    && (forall i: nat | i + 1 < |s| :: Link(tab, s, i))
  }

  /** A path that ends with an end mark. */
  ghost predicate IsChain(tab: Table, s: seq<nat>) { IsPath(tab, s) && tab[s[|s| - 1]] == EndOfChain }

  /** A path from `c` whose last entry is an end mark or the mark of a bad cluster. */
  ghost predicate MarkedPath(tab: Table, c: nat, s: seq<nat>) {
    IsPath(tab, s) && s[0] == c && (tab[s[|s| - 1]] == EndOfChain || tab[s[|s| - 1]] == Bad)
  }

  /** The entry of element `i` of the chain names element `i + 1`. */
  ghost predicate Link(tab: Table, s: seq<nat>, i: nat)
    requires i + 1 < |s| && s[i] < |tab|
  {
    tab[s[i]] == Data(s[i + 1])
  }

  /** No cluster of a chain is free. */
  lemma ChainNotFree(tab: Table, s: seq<nat>, c: nat)
    requires IsChain(tab, s) && c in s
    ensures RESERVED <= c < |tab| && !tab[c].Free?
  {
    var i: nat :| i < |s| && s[i] == c;
    if i < |s| - 1 { assert Link(tab, s, i); }
  }

  ghost function DataSet(tab: Table): set<nat> { set c: nat | c < |tab| && tab[c].Data? }

  ghost function FreeSet(tab: Table): set<nat> { set c: nat | c < |tab| && RESERVED <= c && tab[c].Free? }

  // ---------------------------------------------------------------- freeing

  /** The table and the count after freeing everything reached from `c`: read the link, free the entry, follow.
      It ends on every table, because a revisited entry is no longer a link. */
  ghost function FreeFrom(tab: Table, c: nat): (r: (Table, nat))
    requires InRange(tab) && RESERVED <= c < |tab|
    ensures |r.0| == |tab| && InRange(r.0)
    decreases DataSet(tab)
  {
    var tab' := tab[c := Free];
    if tab[c].Data? then
      assert c in DataSet(tab) && c !in DataSet(tab');
      var (t, n) := FreeFrom(tab', tab[c].next);
      (t, n + 1)
    else (tab', 1)
  }

  function Cleared(tab: Table, s: seq<nat>): (r: Table)
    ensures |r| == |tab|
  {
    seq(|tab|, c requires 0 <= c < |tab| => if c in s then Free else tab[c])
  }

  /** Once its first cluster is freed, the rest of a path is still a path with the same end. */
  lemma PathTail(tab: Table, s: seq<nat>)
    requires IsPath(tab, s) && |s| > 1
    ensures tab[s[0]] == Data(s[1]) && IsPath(tab[s[0] := Free], s[1..]) &&
            tab[s[0] := Free][s[|s| - 1]] == tab[s[|s| - 1]]
  {
    var r, t := s[1..], tab[s[0] := Free];
    Differ(s, 0, |s| - 1);
    assert Link(tab, s, 0);
    NoRepeatsSplit(s, 1);
    assert s[0] in s[..1];
    forall i: nat | i + 1 < |r| ensures Link(t, r, i) { assert Link(tab, s, i + 1); }
  }

  /** On a chain, exactly its clusters are freed and they are all counted. */
  lemma {:induction false} FreeChain(tab: Table, s: seq<nat>)
    requires InRange(tab) && IsChain(tab, s)
    ensures FreeFrom(tab, s[0]) == (Cleared(tab, s), |s|)
    decreases |s|
  {
    var tab' := tab[s[0] := Free];
    if |s| == 1 {
      assert Cleared(tab, s) == tab';
    } else {
      var r := s[1..];
      assert s == [s[0]] + r;
      PathTail(tab, s);
      FreeChain(tab', r);
      assert Cleared(tab', r) == Cleared(tab, s);
    }
  }

  /** The last entry visited was already free: the links ran into a free cluster or into themselves. */
  ghost predicate EndsFree(tab: Table, c: nat)
    requires InRange(tab) && RESERVED <= c < |tab|
    decreases DataSet(tab)
  {
    var tab' := tab[c := Free];
    if tab[c].Data? then
      assert c in DataSet(tab) && c !in DataSet(tab');
      EndsFree(tab', tab[c].next)
    else tab[c].Free?
  }

  lemma FreeSetClear(tab: Table, c: nat)
    requires RESERVED <= c < |tab|
    ensures |FreeSet(tab[c := Free])| == |FreeSet(tab)| + (if tab[c].Free? then 0 else 1)
  {
    assert FreeSet(tab[c := Free]) == FreeSet(tab) + {c};
  }

  /** On any in-range table entries are only ever freed; one too many is counted when the last entry visited was
      free. */
  lemma {:induction false} FreeAny(tab: Table, c: nat)
    requires InRange(tab) && RESERVED <= c < |tab|
    ensures var (tab', n) := FreeFrom(tab, c);
            && (forall d | 0 <= d < |tab| :: tab'[d] == tab[d] || tab'[d] == Free)
            && tab'[c] == Free
            && n == |FreeSet(tab')| - |FreeSet(tab)| + (if EndsFree(tab, c) then 1 else 0)
    decreases DataSet(tab)
  {
    var tab' := tab[c := Free];
    FreeSetClear(tab, c);
    if tab[c].Data? {
      assert c in DataSet(tab) && c !in DataSet(tab');
      FreeAny(tab', tab[c].next);
    }
  }

  lemma {:induction false} MarkedEnds(tab: Table, c: nat, s: seq<nat>)
    requires InRange(tab) && MarkedPath(tab, c, s)
    ensures !EndsFree(tab, c)
    decreases |s|
  {
    if |s| > 1 {
      PathTail(tab, s);
      MarkedEnds(tab[c := Free], s[1], s[1..]);
    }
  }

  /** No entry of a marked path is free. */
  lemma MarkedNotFree(tab: Table, c: nat, s: seq<nat>, d: nat)
    requires MarkedPath(tab, c, s) && d in s
    ensures RESERVED <= d < |tab| && !tab[d].Free?
  {
    var i :| 0 <= i < |s| && s[i] == d;
    if i + 1 < |s| { assert Link(tab, s, i); }
  }

  lemma {:induction false} FindMarked(tab: Table, c: nat) returns (s: seq<nat>)
    requires InRange(tab) && RESERVED <= c < |tab| && !EndsFree(tab, c)
    ensures MarkedPath(tab, c, s)
    decreases DataSet(tab)
  {
    if !tab[c].Data? {
      s := [c];
    } else {
      var tab' := tab[c := Free];
      assert c in DataSet(tab) && c !in DataSet(tab');
      var r := FindMarked(tab', tab[c].next);
      s := [c] + r;
      PathMore(tab, c, r);
    }
  }

  lemma PathMore(tab: Table, c: nat, r: seq<nat>)
    requires RESERVED <= c < |tab| && tab[c].Data? && MarkedPath(tab[c := Free], tab[c].next, r)
    ensures MarkedPath(tab, c, [c] + r)
  {
    var tab', s := tab[c := Free], [c] + r;
    forall d | d in r ensures d != c && tab'[d] == tab[d] { MarkedNotFree(tab', tab[c].next, r, d); }
    forall i: nat, j: nat, d: nat | Nth(s, i, d) && Nth(s, j, d) ensures i == j {
      assert i > 0 ==> Nth(r, i - 1, d) && d in r;
      assert j > 0 ==> Nth(r, j - 1, d) && d in r;
    }
    forall i: nat | i + 1 < |s| ensures Link(tab, s, i) {
      if i > 0 { assert Link(tab', r, i - 1) && r[i - 1] in r; }
    }
    assert r[|r| - 1] in r;
  }

  /** The loop counts the newly free clusters exactly when the links from `c` lead, without repeating a cluster, to an
      end mark or a bad cluster; otherwise it counts one too many. */
  lemma {:induction false} FreeCountsIff(tab: Table, c: nat)
    requires InRange(tab) && RESERVED <= c < |tab|
    ensures var (tab', n) := FreeFrom(tab, c);
            && n == |FreeSet(tab')| - |FreeSet(tab)| + (if exists s :: MarkedPath(tab, c, s) then 0 else 1)
            && (n == |FreeSet(tab')| - |FreeSet(tab)| <==> exists s :: MarkedPath(tab, c, s))
  {
    FreeAny(tab, c);
    if EndsFree(tab, c) {
      forall s | MarkedPath(tab, c, s) ensures false { MarkedEnds(tab, c, s); }
    } else {
      var s := FindMarked(tab, c);
    }
  }

  /** A two-cluster loop is freed, but one cluster is counted twice. */
  lemma CyclicExample()
    ensures var tab := [EndOfChain, EndOfChain, Data(3), Data(2)];
            InRange(tab) && FreeFrom(tab, 2) == ([EndOfChain, EndOfChain, Free, Free], 3)
  {
    var t0: Table := [EndOfChain, EndOfChain, Data(3), Data(2)];
    var t1: Table := t0[2 := Free];
    var t2: Table := t1[3 := Free];
    assert t2[2 := Free] == [EndOfChain, EndOfChain, Free, Free];
    assert FreeFrom(t2, 2) == (t2[2 := Free], 1);
    assert FreeFrom(t1, 3) == (t2[2 := Free], 2);
  }

  // ---------------------------------------------------------------- all files of a volume

  type Files = map<nat, seq<nat>>

  ghost predicate Owns(files: Files, f: nat, i: nat, c: nat) {
    f in files && i < |files[f]| && files[f][i] == c
  }

  /** Every file's clusters form a chain, and no cluster is in two places. */
  ghost predicate ChainsOk(tab: Table, files: Files) {
    && (forall f | f in files && files[f] != [] :: IsChain(tab, files[f]))
    && (forall f, i, g, j, c :: Owns(files, f, i, c) && Owns(files, g, j, c) ==> f == g && i == j)
  }

  /** A chain whose entries are the same in both tables stays a chain. */
  lemma ChainKept(tab: Table, tab': Table, s: seq<nat>)
    requires IsChain(tab, s) && |tab'| == |tab| && forall c | c in s :: tab'[c] == tab[c]
    ensures IsChain(tab', s)
  {
    forall i | 0 <= i < |s| ensures tab'[s[i]] == tab[s[i]] { assert s[i] in s; }
    forall i: nat | i + 1 < |s| ensures Link(tab', s, i) { assert Link(tab, s, i); }
  }

  ghost function Extended(tab: Table, s: seq<nat>, c: nat): (r: Table)
    requires c < |tab| && (s != [] ==> s[|s| - 1] < |tab|)
    ensures |r| == |tab|
  {
    var t := tab[c := EndOfChain];
    if s == [] then t else t[s[|s| - 1] := Data(c)]
  }

  lemma ExtendedChain(tab: Table, s: seq<nat>, c: nat)
    requires s != [] ==> IsChain(tab, s)
    requires RESERVED <= c < |tab| && tab[c] == Free
    ensures c !in s && IsChain(Extended(tab, s, c), s + [c])
    ensures forall d | 0 <= d < |tab| && d != c && d !in s :: Extended(tab, s, c)[d] == tab[d]
    ensures |FreeSet(Extended(tab, s, c))| == |FreeSet(tab)| - 1
    ensures InRange(tab) ==> InRange(Extended(tab, s, c))
  {
    var tab' := Extended(tab, s, c);
    var t := s + [c];
    if c in s { ChainNotFree(tab, s, c); }
    NoRepeatsAdd(s, c);
    assert FreeSet(tab') == FreeSet(tab) - {c};
    forall i: nat | i + 1 < |t| ensures Link(tab', t, i) {
      if i < |s| - 1 {
        assert Link(tab, s, i);
        Differ(s, i, |s| - 1);
      }
    }
  }

  /** Giving a free cluster to file `f` keeps every chain. */
  lemma AllocKeepsChains(tab: Table, files: Files, f: nat, c: nat)
    requires ChainsOk(tab, files) && f in files && RESERVED <= c < |tab| && tab[c] == Free
    ensures ChainsOk(Extended(tab, files[f], c), files[f := files[f] + [c]])
    ensures forall g | g in files :: c !in files[g]
  {
    var s := files[f];
    ExtendedChain(tab, s, c);
    var tab', files' := Extended(tab, s, c), files[f := s + [c]];
    forall g | g in files ensures c !in files[g] {
      if c in files[g] { ChainNotFree(tab, files[g], c); }
    }
    forall g | g in files' && files'[g] != [] ensures IsChain(tab', files'[g]) {
      if g != f { OthersKept(tab, tab', files, f, g); }
    }
    forall g: nat, i: nat, h: nat, j: nat, d: nat | Owns(files', g, i, d) && Owns(files', h, j, d)
      ensures g == h && i == j
    {
      if d != c { assert Owns(files, g, i, d) && Owns(files, h, j, d); }
    }
  }

  /** A change confined to one file's clusters and to unowned clusters keeps the other chains. */
  lemma OthersKept(tab: Table, tab': Table, files: Files, f: nat, g: nat)
    requires ChainsOk(tab, files) && f in files && g in files && g != f && files[g] != [] && |tab'| == |tab|
    requires forall c | 0 <= c < |tab| && c !in files[f] && c in files[g] :: tab'[c] == tab[c]
    ensures IsChain(tab', files[g])
  {
    assert IsChain(tab, files[g]);
    forall c | c in files[g] ensures c !in files[f] {
      var i: nat :| i < |files[g]| && files[g][i] == c;
      assert Owns(files, g, i, c);
      assert forall j: nat | j < |files[f]| && files[f][j] == c :: Owns(files, f, j, c);
    }
    ChainKept(tab, tab', files[g]);
  }

  /** The table after file clusters `s` have been cut to their first `n`. */
  ghost function Truncated(tab: Table, s: seq<nat>, n: nat): (r: Table)
    requires n <= |s| && forall c | c in s :: c < |tab|
    ensures |r| == |tab|
  {
    if n == 0 then Cleared(tab, s) else assert s[n - 1] in s; Cleared(tab[s[n - 1] := EndOfChain], s[n..])
  }

  lemma TruncatedChain(tab: Table, s: seq<nat>, n: nat)
    requires IsChain(tab, s) && n <= |s|
    ensures forall c | c in s :: c < |tab|
    ensures n > 0 ==> IsChain(Truncated(tab, s, n), s[..n])
    ensures forall d | 0 <= d < |tab| && d !in s :: Truncated(tab, s, n)[d] == tab[d]
    ensures InRange(tab) ==> InRange(Truncated(tab, s, n))
  {
    var r := s[n..];
    forall c | c in s ensures c < |tab| {}
    var tab' := Truncated(tab, s, n);
    if n > 0 {
      var k := s[..n];
      NoRepeatsSplit(s, n);
      forall i: nat | i < n ensures k[i] !in r && tab'[k[i]] == if i == n - 1 then EndOfChain else tab[k[i]] {
        assert k[i] in k;
        if i < n - 1 { Differ(s, i, n - 1); }
      }
      forall i: nat | i + 1 < n ensures Link(tab', k, i) { assert Link(tab, s, i); }
      assert s[n - 1] in s;
    }
  }

  /** Truncation frees exactly the clusters cut off. */
  lemma TruncatedFree(tab: Table, s: seq<nat>, n: nat)
    requires IsChain(tab, s) && n <= |s|
    ensures forall c | c in s :: c < |tab|
    ensures |FreeSet(Truncated(tab, s, n))| == |FreeSet(tab)| + (|s| - n)
  {
    var r := s[n..];
    forall c | c in s ensures RESERVED <= c < |tab| && !tab[c].Free? { ChainNotFree(tab, s, c); }
    if n == 0 {
      ClearedFree(tab, s);
    } else {
      assert s[n - 1] in s;
      var t := tab[s[n - 1] := EndOfChain];
      assert FreeSet(t) == FreeSet(tab);
      forall c | c in r ensures c in s {}
      NoRepeatsSplit(s, n);
      ClearedFree(t, r);
    }
  }

  lemma ClearedFree(tab: Table, r: seq<nat>)
    requires NoRepeats(r) && forall c | c in r :: RESERVED <= c < |tab| && !tab[c].Free?
    ensures |FreeSet(Cleared(tab, r))| == |FreeSet(tab)| + |r|
  {
    SizeOfSet(r);
    assert FreeSet(tab) !! SetOf(r);
    assert FreeSet(Cleared(tab, r)) == FreeSet(tab) + SetOf(r);
  }

  lemma {:induction false} SizeOfSet(s: seq<nat>)
    requires NoRepeats(s)
    ensures |SetOf(s)| == |s|
    decreases |s|
  {
    if s != [] {
      var n := |s| - 1;
      NoRepeatsSplit(s, n);
      SizeOfSet(s[..n]);
      assert s[n..][0] == s[n] && s[n] in s[n..];
      assert forall c :: c in s <==> c in s[..n] || c == s[n];
      assert SetOf(s) == SetOf(s[..n]) + {s[n]};
    }
  }

  /** Cutting file `f` to its first `n` clusters keeps every chain. */
  lemma TruncateKeepsChains(tab: Table, files: Files, f: nat, n: nat)
    requires ChainsOk(tab, files) && f in files && n <= |files[f]| && files[f] != []
    ensures forall c | c in files[f] :: c < |tab|
    ensures ChainsOk(Truncated(tab, files[f], n), files[f := files[f][..n]])
  {
    var s := files[f];
    assert IsChain(tab, s);
    TruncatedChain(tab, s, n);
    var tab', files' := Truncated(tab, s, n), files[f := s[..n]];
    forall g | g in files' && files'[g] != [] ensures IsChain(tab', files'[g]) {
      if g != f { OthersKept(tab, tab', files, f, g); }
    }
    forall g: nat, i: nat, h: nat, j: nat, d: nat | Owns(files', g, i, d) && Owns(files', h, j, d)
      ensures g == h && i == j
    {
      assert Owns(files, g, i, d) && Owns(files, h, j, d);
    }
  }
}
