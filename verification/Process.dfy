/** Processes: who is whose child, which pids are in use, and where each thread waits. */
module Processes {
  import opened Options
  import opened Sequences

  /** The identity of a process; never used twice, unlike its pid. Every process here has one thread. */
  type Id = nat

  const INIT: Id := 0

  datatype Proc = Proc(pid: nat, parent: Id, children: seq<Id>, zombie: bool, code: int)

  type Procs = map<Id, Proc>

  // ---------------------------------------------------------------- pids

  /** Numbers below `current` have been handed out; `recycled` are those given back. */
  datatype Pids = Pids(current: nat, recycled: seq<nat>)

  function AllocPid(a: Pids): (r: (Pids, nat)) {
    if a.recycled != [] then
      var n := |a.recycled| - 1;
      (Pids(a.current, a.recycled[..n]), a.recycled[n])
    else (Pids(a.current + 1, []), a.current)
  }

  function FreePid(a: Pids, pid: nat): Pids { Pids(a.current, a.recycled + [pid]) }

  ghost predicate Uses(procs: Procs, p: Id, pid: nat) { p in procs && procs[p].pid == pid }

  /** Pids in use are distinct, and with the recycled ones they are exactly the numbers handed out. */
  ghost predicate PidsOk(procs: Procs, a: Pids) {
    && a.current >= 1 && NoRepeats(a.recycled)
    && (forall p, q, pid: nat | Uses(procs, p, pid) && Uses(procs, q, pid) :: p == q)
    && (forall p | p in procs :: 1 <= procs[p].pid < a.current && procs[p].pid !in a.recycled)
    && (forall pid | pid in a.recycled :: 1 <= pid < a.current)
    && forall pid: nat | 1 <= pid < a.current && pid !in a.recycled :: exists p :: Uses(procs, p, pid)
  }

  // ---------------------------------------------------------------- the family tree

  ghost predicate Child(procs: Procs, q: Id, c: Id) { q in procs && c in procs[q].children }

  /** A process other than init is among the children of its recorded parent, which is alive and older. */
  ghost predicate ParentOk(procs: Procs, p: Id)
    requires p in procs
  {
    p != INIT ==>
      var q := procs[p].parent;
      Child(procs, q, p) && !procs[q].zombie && q < p
  }

  /** A listed child exists and names the owner of the list as its parent. */
  ghost predicate ChildOk(procs: Procs, c: Id, q: Id) { c in procs && c != INIT && procs[c].parent == q }

  /** No child is listed twice, and a zombie has none. */
  ghost predicate ListOk(p: Proc) { NoRepeats(p.children) && (p.zombie ==> p.children == []) }

  /** Every process but init is in exactly one list of children, that of its recorded living parent. */
  ghost predicate TreeOk(procs: Procs) {
    && INIT in procs && !procs[INIT].zombie
    && (forall p {:trigger ParentOk(procs, p)} | p in procs :: ParentOk(procs, p))
    && (forall q, c: Id {:trigger Child(procs, q, c)} | Child(procs, q, c) :: ChildOk(procs, c, q))
    && (forall p {:trigger ListOk(procs[p])} | p in procs :: ListOk(procs[p]))
  }

  // ---------------------------------------------------------------- the state

  datatype Timer = Timer(expire: nat, id: Id)

  datatype State = State(procs: Procs, pids: Pids, next: Id, current: Option<Id>, ready: seq<Id>, timers: seq<Timer>)

  function Sleepers(timers: seq<Timer>): (s: seq<Id>)
    ensures |s| == |timers|
  {
    if timers == [] then [] else Sleepers(timers[..|timers| - 1]) + [timers[|timers| - 1].id]
  }

  /** Every place a thread waits in, with multiplicity. */
  function Places(s: State): multiset<Id> {
    (if s.current.Some? then multiset{s.current.value}
        else multiset{}) + multiset(s.ready) + multiset(Sleepers(s.timers))
  }

  function Alive(procs: Procs): set<Id> { set p | p in procs && !procs[p].zombie }

  /** Each live thread is in exactly one of current, ready queue and timers; others are in none. */
  ghost predicate QueuesOk(s: State) { Places(s) == multiset(Alive(s.procs)) }

  ghost predicate Inv(s: State) {
    && TreeOk(s.procs) && PidsOk(s.procs, s.pids) && QueuesOk(s)
    && forall p | p in s.procs :: p < s.next
  }

  function Boot(): State { State(map[INIT := Proc(1, INIT, [], false, 0)], Pids(2, []), 1, None, [INIT], []) }

  lemma BootInv()
    ensures Inv(Boot())
  {
    var s := Boot();
    assert Alive(s.procs) == {INIT};
    assert multiset(s.ready) == multiset{INIT} == multiset({INIT});
    assert Uses(s.procs, INIT, 1);
  }

  // ---------------------------------------------------------------- fork

  function Forked(s: State): State
    requires s.current.Some? && s.current.value in s.procs
  {
    var c, n := s.current.value, s.next;
    var (pids, pid) := AllocPid(s.pids);
    var child := Proc(pid, c, [], false, 0);
    s.(procs := s.procs[c := s.procs[c].(children := s.procs[c].children + [n])][n := child], pids := pids,
        next := n + 1, ready := s.ready + [n])
  }

  /** What a fork does: one process more, new, alive and childless, listed by the current one; the others as before. */
  lemma ForkMeans(s: State)
    requires Inv(s) && s.current.Some? && s.current.value in s.procs
    ensures var c, n, t := s.current.value, s.next, Forked(s);
            && n !in s.procs && t.procs.Keys == s.procs.Keys + {n}
            && t.procs[n] == Proc(t.procs[n].pid, c, [], false, 0)
            && (forall p | p in s.procs :: s.procs[p].pid != t.procs[n].pid)
            && (forall p | p in s.procs && p != c :: t.procs[p] == s.procs[p])
            && t.procs[c] == s.procs[c].(children := s.procs[c].children + [n])
            && t.current == s.current && t.ready == s.ready + [n] && t.timers == s.timers
  {
    var t, n := Forked(s), s.next;
    ForkInv(s);
    forall p | p in s.procs ensures s.procs[p].pid != t.procs[n].pid {
      assert Uses(t.procs, p, s.procs[p].pid) && Uses(t.procs, n, t.procs[n].pid);
    }
  }

  lemma ForkTree(procs: Procs, c: Id, n: Id, pid: nat)
    requires TreeOk(procs) && c in procs && !procs[c].zombie && n !in procs && (forall p | p in procs :: p < n)
    ensures TreeOk(procs[c := procs[c].(children := procs[c].children + [n])][n := Proc(pid, c, [], false, 0)])
  {
    var procs' := procs[c := procs[c].(children := procs[c].children + [n])][n := Proc(pid, c, [], false, 0)];
    forall p | p in procs' ensures ParentOk(procs', p) {
      if p == n {
        assert procs'[c].children[|procs[c].children|] == n;
        assert Child(procs', c, n);
      } else {
        assert ParentOk(procs, p);
        if p != INIT { ForkChild(procs, c, n, pid, procs[p].parent, p); }
      }
    }
    forall q, d: Id | Child(procs', q, d) ensures ChildOk(procs', d, q) {
      if d != n { ForkChild(procs, c, n, pid, q, d); } else { assert Child(procs, q, n) ==> ChildOk(procs, n, q); }
    }
    forall p | p in procs' ensures ListOk(procs'[p]) {
      if p in procs { assert ListOk(procs[p]); }
      if p == c {
        assert Child(procs, c, n) ==> ChildOk(procs, n, c);
        NoRepeatsAdd(procs[c].children, n);
      }
    }
  }

  lemma ForkChild(procs: Procs, c: Id, n: Id, pid: nat, q: Id, d: Id)
    requires c in procs && n !in procs && d != n
    ensures var procs' := procs[c := procs[c].(children := procs[c].children + [n])][n := Proc(pid, c, [], false, 0)];
            Child(procs', q, d) <==> Child(procs, q, d)
  {
  }

  lemma ForkPids(procs: Procs, a: Pids, procs': Procs, n: Id)
    requires PidsOk(procs, a) && n !in procs && procs'.Keys == procs.Keys + {n} &&
             (forall p | p in procs :: procs'[p].pid == procs[p].pid)
    requires procs'[n].pid == AllocPid(a).1
    ensures PidsOk(procs', AllocPid(a).0)
  {
    var (a', pid) := AllocPid(a);
    if a.recycled != [] { NoRepeatsSplit(a.recycled, |a.recycled| - 1); }
    assert a.recycled != [] ==> pid in a.recycled[|a.recycled| - 1..];
    assert a.recycled != [] ==> pid in a.recycled && forall x | x in a'.recycled :: x in a.recycled && x != pid;
    assert forall p | p in procs :: procs[p].pid != pid;
    forall p, q, x: nat | Uses(procs', p, x) && Uses(procs', q, x) ensures p == q {
      if p != n && q != n { assert Uses(procs, p, x) && Uses(procs, q, x); }
    }
    forall x: nat | 1 <= x < a'.current && x !in a'.recycled ensures exists p :: Uses(procs', p, x) {
      if x == pid {
        assert Uses(procs', n, x);
      } else {
        RecycledBut(a, x);
        var p :| Uses(procs, p, x);
        assert Uses(procs', p, x);
      }
    }
  }

  lemma RecycledBut(a: Pids, x: nat)
    requires x != AllocPid(a).1 && x !in AllocPid(a).0.recycled && x < AllocPid(a).0.current
    ensures x !in a.recycled && x < a.current
  {
    if a.recycled != [] {
      assert a.recycled == a.recycled[..|a.recycled| - 1] + [a.recycled[|a.recycled| - 1]];
    }
  }

  lemma ForkInv(s: State)
    requires Inv(s) && s.current.Some? && s.current.value in s.procs
    ensures Inv(Forked(s)) && s.next !in s.procs
  {
    var c, n := s.current.value, s.next;
    CurrentAlive(s);
    var s' := Forked(s);
    ForkTree(s.procs, c, n, AllocPid(s.pids).1);
    ForkPids(s.procs, s.pids, s'.procs, n);
    OneMore(s.procs, s'.procs, n);
    assert Places(s') == Places(s) + multiset{n};
  }

  /** A new live process is one more place. */
  lemma OneMore(procs: Procs, procs': Procs, n: Id)
    requires n !in procs && procs'.Keys == procs.Keys + {n} && !procs'[n].zombie && forall p | p in procs ::
             procs'[p].zombie == procs[p].zombie
    ensures multiset(Alive(procs')) == multiset(Alive(procs)) + multiset{n}
  {
    assert Alive(procs') == Alive(procs) + {n};
  }

  lemma CurrentAlive(s: State)
    requires Inv(s) && s.current.Some?
    ensures s.current.value in s.procs && !s.procs[s.current.value].zombie
  {
    assert s.current.value in Places(s);
    assert s.current.value in Alive(s.procs);
  }

  // ---------------------------------------------------------------- exit

  /** The children `kids` of an exiting process go to init, one after the other. */
  function Adopted(procs: Procs, kids: seq<Id>): (r: Procs)
    requires INIT in procs && (forall c | c in kids :: c in procs && c != INIT)
    ensures r.Keys == procs.Keys
    decreases |kids|
  {
    if kids == [] then procs
    else
      var c := kids[0];
      var moved := procs[c := procs[c].(parent := INIT)];
      Adopted(moved[INIT := moved[INIT].(children := moved[INIT].children + [c])], kids[1..])
  }

  lemma {:induction false} AdoptedIs(procs: Procs, kids: seq<Id>, p: Id)
    requires INIT in procs && (forall c | c in kids :: c in procs && c != INIT) && p in procs
    ensures Adopted(procs, kids)[p] ==
            if p == INIT then procs[p].(children := procs[p].children + kids)
            else if p in kids then procs[p].(parent := INIT) else procs[p]
    decreases |kids|
  {
    if kids != [] {
      var c := kids[0];
      var moved := procs[c := procs[c].(parent := INIT)];
      AdoptedIs(moved[INIT := moved[INIT].(children := moved[INIT].children + [c])], kids[1..], p);
      assert kids == [c] + kids[1..];
      assert procs[INIT].children + [c] + kids[1..] == procs[INIT].children + kids;
    }
  }

  function Exited(s: State, code: int): State
    requires s.current.Some? && s.current.value in s.procs && s.current.value != INIT && INIT in s.procs
    requires forall c | c in s.procs[s.current.value].children :: c in s.procs && c != INIT
  {
    var c := s.current.value;
    var dying := s.procs[c := s.procs[c].(zombie := true, code := code)];
    var procs := Adopted(dying, s.procs[c].children);
    s.(procs := procs[c := procs[c].(children := [])], current := None)
  }

  /** What an exit does to one process. */
  lemma ExitedIs(s: State, code: int, p: Id)
    requires TreeOk(s.procs) && s.current.Some? && s.current.value in s.procs && s.current.value != INIT && p in s.procs
    ensures forall c | c in s.procs[s.current.value].children :: c in s.procs && c != INIT
    ensures Exited(s, code).procs.Keys == s.procs.Keys
    ensures var c, old_ := s.current.value, s.procs[p];
            Exited(s, code).procs[p] ==
            if p == c then Proc(old_.pid, old_.parent, [], true, code)
            else if p == INIT then old_.(children := old_.children + s.procs[c].children)
            else if Child(s.procs, c, p) then old_.(parent := INIT) else old_
  {
    var c := s.current.value;
    KidsExist(s.procs, c);
    var dying := s.procs[c := s.procs[c].(zombie := true, code := code)];
    AdoptedIs(dying, s.procs[c].children, p);
    assert !Child(s.procs, c, c) by { assert ParentOk(s.procs, c); assert Child(s.procs, c, c) ==>
           ChildOk(s.procs, c, c); }
  }

  lemma KidsExist(procs: Procs, q: Id)
    requires TreeOk(procs) && q in procs
    ensures forall c | c in procs[q].children :: c in procs && c != INIT
  {
    forall c | c in procs[q].children ensures c in procs && c != INIT {
      assert Child(procs, q, c);
      assert ChildOk(procs, c, q);
    }
  }

  /** `procs'` is `procs` after `c` has exited. */
  ghost predicate ExitRel(procs: Procs, procs': Procs, c: Id, code: int)
    requires c in procs
  {
    && procs'.Keys == procs.Keys
    && forall p {:trigger procs'[p]} | p in procs ::
         var old_ := procs[p];
         procs'[p] ==
         if p == c then Proc(old_.pid, old_.parent, [], true, code)
         else if p == INIT then old_.(children := old_.children + procs[c].children)
         else if Child(procs, c, p) then old_.(parent := INIT) else old_
  }

  lemma ExitedRel(s: State, code: int)
    requires TreeOk(s.procs) && s.current.Some? && s.current.value in s.procs && s.current.value != INIT
    ensures forall c | c in s.procs[s.current.value].children :: c in s.procs && c != INIT
    ensures ExitRel(s.procs, Exited(s, code).procs, s.current.value, code)
  {
    KidsExist(s.procs, s.current.value);
    ExitedIs(s, code, INIT);
    forall p | p in s.procs { ExitedIs(s, code, p); }
  }

  lemma ExitParent(procs: Procs, procs': Procs, c: Id, code: int, p: Id)
    requires TreeOk(procs) && c in procs && c != INIT && ExitRel(procs, procs', c, code) && p in procs
    ensures ParentOk(procs', p)
  {
    if p != INIT {
      assert ParentOk(procs, p);
      var q := procs[p].parent;
      assert Child(procs, q, p);
      if q == c {
        assert Child(procs', INIT, p);
      } else {
        assert Child(procs, c, p) ==> ChildOk(procs, p, c);
        assert Child(procs', q, p);
      }
    }
  }

  lemma ExitChild(procs: Procs, procs': Procs, c: Id, code: int, q: Id, d: Id)
    requires TreeOk(procs) && c in procs && c != INIT && ExitRel(procs, procs', c, code) && Child(procs', q, d)
    ensures ChildOk(procs', d, q)
  {
    assert q in procs && q != c;
    assert Child(procs, q, d) ==> ChildOk(procs, d, q);
    assert Child(procs, c, d) ==> ChildOk(procs, d, c);
    if q == INIT {
      assert Child(procs, INIT, d) || Child(procs, c, d);
      if d == c { assert ParentOk(procs, c); }
    }
  }

  lemma ExitTree(procs: Procs, procs': Procs, c: Id, code: int)
    requires TreeOk(procs) && c in procs && c != INIT && ExitRel(procs, procs', c, code)
    ensures TreeOk(procs')
  {
    forall p | p in procs' ensures ParentOk(procs', p) { ExitParent(procs, procs', c, code, p); }
    forall q, d: Id | Child(procs', q, d) ensures ChildOk(procs', d, q) { ExitChild(procs, procs', c, code, q, d); }
    forall p | p in procs' ensures ListOk(procs'[p]) {
      assert ListOk(procs[p]);
      if p == INIT {
        assert ListOk(procs[c]);
        forall x | x in procs[INIT].children ensures x !in procs[c].children {
          assert Child(procs, INIT, x);
          assert Child(procs, c, x) ==> ChildOk(procs, x, c);
        }
        NoRepeatsJoin(procs[INIT].children, procs[c].children);
      }
    }
  }

  lemma SamePids(procs: Procs, procs': Procs, a: Pids)
    requires PidsOk(procs, a) && procs'.Keys == procs.Keys && forall p | p in procs :: procs'[p].pid == procs[p].pid
    ensures PidsOk(procs', a)
  {
    assert forall p, pid: nat :: Uses(procs', p, pid) <==> Uses(procs, p, pid);
  }

  lemma ExitInv(s: State, code: int)
    requires Inv(s) && s.current.Some? && s.current.value != INIT
    ensures s.current.value in s.procs && forall c | c in s.procs[s.current.value].children :: c in s.procs && c != INIT
    ensures Inv(Exited(s, code))
  {
    var c := s.current.value;
    CurrentAlive(s);
    ExitedRel(s, code);
    var s' := Exited(s, code);
    ExitTree(s.procs, s'.procs, c, code);
    SamePids(s.procs, s'.procs, s.pids);
    OneLess(s.procs, s'.procs, c);
    assert Places(s') == Places(s) - multiset{c};
  }

  lemma OneLess(procs: Procs, procs': Procs, c: Id)
    requires c in procs && !procs[c].zombie && (c in procs' ==> procs'[c].zombie)
    requires forall p | p != c :: (p in procs <==> p in procs') && (p in procs ==> procs'[p].zombie == procs[p].zombie)
    ensures multiset(Alive(procs')) == multiset(Alive(procs)) - multiset{c}
  {
    assert Alive(procs') == Alive(procs) - {c};
  }

  // ---------------------------------------------------------------- wait

  /** A child a wait for `pid` accepts; -1 accepts any. */
  predicate Proper(procs: Procs, c: Id, pid: int) { c in procs && (pid == -1 || procs[c].pid == pid) }

  /** The last proper zombie among the first `n` children. */
  function LastZombie(procs: Procs, kids: seq<Id>, pid: int, n: nat): (r: Option<nat>)
    requires n <= |kids|
    ensures r.Some? ==> r.value < n && Proper(procs, kids[r.value], pid) && procs[kids[r.value]].zombie
    ensures forall i | (if r.Some? then r.value + 1 else 0) <= i < n ::
              !(Proper(procs, kids[i], pid) && procs[kids[i]].zombie)
  {
    if n == 0 then None
    else if Proper(procs, kids[n - 1], pid) && procs[kids[n - 1]].zombie then Some(n - 1)
    else LastZombie(procs, kids, pid, n - 1)
  }

  datatype Waited = Reaped(pid: nat, code: int) | NoChild | StillRunning | Suspended

  function Without(s: seq<Id>, i: nat): seq<Id>
    requires i < |s|
  {
    s[..i] + s[i + 1..]
  }

  /** Child number `i` of `c` is taken off the list and is gone. */
  function Reap(procs: Procs, c: Id, i: nat): Procs
    requires c in procs && i < |procs[c].children|
  {
    procs[c := procs[c].(children := Without(procs[c].children, i))] - {procs[c].children[i]}
  }

  /** One round of `sys_wait4` by the current process. */
  function WaitRound(s: State, pid: int, nohang: bool): (r: (State, Waited))
    requires s.current.Some? && s.current.value in s.procs
  {
    var c := s.current.value;
    var kids := s.procs[c].children;
    var z := LastZombie(s.procs, kids, pid, |kids|);
    if forall i | 0 <= i < |kids| :: !Proper(s.procs, kids[i], pid) then (s, NoChild)
    else if z.Some? then
      var d := kids[z.value];
      (s.(procs := Reap(s.procs, c, z.value), pids := FreePid(s.pids, s.procs[d].pid)),
          Reaped(s.procs[d].pid, s.procs[d].code))
    else if nohang then (s, StillRunning)
    else (s.(ready := s.ready + [c], current := None), Suspended)
  }

  /** The reaped child leaves the only list it was in. */
  lemma ReapTree(procs: Procs, c: Id, i: nat)
    requires TreeOk(procs) && c in procs && i < |procs[c].children| && procs[c].children[i] in procs &&
             procs[procs[c].children[i]].zombie
    ensures procs[c].children[i] != c
    ensures TreeOk(Reap(procs, c, i)) && forall q: Id :: !Child(Reap(procs, c, i), q, procs[c].children[i])
  {
    var kids := procs[c].children;
    var d := kids[i];
    var procs' := Reap(procs, c, i);
    assert Child(procs, c, d) && ChildOk(procs, d, c) && ListOk(procs[c]) && ListOk(procs[d]);
    NoRepeatsWithout(kids, i);
    forall q, e: Id ensures Child(procs', q, e) <==> Child(procs, q, e) && e != d {
      if Child(procs, q, e) && e == d { assert ChildOk(procs, d, q); }
      if q == d { assert !Child(procs, d, e); }
    }
    forall p | p in procs' ensures ParentOk(procs', p) {
      assert ParentOk(procs, p);
      if p != INIT { assert Child(procs', procs[p].parent, p); }
    }
    forall q, e: Id | Child(procs', q, e) ensures ChildOk(procs', e, q) { assert Child(procs, q, e); }
    forall p | p in procs' ensures ListOk(procs'[p]) { assert ListOk(procs[p]); }
  }

  lemma ReapPids(procs: Procs, a: Pids, procs': Procs, d: Id)
    requires PidsOk(procs, a) && d in procs && procs'.Keys == procs.Keys - {d} && forall p | p in procs' ::
             procs'[p].pid == procs[p].pid
    ensures PidsOk(procs', FreePid(a, procs[d].pid))
  {
    var pid := procs[d].pid;
    var a' := FreePid(a, pid);
    assert forall p, x: nat :: Uses(procs', p, x) <==> Uses(procs, p, x) && p != d;
    assert Uses(procs, d, pid);
    NoRepeatsJoin(a.recycled, [pid]);
    forall p | p in procs' ensures procs'[p].pid !in a'.recycled { assert Uses(procs, p, procs[p].pid); }
    forall x: nat | 1 <= x < a'.current && x !in a'.recycled ensures exists p :: Uses(procs', p, x) {
      assert x !in a.recycled && x != pid;
      var p :| Uses(procs, p, x);
      assert Uses(procs', p, x);
    }
  }

  lemma WaitInv(s: State, pid: int, nohang: bool)
    requires Inv(s) && s.current.Some?
    ensures s.current.value in s.procs && Inv(WaitRound(s, pid, nohang).0)
  {
    CurrentAlive(s);
    var c := s.current.value;
    var kids := s.procs[c].children;
    var (s', r) := WaitRound(s, pid, nohang);
    if r.Reaped? {
      ReapInv(s, LastZombie(s.procs, kids, pid, |kids|).value, s');
    } else if r.Suspended? {
      assert Places(s') == Places(s);
    }
  }

  lemma ReapInv(s: State, z: nat, s': State)
    requires Inv(s) && s.current.Some? && s.current.value in s.procs && z < |s.procs[s.current.value].children|
    requires var c := s.current.value;
             var d := s.procs[c].children[z];
             d in s.procs && s.procs[d].zombie &&
                 s' == s.(procs := Reap(s.procs, c, z), pids := FreePid(s.pids, s.procs[d].pid))
    ensures Inv(s')
  {
    var c := s.current.value;
    ReapTree(s.procs, c, z);
    ReapPids(s.procs, s.pids, s'.procs, s.procs[c].children[z]);
    assert Alive(s'.procs) == Alive(s.procs);
  }

  /** What a wait returns: a child's pid and code when a matching child is a zombie, an error when none matches. */
  lemma WaitMeans(s: State, pid: int, nohang: bool)
    requires Inv(s) && s.current.Some? && s.current.value in s.procs
    ensures var c := s.current.value;
            var r := WaitRound(s, pid, nohang).1;
            && (r.NoChild? <==> forall d: Id | Child(s.procs, c, d) :: !Proper(s.procs, d, pid))
            && (r.Reaped? <==> exists d: Id :: Child(s.procs, c, d) && Proper(s.procs, d, pid) && s.procs[d].zombie)
            && (r.Reaped? ==> exists d: Id ::
                  && Child(s.procs, c, d) && s.procs[d].zombie && r == Reaped(s.procs[d].pid, s.procs[d].code)
                  && (pid == -1 || s.procs[d].pid == pid) && d !in WaitRound(s, pid, nohang).0.procs)
            && (r.StillRunning? ==> nohang) && (r.Suspended? ==> !nohang)
    ensures var c := s.current.value;
            var (s', r) := WaitRound(s, pid, nohang);
            && (r.NoChild? || r.StillRunning? ==> s' == s)
            && (r.Suspended? ==> s' == s.(current := None, ready := s.ready + [c]))
            && (r.Reaped? ==> s' == s.(procs := s'.procs, pids := Pids(s.pids.current, s.pids.recycled + [r.pid])))
  {
    var c := s.current.value;
    var kids := s.procs[c].children;
    var z := LastZombie(s.procs, kids, pid, |kids|);
    assert forall i | 0 <= i < |kids| :: Child(s.procs, c, kids[i]);
    forall d: Id | Child(s.procs, c, d) ensures exists i :: 0 <= i < |kids| && kids[i] == d {}
    if z.Some? { assert Child(s.procs, c, kids[z.value]); }
  }

  // ---------------------------------------------------------------- yield, sleep, schedule

  /** The current thread goes to the end of the ready queue. */
  function Yielded(s: State): State
    requires s.current.Some?
  {
    s.(ready := s.ready + [s.current.value], current := None)
  }

  /** The current thread is put on the timers. */
  function Slept(s: State, expire: nat): State
    requires s.current.Some?
  {
    s.(timers := s.timers + [Timer(expire, s.current.value)], current := None)
  }

  /** The front of the ready queue runs next. */
  function Scheduled(s: State): State
    requires s.current.None? && s.ready != []
  {
    s.(current := Some(s.ready[0]), ready := s.ready[1..])
  }

  /** Timer `i` is one of those that expire first. */
  predicate Earliest(timers: seq<Timer>, i: nat) {
    i < |timers| && forall j | 0 <= j < |timers| :: timers[i].expire <= timers[j].expire
  }

  /** A timer leaves the heap and its thread becomes ready. */
  function Woken(s: State, i: nat): State
    requires i < |s.timers|
  {
    s.(timers := s.timers[..i] + s.timers[i + 1..], ready := s.ready + [s.timers[i].id])
  }

  /** A timer that expires first and has not expired leaves none that has. */
  lemma NoneExpired(timers: seq<Timer>, i: nat, now: nat)
    requires Earliest(timers, i) && timers[i].expire > now
    ensures forall t | t in timers :: t.expire > now
  {
  }

  lemma {:induction false} SleepersJoin(a: seq<Timer>, b: seq<Timer>)
    ensures Sleepers(a + b) == Sleepers(a) + Sleepers(b)
    decreases |b|
  {
    if b == [] {
      assert a + b == a;
    } else {
      assert (a + b)[..|a + b| - 1] == a + b[..|b| - 1];
      SleepersJoin(a, b[..|b| - 1]);
    }
  }

  lemma WokenPlaces(s: State, i: nat)
    requires i < |s.timers|
    ensures Places(Woken(s, i)) == Places(s)
  {
    var a, t, b := s.timers[..i], [s.timers[i]], s.timers[i + 1..];
    assert s.timers == a + t + b;
    SleepersJoin(a, t);
    SleepersJoin(a + t, b);
    SleepersJoin(a, b);
    assert Sleepers(t) == [s.timers[i].id];
  }

  lemma YieldInv(s: State)
    requires Inv(s) && s.current.Some?
    ensures Inv(Yielded(s))
  {
    assert Places(Yielded(s)) == Places(s);
  }

  lemma SleepInv(s: State, expire: nat)
    requires Inv(s) && s.current.Some?
    ensures Inv(Slept(s, expire))
  {
    var t := [Timer(expire, s.current.value)];
    SleepersJoin(s.timers, t);
    assert Sleepers(t) == [s.current.value];
    assert Places(Slept(s, expire)) == Places(s);
  }

  lemma ScheduleInv(s: State)
    requires Inv(s) && s.current.None? && s.ready != []
    ensures Inv(Scheduled(s))
  {
    assert s.ready == [s.ready[0]] + s.ready[1..];
    assert Places(Scheduled(s)) == Places(s);
  }

  lemma WakeInv(s: State, i: nat)
    requires Inv(s) && i < |s.timers|
    ensures Inv(Woken(s, i))
  {
    WokenPlaces(s, i);
  }

  // ---------------------------------------------------------------- runs

  datatype Op = Fork | Exit(code: int) | Wait(pid: int,
      nohang: bool) | Yield | Sleep(expire: nat) | Run | Wake(now: nat, i: nat)

  /** What can happen: init never exits, and the clock decides which timers may fire. */
  ghost predicate Enabled(s: State, op: Op) {
    match op
    case Fork => s.current.Some?
    case Exit(_) => s.current.Some? && s.current.value != INIT
    case Wait(pid, _) => s.current.Some? && (pid == -1 || pid > 0)
    case Yield => s.current.Some?
    case Sleep(_) => s.current.Some?
    case Run => s.current.None? && s.ready != []
    case Wake(now, i) => Earliest(s.timers, i) && s.timers[i].expire <= now
  }

  /** References the kernel follows lead to existing processes; part of the invariant, by `InvLinked`. */
  ghost predicate Linked(s: State) {
    && INIT in s.procs
    && (s.current.Some? ==> s.current.value in s.procs && forall c | c in s.procs[s.current.value].children ::
       c in s.procs && c != INIT)
  }

  lemma InvLinked(s: State)
    requires Inv(s)
    ensures Linked(s)
  {
    if s.current.Some? {
      CurrentAlive(s);
      KidsExist(s.procs, s.current.value);
    }
  }

  ghost function Step(s: State, op: Op): State
    requires Enabled(s, op)
  {
    if !Linked(s) then s
    else
      match op
      case Fork => Forked(s)
      case Exit(code) => Exited(s, code)
      case Wait(pid, nohang) => WaitRound(s, pid, nohang).0
      case Yield => Yielded(s)
      case Sleep(expire) => Slept(s, expire)
      case Run => Scheduled(s)
      case Wake(_, i) => Woken(s, i)
  }

  lemma StepInv(s: State, op: Op)
    requires Inv(s) && Enabled(s, op)
    ensures Inv(Step(s, op))
  {
    InvLinked(s);
    match op
    case Fork => ForkInv(s);
    case Exit(code) => ExitInv(s, code);
    case Wait(pid, nohang) => WaitInv(s, pid, nohang);
    case Yield => YieldInv(s);
    case Sleep(expire) => SleepInv(s, expire);
    case Run => ScheduleInv(s);
    case Wake(_, i) => WakeInv(s, i);
  }

  ghost predicate Runs(s: State, ops: seq<Op>, t: State)
    decreases |ops|
  {
    if ops == [] then t == s
    else Enabled(s, ops[0]) && Runs(Step(s, ops[0]), ops[1..], t)
  }

  /** The invariant holds in every state reached from one where it holds, and so in every state reached from boot. */
  lemma {:induction false} RunInv(s: State, ops: seq<Op>, t: State)
    requires Inv(s) && Runs(s, ops, t)
    ensures Inv(t)
    decreases |ops|
  {
    if ops != [] {
      StepInv(s, ops[0]);
      RunInv(Step(s, ops[0]), ops[1..], t);
    }
  }

  lemma {:induction false} RunMore(s: State, ops: seq<Op>, t: State, op: Op)
    requires Runs(s, ops, t) && Enabled(t, op)
    ensures Runs(s, ops + [op], Step(t, op))
    decreases |ops|
  {
    if ops == [] {
      assert ops + [op] == [op] && [op][1..] == [];
    } else {
      RunMore(Step(s, ops[0]), ops[1..], t, op);
      assert (ops + [op])[1..] == ops[1..] + [op];
    }
  }

  /** Nothing but timers firing at `now`. */
  ghost predicate AllWakes(ops: seq<Op>, now: nat) { forall op | op in ops :: op.Wake? && op.now == now }

  // ---------------------------------------------------------------- what the invariant means

  /** A process other than init is in exactly one list of children, once, and that list is its living parent's. */
  lemma OneParent(s: State, p: Id)
    requires Inv(s) && p in s.procs && p != INIT
    ensures var q := s.procs[p].parent;
            && q in s.procs && !s.procs[q].zombie && multiset(s.procs[q].children)[p] == 1
            && forall r: Id | r != q :: !Child(s.procs, r, p)
  {
    var q := s.procs[p].parent;
    assert ParentOk(s.procs, p) && ListOk(s.procs[q]);
    CountOnce(s.procs[q].children, p);
    forall r: Id | Child(s.procs, r, p) ensures r == q { assert ChildOk(s.procs, p, r); }
  }

  lemma {:induction false} CountOnce(s: seq<nat>, x: nat)
    requires NoRepeats(s)
    ensures multiset(s)[x] == if x in s then 1 else 0
  {
    if s != [] {
      var n := |s| - 1;
      assert s == s[..n] + [s[n]];
      NoRepeatsSplit(s, n);
      assert s[n] in s[n..];
      CountOnce(s[..n], x);
    }
  }

  /** Following parents from any process leads to init. */
  ghost function Ancestor(procs: Procs, p: Id, n: nat): Id
    requires TreeOk(procs) && p in procs
    ensures Ancestor(procs, p, n) in procs
  {
    if n == 0 || p == INIT then p else assert ParentOk(procs, p); Ancestor(procs, procs[p].parent, n - 1)
  }

  lemma {:induction false} AllDescend(procs: Procs, p: Id)
    requires TreeOk(procs) && p in procs
    ensures Ancestor(procs, p, p) == INIT
    decreases p
  {
    if p != INIT {
      assert ParentOk(procs, p);
      var q := procs[p].parent;
      AllDescend(procs, q);
      AncestorLater(procs, q, q, p - 1);
    }
  }

  lemma {:induction false} AncestorLater(procs: Procs, p: Id, m: nat, n: nat)
    requires TreeOk(procs) && p in procs && m <= n && Ancestor(procs, p, m) == INIT
    ensures Ancestor(procs, p, n) == INIT
    decreases m
  {
    if p != INIT && m > 0 {
      assert ParentOk(procs, p);
      AncestorLater(procs, procs[p].parent, m - 1, n - 1);
    }
  }

  // ---------------------------------------------------------------- a child and its parent

  /** A wait by the parent for one child's pid is about that child: never an error, its code once it has exited. */
  lemma WaitForChild(s: State, d: Id, nohang: bool)
    requires Inv(s) && d in s.procs && d != INIT && s.current == Some(s.procs[d].parent)
    ensures s.current.value in s.procs
    ensures var (s', r) := WaitRound(s, s.procs[d].pid, nohang);
            && r == (if s.procs[d].zombie then Reaped(s.procs[d].pid, s.procs[d].code)
                     else if nohang then StillRunning else Suspended)
            && (d in s'.procs <==> !s.procs[d].zombie)
  {
    var q, pid := s.procs[d].parent, s.procs[d].pid;
    assert ParentOk(s.procs, d);
    var kids := s.procs[q].children;
    assert Child(s.procs, q, d);
    forall i | 0 <= i < |kids| && Proper(s.procs, kids[i], pid) ensures kids[i] == d {
      assert Uses(s.procs, kids[i], pid) && Uses(s.procs, d, pid);
    }
    assert d in kids && Proper(s.procs, d, pid);
    var i :| 0 <= i < |kids| && kids[i] == d;
  }

  /** What a step does to process `d`. Only a wait of its parent takes it away, with its pid and code as the answer;
      only its own exit makes it a zombie, and only its parent's gives it to init. */
  lemma LifeStep(s: State, op: Op, d: Id)
    requires Inv(s) && Enabled(s, op) && d in s.procs
    ensures var t := Step(s, op);
            if d in t.procs then
              && t.procs[d].pid == s.procs[d].pid
              && (if op.Exit? && s.current == Some(d) then t.procs[d].zombie && t.procs[d].code == op.code
                  else t.procs[d].zombie == s.procs[d].zombie && t.procs[d].code == s.procs[d].code)
              && (d != INIT ==>
                  t.procs[d].parent == if op.Exit? && s.current == Some(s.procs[d].parent) then INIT
                                       else s.procs[d].parent)
            else
              && d != INIT && op.Wait? && s.current == Some(s.procs[d].parent) && s.procs[d].zombie
              && s.current.value in s.procs
              && WaitRound(s, op.pid, op.nohang).1 == Reaped(s.procs[d].pid, s.procs[d].code)
  {
    InvLinked(s);
    assert ParentOk(s.procs, d);
    match op {
      case Fork => ForkInv(s);
      case Exit(code) =>
        ExitedRel(s, code);
        var c := s.current.value;
        assert Child(s.procs, c, d) ==> ChildOk(s.procs, d, c);
      case Wait(pid, nohang) => ReapLife(s, pid, nohang, d);
      case _ =>
    }
  }

  lemma ReapLife(s: State, pid: int, nohang: bool, d: Id)
    requires Inv(s) && s.current.Some? && s.current.value in s.procs && d in s.procs
    ensures var (t, r) := WaitRound(s, pid, nohang);
            if d in t.procs then t.procs[d] == s.procs[d].(children := t.procs[d].children)
            else
              d != INIT && s.current == Some(s.procs[d].parent) && s.procs[d].zombie &&
              r == Reaped(s.procs[d].pid, s.procs[d].code)
  {
    var c := s.current.value;
    var kids := s.procs[c].children;
    var z := LastZombie(s.procs, kids, pid, |kids|);
    if z.Some? {
      assert Child(s.procs, c, kids[z.value]);
      assert ChildOk(s.procs, kids[z.value], c);
    }
  }

  /** Ids are not used again: a process that is gone stays gone, and one that is a zombie does not come back. */
  lemma {:induction false} GoneStays(s: State, ops: seq<Op>, t: State, d: Id)
    requires Inv(s) && Runs(s, ops, t) && d < s.next
    ensures d < t.next && (d in t.procs ==> d in s.procs && (s.procs[d].zombie ==> t.procs[d].zombie))
    decreases |ops|
  {
    if ops != [] {
      var s' := Step(s, ops[0]);
      StepInv(s, ops[0]);
      IdStep(s, ops[0], d);
      GoneStays(s', ops[1..], t, d);
      if d in s.procs { LifeStep(s, ops[0], d); }
    }
  }

  lemma IdStep(s: State, op: Op, d: Id)
    requires Inv(s) && Enabled(s, op) && d < s.next
    ensures d < Step(s, op).next && (d !in s.procs ==> d !in Step(s, op).procs)
  {
    InvLinked(s);
    if op.Exit? { ExitedRel(s, op.code); }
  }

  /** The code process `d` exits with in a run, if it does. */
  ghost function ExitCode(s: State, ops: seq<Op>, d: Id): Option<int>
    decreases |ops|
  {
    if ops == [] || !Enabled(s, ops[0]) then None
    else if ops[0].Exit? && s.current == Some(d) then Some(ops[0].code)
    else ExitCode(Step(s, ops[0]), ops[1..], d)
  }

  /** A process that is still there after a run has kept its pid, and its parent if that has not exited; it is a zombie
      exactly if it exited in the run, with the code it exited with. */
  lemma {:induction false} Life(s: State, ops: seq<Op>, t: State, d: Id)
    requires Inv(s) && Runs(s, ops, t) && d in s.procs && !s.procs[d].zombie && d in t.procs
    ensures t.procs[d].pid == s.procs[d].pid
    ensures ExitCode(s, ops, d) == if t.procs[d].zombie then Some(t.procs[d].code) else None
    ensures d != INIT && s.procs[d].parent in t.procs && !t.procs[s.procs[d].parent].zombie ==>
              t.procs[d].parent == s.procs[d].parent
    decreases |ops|
  {
    if ops != [] {
      var op, s' := ops[0], Step(s, ops[0]);
      StepInv(s, op);
      IdStep(s, op, d);
      GoneStays(s', ops[1..], t, d);
      LifeStep(s, op, d);
      if d != INIT { ParentLives(s, op, ops[1..], t, s.procs[d].parent, d); }
      if s'.procs[d].zombie {
        Dead(s', ops[1..], t, d);
      } else {
        Life(s', ops[1..], t, d);
      }
    }
  }

  /** A zombie that is still there is as it was. */
  lemma {:induction false} Dead(s: State, ops: seq<Op>, t: State, d: Id)
    requires Inv(s) && Runs(s, ops, t) && d in s.procs && s.procs[d].zombie && d in t.procs
    ensures t.procs[d].pid == s.procs[d].pid && t.procs[d].zombie && t.procs[d].code == s.procs[d].code
    ensures d != INIT && s.procs[d].parent in t.procs && !t.procs[s.procs[d].parent].zombie ==>
              t.procs[d].parent == s.procs[d].parent
    decreases |ops|
  {
    if ops != [] {
      var op, s' := ops[0], Step(s, ops[0]);
      StepInv(s, op);
      IdStep(s, op, d);
      GoneStays(s', ops[1..], t, d);
      LifeStep(s, op, d);
      if s.current == Some(d) { CurrentAlive(s); }
      if d != INIT { ParentLives(s, op, ops[1..], t, s.procs[d].parent, d); }
      Dead(s', ops[1..], t, d);
    }
  }

  /** A parent alive after the run did not exit in its first step, so the child is still its own. */
  lemma ParentLives(s: State, op: Op, rest: seq<Op>, t: State, q: Id, d: Id)
    requires Inv(s) && Enabled(s, op) && Runs(Step(s, op), rest, t) && d in s.procs && d != INIT &&
             q == s.procs[d].parent
    ensures q in t.procs && !t.procs[q].zombie && d in Step(s, op).procs ==> Step(s, op).procs[d].parent == q
  {
    assert ParentOk(s.procs, d);
    StepInv(s, op);
    LifeStep(s, op, d);
    LifeStep(s, op, q);
    IdStep(s, op, q);
    GoneStays(Step(s, op), rest, t, q);
  }

  /** A process forks, and later waits for the child's pid, whatever has happened in between. Unless it has had the
      answer already, the wait is about this child: it answers the child's pid and the code it exited with, or that it
      has not exited yet. */
  lemma {:induction false} ForkThenWait(s: State, ops: seq<Op>, t: State, nohang: bool)
    requires Inv(s) && s.current.Some? && Runs(Step(s, Fork), ops, t) && t.current == s.current && s.next in t.procs
    ensures Linked(s) && t.current.value in t.procs
    ensures var d, pid, code := s.next, Step(s, Fork).procs[s.next].pid, ExitCode(Step(s, Fork), ops, s.next);
            && (forall p | p in s.procs :: s.procs[p].pid != pid)
            && t.procs[d].parent == s.current.value && t.procs[d].pid == pid
            && WaitRound(t, pid, nohang).1 ==
               if code.Some? then Reaped(pid, code.value) else if nohang then StillRunning else Suspended
  {
    var q, d, s' := s.current.value, s.next, Step(s, Fork);
    InvLinked(s);
    CurrentAlive(s);
    ForkInv(s);
    RunInv(s', ops, t);
    CurrentAlive(t);
    Life(s', ops, t, d);
    forall p | p in s.procs ensures s.procs[p].pid != s'.procs[d].pid {
      assert Uses(s'.procs, p, s.procs[p].pid) && Uses(s'.procs, d, s'.procs[d].pid);
    }
    WaitForChild(t, d, nohang);
  }

  lemma RunPrefix(s: State, ops: seq<Op>, j: nat, u: State)
    requires j < |ops| && Enabled(s, ops[0]) && Runs(Step(s, ops[0]), ops[1..][..j], u)
    ensures Runs(s, ops[..j + 1], u)
  {
    assert ops[..j + 1][0] == ops[0] && ops[..j + 1][1..] == ops[1..][..j];
  }

  /** And if the child is gone, its parent has had the answer: some wait of it in the run reaped the child. */
  lemma {:induction false} ReapedByParent(s: State, ops: seq<Op>, t: State, d: Id) returns (i: nat, u: State)
    requires Inv(s) && Runs(s, ops, t) && d in s.procs && d !in t.procs
    ensures i < |ops| && Runs(s, ops[..i], u) && ops[i].Wait? && d in u.procs && u.procs[d].pid == s.procs[d].pid
    ensures u.current == Some(u.procs[d].parent) && u.current.value in u.procs && u.procs[d].zombie
    ensures WaitRound(u, ops[i].pid, ops[i].nohang).1 == Reaped(s.procs[d].pid, u.procs[d].code)
    decreases |ops|
  {
    var s' := Step(s, ops[0]);
    StepInv(s, ops[0]);
    LifeStep(s, ops[0], d);
    if d !in s'.procs {
      i, u := 0, s;
      assert ops[..0] == [];
    } else {
      var j;
      j, u := ReapedByParent(s', ops[1..], t, d);
      i := j + 1;
      RunPrefix(s, ops, j, u);
      assert ops[i] == ops[1..][j];
    }
  }

  // ---------------------------------------------------------------- queues over runs

  /** Who joins the ready queue in a step, and who leaves it to run. */
  ghost function Joins(s: State, op: Op): seq<Id>
    requires Enabled(s, op)
  {
    match op
    case Fork => [s.next]
    case Wait(pid, nohang) =>
      if s.current.value in s.procs && WaitRound(s, pid, nohang).1.Suspended? then [s.current.value] else []
    case Yield => [s.current.value]
    case Wake(_, i) => [s.timers[i].id]
    case Exit(_) => []
    case Sleep(_) => []
    case Run => []
  }

  ghost function Joined(s: State, ops: seq<Op>): seq<Id>
    decreases |ops|
  {
    if ops == [] || !Enabled(s, ops[0]) then [] else Joins(s, ops[0]) + Joined(Step(s, ops[0]), ops[1..])
  }

  ghost function Runner(op: Op, s': State): seq<Id> {
    if op.Run? && s'.current.Some? then [s'.current.value] else []
  }

  lemma FifoStep(s: State, op: Op)
    requires Linked(s) && Enabled(s, op)
    ensures s.ready + Joins(s, op) == Runner(op, Step(s, op)) + Step(s, op).ready
  {
    var s' := Step(s, op);
    if op.Run? {
      assert s.ready == [s.ready[0]] + s.ready[1..];
    } else {
      assert s'.ready == s.ready + Joins(s, op) == [] + s'.ready;
    }
  }

  lemma Requeued(a: seq<Id>, j: seq<Id>, r: seq<Id>, b: seq<Id>, js: seq<Id>, rs: seq<Id>, c: seq<Id>)
    requires a + j == r + b && b + js == rs + c
    ensures a + (j + js) == (r + rs) + c
  {
    assert a + (j + js) == (a + j) + js;
    assert (r + b) + js == r + (b + js);
    assert r + (rs + c) == (r + rs) + c;
  }

  /** The threads that get to run, in order. */
  ghost function Ran(s: State, ops: seq<Op>): seq<Id>
    decreases |ops|
  {
    if ops == [] || !Enabled(s, ops[0]) then []
    else
      var s' := Step(s, ops[0]);
      Runner(ops[0], s') + Ran(s', ops[1..])
  }

  /** First in, first out: threads run in the order in which they became ready. */
  lemma {:induction false} Fifo(s: State, ops: seq<Op>, t: State)
    requires Inv(s) && Runs(s, ops, t)
    ensures s.ready + Joined(s, ops) == Ran(s, ops) + t.ready
    decreases |ops|
  {
    if ops != [] {
      var s' := Step(s, ops[0]);
      StepInv(s, ops[0]);
      Fifo(s', ops[1..], t);
      InvLinked(s);
      FifoStep(s, ops[0]);
      var joined, ran := Joined(s', ops[1..]), Ran(s', ops[1..]);
      Requeued(s.ready, Joins(s, ops[0]), Runner(ops[0], s'), s'.ready, joined, ran, t.ready);
    }
  }

  lemma TimerStays(s: State, op: Op, x: Timer)
    requires Inv(s) && Enabled(s, op) && x in s.timers && (op.Wake? ==> op.now < x.expire)
    ensures x in Step(s, op).timers
  {
    InvLinked(s);
    var s' := Step(s, op);
    match op {
      case Wake(now, k) =>
        var i :| 0 <= i < |s.timers| && s.timers[i] == x;
        assert k != i;
        if i < k { assert s.timers[..k][i] == x; } else { assert s.timers[k + 1..][i - k - 1] == x; }
      case Sleep(expire) => assert s'.timers == s.timers + [Timer(expire, s.current.value)];
      case _ => assert s'.timers == s.timers;
    }
  }

  /** A sleeper stays on the timers, and so neither runs nor is ready, until a timer check at or after its expiry. */
  lemma {:induction false} SleepsOn(s: State, ops: seq<Op>, t: State, x: Timer)
    requires Inv(s) && Runs(s, ops, t) && x in s.timers
    requires forall op | op in ops && op.Wake? :: op.now < x.expire
    ensures x in t.timers && t.current != Some(x.id) && x.id !in t.ready
    decreases |ops|
  {
    if ops == [] {
      SleeperPlace(t, x);
    } else {
      var s' := Step(s, ops[0]);
      assert ops[0] in ops && forall op | op in ops[1..] :: op in ops;
      StepInv(s, ops[0]);
      TimerStays(s, ops[0], x);
      SleepsOn(s', ops[1..], t, x);
    }
  }

  lemma SleeperPlace(s: State, x: Timer)
    requires Inv(s) && x in s.timers
    ensures s.current != Some(x.id) && x.id !in s.ready
  {
    SleeperIn(s.timers, x);
    assert Places(s)[x.id] <= 1;
  }

  lemma {:induction false} SleeperIn(timers: seq<Timer>, x: Timer)
    requires x in timers
    ensures x.id in Sleepers(timers)
  {
    var n := |timers| - 1;
    if timers[n] != x {
      assert timers == timers[..n] + [timers[n]];
      SleeperIn(timers[..n], x);
    } else {
      assert Sleepers(timers)[n] == x.id;
    }
  }

  // ---------------------------------------------------------------- the kernel's tables

  class Kernel {
    var procs: Procs
    var pidCurrent: nat
    var recycled: seq<nat>
    var next: Id
    var current: Option<Id>
    var ready: seq<Id>
    var timers: seq<Timer>

    ghost function Value(): State
      reads this
    {
      State(procs, Pids(pidCurrent, recycled), next, current, ready, timers)
    }

    constructor ()
      ensures Value() == Boot() && Inv(Value())
    {
      procs, pidCurrent, recycled := map[INIT := Proc(1, INIT, [], false, 0)], 2, [];
      next, current, ready, timers := 1, None, [INIT], [];
      new;
      BootInv();
    }

    method PidAlloc() returns (pid: nat)
      modifies this`pidCurrent, this`recycled
      ensures (Pids(pidCurrent, recycled), pid) == AllocPid(Pids(old(pidCurrent), old(recycled)))
      ensures old(recycled) == [] ==> pid == old(pidCurrent) && pidCurrent == pid + 1 && recycled == []
      ensures old(recycled) != [] ==> recycled + [pid] == old(recycled) && pidCurrent == old(pidCurrent)
    {
      if recycled != [] {
        pid := recycled[|recycled| - 1];
        recycled := recycled[..|recycled| - 1];
      } else {
        pidCurrent := pidCurrent + 1;
        pid := pidCurrent - 1;
      }
    }

    /** Give a pid back; the source asserts that it is in use. */
    method PidFree(pid: nat)
      requires pid < pidCurrent && pid !in recycled
      modifies this`recycled
      ensures recycled == old(recycled) + [pid]
    {
      recycled := recycled + [pid];
    }

    method ForkCurrent() returns (child: Id)
      requires Inv(Value()) && current.Some?
      modifies this
      ensures old(current).value in old(procs) && Value() == Forked(old(Value())) && Inv(Value())
      ensures child !in old(procs) && procs.Keys == old(procs).Keys + {child}
      ensures procs[child] == Proc(procs[child].pid, old(current).value, [], false, 0)
      ensures forall p | p in old(procs) :: old(procs)[p].pid != procs[child].pid
      ensures forall p | p in old(procs) && p != old(current).value :: procs[p] == old(procs)[p]
      ensures var c := old(current).value; procs[c] == old(procs)[c].(children := old(procs)[c].children + [child])
      ensures current == old(current) && ready == old(ready) + [child] && timers == old(timers)
    {
      InvLinked(Value());
      ForkMeans(Value());
      ForkInv(Value());
      child := Enlist(current.value);
    }

    /** A new process with a pid of its own, at the end of the children's list of `c` and of the ready queue. */
    method Enlist(c: Id) returns (child: Id)
      requires c in procs && current == Some(c)
      modifies this
      ensures Value() == Forked(old(Value())) && child == old(next)
    {
      var pid := PidAlloc();
      child := next;
      next := next + 1;
      procs := procs[c := procs[c].(children := procs[c].children + [child])];
      procs := procs[child := Proc(pid, c, [], false, 0)];
      ready := ready + [child];
    }

    method ExitCurrent(code: int)
      requires Inv(Value()) && current.Some? && current.value != INIT
      modifies this
      ensures Linked(old(Value())) && Value() == Exited(old(Value()), code) && Inv(Value())
      ensures procs.Keys == old(procs).Keys && current == None && ready == old(ready) && timers == old(timers)
      ensures forall p | p in old(procs) ::
                var x, kids := old(procs)[p], old(procs)[old(current).value].children;
                procs[p] == if p == old(current).value then Proc(x.pid, x.parent, [], true, code)
                            else if p == INIT then x.(children := x.children + kids)
                            else if p in kids then x.(parent := INIT) else x
    {
      InvLinked(Value());
      ExitInv(Value(), code);
      ExitedRel(Value(), code);
      var c := current.value;
      Dying(c, code);
    }

    method Dying(c: Id, code: int)
      requires c in procs && c != INIT && INIT in procs && current == Some(c)
      requires forall d | d in procs[c].children :: d in procs && d != INIT
      modifies this`procs, this`current
      ensures Value() == Exited(old(Value()), code)
    {
      current := None;
      procs := procs[c := procs[c].(zombie := true, code := code)];
      var kids := procs[c].children;
      AdoptAll(kids);
      procs := procs[c := procs[c].(children := [])];
    }

    method AdoptAll(kids: seq<Id>)
      requires INIT in procs && forall c | c in kids :: c in procs && c != INIT
      modifies this`procs
      ensures procs == Adopted(old(procs), kids)
    {
      for i := 0 to |kids|
        invariant procs.Keys == old(procs).Keys && Adopted(procs, kids[i..]) == Adopted(old(procs), kids)
      {
        var child := kids[i];
        assert kids[i..][0] == child && kids[i..][1..] == kids[i + 1..];
        procs := procs[child := procs[child].(parent := INIT)];
        procs := procs[INIT := procs[INIT].(children := procs[INIT].children + [child])];
      }
    }

    /** One scan of the children; the last proper zombie is reaped. */
    method WaitOnce(pid: int, nohang: bool) returns (r: Waited)
      requires Inv(Value()) && current.Some? && (pid == -1 || pid > 0)
      modifies this
      ensures old(current).value in old(procs) && (Value(), r) == WaitRound(old(Value()), pid, nohang) && Inv(Value())
    {
      WaitInv(Value(), pid, nohang);
      r := ScanAndReap(pid, nohang);
    }

    method ScanAndReap(pid: int, nohang: bool) returns (r: Waited)
      requires Inv(Value()) && current.Some? && current.value in procs && (pid == -1 || pid > 0)
      modifies this
      ensures (Value(), r) == WaitRound(old(Value()), pid, nohang)
    {
      ghost var k := Value();
      InvLinked(k);
      var c := current.value;
      var kids := procs[c].children;
      var found, index := Scan(kids, pid);
      if !found {
        return NoChild;
      }
      if index.Some? {
        ReapFree(k, c, index.value);
        r := ReapChild(c, index.value);
        return;
      }
      if nohang {
        return StillRunning;
      }
      ready := ready + [c];
      current := None;
      return Suspended;
    }

    /** Take a child off the list; the last reference is gone, and with it the pid. */
    method ReapChild(c: Id, i: nat) returns (r: Waited)
      requires c in procs && i < |procs[c].children| && procs[c].children[i] in procs
      requires procs[procs[c].children[i]].pid < pidCurrent && procs[procs[c].children[i]].pid !in recycled
      modifies this`procs, this`recycled
      ensures procs == Reap(old(procs), c, i)
      ensures var d := old(procs)[old(procs)[c].children[i]];
              recycled == old(recycled) + [d.pid] && r == Reaped(d.pid, d.code)
    {
      var kids := procs[c].children;
      var child := kids[i];
      r := Reaped(procs[child].pid, procs[child].code);
      PidFree(procs[child].pid);
      procs := procs[c := procs[c].(children := kids[..i] + kids[i + 1..])];
      procs := procs - {child};
    }

    method Scan(kids: seq<Id>, pid: int) returns (found: bool, index: Option<nat>)
      requires forall c | c in kids :: c in procs
      ensures found <==> exists i | 0 <= i < |kids| :: Proper(procs, kids[i], pid)
      ensures index == LastZombie(procs, kids, pid, |kids|)
    {
      found, index := false, None;
      for i := 0 to |kids|
        invariant found <==> exists j | 0 <= j < i :: Proper(procs, kids[j], pid)
        invariant index == LastZombie(procs, kids, pid, i)
      {
        assert kids[i] in kids;
        if pid == -1 || procs[kids[i]].pid == pid {
          found := true;
          assert Proper(procs, kids[i], pid);
          if procs[kids[i]].zombie {
            index := Some(i);
          }
        }
      }
    }

    method Suspend()
      requires Inv(Value()) && current.Some?
      modifies this`ready, this`current
      ensures Value() == Yielded(old(Value())) && Inv(Value())
      ensures ready == old(ready) + [old(current).value] && current == None
    {
      YieldInv(Value());
      ready := ready + [current.value];
      current := None;
    }

    method SleepUntil(expire: nat)
      requires Inv(Value()) && current.Some?
      modifies this`timers, this`current
      ensures Value() == Slept(old(Value()), expire) && Inv(Value())
      ensures timers == old(timers) + [Timer(expire, old(current).value)] && current == None
    {
      SleepInv(Value(), expire);
      timers := timers + [Timer(expire, current.value)];
      current := None;
    }

    /** The next thread, or none when nothing is ready. */
    method RunNext() returns (ok: bool)
      requires Inv(Value()) && current.None?
      modifies this`ready, this`current
      ensures Inv(Value()) && ok == (old(ready) != [])
      ensures Value() == if ok then Scheduled(old(Value())) else old(Value())
      ensures ok ==> current.Some? && [current.value] + ready == old(ready)
    {
      if ready == [] {
        return false;
      }
      ScheduleInv(Value());
      current := Some(ready[0]);
      ready := ready[1..];
      return true;
    }

    /** The index of a timer that expires first. */
    method PeekTimer() returns (i: nat)
      requires timers != []
      ensures Earliest(timers, i)
    {
      i := 0;
      for j := 1 to |timers|
        invariant i < |timers| && forall k | 0 <= k < j :: timers[i].expire <= timers[k].expire
      {
        if timers[j].expire < timers[i].expire {
          i := j;
        }
      }
    }

    method WakeTimer(now: nat, i: nat)
      requires Inv(Value()) && Earliest(timers, i) && timers[i].expire <= now
      modifies this`timers, this`ready
      ensures Inv(Value()) && Value() == Woken(old(Value()), i)
    {
      WakeInv(Value(), i);
      ready := ready + [timers[i].id];
      timers := timers[..i] + timers[i + 1..];
    }

    /** Wake everything that has expired, earliest first. */
    method CheckTimer(now: nat) returns (none: bool, ghost ops: seq<Op>)
      requires Inv(Value())
      modifies this`timers, this`ready
      ensures Inv(Value()) && Runs(old(Value()), ops, Value()) && (forall t | t in timers :: t.expire > now)
      ensures (none <==> timers == []) && AllWakes(ops, now)
      ensures forall x :: x in timers <==> x in old(timers) && x.expire > now
      ensures forall x | x in old(timers) && x.expire <= now :: x.id in ready
      ensures forall p | p in old(ready) :: p in ready
    {
      ops := [];
      ghost var start := Value();
      ghost var s := start;
      while timers != []
        invariant s == Value() && Inv(s) && Runs(start, ops, s) && AllWakes(ops, now)
        invariant Waking(old(timers), old(ready), timers, ready, now)
        decreases |timers|
      {
        var i := PeekTimer();
        if timers[i].expire > now {
          NoneExpired(timers, i, now);
          return false, ops;
        }
        InvLinked(s);
        RunMore(start, ops, s, Wake(now, i));
        WakingStep(old(timers), old(ready), timers, ready, now, i);
        WakeTimer(now, i);
        ops, s := ops + [Wake(now, i)], Value();
      }
      return true, ops;
    }
  }

  /** The expired timers among `was` that are gone have their threads in the ready queue. */
  ghost predicate Waking(was: seq<Timer>, queue: seq<Id>, timers: seq<Timer>, ready: seq<Id>, now: nat) {
    && (forall x | x in timers :: x in was) && (forall p | p in queue :: p in ready)
    && (forall x | x in was && x !in timers :: x.expire <= now && x.id in ready)
  }

  lemma WakingStep(was: seq<Timer>, queue: seq<Id>, timers: seq<Timer>, ready: seq<Id>, now: nat, i: nat)
    requires Waking(was, queue, timers, ready, now) && i < |timers| && timers[i].expire <= now
    ensures Waking(was, queue, timers[..i] + timers[i + 1..], ready + [timers[i].id], now)
  {
    var rest := timers[..i] + timers[i + 1..];
    assert timers == timers[..i] + [timers[i]] + timers[i + 1..];
    assert forall x :: x in timers <==> x in rest || x == timers[i];
  }

  /** The pid of a child to reap is in use, as freeing it asserts. */
  lemma ReapFree(s: State, c: Id, i: nat)
    requires Inv(s) && c in s.procs && i < |s.procs[c].children|
    ensures var d := s.procs[c].children[i];
            d in s.procs && s.procs[d].pid < s.pids.current && s.procs[d].pid !in s.pids.recycled
  {
    KidsExist(s.procs, c);
  }
}
