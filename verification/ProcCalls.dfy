/** What whole calls of fork, exit and wait do: the steps of one process from the call to its end, when nobody
    else gets in between, put together. */
module ProcCalls {
  import opened Wrappers
  import opened M = Proc

  function Gos(p: nat, n: nat): seq<Event> {
    seq(n, _ => Go(p))
  }

  lemma {:induction false} RunFrom(s: State, e: Event, es: seq<Event>)
    requires Step(s, e).Next?
    ensures Run(s, [e] + es) == Run(Step(s, e).s, es)
  {
    hide Step;
    var all := [e] + es;
    if es == [] {
      assert all == [e] && all[..0] == [];
    } else {
      assert all[..|all| - 1] == [e] + es[..|es| - 1];
      RunFrom(s, e, es[..|es| - 1]);
    }
  }

  lemma {:induction false} RunBoth(s: State, a: seq<Event>, b: seq<Event>)
    requires Run(s, a).Next?
    ensures Run(s, a + b) == Run(Run(s, a).s, b)
  {
    hide Step;
    if b == [] {
      assert a + b == a;
    } else {
      assert (a + b)[..|a + b| - 1] == a + b[..|b| - 1];
      RunBoth(s, a, b[..|b| - 1]);
    }
  }

  /** One step of p, and then `n` more. */
  lemma GoFirst(s: State, p: nat, n: nat)
    requires p < |s.procs| && NextOf(s, p).Next?
    ensures Run(s, Gos(p, n + 1)) == Run(NextOf(s, p).s, Gos(p, n))
  {
    assert Gos(p, n + 1) == [Go(p)] + Gos(p, n);
    RunFrom(s, Go(p), Gos(p, n));
  }

  /** `n` steps of p lead from s to s'. */
  predicate Reaches(s: State, p: nat, n: nat, s': State) {
    Run(s, Gos(p, n)) == Next(s')
  }

  lemma ReachSelf(s: State, p: nat)
    ensures Reaches(s, p, 0, s)
  {
  }

  lemma ReachStep(s: State, p: nat, n: nat, s1: State, s2: State)
    requires p < |s.procs| && NextOf(s, p) == Next(s1) && Reaches(s1, p, n, s2)
    ensures Reaches(s, p, n + 1, s2)
  {
    GoFirst(s, p, n);
  }

  lemma ReachBoth(s: State, p: nat, a: nat, s1: State, b: nat, s2: State)
    requires Reaches(s, p, a, s1) && Reaches(s1, p, b, s2)
    ensures Reaches(s, p, a + b, s2)
  {
    RunBoth(s, Gos(p, a), Gos(p, b));
    assert Gos(p, a) + Gos(p, b) == Gos(p, a + b);
  }

  /** Nobody holds a process lock. */
  ghost predicate NoLocks(s: State) {
    forall c :: 0 <= c < |s.procs| ==> s.procs[c].lock == None
  }

  // ----- fork -----

  /** fork: the slot becomes a runnable child of the caller with the next process identifier. */
  lemma ForkAlone(s: State, p: nat, np: nat)
    requires Step(s, StartFork(p, np)).Next? && s.waitLock == None
    ensures Run(s, [StartFork(p, np)] + Gos(p, 3)) ==
            Next(s.(procs := s.procs[np := Proc(Runnable, NoChan, Some(p), None, User, s.nextPid)],
                    nextPid := s.nextPid + 1))
  {
    var s1 := Step(s, StartFork(p, np)).s;
    var z := s.(procs := s.procs[np := Proc(Runnable, NoChan, Some(p), None, User, s.nextPid)],
                nextPid := s.nextPid + 1);
    ForkSteps(s, p, np, s1, z);
    hide Run, Step;
    RunFrom(s, StartFork(p, np), Gos(p, 3));
  }

  lemma ForkSteps(s: State, p: nat, np: nat, s1: State, z: State)
    requires Step(s, StartFork(p, np)) == Next(s1) && s.waitLock == None
    requires z == s.(procs := s.procs[np := Proc(Runnable, NoChan, Some(p), None, User, s.nextPid)],
                     nextPid := s.nextPid + 1)
    ensures Reaches(s1, p, 3, z)
  {
    hide Reaches;
    var s2 := NextOf(s1, p).s;
    var s3 := NextOf(s2, p).s;
    assert NextOf(s3, p).s.procs == z.procs;
    ReachSelf(z, p);
    ReachStep(s3, p, 0, z, z);
    ReachStep(s2, p, 1, s3, z);
    ReachStep(s1, p, 2, s2, z);
  }

  // ----- wait -----

  /** The first child of `p` from entry `i` on that has exited. */
  function FirstZombie(s: State, p: nat, i: nat): (r: Option<nat>)
    ensures r.Some? ==> i <= r.value < |s.procs| && ZombieChild(s, p, r.value)
    ensures r.Some? ==> forall c :: i <= c < r.value ==> !ZombieChild(s, p, c)
    ensures r.None? ==> forall c :: i <= c < |s.procs| ==> !ZombieChild(s, p, c)
    decreases |s.procs| - i
  {
    if i >= |s.procs| then None else if ZombieChild(s, p, i) then Some(i) else FirstZombie(s, p, i + 1)
  }

  /** What wait does: it frees the first child that has exited and returns its identifier; or, with children
      but none that has exited, it sleeps; or, without children, it returns at once. */
  ghost function WaitResult(s: State, p: nat): State
    requires p < |s.procs|
  {
    var z := FirstZombie(s, p, 0);
    if z.Some? then
      s.(procs := s.procs[z.value := Proc(Unused, NoChan, None, None, User, 0)],
         reaped := s.reaped + [s.procs[z.value].pid])
    else if HasChild(s, p) then s.(procs := s.procs[p := s.procs[p].(st := Sleeping, chan := On(p), pc := Sleep4)])
    else s
  }

  /** The state of a scan at entry `i`. */
  function Scanning(s: State, p: nat, i: nat, kids: bool): State
    requires p < |s.procs|
  {
    GoTo(s, p, Wait1(i, kids)).(waitLock := Some(p))
  }

  ghost predicate MayWait(s: State, p: nat) {
    && p < |s.procs| && s.procs[p].st == Running && s.procs[p].pc == User && s.waitLock == None && NoLocks(s)
    && s.procs[p].parent != Some(p)
  }

  /** From entry `i` of the scan on. */
  lemma {:induction false} ScanAlone(s: State, p: nat, i: nat, kids: bool) returns (n: nat)
    requires MayWait(s, p) && i <= |s.procs| && (forall c :: 0 <= c < i ==> !ZombieChild(s, p, c))
    requires if kids then HasChild(s, p) else NoChildBefore(s, p, i)
    ensures p < |s.procs| && Reaches(Scanning(s, p, i, kids), p, n, WaitResult(s, p))
    decreases |s.procs| - i
  {
    hide Reaches, NextOf, WaitResult, ZombieChild, NoLocks;
    var t, z := Scanning(s, p, i, kids), WaitResult(s, p);
    if i == |s.procs| {
      NoneExited(s, p);
      n := EndAlone(s, p, kids);
    } else if s.procs[i].parent != Some(p) {
      SkipEntry(s, p, i, kids);
      n := ScanAlone(s, p, i + 1, kids);
      ReachStep(t, p, n, Scanning(s, p, i + 1, kids), z);
      n := n + 1;
    } else if s.procs[i].st == Zombie {
      ReapEntry(s, p, i, kids);
      n := 2;
    } else {
      var u := LookEntry(s, p, i, kids);
      n := ScanAlone(s, p, i + 1, true);
      ReachStep(u, p, n, Scanning(s, p, i + 1, true), z);
      ReachStep(t, p, n + 1, u, z);
      n := n + 2;
    }
  }

  lemma NoneExited(s: State, p: nat)
    requires forall c :: 0 <= c < |s.procs| ==> !ZombieChild(s, p, c)
    ensures FirstZombie(s, p, 0) == None
  {
  }

  lemma SkipEntry(s: State, p: nat, i: nat, kids: bool)
    requires MayWait(s, p) && i < |s.procs| && s.procs[i].parent != Some(p)
    ensures NextOf(Scanning(s, p, i, kids), p) == Next(Scanning(s, p, i + 1, kids))
    ensures !ChildOf(s, p, i) && !ZombieChild(s, p, i) && p < |Scanning(s, p, i, kids).procs|
  {
  }

  /** A child that has not exited: its lock is taken and released again. */
  lemma LookEntry(s: State, p: nat, i: nat, kids: bool) returns (u: State)
    requires MayWait(s, p) && i < |s.procs| && s.procs[i].parent == Some(p) && s.procs[i].st != Zombie
    ensures HasChild(s, p) && !ZombieChild(s, p, i)
    ensures NextOf(Scanning(s, p, i, kids), p) == Next(u)
    ensures p < |u.procs| && NextOf(u, p) == Next(Scanning(s, p, i + 1, true))
  {
    assert ChildOf(s, p, i);
    u := Looking(s, p, i);
    LookFirst(s, p, i, kids);
    LookThen(s, p, i);
  }

  /** The state with the lock of child `i` taken. */
  function Looking(s: State, p: nat, i: nat): State
    requires p < |s.procs| && i < |s.procs|
  {
    GoTo(Set(s, i, s.procs[i].(lock := Some(p))), p, Wait2(i)).(waitLock := Some(p))
  }

  lemma LookFirst(s: State, p: nat, i: nat, kids: bool)
    requires MayWait(s, p) && i < |s.procs| && s.procs[i].parent == Some(p)
    ensures NextOf(Scanning(s, p, i, kids), p) == Next(Looking(s, p, i))
  {
    assert NextOf(Scanning(s, p, i, kids), p).s.procs == Looking(s, p, i).procs;
  }

  lemma LookThen(s: State, p: nat, i: nat)
    requires MayWait(s, p) && i < |s.procs| && s.procs[i].parent == Some(p) && s.procs[i].st != Zombie
    ensures NextOf(Looking(s, p, i), p) == Next(Scanning(s, p, i + 1, true))
  {
    hide NextOf;
    var u, c := Looking(s, p, i), s.procs[p];
    LookStep(u, p, i);
    assert u.procs[i] == s.procs[i].(lock := Some(p)) && u.procs[p] == c.(pc := Wait2(i));
    TakenBack(s.procs, i, p, u.procs[i], u.procs[p], c.(pc := Wait1(i + 1, true)));
  }

  lemma LookStep(u: State, p: nat, i: nat)
    requires p < |u.procs| && u.procs[p].st == Running && u.procs[p].pc == Wait2(i)
    requires i < |u.procs| && i != p && u.procs[i].st != Zombie
    ensures NextOf(u, p) == Next(GoTo(Set(u, i, u.procs[i].(lock := None)), p, Wait1(i + 1, true)))
  {
  }

  lemma TakenBack(procs: seq<Proc>, i: nat, p: nat, x: Proc, y: Proc, z: Proc)
    requires i < |procs| && p < |procs| && i != p
    ensures procs[i := x][p := y][i := procs[i]][p := z] == procs[p := z]
  {
  }

  /** A child that has exited is freed. */
  lemma ReapEntry(s: State, p: nat, i: nat, kids: bool)
    requires MayWait(s, p) && i < |s.procs| && s.procs[i].parent == Some(p) && s.procs[i].st == Zombie
    requires forall c :: 0 <= c < i ==> !ZombieChild(s, p, c)
    ensures Reaches(Scanning(s, p, i, kids), p, 2, WaitResult(s, p))
  {
    hide Reaches;
    assert ZombieChild(s, p, i);
    var t, z := Scanning(s, p, i, kids), WaitResult(s, p);
    var u := NextOf(t, p).s;
    assert FirstZombie(s, p, 0) == Some(i);
    assert NextOf(u, p).s.procs == z.procs;
    ReachSelf(z, p);
    ReachStep(u, p, 0, z, z);
    ReachStep(t, p, 1, u, z);
  }

  /** At the end of the table: sleep, or return. */
  lemma EndAlone(s: State, p: nat, kids: bool) returns (n: nat)
    requires MayWait(s, p) && FirstZombie(s, p, 0) == None
    requires if kids then HasChild(s, p) else NoChildBefore(s, p, |s.procs|)
    ensures Reaches(Scanning(s, p, |s.procs|, kids), p, n, WaitResult(s, p))
  {
    var t := Scanning(s, p, |s.procs|, kids);
    if kids {
      n := 4;
      SleepAlone(s, p);
    } else {
      n := 1;
      assert NextOf(t, p).s.procs == s.procs;
      assert !HasChild(s, p);
      ReachSelf(s, p);
      ReachStep(t, p, 0, s, s);
    }
  }

  lemma SleepAlone(s: State, p: nat)
    requires MayWait(s, p)
    ensures Reaches(Scanning(s, p, |s.procs|, true), p, 4,
                    s.(procs := s.procs[p := s.procs[p].(st := Sleeping, chan := On(p), pc := Sleep4)]))
  {
    hide Reaches;
    var c := s.procs[p];
    var z := Set(s, p, c.(st := Sleeping, chan := On(p), pc := Sleep4));
    var t := Scanning(s, p, |s.procs|, true);
    var t1 := Set(s, p, c.(lock := Some(p), pc := Sleep1)).(waitLock := Some(p));
    var t2 := Set(s, p, c.(lock := Some(p), pc := Sleep2));
    var t3 := Set(s, p, c.(st := Sleeping, chan := On(p), lock := Some(p), pc := Sleep3));
    SleepSteps(s, p, t, t1, t2, t3, z);
    hide NextOf;
    ReachSelf(z, p);
    ReachStep(t3, p, 0, z, z);
    ReachStep(t2, p, 1, t3, z);
    ReachStep(t1, p, 2, t2, z);
    ReachStep(t, p, 3, t1, z);
  }

  lemma SleepSteps(s: State, p: nat, t: State, t1: State, t2: State, t3: State, z: State)
    requires MayWait(s, p) && t == Scanning(s, p, |s.procs|, true)
    requires t1 == Set(s, p, s.procs[p].(lock := Some(p), pc := Sleep1)).(waitLock := Some(p))
    requires t2 == Set(s, p, s.procs[p].(lock := Some(p), pc := Sleep2))
    requires t3 == Set(s, p, s.procs[p].(st := Sleeping, chan := On(p), lock := Some(p), pc := Sleep3))
    requires z == Set(s, p, s.procs[p].(st := Sleeping, chan := On(p), pc := Sleep4))
    ensures NextOf(t, p) == Next(t1) && NextOf(t1, p) == Next(t2)
    ensures NextOf(t2, p) == Next(t3) && NextOf(t3, p) == Next(z)
  {
    assert NextOf(t, p).s.procs == t1.procs;
    assert NextOf(t1, p).s.procs == t2.procs;
    assert NextOf(t2, p).s.procs == t3.procs;
    assert NextOf(t3, p).s.procs == z.procs;
  }

  /** wait. */
  lemma WaitAlone(s: State, p: nat) returns (n: nat)
    requires MayWait(s, p)
    ensures Run(s, [StartWait(p)] + Gos(p, n)) == Next(WaitResult(s, p))
  {
    assert Step(s, StartWait(p)) == Next(Scanning(s, p, 0, false));
    n := ScanAlone(s, p, 0, false);
    RunFrom(s, StartWait(p), Gos(p, n));
  }

  /** In every run: at the end of a scan, wait returns exactly when there is no child, and else goes to sleep. */
  lemma WaitReturnsExactly(s: State, p: nat)
    requires Inv(s) && p < |s.procs| && s.procs[p].pc.Wait1? && s.procs[p].pc.i == |s.procs| && NextOf(s, p).Next?
    ensures NextOf(s, p).s.procs[p].pc == if HasChild(s, p) then Sleep1 else User
  {
    assert Scanned(s, p);
  }

  /** A process woken from its sleep in wait scans again from the start. */
  lemma WokenAlone(s: State, p: nat)
    requires p < |s.procs| && s.procs[p].st == Runnable && s.procs[p].pc == Sleep4 && s.procs[p].lock == None
    requires s.waitLock == None
    ensures Run(s, [Dispatch(p)] + Gos(p, 2)) ==
            Next(s.(procs := s.procs[p := s.procs[p].(st := Running, chan := NoChan, pc := Wait1(0, false))],
                    waitLock := Some(p)))
  {
    hide Run, Reaches;
    var s1 := Step(s, Dispatch(p)).s;
    var z := s.(procs := s.procs[p := s.procs[p].(st := Running, chan := NoChan, pc := Wait1(0, false))],
                waitLock := Some(p));
    var s2 := NextOf(s1, p).s;
    assert NextOf(s2, p).s.procs == z.procs;
    ReachSelf(z, p);
    ReachStep(s2, p, 0, z, z);
    ReachStep(s1, p, 1, s2, z);
    RunFrom(s, Dispatch(p), Gos(p, 2));
    ReachedBy(s1, p, 2, z);
  }

  lemma ReachedBy(s: State, p: nat, n: nat, s': State)
    requires Reaches(s, p, n, s')
    ensures Run(s, Gos(p, n)) == Next(s')
  {
  }

  // ----- exit -----

  /** What wakeup(q) makes of a process. */
  function WokenBy(c: Proc, q: nat): Proc {
    if c.st == Sleeping && c.chan == On(q) then c.(st := Runnable) else c
  }

  /** A child of `p` goes to init. */
  function Adopted(s: State, p: nat, c: Proc): Proc {
    if c.parent == Some(p) then c.(parent := Some(s.ini)) else c
  }

  /** exit: the children go to init, which is woken if there are any; the parent is woken; the process becomes a
      zombie; nothing else changes. */
  ghost function ExitResult(s: State, p: nat): (r: State)
    requires p < |s.procs| && s.procs[p].parent.Some?
    ensures |r.procs| == |s.procs| && r == s.(procs := r.procs)
    ensures r.procs[p] == s.procs[p].(st := Zombie, pc := Gone)
    ensures forall c :: 0 <= c < |s.procs| && c != p ==>
              r.procs[c] == WokenBy(if HasChild(s, p) then WokenBy(Adopted(s, p, s.procs[c]), s.ini)
                                    else Adopted(s, p, s.procs[c]), s.procs[p].parent.value)
  {
    s.(procs := seq(|s.procs|, c requires 0 <= c < |s.procs| =>
         if c == p then s.procs[p].(st := Zombie, pc := Gone)
         else WokenBy(if HasChild(s, p) then WokenBy(Adopted(s, p, s.procs[c]), s.ini)
                      else Adopted(s, p, s.procs[c]), s.procs[p].parent.value)))
  }

  ghost predicate MayExit(s: State, p: nat) {
    && p < |s.procs| && s.procs[p].st == Running && s.procs[p].pc == User && s.waitLock == None && NoLocks(s)
    && p != s.ini && s.procs[p].parent.Some? && s.procs[p].parent != Some(p)
  }

  /** In the state `t` the entries below `j` have been woken by wakeup(q), called by `p`, which is at `pc`. */
  function Waking(t: State, p: nat, q: nat, j: nat, pc: PC): (r: State)
    requires p < |t.procs|
    ensures |r.procs| == |t.procs| && r == t.(procs := r.procs) && r.procs[p] == t.procs[p].(pc := pc)
    ensures forall c :: 0 <= c < |t.procs| && c != p ==>
              r.procs[c] == if c < j then WokenBy(t.procs[c], q) else t.procs[c]
  {
    t.(procs := seq(|t.procs|, c requires 0 <= c < |t.procs| =>
         if c == p then t.procs[p].(pc := pc) else if c < j then WokenBy(t.procs[c], q) else t.procs[c]))
  }

  lemma WakingOneMore(t: State, p: nat, q: nat, j: nat, pc: PC, pc': PC)
    requires p < |t.procs| && j < |t.procs|
    ensures j == p ==> GoTo(Waking(t, p, q, j, pc), p, pc') == Waking(t, p, q, j + 1, pc')
    ensures j != p ==> GoTo(Woken(Waking(t, p, q, j, pc), j, q), p, pc') == Waking(t, p, q, j + 1, pc')
  {
    var a, b := Waking(t, p, q, j, pc), Waking(t, p, q, j + 1, pc');
    if j == p {
      assert GoTo(a, p, pc').procs == b.procs;
    } else {
      assert GoTo(Woken(a, j, q), p, pc').procs == b.procs;
    }
  }

  lemma WakeInitStep(t: State, p: nat, i: nat, j: nat)
    requires p < |t.procs| && t.procs[p].st == Running && NoLocks(t) && j < |t.procs|
    ensures NextOf(Waking(t, p, t.ini, j, ExitWake(i, j)), p) ==
            Next(Waking(t, p, t.ini, j + 1, ExitWake(i, j + 1)))
  {
    hide Waking, GoTo, Woken;
    WakingOneMore(t, p, t.ini, j, ExitWake(i, j), ExitWake(i, j + 1));
    assert j != p ==> Waking(t, p, t.ini, j, ExitWake(i, j)).procs[j].lock == t.procs[j].lock;
  }

  lemma WakeParentStep(t: State, p: nat, q: nat, j: nat)
    requires p < |t.procs| && t.procs[p].st == Running && NoLocks(t) && j < |t.procs|
    ensures NextOf(Waking(t, p, q, j, ExitParent(j, q)), p) == Next(Waking(t, p, q, j + 1, ExitParent(j + 1, q)))
  {
    hide Waking, GoTo, Woken;
    WakingOneMore(t, p, q, j, ExitParent(j, q), ExitParent(j + 1, q));
    assert j != p ==> Waking(t, p, q, j, ExitParent(j, q)).procs[j].lock == t.procs[j].lock;
  }

  /** wakeup(initproc), from entry `j` on. */
  lemma {:induction false} WakeInitAlone(t: State, p: nat, i: nat, j: nat)
    requires p < |t.procs| && t.procs[p].st == Running && NoLocks(t) && j <= |t.procs|
    ensures Reaches(Waking(t, p, t.ini, j, ExitWake(i, j)), p, |t.procs| - j,
                    Waking(t, p, t.ini, |t.procs|, ExitWake(i, |t.procs|)))
    decreases |t.procs| - j
  {
    hide Reaches, Waking, NextOf;
    var z := Waking(t, p, t.ini, |t.procs|, ExitWake(i, |t.procs|));
    if j < |t.procs| {
      WakeInitStep(t, p, i, j);
      WakeInitAlone(t, p, i, j + 1);
      ReachStep(Waking(t, p, t.ini, j, ExitWake(i, j)), p, |t.procs| - j - 1,
                Waking(t, p, t.ini, j + 1, ExitWake(i, j + 1)), z);
    } else {
      ReachSelf(z, p);
    }
  }

  /** wakeup(p->parent), from entry `j` on. */
  lemma {:induction false} WakeParentAlone(t: State, p: nat, q: nat, j: nat)
    requires p < |t.procs| && t.procs[p].st == Running && NoLocks(t) && j <= |t.procs|
    ensures Reaches(Waking(t, p, q, j, ExitParent(j, q)), p, |t.procs| - j,
                    Waking(t, p, q, |t.procs|, ExitParent(|t.procs|, q)))
    decreases |t.procs| - j
  {
    hide Reaches, Waking, NextOf;
    var z := Waking(t, p, q, |t.procs|, ExitParent(|t.procs|, q));
    if j < |t.procs| {
      WakeParentStep(t, p, q, j);
      WakeParentAlone(t, p, q, j + 1);
      ReachStep(Waking(t, p, q, j, ExitParent(j, q)), p, |t.procs| - j - 1,
                Waking(t, p, q, j + 1, ExitParent(j + 1, q)), z);
    } else {
      ReachSelf(z, p);
    }
  }

  /** reparent has gone through the entries below `i`. */
  ghost function Reparented(s: State, p: nat, i: nat): (r: State)
    requires p < |s.procs|
    ensures |r.procs| == |s.procs| && r == s.(procs := r.procs, waitLock := Some(p))
    ensures r.procs[p] == s.procs[p].(pc := Exit1(i))
    ensures forall c :: 0 <= c < |s.procs| && c != p ==> r.procs[c] == ReparentedAt(s, p, i, c)
  {
    s.(procs := seq(|s.procs|, c requires 0 <= c < |s.procs| =>
         if c == p then s.procs[p].(pc := Exit1(i)) else ReparentedAt(s, p, i, c)), waitLock := Some(p))
  }

  ghost function ReparentedAt(s: State, p: nat, i: nat, c: nat): Proc
    requires c < |s.procs|
  {
    var y := if c < i then Adopted(s, p, s.procs[c]) else s.procs[c];
    if NoChildBefore(s, p, i) then y else WokenBy(y, s.ini)
  }

  /** One entry of reparent that is not a child. */
  lemma SkipChild(s: State, p: nat, i: nat)
    requires MayExit(s, p) && i < |s.procs| && s.procs[i].parent != Some(p)
    ensures NextOf(Reparented(s, p, i), p) == Next(Reparented(s, p, i + 1))
  {
    hide ReparentedAt, Reparented, NoLocks;
    var t := Reparented(s, p, i);
    ParentStays(s, p, i);
    NotAChild(s, p, i);
    assert GoTo(t, p, Exit1(i + 1)).procs == Reparented(s, p, i + 1).procs;
  }

  /** The state after the assignment to pp->parent. */
  ghost function Given(s: State, p: nat, i: nat): State
    requires p < |s.procs| && i < |s.procs|
  {
    var t := Reparented(s, p, i);
    GoTo(Set(t, i, t.procs[i].(parent := Some(s.ini))), p, ExitWake(i, 0))
  }

  lemma GiveChild(s: State, p: nat, i: nat)
    requires MayExit(s, p) && i < |s.procs| && s.procs[i].parent == Some(p)
    ensures NextOf(Reparented(s, p, i), p) == Next(Waking(Given(s, p, i), p, s.ini, 0, ExitWake(i, 0)))
    ensures Given(s, p, i).procs[p].st == Running && NoLocks(Given(s, p, i)) && Given(s, p, i).ini == s.ini
  {
    ParentStays(s, p, i);
    assert Waking(Given(s, p, i), p, s.ini, 0, ExitWake(i, 0)).procs == Given(s, p, i).procs;
  }

  lemma ChildGiven(s: State, p: nat, i: nat)
    requires MayExit(s, p) && i < |s.procs| && s.procs[i].parent == Some(p)
    ensures NextOf(Waking(Given(s, p, i), p, s.ini, |s.procs|, ExitWake(i, |s.procs|)), p) ==
            Next(Reparented(s, p, i + 1))
  {
    hide ReparentedAt, NoLocks, Given, Waking, Reparented, WokenBy;
    GivenIs(s, p, i);
    AChild(s, p, i, Given(s, p, i));
    var w := Waking(Given(s, p, i), p, s.ini, |s.procs|, ExitWake(i, |s.procs|));
    assert NextOf(w, p) == Next(GoTo(w, p, Exit1(i + 1)));
    assert GoTo(w, p, Exit1(i + 1)).procs == Reparented(s, p, i + 1).procs;
  }

  lemma GivenIs(s: State, p: nat, i: nat)
    requires MayExit(s, p) && i < |s.procs| && s.procs[i].parent == Some(p)
    ensures var u := Given(s, p, i);
      && |u.procs| == |s.procs| && u == s.(procs := u.procs, waitLock := Some(p))
      && u.procs[p] == s.procs[p].(pc := ExitWake(i, 0))
      && forall c :: 0 <= c < |s.procs| && c != p ==>
           u.procs[c] == if c == i then ReparentedAt(s, p, i, c).(parent := Some(s.ini)) else ReparentedAt(s, p, i, c)
  {
    hide ReparentedAt, NoLocks, Reparented;
  }

  /** One entry of reparent. */
  lemma ReparentOne(s: State, p: nat, i: nat) returns (n: nat)
    requires MayExit(s, p) && i < |s.procs|
    ensures Reaches(Reparented(s, p, i), p, n, Reparented(s, p, i + 1))
  {
    hide Reaches, Waking, NextOf, Reparented, Given;
    var t, z := Reparented(s, p, i), Reparented(s, p, i + 1);
    if s.procs[i].parent != Some(p) {
      SkipChild(s, p, i);
      ReachSelf(z, p);
      ReachStep(t, p, 0, z, z);
      n := 1;
    } else {
      var k, u := |s.procs|, Given(s, p, i);
      GiveChild(s, p, i);
      GivenSize(s, p, i);
      WakeInitAlone(u, p, i, 0);
      ChildGiven(s, p, i);
      ReachSelf(z, p);
      ReachStep(Waking(u, p, s.ini, k, ExitWake(i, k)), p, 0, z, z);
      ReachBoth(Waking(u, p, s.ini, 0, ExitWake(i, 0)), p, k, Waking(u, p, s.ini, k, ExitWake(i, k)), 1, z);
      ReachStep(t, p, k + 1, Waking(u, p, s.ini, 0, ExitWake(i, 0)), z);
      n := k + 2;
    }
  }

  lemma GivenSize(s: State, p: nat, i: nat)
    requires p < |s.procs| && i < |s.procs|
    ensures |Given(s, p, i).procs| == |s.procs|
  {
  }

  lemma ParentStays(s: State, p: nat, i: nat)
    requires MayExit(s, p) && i < |s.procs|
    ensures Reparented(s, p, i).procs[i].parent == s.procs[i].parent
  {
  }

  lemma NotAChild(s: State, p: nat, i: nat)
    requires MayExit(s, p) && i < |s.procs| && s.procs[i].parent != Some(p)
    ensures forall c: nat :: c < |s.procs| ==> ReparentedAt(s, p, i + 1, c) == ReparentedAt(s, p, i, c)
  {
    assert !ChildOf(s, p, i);
    assert NoChildBefore(s, p, i) <==> NoChildBefore(s, p, i + 1);
  }

  lemma AChild(s: State, p: nat, i: nat, u: State)
    requires MayExit(s, p) && i < |s.procs| && s.procs[i].parent == Some(p) && |u.procs| == |s.procs|
    requires forall c :: 0 <= c < |s.procs| && c != p ==>
               u.procs[c] == if c == i then ReparentedAt(s, p, i, c).(parent := Some(s.ini))
                             else ReparentedAt(s, p, i, c)
    ensures forall c :: 0 <= c < |s.procs| && c != p ==>
              ReparentedAt(s, p, i + 1, c) == WokenBy(u.procs[c], s.ini)
  {
    assert ChildOf(s, p, i);
    assert !NoChildBefore(s, p, i + 1);
  }

  /** reparent, from entry `i` on. */
  lemma {:induction false} ReparentAlone(s: State, p: nat, i: nat) returns (n: nat)
    requires MayExit(s, p) && i <= |s.procs|
    ensures Reaches(Reparented(s, p, i), p, n, Reparented(s, p, |s.procs|))
    decreases |s.procs| - i
  {
    hide Reaches, Reparented;
    if i < |s.procs| {
      var a := ReparentOne(s, p, i);
      var b := ReparentAlone(s, p, i + 1);
      ReachBoth(Reparented(s, p, i), p, a, Reparented(s, p, i + 1), b, Reparented(s, p, |s.procs|));
      n := a + b;
    } else {
      ReachSelf(Reparented(s, p, i), p);
      n := 0;
    }
  }

  /** The end of reparent, and the start of the wakeup of the parent. */
  lemma ToParent(s: State, p: nat)
    requires MayExit(s, p)
    ensures var t, q := Reparented(s, p, |s.procs|), s.procs[p].parent.value;
      && NextOf(t, p) == Next(Waking(t, p, q, 0, ExitParent(0, q)))
      && t.procs[p].st == Running && NoLocks(t) && |t.procs| == |s.procs|
  {
    var t, q := Reparented(s, p, |s.procs|), s.procs[p].parent.value;
    assert Waking(t, p, q, 0, ExitParent(0, q)).procs == GoTo(t, p, ExitParent(0, q)).procs;
  }

  /** The last two steps. */
  lemma Die(s: State, p: nat)
    requires MayExit(s, p)
    ensures var t, q, k := Reparented(s, p, |s.procs|), s.procs[p].parent.value, |s.procs|;
      Reaches(Waking(t, p, q, k, ExitParent(k, q)), p, 2, ExitResult(s, p))
  {
    var t, q, k := Reparented(s, p, |s.procs|), s.procs[p].parent.value, |s.procs|;
    var w := Waking(t, p, q, k, ExitParent(k, q));
    var x := NextOf(w, p).s;
    ChildrenAll(s, p);
    hide ReparentedAt, NoLocks, Reaches;
    assert NextOf(x, p).s.procs == ExitResult(s, p).procs;
    ReachSelf(ExitResult(s, p), p);
    ReachStep(x, p, 0, ExitResult(s, p), ExitResult(s, p));
    ReachStep(w, p, 1, x, ExitResult(s, p));
  }

  /** What comes after reparent. */
  lemma LeaveAlone(s: State, p: nat) returns (n: nat)
    requires MayExit(s, p)
    ensures Reaches(Reparented(s, p, |s.procs|), p, n, ExitResult(s, p))
  {
    hide Reaches, Waking, NextOf, Reparented, ExitResult;
    var t, q, k := Reparented(s, p, |s.procs|), s.procs[p].parent.value, |s.procs|;
    ToParent(s, p);
    WakeParentAlone(t, p, q, 0);
    Die(s, p);
    ReachBoth(Waking(t, p, q, 0, ExitParent(0, q)), p, k, Waking(t, p, q, k, ExitParent(k, q)), 2, ExitResult(s, p));
    ReachStep(t, p, k + 2, Waking(t, p, q, 0, ExitParent(0, q)), ExitResult(s, p));
    n := k + 3;
  }

  lemma ChildrenAll(s: State, p: nat)
    requires MayExit(s, p)
    ensures NoChildBefore(s, p, |s.procs|) <==> !HasChild(s, p)
    ensures forall c: nat :: c < |s.procs| ==>
              ReparentedAt(s, p, |s.procs|, c) == if HasChild(s, p) then WokenBy(Adopted(s, p, s.procs[c]), s.ini)
                                                  else Adopted(s, p, s.procs[c])
  {
  }

  /** exit. */
  lemma ExitAlone(s: State, p: nat) returns (n: nat)
    requires MayExit(s, p)
    ensures Run(s, [StartExit(p)] + Gos(p, n)) == Next(ExitResult(s, p))
  {
    hide Run, Step, Reparented, ExitResult;
    StartIs(s, p);
    var a := ReparentAlone(s, p, 0);
    var b := LeaveAlone(s, p);
    ReachBoth(Reparented(s, p, 0), p, a, Reparented(s, p, |s.procs|), b, ExitResult(s, p));
    n := a + b;
    RunFrom(s, StartExit(p), Gos(p, n));
  }

  lemma StartIs(s: State, p: nat)
    requires MayExit(s, p)
    ensures Step(s, StartExit(p)) == Next(Reparented(s, p, 0))
  {
    assert Step(s, StartExit(p)).s.procs == Reparented(s, p, 0).procs;
  }

  // ----- Together -----

  /** From every boot with room for a child there is a run after which a process sleeps in wait: init forks and
      waits. */
  lemma SomebodySleeps(s0: State, c: nat) returns (es: seq<Event>)
    requires Booted(s0) && c < |s0.procs| && c != s0.ini
    ensures Run(s0, es).Next? && s0.ini < |Run(s0, es).s.procs| && Dozing(Run(s0, es).s, s0.ini)
  {
    var p := s0.ini;
    var s1 := Step(s0, Dispatch(p)).s;
    ForkAlone(s1, p, c);
    var fork := [StartFork(p, c)] + Gos(p, 3);
    var s2 := Run(s1, fork).s;
    assert ChildOf(s2, p, c);
    assert forall b :: 0 <= b < |s2.procs| ==> !ZombieChild(s2, p, b);
    NoneExited(s2, p);
    var n := WaitAlone(s2, p);
    es := [Dispatch(p)] + (fork + ([StartWait(p)] + Gos(p, n)));
    RunFrom(s0, Dispatch(p), fork + ([StartWait(p)] + Gos(p, n)));
    RunBoth(s1, fork, [StartWait(p)] + Gos(p, n));
  }

  predicate SleepsInWait(s: State, p: nat) {
    p < |s.procs| && s.procs[p].st == Sleeping && s.procs[p].pc == Sleep4
  }

  /** The state in which the sleeper `p`, woken by the exit of `c`, has begun a new wait. */
  ghost function AwakeAfter(s: State, p: nat, c: nat): (r: State)
    requires p < |s.procs| && c < |s.procs| && s.procs[c].parent.Some?
  {
    var t := ExitResult(s, c);
    t.(procs := t.procs[p := t.procs[p].(st := Running, chan := NoChan, pc := User)])
  }

  lemma ExitWakes(s: State, p: nat, c: nat)
    requires Inv(s) && MayExit(s, c) && SleepsInWait(s, p) && s.procs[c].parent == Some(p)
    ensures p != c && var t := ExitResult(s, c);
      && t.procs[p].st == Runnable && t.procs[p].pc == Sleep4 && NoLocks(t) && t.waitLock == None
      && ZombieChild(t, p, c) && t.procs[p].parent != Some(p)
  {
    assert Agree(s, p) && Family(s, p) && Family(s, c) && Family(s, s.ini);
  }

  lemma OnlyThatChild(s: State, p: nat, c: nat)
    requires Inv(s) && MayExit(s, c) && SleepsInWait(s, p) && s.procs[c].parent == Some(p) && p != s.ini && p != c
    ensures FirstZombie(AwakeAfter(s, p, c), p, 0) == Some(c)
  {
    var t := AwakeAfter(s, p, c);
    assert Safe(s, p) && NoZombieBefore(s, p, |s.procs|);
    forall b: nat | b < |s.procs| ensures ZombieChild(t, p, b) <==> b == c {
      assert !ZombieChild(s, p, b);
      assert Family(s, p);
    }
    var r := FirstZombie(t, p, 0);
    assert ZombieChild(t, p, c) && |t.procs| == |s.procs|;
    assert r.Some? && ZombieChild(t, p, r.value);
  }

  /** exit and wait meet. A child of a process asleep in wait exits; the sleeper wakes, frees a child that has
      exited and returns its identifier. It is that child, unless the sleeper is init, which may have inherited
      others. */
  lemma ExitEndsWait(s: State, p: nat, c: nat) returns (es: seq<Event>, k: nat)
    requires Inv(s) && MayExit(s, c) && SleepsInWait(s, p) && s.procs[c].parent == Some(p)
    ensures k < |s.procs| && Run(s, es).Next? && |Run(s, es).s.procs| == |s.procs|
    ensures var z := Run(s, es).s;
      && z.procs[p].st == Running && z.procs[p].pc == User && z.waitLock == None
      && z.procs[k].st == Unused && z.reaped == s.reaped + [s.procs[k].pid]
    ensures p != s.ini ==> k == c
  {
    hide Run, NextOf, Step, Inv, Gos;
    var a := ExitAlone(s, c);
    ExitWakes(s, p, c);
    var t, u := ExitResult(s, c), AwakeAfter(s, p, c);
    WokenAlone(t, p);
    assert Run(t, [Dispatch(p)] + Gos(p, 2)) == Next(Scanning(u, p, 0, false));
    assert ZombieChild(u, p, c);
    if p != s.ini { OnlyThatChild(s, p, c); }
    k := FirstZombie(u, p, 0).value;
    var b := ScanAlone(u, p, 0, false);
    ReachedBy(Scanning(u, p, 0, false), p, b, WaitResult(u, p));
    var exit, wake := [StartExit(c)] + Gos(c, a), [Dispatch(p)] + Gos(p, 2);
    RunBoth(t, wake, Gos(p, b));
    RunBoth(s, exit, wake + Gos(p, b));
    es := exit + (wake + Gos(p, b));
  }
}
