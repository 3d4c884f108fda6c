/** Nobody is stuck: however far the calls of fork, exit and wait have got, in whatever interleaving, each of
    them can be brought to its end. */
module ProcProgress {
  import opened Wrappers
  import opened M = Proc
  import opened ProcCalls

  /** Outside the calls, asleep, or gone. */
  predicate Settled(pc: PC) {
    pc.User? || pc.Sleep4? || pc.Gone?
  }

  /** A bound on the steps that a process has before it until then, in a table of `n` entries. */
  function Rank(n: int, pc: PC): int {
    match pc
    case User => 0
    case Fork1(_) => 3
    case Fork2(_) => 2
    case Fork3(_) => 1
    case Exit1(i) => (n - i) * (n + 2) + n + 3
    case ExitWake(i, j) => (n - i - 1) * (n + 2) + n - j + n + 4
    case ExitParent(j, _) => n - j + 2
    case Dead => 1
    case Gone => 0
    case Wait1(i, _) => 2 * (n - i) + 4
    case Wait2(i) => 2 * (n - i) + 3
    case Sleep1 => 3
    case Sleep2 => 2
    case Sleep3 => 1
    case Sleep4 => 0
    case Sleep5 => 2 * n + 6
    case Sleep6 => 2 * n + 5
  }

  function RankOf(s: State, p: nat): int
    requires p < |s.procs|
  {
    Rank(|s.procs|, s.procs[p].pc)
  }

  /** Process `p` is where it can go on by itself, but for locks. */
  predicate Active(c: Proc) {
    c.st == Running || c.pc == Sleep3 || c.pc == Dead || Settled(c.pc)
  }

  /** The counters of a scan are within the table. */
  predicate Bounded(n: nat, pc: PC) {
    match pc
    case Exit1(i) => i <= n
    case ExitWake(i, j) => i < n && j <= n
    case ExitParent(j, _) => j <= n
    case Wait1(i, _) => i <= n
    case Wait2(i) => i < n
    case _ => true
  }

  lemma InvBounded(s: State, p: nat)
    requires Inv(s) && p < |s.procs|
    ensures Bounded(|s.procs|, s.procs[p].pc)
  {
    assert Scanned(s, p);
  }

  /** Where the next step of a process leads it. */
  predicate Follows(n: nat, pc: PC, to: PC) {
    match pc
    case Fork1(np) => to == Fork2(np)
    case Fork2(np) => to == Fork3(np)
    case Fork3(_) => to == User
    case Exit1(i) => if i < n then to == ExitWake(i, 0) || to == Exit1(i + 1) else to.ExitParent? && to.j == 0
    case ExitWake(i, j) => to == if j < n then ExitWake(i, j + 1) else Exit1(i + 1)
    case ExitParent(j, q) => to == if j < n then ExitParent(j + 1, q) else Dead
    case Dead => to == Gone
    case Wait1(i, kids) => if i < n then to == Wait1(i + 1, kids) || to == Wait2(i) else to == User || to == Sleep1
    case Wait2(i) => to == User || to == Wait1(i + 1, true)
    case Sleep1 => to == Sleep2
    case Sleep2 => to == Sleep3
    case Sleep3 => to == Sleep4
    case Sleep5 => to == Sleep6
    case Sleep6 => to == Wait1(0, false)
    case _ => false
  }

  lemma StepFollows(s: State, p: nat)
    requires p < |s.procs| && NextOf(s, p).Next?
    ensures |NextOf(s, p).s.procs| == |s.procs| && Active(NextOf(s, p).s.procs[p])
    ensures Follows(|s.procs|, s.procs[p].pc, NextOf(s, p).s.procs[p].pc)
  {
  }

  lemma ProductDrops(a: nat, b: nat)
    requires a > 0
    ensures a * b == (a - 1) * b + b && (a - 1) * b >= 0
  {
  }

  lemma FollowsDrops(n: nat, pc: PC, to: PC)
    requires Bounded(n, pc) && Follows(n, pc, to)
    ensures 0 <= Rank(n, to) < Rank(n, pc)
  {
    match pc
    case Exit1(i) => if i < n { ProductDrops(n - i, n + 2); }
    case ExitWake(i, j) => ProductDrops(n - i, n + 2);
    case _ =>
  }

  /** Every step is one of the boundedly many. */
  lemma RankDrops(s: State, p: nat)
    requires Inv(s) && p < |s.procs| && NextOf(s, p).Next?
    ensures |NextOf(s, p).s.procs| == |s.procs| && Active(NextOf(s, p).s.procs[p])
    ensures 0 <= RankOf(NextOf(s, p).s, p) < RankOf(s, p)
  {
    hide Inv, NextOf, Rank, Follows, Bounded;
    InvBounded(s, p);
    StepFollows(s, p);
    FollowsDrops(|s.procs|, s.procs[p].pc, NextOf(s, p).s.procs[p].pc);
  }

  // ----- What a step needs -----

  /** The process lock that the next step of `p` takes. */
  function Wants(s: State, p: nat): Option<nat>
    requires p < |s.procs|
  {
    var n := |s.procs|;
    match s.procs[p].pc
    case Fork3(np) => Some(np)
    case ExitWake(_, j) => if j < n && j != p then Some(j) else None
    case ExitParent(j, _) => if j >= n then Some(p) else if j != p then Some(j) else None
    case Wait1(i, kids) =>
      if i < n then (if s.procs[i].parent == Some(p) then Some(i) else None)
      else if kids then Some(p) else None
    case _ => None
  }

  predicate WantsWait(pc: PC) {
    pc.Fork2? || pc.Sleep6?
  }

  /** With its locks free, a process inside a call can take its next step. */
  lemma Enabled(s: State, p: nat)
    requires Inv(s) && p < |s.procs| && Active(s.procs[p]) && !Settled(s.procs[p].pc)
    requires WantsWait(s.procs[p].pc) ==> s.waitLock == None
    requires Wants(s, p).Some? ==> Wants(s, p).value < |s.procs| ==> s.procs[Wants(s, p).value].lock == None
    ensures NextOf(s, p).Next?
  {
    assert Scanned(s, p) && ForkOk(s, p) && Agree(s, p) && Family(s, p);
  }

  lemma WantsInTable(s: State, p: nat)
    requires Inv(s) && p < |s.procs| && Wants(s, p).Some?
    ensures Wants(s, p).value < |s.procs| && s.procs[Wants(s, p).value].lock != Some(p)
    ensures !WantsWait(s.procs[p].pc) && !Settled(s.procs[p].pc)
  {
    assert Scanned(s, p) && ForkOk(s, p);
    var x := Wants(s, p).value;
    assert x < |s.procs|;
    assert Owns(s, p, x);
  }

  /** Whoever holds a process lock can go on. */
  lemma HolderEnabled(s: State, x: nat)
    requires Inv(s) && x < |s.procs| && s.procs[x].lock.Some?
    ensures s.procs[x].lock.value < |s.procs| && NextOf(s, s.procs[x].lock.value).Next?
  {
    assert Agree(s, x);
    var q := s.procs[x].lock.value;
    assert Owns(s, q, x) && Agree(s, q);
    Enabled(s, q);
  }

  // ----- Others are left alone -----

  predicate Going(c: Proc) {
    c.st == Running || c.st == Runnable
  }

  /** From `s` to `z` nothing has happened that matters to `p`. */
  ghost predicate Undisturbed(s: State, z: State, p: nat)
    requires p < |s.procs|
  {
    && |z.procs| == |s.procs| && z.procs[p].pc == s.procs[p].pc
    && (Going(s.procs[p]) ==> z.procs[p].st == s.procs[p].st)
    && (HoldsWait(s.procs[p].pc) ==>
          z.waitLock == s.waitLock && forall c :: 0 <= c < |s.procs| ==> z.procs[c].parent == s.procs[c].parent)
  }

  /** A step of another process, which holds some process lock. */
  lemma HolderStep(s: State, q: nat, x: nat, p: nat)
    requires Inv(s) && q < |s.procs| && x < |s.procs| && p < |s.procs| && p != q && s.procs[x].lock == Some(q)
    requires NextOf(s, q).Next? && Going(s.procs[p])
    ensures Undisturbed(s, NextOf(s, q).s, p)
  {
    assert Owns(s, q, x) && Agree(s, q) && OwnsWait(s, p) && OwnsWait(s, q);
    assert ForkOk(s, q) && Scanned(s, q);
  }

  /** The lock is released or kept. */
  lemma HolderKeeps(s: State, q: nat, x: nat)
    requires Inv(s) && q < |s.procs| && x < |s.procs| && s.procs[x].lock == Some(q) && NextOf(s, q).Next?
    ensures |NextOf(s, q).s.procs| == |s.procs|
    ensures NextOf(s, q).s.procs[x].lock in [None, Some(q)]
  {
    assert Owns(s, q, x) && Agree(s, q);
  }

  /** A step of another process, whatever it is. */
  lemma OtherStep(s: State, q: nat, p: nat)
    requires Inv(s) && q < |s.procs| && p < |s.procs| && p != q && NextOf(s, q).Next? && s.procs[p].st == Running
    ensures |NextOf(s, q).s.procs| == |s.procs| && NextOf(s, q).s.procs[p].pc == s.procs[p].pc
    ensures NextOf(s, q).s.procs[p].st == Running
  {
    assert ForkOk(s, q);
  }

  // ----- Runs -----

  predicate Leads(s: State, es: seq<Event>, z: State) {
    Run(s, es) == Next(z)
  }

  lemma LeadsSelf(s: State)
    ensures Leads(s, [], s)
  {
  }

  lemma LeadsStep(s: State, q: nat, es: seq<Event>, z: State)
    requires q < |s.procs| && NextOf(s, q).Next? && Leads(NextOf(s, q).s, es, z)
    ensures Leads(s, [Go(q)] + es, z)
  {
    RunFrom(s, Go(q), es);
  }

  lemma LeadsBoth(s: State, es: seq<Event>, t: State, fs: seq<Event>, z: State)
    requires Leads(s, es, t) && Leads(t, fs, z)
    ensures Leads(s, es + fs, z)
  {
    RunBoth(s, es, fs);
  }

  lemma GoInv(s: State, q: nat)
    requires Inv(s) && q < |s.procs| && NextOf(s, q).Next?
    ensures Inv(NextOf(s, q).s)
  {
    StepKeeps(s, Go(q));
  }

  lemma UndisturbedBoth(s: State, t: State, z: State, p: nat)
    requires p < |s.procs| && Going(s.procs[p]) && Undisturbed(s, t, p) && Undisturbed(t, z, p)
    ensures Undisturbed(s, z, p)
  {
  }

  function HolderRank(s: State, x: nat): int
    requires x < |s.procs|
  {
    if s.procs[x].lock.Some? && s.procs[x].lock.value < |s.procs| then RankOf(s, s.procs[x].lock.value) else 0
  }

  /** Every process lock comes free by the steps of its holder, which disturb nobody who runs or could. */
  lemma {:induction false} LockComesFree(s: State, x: nat) returns (es: seq<Event>, z: State)
    requires Inv(s) && x < |s.procs|
    ensures Leads(s, es, z) && Inv(z) && |z.procs| == |s.procs| && z.procs[x].lock == None
    ensures forall p: nat :: p < |s.procs| && Going(s.procs[p]) && s.procs[x].lock != Some(p) ==>
              Undisturbed(s, z, p)
    decreases HolderRank(s, x)
  {
    hide Inv, NextOf, Rank, Leads, HoldsWait;
    if s.procs[x].lock == None {
      LeadsSelf(s);
      return [], s;
    }
    HolderEnabled(s, x);
    var q := s.procs[x].lock.value;
    var s1 := NextOf(s, q).s;
    GoInv(s, q);
    RankDrops(s, q);
    HolderKeeps(s, q, x);
    var fs;
    fs, z := LockComesFree(s1, x);
    es := [Go(q)] + fs;
    LeadsStep(s, q, fs, z);
    forall p: nat | p < |s.procs| && Going(s.procs[p]) && p != q ensures Undisturbed(s, z, p) {
      HolderStep(s, q, x, p);
      UndisturbedBoth(s, s1, z, p);
    }
  }

  /** With the lock it wants made free, a process that waits for no wait_lock can go on. */
  lemma LockThenStep(s: State, p: nat) returns (es: seq<Event>, z: State)
    requires Inv(s) && p < |s.procs| && Active(s.procs[p]) && !Settled(s.procs[p].pc) && !WantsWait(s.procs[p].pc)
    ensures Leads(s, es, z) && Inv(z) && |z.procs| == |s.procs| && NextOf(z, p).Next?
    ensures z.procs[p].pc == s.procs[p].pc && (HoldsWait(s.procs[p].pc) ==> z.waitLock == s.waitLock)
    ensures forall r: nat :: r < |s.procs| && s.procs[r].st == Running && LockFree(s.procs[r].pc) ==>
              Undisturbed(s, z, r)
  {
    if Wants(s, p).Some? {
      WantsInTable(s, p);
      var x := Wants(s, p).value;
      WaiterRuns(s, p);
      NoLockHeld(s, x);
      es, z := LockComesFree(s, x);
      assert Undisturbed(s, z, p);
      Enabled(z, p);
    } else {
      LeadsSelf(s);
      es, z := [], s;
      Enabled(s, p);
    }
  }

  lemma WaiterRuns(s: State, p: nat)
    requires p < |s.procs| && Active(s.procs[p]) && Wants(s, p).Some?
    ensures s.procs[p].st == Running
  {
  }

  lemma NoLockHeld(s: State, x: nat)
    requires Inv(s) && x < |s.procs|
    ensures forall r: nat :: r < |s.procs| && LockFree(s.procs[r].pc) ==> s.procs[x].lock != Some(r)
  {
    forall r: nat | r < |s.procs| && LockFree(s.procs[r].pc) ensures s.procs[x].lock != Some(r) {
      assert Owns(s, r, x);
    }
  }

  lemma WaitHolder(s: State)
    requires Inv(s) && s.waitLock.Some?
    ensures s.waitLock.value < |s.procs| && HoldsWait(s.procs[s.waitLock.value].pc)
    ensures Active(s.procs[s.waitLock.value])
  {
    var q := s.waitLock.value;
    assert OwnsWait(s, q) && Agree(s, q);
  }

  /** wait_lock stays with its holder or is released. */
  lemma WaitStep(s: State, q: nat)
    requires q < |s.procs| && s.waitLock == Some(q) && NextOf(s, q).Next?
    ensures NextOf(s, q).s.waitLock in [None, Some(q)]
  {
  }

  function WaitRank(s: State): int {
    if s.waitLock.Some? && s.waitLock.value < |s.procs| then RankOf(s, s.waitLock.value) else 0
  }

  /** wait_lock comes free by the steps of its holder and of those who hold a lock that it wants; a running
      process without locks stays where it is. */
  lemma {:induction false} WaitComesFree(s: State, p: nat) returns (es: seq<Event>, z: State)
    requires Inv(s) && p < |s.procs| && s.procs[p].st == Running && LockFree(s.procs[p].pc)
    ensures Leads(s, es, z) && Inv(z) && |z.procs| == |s.procs| && z.waitLock == None
    ensures z.procs[p].st == Running && z.procs[p].pc == s.procs[p].pc
    decreases WaitRank(s)
  {
    hide Inv, NextOf, Rank, Leads;
    if s.waitLock == None {
      LeadsSelf(s);
      return [], s;
    }
    WaitHolder(s);
    var q := s.waitLock.value;
    var ds, t := LockThenStep(s, q);
    assert Undisturbed(s, t, p);
    var u := NextOf(t, q).s;
    GoInv(t, q);
    RankDrops(t, q);
    WaitStep(t, q);
    OtherStep(t, q, p);
    var bs;
    bs, z := WaitComesFree(u, p);
    LeadsStep(t, q, bs, z);
    LeadsBoth(s, ds, t, [Go(q)] + bs, z);
    es := ds + ([Go(q)] + bs);
  }

  /** What a process needs for its next step can be had. */
  lemma ReadyToStep(s: State, p: nat) returns (es: seq<Event>, z: State)
    requires Inv(s) && p < |s.procs| && Active(s.procs[p]) && !Settled(s.procs[p].pc)
    ensures Leads(s, es, z) && Inv(z) && |z.procs| == |s.procs| && NextOf(z, p).Next?
    ensures z.procs[p].pc == s.procs[p].pc
  {
    hide Inv, NextOf, Leads;
    if WantsWait(s.procs[p].pc) {
      es, z := WaitComesFree(s, p);
      Enabled(z, p);
    } else {
      es, z := LockThenStep(s, p);
    }
  }

  /** From every state that a run can reach, every process inside a call can be brought to its end, where it is
      outside, asleep in wait, or gone. */
  lemma {:induction false} Finishes(s: State, p: nat) returns (es: seq<Event>, z: State)
    requires Inv(s) && p < |s.procs| && Active(s.procs[p])
    ensures Leads(s, es, z) && Inv(z) && |z.procs| == |s.procs| && Settled(z.procs[p].pc)
    decreases RankOf(s, p)
  {
    hide Inv, NextOf, Rank, Leads;
    if Settled(s.procs[p].pc) {
      LeadsSelf(s);
      return [], s;
    }
    var ds, t := ReadyToStep(s, p);
    var u := NextOf(t, p).s;
    GoInv(t, p);
    RankDrops(t, p);
    var bs;
    bs, z := Finishes(u, p);
    LeadsStep(t, p, bs, z);
    LeadsBoth(s, ds, t, [Go(p)] + bs, z);
    es := ds + ([Go(p)] + bs);
  }

  /** A runnable process holds no lock. */
  lemma RunnableFree(s: State, p: nat)
    requires Inv(s) && p < |s.procs| && s.procs[p].st == Runnable
    ensures s.procs[p].lock != Some(p)
  {
    assert Agree(s, p) && Owns(s, p, p);
  }

  lemma DispatchStep(s: State, p: nat)
    requires Inv(s) && p < |s.procs| && s.procs[p].st == Runnable && s.procs[p].lock == None
    ensures Step(s, Dispatch(p)).Next? && Inv(Step(s, Dispatch(p)).s)
    ensures |Step(s, Dispatch(p)).s.procs| == |s.procs| && Step(s, Dispatch(p)).s.procs[p].st == Running
  {
    StepKeeps(s, Dispatch(p));
  }

  /** A runnable process can be given a processor. */
  lemma GetsToRun(s: State, p: nat) returns (es: seq<Event>, z: State)
    requires Inv(s) && p < |s.procs| && s.procs[p].st == Runnable
    ensures Leads(s, es, z) && Inv(z) && |z.procs| == |s.procs| && z.procs[p].st == Running
  {
    hide Inv, Step, Run;
    RunnableFree(s, p);
    var ds, t := LockComesFree(s, p);
    assert Undisturbed(s, t, p);
    DispatchStep(t, p);
    z := Step(t, Dispatch(p)).s;
    RunFrom(t, Dispatch(p), []);
    LeadsSelf(z);
    assert [Dispatch(p)] + [] == [Dispatch(p)];
    LeadsBoth(s, ds, t, [Dispatch(p)], z);
    es := ds + [Dispatch(p)];
  }

  /** After any run from boot: whoever runs or is ready to run, wherever in a call, has a run before it that ends
      the call or puts it to sleep in wait. */
  lemma NobodyStuck(s0: State, es: seq<Event>, p: nat) returns (fs: seq<Event>)
    requires Booted(s0) && Run(s0, es).Next? && p < |Run(s0, es).s.procs| && Going(Run(s0, es).s.procs[p])
    ensures Run(s0, es + fs).Next? && |Run(s0, es + fs).s.procs| == |Run(s0, es).s.procs|
    ensures Settled(Run(s0, es + fs).s.procs[p].pc)
  {
    hide Run, Inv, Booted, Rank;
    RunKeeps(s0, es);
    var s := Run(s0, es).s;
    var ds, t := [], s;
    LeadsSelf(s);
    if s.procs[p].st == Runnable { ds, t := GetsToRun(s, p); }
    var bs, z := Finishes(t, p);
    LeadsBoth(s, ds, t, bs, z);
    fs := ds + bs;
    RunBoth(s0, es, fs);
  }
}
