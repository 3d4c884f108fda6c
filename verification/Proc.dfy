/** fork, exit, wait, sleep and wakeup of kernel/proc.c as a machine of lock-protected steps.

    Every process has a program counter. A step is what one process does between two lock
    operations, so steps of different processes interleave freely: an acquire waits until the lock is
    free, and table scans go one entry at a time. `waitLock` is wait_lock, `lock` is p->lock. */
module Proc {
  import opened Wrappers

  datatype PState = Unused | Used | Sleeping | Runnable | Running | Zombie

  /** A wait channel: a process (only wait sleeps on those) or anything else. */
  datatype Chan = NoChan | On(p: nat) | Other

  datatype PC =
    | User                            // anywhere outside the code below
    | Fork1(np: nat)                  // allocproc returned np, np->lock held
    | Fork2(np: nat)                  // np->lock released
    | Fork3(np: nat)                  // np->parent set
    | Exit1(i: nat)                   // reparent, at table entry i
    | ExitWake(i: nat, j: nat)        // wakeup(initproc) inside reparent, at entry j
    | ExitParent(j: nat, q: nat)      // wakeup(p->parent), at entry j
    | Dead                            // ZOMBIE, own lock held, about to switch away
    | Gone                            // switched away for good
    | Wait1(i: nat, kids: bool)       // scanning for exited children, at entry i
    | Wait2(i: nat)                   // entry i is a child, its lock held
    | Sleep1                          // sleep(p, &wait_lock): own lock taken
    | Sleep2                          // wait_lock released
    | Sleep3                          // SLEEPING
    | Sleep4                          // switched away
    | Sleep5                          // switched back, own lock held
    | Sleep6                          // own lock released, wants wait_lock again

  datatype Proc = Proc(st: PState, chan: Chan, parent: Option<nat>, lock: Option<nat>, pc: PC, pid: nat)

  datatype State = State(procs: seq<Proc>, ini: nat, waitLock: Option<nat>, nextPid: nat, reaped: seq<nat>)

  datatype Event =
    | StartFork(p: nat, np: nat)
    | ForkFails(p: nat)
    | StartExit(p: nat)
    | StartWait(p: nat)
    | GiveUp(p: nat)          // wait returns -1: copyout failed, or the process was killed
    | Go(p: nat)              // p's next step
    | Yield(p: nat)           // p is preempted
    | Dispatch(p: nat)        // the scheduler runs p
    | SleepOther(p: nat)      // p sleeps on some other channel
    | WakeOther(p: nat)       // somebody wakes p from it
    | Kill(p: nat)            // somebody kills p

  datatype Outcome = Blocked | Next(s: State)

  /** Which process lock `x` the code at `pc` of process `p` holds. */
  predicate Holds(pc: PC, p: nat, x: nat) {
    match pc
    case Fork1(np) => x == np
    case Wait2(i) => x == i
    case Sleep1 => x == p
    case Sleep2 => x == p
    case Sleep3 => x == p
    case Sleep5 => x == p
    case Dead => x == p
    case _ => false
  }

  predicate HoldsWait(pc: PC) {
    pc.Exit1? || pc.ExitWake? || pc.ExitParent? || pc.Wait1? || pc.Wait2? || pc.Sleep1?
  }

  /** Code that holds no lock, where a process may be preempted. */
  predicate LockFree(pc: PC) {
    pc.User? || pc.Fork2? || pc.Fork3? || pc.Sleep6?
  }

  function Set(s: State, p: nat, q: Proc): State
    requires p < |s.procs|
  {
    s.(procs := s.procs[p := q])
  }

  function GoTo(s: State, p: nat, pc: PC): State
    requires p < |s.procs|
  {
    Set(s, p, s.procs[p].(pc := pc))
  }

  /** wakeup's visit to entry `j`: p->lock is taken and released around it. */
  function Woken(s: State, j: nat, q: nat): State
    requires j < |s.procs|
  {
    var c := s.procs[j];
    if c.st == Sleeping && c.chan == On(q) then Set(s, j, c.(st := Runnable)) else s
  }

  /** freeproc */
  function Freed(c: Proc): Proc {
    Proc(Unused, NoChan, None, c.lock, User, 0)
  }

  predicate CanRun(s: State, p: nat) {
    p < |s.procs| && s.procs[p].st == Running
  }

  function Step(s: State, e: Event): Outcome {
    match e
    case StartFork(p, np) =>
      if CanRun(s, p) && s.procs[p].pc == User && np < |s.procs| && s.procs[np].st == Unused && s.procs[np].lock == None
      then Next(GoTo(Set(s, np, Proc(Used, NoChan, None, Some(p), User, s.nextPid)), p, Fork1(np))
                .(nextPid := s.nextPid + 1))
      else Blocked
    case ForkFails(p) =>
      if CanRun(s, p) && s.procs[p].pc.Fork1? && s.procs[p].pc.np < |s.procs| && s.procs[p].pc.np != p
      then var np := s.procs[p].pc.np; Next(GoTo(Set(s, np, Freed(s.procs[np]).(lock := None)), p, User))
      else Blocked
    case StartExit(p) =>
      if CanRun(s, p) && s.procs[p].pc == User && p != s.ini && s.waitLock == None
      then Next(GoTo(s, p, Exit1(0)).(waitLock := Some(p))) else Blocked
    case StartWait(p) =>
      if CanRun(s, p) && s.procs[p].pc == User && s.waitLock == None
      then Next(GoTo(s, p, Wait1(0, false)).(waitLock := Some(p))) else Blocked
    case GiveUp(p) =>
      if !CanRun(s, p) then Blocked
      else
        (match s.procs[p].pc
         case Wait2(i) =>
           if i < |s.procs| && i != p && s.procs[i].st == Zombie
           then Next(GoTo(Set(s, i, s.procs[i].(lock := None)), p, User).(waitLock := None)) else Blocked
         case Wait1(i, kids) =>
           if i == |s.procs| then Next(GoTo(s, p, User).(waitLock := None)) else Blocked
         case _ => Blocked)
    case Go(p) => if p < |s.procs| then NextOf(s, p) else Blocked
    case Yield(p) =>
      if CanRun(s, p) && LockFree(s.procs[p].pc) && s.procs[p].lock == None
      then Next(Set(s, p, s.procs[p].(st := Runnable))) else Blocked
    case Dispatch(p) =>
      if p < |s.procs| && s.procs[p].st == Runnable && s.procs[p].lock == None then
        if s.procs[p].pc == Sleep4 then Next(Set(s, p, s.procs[p].(st := Running, lock := Some(p), pc := Sleep5)))
        else Next(Set(s, p, s.procs[p].(st := Running)))
      else Blocked
    case SleepOther(p) =>
      if CanRun(s, p) && s.procs[p].pc == User && s.procs[p].lock == None
      then Next(Set(s, p, s.procs[p].(st := Sleeping, chan := Other))) else Blocked
    case WakeOther(p) =>
      if p < |s.procs| && s.procs[p].st == Sleeping && s.procs[p].chan == Other && s.procs[p].lock == None
      then Next(Set(s, p, s.procs[p].(st := Runnable))) else Blocked
    case Kill(p) =>
      if p < |s.procs| && s.procs[p].lock == None
      then Next(if s.procs[p].st == Sleeping then Set(s, p, s.procs[p].(st := Runnable)) else s) else Blocked
  }

  /** The next step of process `p`, by its program counter. */
  function NextOf(s: State, p: nat): Outcome
    requires p < |s.procs|
  {
    var c := s.procs[p];
    var n := |s.procs|;
    if c.pc == Sleep3 then Next(Set(s, p, c.(lock := None, pc := Sleep4)))
    else if c.pc == Dead then Next(Set(s, p, c.(lock := None, pc := Gone)))
    else if c.st != Running then Blocked
    else
      match c.pc
      case Fork1(np) =>
        if np < n && np != p then Next(GoTo(Set(s, np, s.procs[np].(lock := None)), p, Fork2(np))) else Blocked
      case Fork2(np) =>
        if np < n && np != p && s.waitLock == None
        then Next(GoTo(Set(s, np, s.procs[np].(parent := Some(p))), p, Fork3(np))) else Blocked
      case Fork3(np) =>
        if np < n && np != p && s.procs[np].lock == None
        then Next(GoTo(Set(s, np, s.procs[np].(st := Runnable)), p, User)) else Blocked
      case Exit1(i) =>
        if i < n then
          if s.procs[i].parent == Some(p)
          then Next(GoTo(Set(s, i, s.procs[i].(parent := Some(s.ini))), p, ExitWake(i, 0)))
          else Next(GoTo(s, p, Exit1(i + 1)))
        else if c.parent.Some? then Next(GoTo(s, p, ExitParent(0, c.parent.value)))
        else Blocked
      case ExitWake(i, j) =>
        if j < n then
          if j == p then Next(GoTo(s, p, ExitWake(i, j + 1)))
          else if s.procs[j].lock == None then Next(GoTo(Woken(s, j, s.ini), p, ExitWake(i, j + 1)))
          else Blocked
        else Next(GoTo(s, p, Exit1(i + 1)))
      case ExitParent(j, q) =>
        if j < n then
          if j == p then Next(GoTo(s, p, ExitParent(j + 1, q)))
          else if s.procs[j].lock == None then Next(GoTo(Woken(s, j, q), p, ExitParent(j + 1, q)))
          else Blocked
        else if c.lock == None then Next(Set(s, p, c.(st := Zombie, lock := Some(p), pc := Dead)).(waitLock := None))
        else Blocked
      case Wait1(i, kids) =>
        if i < n then
          if s.procs[i].parent != Some(p) then Next(GoTo(s, p, Wait1(i + 1, kids)))
          else if s.procs[i].lock == None then Next(GoTo(Set(s, i, s.procs[i].(lock := Some(p))), p, Wait2(i)))
          else Blocked
        else if !kids then Next(GoTo(s, p, User).(waitLock := None))
        else if c.lock == None then Next(Set(s, p, c.(lock := Some(p), pc := Sleep1)))
        else Blocked
      case Wait2(i) =>
        if i < n && i != p then
          if s.procs[i].st == Zombie
          then Next(GoTo(Set(s, i, Freed(s.procs[i]).(lock := None)), p, User)
                    .(waitLock := None, reaped := s.reaped + [s.procs[i].pid]))
          else Next(GoTo(Set(s, i, s.procs[i].(lock := None)), p, Wait1(i + 1, true)))
        else Blocked
      case Sleep1 => Next(GoTo(s, p, Sleep2).(waitLock := None))
      case Sleep2 => Next(Set(s, p, c.(st := Sleeping, chan := On(p), pc := Sleep3)))
      case Sleep5 => Next(Set(s, p, c.(chan := NoChan, lock := None, pc := Sleep6)))
      case Sleep6 => if s.waitLock == None then Next(GoTo(s, p, Wait1(0, false)).(waitLock := Some(p))) else Blocked
      case _ => Blocked
  }

  // ----- The invariant -----

  predicate Alive(st: PState) {
    st == Sleeping || st == Runnable || st == Running
  }

  /** Lock `x` is held by process `p` exactly when p's code holds it. */
  predicate Owns(s: State, p: nat, x: nat)
    requires p < |s.procs| && x < |s.procs|
  {
    s.procs[x].lock == Some(p) <==> Holds(s.procs[p].pc, p, x)
  }

  predicate OwnsWait(s: State, p: nat)
    requires p < |s.procs|
  {
    s.waitLock == Some(p) <==> HoldsWait(s.procs[p].pc)
  }

  /** State, channel and program counter of one process agree. */
  predicate Coherent(n: nat, ini: nat, p: nat, c: Proc) {
    && (c.lock.Some? ==> c.lock.value < n)
    && (c.st == Unused || c.st == Used ==> c.pc == User)
    && (c.st == Unused ==> c.parent == None)
    && (c.st == Zombie <==> c.pc == Dead || c.pc == Gone)
    && (c.st == Runnable ==> LockFree(c.pc) || c.pc == Sleep4)
    && (c.st == Running ==> c.pc != Sleep3 && c.pc != Sleep4)
    && (c.st == Sleeping ==> if c.chan == Other then c.pc == User else c.pc == Sleep3 || c.pc == Sleep4)
    && (c.pc == Sleep3 || c.pc == Sleep4 ==> c.chan == On(p))
    && (c.chan.On? ==> c.chan == On(p) && (c.pc == Sleep3 || c.pc == Sleep4 || c.pc == Sleep5))
    && (c.pc.Exit1? || c.pc.ExitWake? || c.pc.ExitParent? ==> p != ini)
  }

  predicate Agree(s: State, p: nat)
    requires p < |s.procs|
  {
    Coherent(|s.procs|, s.ini, p, s.procs[p])
  }

  /** Parents: a live or dead process other than init has a live parent, and nobody else's. */
  predicate Family(s: State, c: nat)
    requires c < |s.procs|
  {
    var x := s.procs[c];
    && (c == s.ini ==> Alive(x.st) && x.parent == None)
    && ((Alive(x.st) || x.st == Zombie) && c != s.ini ==> x.parent.Some?)
    && (x.parent.Some? ==> var q := x.parent.value; q < |s.procs| && q != c && Alive(s.procs[q].st))
    && (x.parent.Some? && x.st == Used ==> s.procs[x.parent.value].pc == Fork3(c))
  }

  /** A slot being forked is Used and not yet anybody's, or the forker's. */
  predicate ForkOk(s: State, p: nat)
    requires p < |s.procs|
  {
    match s.procs[p].pc
    case Fork1(np) => np < |s.procs| && np != p && s.procs[np].st == Used && s.procs[np].parent == None
    case Fork2(np) => np < |s.procs| && np != p && s.procs[np].st == Used && s.procs[np].parent == None
    case Fork3(np) => np < |s.procs| && np != p && s.procs[np].st == Used && s.procs[np].parent == Some(p)
    case _ => true
  }

  function Forking(pc: PC): Option<nat> {
    match pc
    case Fork1(np) => Some(np)
    case Fork2(np) => Some(np)
    case Fork3(np) => Some(np)
    case _ => None
  }

  predicate ForkApart(s: State, p: nat, q: nat)
    requires p < |s.procs| && q < |s.procs|
  {
    Forking(s.procs[p].pc).Some? && Forking(s.procs[p].pc) == Forking(s.procs[q].pc) ==> p == q
  }

  predicate ChildOf(s: State, p: nat, c: nat)
    requires c < |s.procs|
  {
    s.procs[c].parent == Some(p)
  }

  predicate ZombieChild(s: State, p: nat, c: nat)
    requires c < |s.procs|
  {
    ChildOf(s, p, c) && s.procs[c].st == Zombie
  }

  /** No child of `p` among the first `i` entries has exited. */
  ghost predicate NoZombieBefore(s: State, p: nat, i: nat) {
    forall c: nat {:trigger ZombieChild(s, p, c)} :: c < i && c < |s.procs| ==> !ZombieChild(s, p, c)
  }

  ghost predicate HasChild(s: State, p: nat) {
    exists c: nat :: c < |s.procs| && ChildOf(s, p, c)
  }

  /** No entry below `i` has parent `p`. */
  ghost predicate NoChildBefore(s: State, p: nat, i: nat) {
    forall c: nat {:trigger ChildOf(s, p, c)} :: c < i && c < |s.procs| ==> !ChildOf(s, p, c)
  }

  /** Process `q` has let go of wait_lock to sleep in wait, and nobody has woken it. */
  predicate Dozes(c: Proc) {
    c.pc == Sleep2 || c.pc == Sleep3 || (c.pc == Sleep4 && c.st == Sleeping)
  }

  predicate Dozing(s: State, q: nat)
    requires q < |s.procs|
  {
    Dozes(s.procs[q])
  }

  /** Somebody inside exit has handed a child to init and has not yet come to init in waking it. */
  predicate InitWakeDue(s: State) {
    && s.waitLock.Some? && s.waitLock.value < |s.procs|
    && var pc := s.procs[s.waitLock.value].pc;
       pc.ExitWake? && pc.j <= s.ini
  }

  /** What a scan in progress has established so far. */
  ghost predicate Scanned(s: State, p: nat)
    requires p < |s.procs|
  {
    match s.procs[p].pc
    case Exit1(i) => i <= |s.procs| && NoChildBefore(s, p, i)
    case ExitWake(i, j) =>
      && i < |s.procs| && j <= |s.procs| && NoChildBefore(s, p, i + 1)
      && (j > s.ini ==> s.ini < |s.procs| && !Dozing(s, s.ini))
    case ExitParent(j, q) =>
      && j <= |s.procs| && NoChildBefore(s, p, |s.procs|) && s.procs[p].parent == Some(q)
      && (j > q ==> q < |s.procs| && !Dozing(s, q))
    case Dead => NoChildBefore(s, p, |s.procs|)
    case Gone => NoChildBefore(s, p, |s.procs|)
    case Wait1(i, kids) =>
      && i <= |s.procs| && NoZombieBefore(s, p, i)
      && (if kids then HasChild(s, p) else NoChildBefore(s, p, i))
    case Wait2(i) => i < |s.procs| && i != p && ChildOf(s, p, i) && NoZombieBefore(s, p, i)
    case Sleep1 => NoZombieBefore(s, p, |s.procs|) && HasChild(s, p)
    case _ => true
  }

  /** A dozing process has a child to wait for, and none that has already exited, unless a wakeup of
      init is still due. */
  ghost predicate Safe(s: State, q: nat)
    requires q < |s.procs|
  {
    Dozing(s, q) ==>
      HasChild(s, q) && (NoZombieBefore(s, q, |s.procs|) || (q == s.ini && InitWakeDue(s)))
  }

  /** Process identifiers: those in use differ, and none has been reaped. */
  predicate PidsOk(s: State) {
    && (forall i :: 0 <= i < |s.reaped| ==> s.reaped[i] < s.nextPid)
    && (forall i, j :: 0 <= i < j < |s.reaped| ==> s.reaped[i] != s.reaped[j])
    && (forall p :: 0 <= p < |s.procs| && s.procs[p].st != Unused ==>
        s.procs[p].pid < s.nextPid && s.procs[p].pid !in s.reaped)
    && (forall p, q :: 0 <= p < q < |s.procs| && s.procs[p].st != Unused && s.procs[q].st != Unused ==>
        s.procs[p].pid != s.procs[q].pid)
  }

  /** What holds of any one or two entries. */
  ghost predicate TableOk(s: State) {
    && s.ini < |s.procs|
    && (s.waitLock.Some? ==> s.waitLock.value < |s.procs|)
    && (forall p: nat, x: nat {:trigger Owns(s, p, x)} :: p < |s.procs| && x < |s.procs| ==> Owns(s, p, x))
    && (forall p: nat {:trigger OwnsWait(s, p)} :: p < |s.procs| ==> OwnsWait(s, p))
    && (forall p: nat {:trigger Agree(s, p)} :: p < |s.procs| ==> Agree(s, p))
    && (forall p: nat {:trigger Family(s, p)} :: p < |s.procs| ==> Family(s, p))
    && (forall p: nat {:trigger ForkOk(s, p)} :: p < |s.procs| ==> ForkOk(s, p))
    && (forall p: nat, q: nat {:trigger ForkApart(s, p, q)} :: p < |s.procs| && q < |s.procs| ==> ForkApart(s, p, q))
  }

  /** What holds of scans and sleepers. */
  ghost predicate ScansOk(s: State) {
    && (forall p: nat {:trigger Scanned(s, p)} :: p < |s.procs| ==> Scanned(s, p))
    && (forall p: nat {:trigger Safe(s, p)} :: p < |s.procs| ==> Safe(s, p))
  }

  ghost predicate Inv(s: State) {
    TableOk(s) && ScansOk(s) && PidsOk(s)
  }

  // ----- Steps that change nobody's parent and make or free no zombie -----

  predicate SameKin(s: State, s': State) {
    && |s'.procs| == |s.procs| && s'.ini == s.ini
    && forall c :: 0 <= c < |s.procs| ==>
        s'.procs[c].parent == s.procs[c].parent && (s'.procs[c].st == Zombie <==> s.procs[c].st == Zombie)
  }

  lemma KinKeeps(s: State, s': State, p: nat, i: nat)
    requires SameKin(s, s')
    ensures NoZombieBefore(s, p, i) <==> NoZombieBefore(s', p, i)
    ensures NoChildBefore(s, p, i) <==> NoChildBefore(s', p, i)
    ensures HasChild(s, p) <==> HasChild(s', p)
  {
    assert forall c: nat :: c < |s.procs| ==> ZombieChild(s, p, c) == ZombieChild(s', p, c);
    assert forall c: nat :: c < |s.procs| ==> ChildOf(s, p, c) == ChildOf(s', p, c);
  }

  /** What a step of process `a` that also touches entry `b` (or b == a) makes of the state. */
  function Changed(s: State, a: nat, ca: Proc, b: nat, cb: Proc, w: Option<nat>): State
    requires a < |s.procs| && b < |s.procs|
  {
    s.(procs := s.procs[b := cb][a := ca], waitLock := w)
  }

  /** Process `a` may take a free lock or release its own, and nothing else. */
  predicate LockStep(a: nat, was: Option<nat>, now: Option<nat>) {
    now == was || ((was == None || was == Some(a)) && (now == None || now == Some(a)))
  }

  /** Code that holds some lock. */
  predicate Lockful(pc: PC) {
    HoldsWait(pc) || pc.Fork1? || pc.Sleep2? || pc.Sleep3? || pc.Sleep5? || pc.Dead?
  }

  predicate HeldElsewhere(pc: PC, a: nat, b: nat) {
    (pc.Fork1? && pc.np != a && pc.np != b) || (pc.Wait2? && pc.i != a && pc.i != b)
  }

  /** Locks, as one step may change them: entry `a` goes from oa to ca, entry `b` from ob to cb,
      wait_lock from w0 to w. */
  predicate LocksMove(a: nat, oa: Proc, ca: Proc, b: nat, ob: Proc, cb: Proc, w0: Option<nat>, w: Option<nat>) {
    && LockStep(a, oa.lock, ca.lock) && LockStep(a, ob.lock, cb.lock) && LockStep(a, w0, w)
    && (ca.lock == Some(a) <==> Holds(ca.pc, a, a))
    && (b != a ==> (cb.lock == Some(a) <==> Holds(ca.pc, a, b)))
    && (b != a ==> cb.pc == ob.pc || (!Lockful(cb.pc) && !Lockful(ob.pc)))
    && (w == Some(a) <==> HoldsWait(ca.pc))
    && (HeldElsewhere(ca.pc, a, b) || HeldElsewhere(oa.pc, a, b) ==> ca.pc == oa.pc)
  }

  lemma OwnsChange(s: State, a: nat, ca: Proc, b: nat, cb: Proc, w: Option<nat>, p: nat, x: nat)
    requires a < |s.procs| && b < |s.procs| && p < |s.procs| && x < |s.procs|
    requires LocksMove(a, s.procs[a], ca, b, s.procs[b], cb, s.waitLock, w)
    requires Owns(s, p, x) && OwnsWait(s, p)
    ensures Owns(Changed(s, a, ca, b, cb, w), p, x) && OwnsWait(Changed(s, a, ca, b, cb, w), p)
  {
  }

  /** Slots and forks, as one step may change them. */
  predicate ForksMove(a: nat, oa: Proc, ca: Proc, b: nat, ob: Proc, cb: Proc) {
    && oa.st != Used && ca.st != Used
    && (b != a ==> ob.st == Used ==> (cb.st == Used && cb.parent == ob.parent) || Forking(oa.pc) == Some(b))
    && (b != a ==> Forking(cb.pc) == Forking(ob.pc) || Forking(cb.pc) == None)
    && match ca.pc
       case Fork1(np) =>
         np == b && b != a && cb.st == Used && cb.parent == None && (ob.st == Unused || Forking(oa.pc) == Some(b))
       case Fork2(np) =>
         || (ca.pc == oa.pc && b == a)
         || (np == b && b != a && cb.st == Used && cb.parent == None && Forking(oa.pc) == Some(b))
       case Fork3(np) =>
         || (ca.pc == oa.pc && b == a)
         || (np == b && b != a && cb.st == Used && cb.parent == Some(a) && Forking(oa.pc) == Some(b))
       case _ => true
  }

  lemma ForkChange(s: State, a: nat, ca: Proc, b: nat, cb: Proc, w: Option<nat>, p: nat)
    requires TableOk(s) && a < |s.procs| && b < |s.procs| && p < |s.procs|
    requires ForksMove(a, s.procs[a], ca, b, s.procs[b], cb)
    requires (b != a ==> cb.pc == s.procs[b].pc || Forking(cb.pc) == None)
    ensures ForkOk(Changed(s, a, ca, b, cb, w), p)
  {
    assert ForkOk(s, p) && ForkApart(s, a, p);
    hide Owns, OwnsWait, Agree, Holds, Family, TableOk;
  }

  lemma ForkApartChange(s: State, a: nat, ca: Proc, b: nat, cb: Proc, w: Option<nat>, p: nat, q: nat)
    requires TableOk(s) && a < |s.procs| && b < |s.procs| && p < |s.procs| && q < |s.procs|
    requires ForksMove(a, s.procs[a], ca, b, s.procs[b], cb)
    ensures ForkApart(Changed(s, a, ca, b, cb, w), p, q)
  {
    assert ForkApart(s, p, q) && ForkOk(s, p) && ForkOk(s, q);
    hide Owns, OwnsWait, Agree, Holds, Family, TableOk;
  }

  /** The part of the table that does not depend on who is whose parent. */
  lemma TableChange(s: State, a: nat, ca: Proc, b: nat, cb: Proc, w: Option<nat>)
    requires TableOk(s) && a < |s.procs| && b < |s.procs|
    requires LocksMove(a, s.procs[a], ca, b, s.procs[b], cb, s.waitLock, w)
    requires ForksMove(a, s.procs[a], ca, b, s.procs[b], cb)
    requires b != a ==> cb.pc == s.procs[b].pc || Forking(cb.pc) == None
    requires Coherent(|s.procs|, s.ini, a, ca) && (b != a ==> Coherent(|s.procs|, s.ini, b, cb))
    requires forall p: nat :: p < |s.procs| ==> Family(Changed(s, a, ca, b, cb, w), p)
    ensures TableOk(Changed(s, a, ca, b, cb, w))
  {
    assert w.Some? ==> w.value < |s.procs|;
    hide LocksMove, ForksMove, Holds, HoldsWait, Family, ForkOk, ForkApart, Owns, OwnsWait, Coherent;
    var s' := Changed(s, a, ca, b, cb, w);
    var n := |s.procs|;
    forall p: nat, x: nat | p < n && x < n ensures Owns(s', p, x) {
      assert Owns(s, p, x) && OwnsWait(s, p);
      OwnsChange(s, a, ca, b, cb, w, p, x);
    }
    forall p: nat | p < n ensures OwnsWait(s', p) {
      assert Owns(s, p, p) && OwnsWait(s, p);
      OwnsChange(s, a, ca, b, cb, w, p, p);
    }
    forall p: nat | p < n ensures Agree(s', p) { assert Agree(s, p); }
    forall p: nat | p < n ensures ForkOk(s', p) { ForkChange(s, a, ca, b, cb, w, p); }
    forall p: nat, q: nat | p < n && q < n ensures ForkApart(s', p, q) { ForkApartChange(s, a, ca, b, cb, w, p, q); }
  }

  /** A step that leaves parents and zombies alone and wakes init when it must. */
  predicate QuietMove(n: nat, ini: nat, a: nat, oa: Proc, ca: Proc, b: nat, ob: Proc, cb: Proc, w0: Option<nat>,
                      w: Option<nat>) {
    && LocksMove(a, oa, ca, b, ob, cb, w0, w) && ForksMove(a, oa, ca, b, ob, cb)
    && Coherent(n, ini, a, ca) && (b != a ==> Coherent(n, ini, b, cb))
    && SameStanding(oa, ca) && (b != a ==> SameStanding(ob, cb) && cb.pc == ob.pc)
    && ForkEnds(oa, ca, a, b, cb)
    && (oa.pc != Sleep1 ==> (Dozes(ca) ==> Dozes(oa)))
    && (b != a ==> (Dozes(cb) ==> Dozes(ob)))
    && (oa.pc.ExitWake? && oa.pc.j <= ini ==>
        (w == Some(a) && ca.pc.ExitWake? && ca.pc.j <= ini) || (b == ini && b != a && !Dozes(cb)))
  }

  /** A fork that moves on from its last stage leaves its child runnable. */
  predicate ForkEnds(oa: Proc, ca: Proc, a: nat, b: nat, cb: Proc) {
    oa.pc.Fork3? && ca.pc != oa.pc ==> b == oa.pc.np && b != a && cb.st != Used
  }

  predicate SameStanding(o: Proc, c: Proc) {
    && c.parent == o.parent && (c.st == Zombie <==> o.st == Zombie)
    && (Alive(o.st) ==> Alive(c.st))
    && (Alive(c.st) ==> Alive(o.st) || c.parent.Some?)
    && (c.st == Used && c.parent.Some? ==> o.st == Used)
  }

  lemma QuietKin(s: State, a: nat, ca: Proc, b: nat, cb: Proc, w: Option<nat>)
    requires a < |s.procs| && b < |s.procs|
    requires SameStanding(s.procs[a], ca) && (b != a ==> SameStanding(s.procs[b], cb))
    ensures SameKin(s, Changed(s, a, ca, b, cb, w))
  {
  }

  lemma QuietFamily(s: State, a: nat, ca: Proc, b: nat, cb: Proc, w: Option<nat>, p: nat)
    requires TableOk(s) && a < |s.procs| && b < |s.procs| && p < |s.procs|
    requires SameStanding(s.procs[a], ca) && (b != a ==> SameStanding(s.procs[b], cb) && cb.pc == s.procs[b].pc)
    requires ForkEnds(s.procs[a], ca, a, b, cb)
    ensures Family(Changed(s, a, ca, b, cb, w), p)
  {
    assert Family(s, p);
    hide TableOk;
  }

  /** How far the scan at `pc` has come. */
  function ScanTo(pc: PC, n: nat): nat {
    match pc
    case Exit1(i) => i
    case ExitWake(i, _) => i + 1
    case Wait1(i, _) => i
    case Wait2(i) => i
    case _ => n
  }

  lemma DozeMono(s: State, a: nat, ca: Proc, b: nat, cb: Proc, w: Option<nat>)
    requires a < |s.procs| && b < |s.procs|
    requires s.procs[a].pc != Sleep1 && (Dozes(ca) ==> Dozes(s.procs[a]))
    requires (b != a ==> (Dozes(cb) ==> Dozes(s.procs[b])))
    ensures forall y: nat :: y < |s.procs| && Dozing(Changed(s, a, ca, b, cb, w), y) ==> Dozing(s, y)
  {
  }

  lemma ScannedFrame(s: State, s': State, p: nat)
    requires SameKin(s, s') && p < |s.procs| && s'.procs[p].pc == s.procs[p].pc && Scanned(s, p)
    requires HoldsWait(s.procs[p].pc) ==> forall y: nat :: y < |s.procs| && Dozing(s', y) ==> Dozing(s, y)
    ensures Scanned(s', p)
  {
    hide NoZombieBefore, NoChildBefore, HasChild, Dozes;
    KinKeeps(s, s', p, ScanTo(s.procs[p].pc, |s.procs|));
  }

  lemma QuietScanned(s: State, a: nat, ca: Proc, b: nat, cb: Proc, w: Option<nat>, p: nat)
    requires Inv(s) && a < |s.procs| && b < |s.procs| && p < |s.procs| && p != a
    requires QuietMove(|s.procs|, s.ini, a, s.procs[a], ca, b, s.procs[b], cb, s.waitLock, w)
    ensures Scanned(Changed(s, a, ca, b, cb, w), p)
  {
    var s' := Changed(s, a, ca, b, cb, w);
    assert Scanned(s, p) && OwnsWait(s, p) && OwnsWait(s, a);
    QuietKin(s, a, ca, b, cb, w);
    if s.procs[a].pc != Sleep1 { DozeMono(s, a, ca, b, cb, w); }
    hide Scanned, TableOk, ScansOk, PidsOk, LocksMove, ForksMove, Coherent, Dozes;
    ScannedFrame(s, s', p);
  }

  lemma DueKeeps(s: State, a: nat, ca: Proc, b: nat, cb: Proc, w: Option<nat>)
    requires TableOk(s) && a < |s.procs| && b < |s.procs| && InitWakeDue(s)
    requires QuietMove(|s.procs|, s.ini, a, s.procs[a], ca, b, s.procs[b], cb, s.waitLock, w)
    ensures InitWakeDue(Changed(s, a, ca, b, cb, w)) || !Dozing(Changed(s, a, ca, b, cb, w), s.ini)
  {
    assert OwnsWait(s, a) && OwnsWait(s, s.waitLock.value);
    hide TableOk, ForksMove, Coherent;
  }

  lemma QuietSafe(s: State, a: nat, ca: Proc, b: nat, cb: Proc, w: Option<nat>, p: nat)
    requires Inv(s) && a < |s.procs| && b < |s.procs| && p < |s.procs|
    requires QuietMove(|s.procs|, s.ini, a, s.procs[a], ca, b, s.procs[b], cb, s.waitLock, w)
    ensures Safe(Changed(s, a, ca, b, cb, w), p)
  {
    var s' := Changed(s, a, ca, b, cb, w);
    QuietKin(s, a, ca, b, cb, w);
    KinKeeps(s, s', p, |s.procs|);
    assert Safe(s, p) && Scanned(s, a) && s.ini < |s.procs|;
    if InitWakeDue(s) { DueKeeps(s, a, ca, b, cb, w); }
    hide NoZombieBefore, NoChildBefore, HasChild, TableOk, ScansOk, PidsOk, ForksMove, Coherent, LocksMove, InitWakeDue;
  }

  lemma QuietKeeps(s: State, a: nat, ca: Proc, b: nat, cb: Proc, w: Option<nat>)
    requires Inv(s) && a < |s.procs| && b < |s.procs|
    requires QuietMove(|s.procs|, s.ini, a, s.procs[a], ca, b, s.procs[b], cb, s.waitLock, w)
    requires Scanned(Changed(s, a, ca, b, cb, w), a)
    ensures TableOk(Changed(s, a, ca, b, cb, w)) && ScansOk(Changed(s, a, ca, b, cb, w))
  {
    var s' := Changed(s, a, ca, b, cb, w);
    hide LocksMove, ForksMove, Coherent, TableOk, Scanned, Safe, PidsOk, Family, SameStanding;
    forall p: nat | p < |s.procs| ensures Family(s', p) { QuietFamily(s, a, ca, b, cb, w, p); }
    TableChange(s, a, ca, b, cb, w);
    forall p: nat | p < |s.procs| ensures Scanned(s', p) { if p != a { QuietScanned(s, a, ca, b, cb, w, p); } }
    forall p: nat | p < |s.procs| ensures Safe(s', p) { QuietSafe(s, a, ca, b, cb, w, p); }
  }

  lemma KinKeepsAll(s: State, s': State, a: nat)
    requires SameKin(s, s')
    ensures forall i: nat {:trigger NoZombieBefore(s', a, i)} :: NoZombieBefore(s, a, i) <==> NoZombieBefore(s', a, i)
    ensures forall i: nat {:trigger NoChildBefore(s', a, i)} :: NoChildBefore(s, a, i) <==> NoChildBefore(s', a, i)
    ensures HasChild(s, a) <==> HasChild(s', a)
    ensures NoZombieBefore(s', a, 0) && NoChildBefore(s', a, 0)
  {
    assert NoZombieBefore(s', a, 0) && NoChildBefore(s', a, 0);
    hide NoZombieBefore, NoChildBefore, HasChild;
    KinKeeps(s, s', a, 0);
    forall i: nat ensures NoZombieBefore(s, a, i) <==> NoZombieBefore(s', a, i) { KinKeeps(s, s', a, i); }
    forall i: nat ensures NoChildBefore(s, a, i) <==> NoChildBefore(s', a, i) { KinKeeps(s, s', a, i); }
  }

  lemma PidsSame(s: State, s': State)
    requires PidsOk(s) && |s'.procs| == |s.procs| && s'.nextPid == s.nextPid && s'.reaped == s.reaped
    requires forall p :: 0 <= p < |s.procs| ==>
              s'.procs[p].pid == s.procs[p].pid && (s'.procs[p].st == Unused <==> s.procs[p].st == Unused)
    ensures PidsOk(s')
  {
  }

  // ----- The steps, one by one -----

  /** What process `a` and entry `b` look like before a step of `a`. */
  predicate Knows(n: nat, ini: nat, a: nat, oa: Proc, b: nat, ob: Proc, w0: Option<nat>) {
    && Coherent(n, ini, a, oa) && Coherent(n, ini, b, ob)
    && (oa.lock == Some(a) <==> Holds(oa.pc, a, a))
    && (ob.lock == Some(a) <==> Holds(oa.pc, a, b))
    && (ob.lock == Some(b) <==> Holds(ob.pc, b, b))
    && (w0 == Some(a) <==> HoldsWait(oa.pc))
    && oa.parent != Some(a)
    && (Forking(oa.pc) == Some(b) ==> b != a && ob.st == Used && ob.parent == (if oa.pc.Fork3? then Some(a) else None))
    && (oa.pc.Wait2? && oa.pc.i == b ==> b != a)
    && (a == b ==> oa == ob)
  }

  lemma KnowsOf(s: State, a: nat, b: nat)
    requires Inv(s) && a < |s.procs| && b < |s.procs|
    ensures Knows(|s.procs|, s.ini, a, s.procs[a], b, s.procs[b], s.waitLock)
    ensures Scanned(s, a)
  {
    assert Agree(s, a) && Agree(s, b) && Owns(s, a, a) && Owns(s, a, b) && Owns(s, b, b) && OwnsWait(s, a);
    assert Family(s, a) && ForkOk(s, a) && Scanned(s, a);
    hide TableOk, ScansOk, PidsOk;
  }

  /** A step of process `a` that touches no other entry. */
  function Alone(s: State, a: nat, ca: Proc, w: Option<nat>): State
    requires a < |s.procs|
  {
    s.(procs := s.procs[a := ca], waitLock := w)
  }

  /** A quiet step keeps the invariant. */
  lemma Quiet(s: State, a: nat, ca: Proc, b: nat, cb: Proc, w: Option<nat>)
    requires Inv(s) && a < |s.procs| && b < |s.procs|
    requires QuietMove(|s.procs|, s.ini, a, s.procs[a], ca, b, s.procs[b], cb, s.waitLock, w)
    requires Scanned(Changed(s, a, ca, b, cb, w), a)
    requires ca.pid == s.procs[a].pid && (ca.st == Unused <==> s.procs[a].st == Unused)
    requires b != a ==> cb.pid == s.procs[b].pid && (cb.st == Unused <==> s.procs[b].st == Unused)
    ensures Inv(Changed(s, a, ca, b, cb, w))
  {
    hide TableOk, ScansOk, PidsOk, QuietMove, Scanned;
    QuietKeeps(s, a, ca, b, cb, w);
    PidsSame(s, Changed(s, a, ca, b, cb, w));
  }

  /** What there is to know for a step of `a` alone that keeps its standing. */
  lemma KnowsAlone(s: State, a: nat, ca: Proc, w: Option<nat>)
    requires Inv(s) && a < |s.procs| && SameStanding(s.procs[a], ca)
    ensures Knows(|s.procs|, s.ini, a, s.procs[a], a, s.procs[a], s.waitLock) && Scanned(s, a) && s.ini < |s.procs|
    ensures forall i: nat {:trigger NoZombieBefore(Alone(s, a, ca, w), a, i)} ::
              NoZombieBefore(s, a, i) <==> NoZombieBefore(Alone(s, a, ca, w), a, i)
    ensures forall i: nat {:trigger NoChildBefore(Alone(s, a, ca, w), a, i)} ::
              NoChildBefore(s, a, i) <==> NoChildBefore(Alone(s, a, ca, w), a, i)
    ensures HasChild(s, a) <==> HasChild(Alone(s, a, ca, w), a)
    ensures NoZombieBefore(Alone(s, a, ca, w), a, 0) && NoChildBefore(Alone(s, a, ca, w), a, 0)
  {
    KnowsOf(s, a, a);
    hide NoChildBefore, NoZombieBefore, HasChild;
    KinKeepsAll(s, Alone(s, a, ca, w), a);
  }

  /** A quiet step that touches no other entry. */
  lemma QuietAlone(s: State, a: nat, ca: Proc, w: Option<nat>)
    requires Inv(s) && a < |s.procs| && Scanned(Alone(s, a, ca, w), a)
    requires QuietMove(|s.procs|, s.ini, a, s.procs[a], ca, a, s.procs[a], ca, s.waitLock, w)
    requires ca.pid == s.procs[a].pid && (ca.st == Unused <==> s.procs[a].st == Unused)
    ensures Inv(Alone(s, a, ca, w))
  {
    hide Inv, QuietMove, Scanned;
    assert Changed(s, a, ca, a, ca, w) == Alone(s, a, ca, w);
    Quiet(s, a, ca, a, ca, w);
  }

  lemma Sleep1Keeps(s: State, a: nat)
    requires Inv(s) && a < |s.procs| && s.procs[a].pc == Sleep1
    ensures Inv(Alone(s, a, s.procs[a].(pc := Sleep2), None))
  {
    var ca := s.procs[a].(pc := Sleep2);
    KnowsAlone(s, a, ca, None);
    hide Inv, NoChildBefore, NoZombieBefore, HasChild;
    QuietAlone(s, a, ca, None);
  }

  lemma Sleep2Keeps(s: State, a: nat)
    requires Inv(s) && a < |s.procs| && s.procs[a].pc == Sleep2
    ensures Inv(Alone(s, a, s.procs[a].(st := Sleeping, chan := On(a), pc := Sleep3), s.waitLock))
  {
    var ca := s.procs[a].(st := Sleeping, chan := On(a), pc := Sleep3);
    KnowsOf(s, a, a);
    KnowsAlone(s, a, ca, s.waitLock);
    hide Inv, NoChildBefore, NoZombieBefore, HasChild;
    QuietAlone(s, a, ca, s.waitLock);
  }

  lemma Sleep3Keeps(s: State, a: nat)
    requires Inv(s) && a < |s.procs| && s.procs[a].pc == Sleep3
    ensures Inv(Alone(s, a, s.procs[a].(lock := None, pc := Sleep4), s.waitLock))
  {
    var ca := s.procs[a].(lock := None, pc := Sleep4);
    KnowsAlone(s, a, ca, s.waitLock);
    hide Inv, NoChildBefore, NoZombieBefore, HasChild;
    QuietAlone(s, a, ca, s.waitLock);
  }

  lemma Sleep5Keeps(s: State, a: nat)
    requires Inv(s) && a < |s.procs| && s.procs[a].pc == Sleep5
    ensures Inv(Alone(s, a, s.procs[a].(chan := NoChan, lock := None, pc := Sleep6), s.waitLock))
  {
    var ca := s.procs[a].(chan := NoChan, lock := None, pc := Sleep6);
    KnowsAlone(s, a, ca, s.waitLock);
    hide Inv, NoChildBefore, NoZombieBefore, HasChild;
    QuietAlone(s, a, ca, s.waitLock);
  }

  lemma Sleep6Keeps(s: State, a: nat)
    requires Inv(s) && a < |s.procs| && s.procs[a].pc == Sleep6 && s.procs[a].st == Running && s.waitLock == None
    ensures Inv(Alone(s, a, s.procs[a].(pc := Wait1(0, false)), Some(a)))
  {
    var ca := s.procs[a].(pc := Wait1(0, false));
    KnowsAlone(s, a, ca, Some(a));
    hide Inv, NoChildBefore, NoZombieBefore, HasChild;
    QuietAlone(s, a, ca, Some(a));
  }

  lemma DeadKeeps(s: State, a: nat)
    requires Inv(s) && a < |s.procs| && s.procs[a].pc == Dead
    ensures Inv(Alone(s, a, s.procs[a].(lock := None, pc := Gone), s.waitLock))
  {
    var ca := s.procs[a].(lock := None, pc := Gone);
    KnowsAlone(s, a, ca, s.waitLock);
    hide Inv, NoChildBefore, NoZombieBefore, HasChild;
    QuietAlone(s, a, ca, s.waitLock);
  }

  lemma StartExitKeeps(s: State, a: nat)
    requires Inv(s) && a < |s.procs| && s.procs[a].pc == User && s.procs[a].st == Running && s.waitLock == None
    requires a != s.ini
    ensures Inv(Alone(s, a, s.procs[a].(pc := Exit1(0)), Some(a)))
  {
    var ca := s.procs[a].(pc := Exit1(0));
    KnowsAlone(s, a, ca, Some(a));
    hide Inv, NoChildBefore, NoZombieBefore, HasChild;
    QuietAlone(s, a, ca, Some(a));
  }

  lemma StartWaitKeeps(s: State, a: nat)
    requires Inv(s) && a < |s.procs| && s.procs[a].pc == User && s.procs[a].st == Running && s.waitLock == None
    ensures Inv(Alone(s, a, s.procs[a].(pc := Wait1(0, false)), Some(a)))
  {
    var ca := s.procs[a].(pc := Wait1(0, false));
    KnowsAlone(s, a, ca, Some(a));
    hide Inv, NoChildBefore, NoZombieBefore, HasChild;
    QuietAlone(s, a, ca, Some(a));
  }

  lemma LeaveWaitKeeps(s: State, a: nat)
    requires Inv(s) && a < |s.procs| && s.procs[a].pc.Wait1? && s.procs[a].pc.i == |s.procs|
    ensures Inv(Alone(s, a, s.procs[a].(pc := User), None))
  {
    var ca := s.procs[a].(pc := User);
    KnowsAlone(s, a, ca, None);
    hide Inv, NoChildBefore, NoZombieBefore, HasChild;
    QuietAlone(s, a, ca, None);
  }

  lemma GoSleepKeeps(s: State, a: nat)
    requires Inv(s) && a < |s.procs| && s.procs[a].pc == Wait1(|s.procs|, true) && s.procs[a].lock == None
    ensures Inv(Alone(s, a, s.procs[a].(lock := Some(a), pc := Sleep1), s.waitLock))
  {
    var ca := s.procs[a].(lock := Some(a), pc := Sleep1);
    KnowsAlone(s, a, ca, s.waitLock);
    hide Inv, NoChildBefore, NoZombieBefore, HasChild;
    QuietAlone(s, a, ca, s.waitLock);
  }

  lemma WaitSkipKeeps(s: State, a: nat)
    requires Inv(s) && a < |s.procs| && s.procs[a].pc.Wait1? && s.procs[a].pc.i < |s.procs|
    requires s.procs[s.procs[a].pc.i].parent != Some(a)
    ensures Inv(Alone(s, a, s.procs[a].(pc := Wait1(s.procs[a].pc.i + 1, s.procs[a].pc.kids)), s.waitLock))
  {
    var ca := s.procs[a].(pc := Wait1(s.procs[a].pc.i + 1, s.procs[a].pc.kids));
    ScanOne(s, a, s.procs[a].pc.i);
    KnowsAlone(s, a, ca, s.waitLock);
    hide Inv, NoChildBefore, NoZombieBefore, HasChild;
    QuietAlone(s, a, ca, s.waitLock);
  }

  lemma ExitSkipKeeps(s: State, a: nat)
    requires Inv(s) && a < |s.procs| && s.procs[a].pc.Exit1? && s.procs[a].pc.i < |s.procs|
    requires s.procs[s.procs[a].pc.i].parent != Some(a)
    ensures Inv(Alone(s, a, s.procs[a].(pc := Exit1(s.procs[a].pc.i + 1)), s.waitLock))
  {
    var ca := s.procs[a].(pc := Exit1(s.procs[a].pc.i + 1));
    ScanOne(s, a, s.procs[a].pc.i);
    KnowsAlone(s, a, ca, s.waitLock);
    hide Inv, NoChildBefore, NoZombieBefore, HasChild;
    QuietAlone(s, a, ca, s.waitLock);
  }

  lemma ExitDoneKeeps(s: State, a: nat)
    requires Inv(s) && a < |s.procs| && s.procs[a].pc == Exit1(|s.procs|) && s.procs[a].parent.Some?
    ensures Inv(Alone(s, a, s.procs[a].(pc := ExitParent(0, s.procs[a].parent.value)), s.waitLock))
  {
    var ca := s.procs[a].(pc := ExitParent(0, s.procs[a].parent.value));
    KnowsAlone(s, a, ca, s.waitLock);
    hide Inv, NoChildBefore, NoZombieBefore, HasChild;
    QuietAlone(s, a, ca, s.waitLock);
  }

  lemma WakeSelfKeeps(s: State, a: nat)
    requires Inv(s) && a < |s.procs| && s.procs[a].pc.ExitWake? && s.procs[a].pc.j == a
    ensures Inv(Alone(s, a, s.procs[a].(pc := ExitWake(s.procs[a].pc.i, a + 1)), s.waitLock))
  {
    var ca := s.procs[a].(pc := ExitWake(s.procs[a].pc.i, a + 1));
    KnowsAlone(s, a, ca, s.waitLock);
    hide Inv, NoChildBefore, NoZombieBefore, HasChild;
    QuietAlone(s, a, ca, s.waitLock);
  }

  lemma WakeDoneKeeps(s: State, a: nat)
    requires Inv(s) && a < |s.procs| && s.procs[a].pc.ExitWake? && s.procs[a].pc.j == |s.procs|
    ensures Inv(Alone(s, a, s.procs[a].(pc := Exit1(s.procs[a].pc.i + 1)), s.waitLock))
  {
    var ca := s.procs[a].(pc := Exit1(s.procs[a].pc.i + 1));
    assert s.ini < |s.procs|;
    KnowsAlone(s, a, ca, s.waitLock);
    hide Inv, NoChildBefore, NoZombieBefore, HasChild;
    QuietAlone(s, a, ca, s.waitLock);
  }

  lemma WakeParentSelfKeeps(s: State, a: nat)
    requires Inv(s) && a < |s.procs| && s.procs[a].pc.ExitParent? && s.procs[a].pc.j == a
    ensures Inv(Alone(s, a, s.procs[a].(pc := ExitParent(a + 1, s.procs[a].pc.q)), s.waitLock))
  {
    var ca := s.procs[a].(pc := ExitParent(a + 1, s.procs[a].pc.q));
    KnowsAlone(s, a, ca, s.waitLock);
    hide Inv, NoChildBefore, NoZombieBefore, HasChild;
    QuietAlone(s, a, ca, s.waitLock);
  }

  lemma YieldKeeps(s: State, a: nat)
    requires Inv(s) && a < |s.procs| && s.procs[a].st == Running && LockFree(s.procs[a].pc)
    ensures Inv(Alone(s, a, s.procs[a].(st := Runnable), s.waitLock))
  {
    var ca := s.procs[a].(st := Runnable);
    KnowsAlone(s, a, ca, s.waitLock);
    hide Inv, NoChildBefore, NoZombieBefore, HasChild;
    QuietAlone(s, a, ca, s.waitLock);
  }

  lemma DispatchKeeps(s: State, a: nat)
    requires Inv(s) && a < |s.procs| && s.procs[a].st == Runnable && s.procs[a].pc != Sleep4
    ensures Inv(Alone(s, a, s.procs[a].(st := Running), s.waitLock))
  {
    var ca := s.procs[a].(st := Running);
    KnowsAlone(s, a, ca, s.waitLock);
    hide Inv, NoChildBefore, NoZombieBefore, HasChild;
    QuietAlone(s, a, ca, s.waitLock);
  }

  lemma ResumeKeeps(s: State, a: nat)
    requires Inv(s) && a < |s.procs| && s.procs[a].st == Runnable && s.procs[a].lock == None && s.procs[a].pc == Sleep4
    ensures Inv(Alone(s, a, s.procs[a].(st := Running, lock := Some(a), pc := Sleep5), s.waitLock))
  {
    var ca := s.procs[a].(st := Running, lock := Some(a), pc := Sleep5);
    KnowsAlone(s, a, ca, s.waitLock);
    hide Inv, NoChildBefore, NoZombieBefore, HasChild;
    QuietAlone(s, a, ca, s.waitLock);
  }

  lemma SleepOtherKeeps(s: State, a: nat)
    requires Inv(s) && a < |s.procs| && s.procs[a].st == Running && s.procs[a].pc == User
    ensures Inv(Alone(s, a, s.procs[a].(st := Sleeping, chan := Other), s.waitLock))
  {
    var ca := s.procs[a].(st := Sleeping, chan := Other);
    KnowsAlone(s, a, ca, s.waitLock);
    hide Inv, NoChildBefore, NoZombieBefore, HasChild;
    QuietAlone(s, a, ca, s.waitLock);
  }

  lemma AwakenKeeps(s: State, a: nat)
    requires Inv(s) && a < |s.procs| && s.procs[a].st == Sleeping && s.procs[a].lock == None
    ensures Inv(Alone(s, a, s.procs[a].(st := Runnable), s.waitLock))
  {
    var ca := s.procs[a].(st := Runnable);
    KnowsAlone(s, a, ca, s.waitLock);
    hide Inv, NoChildBefore, NoZombieBefore, HasChild;
    QuietAlone(s, a, ca, s.waitLock);
  }

  /** A scan moves past an entry that is not a child. */
  lemma ScanOne(s: State, a: nat, i: nat)
    requires i < |s.procs| && s.procs[i].parent != Some(a)
    ensures NoZombieBefore(s, a, i) ==> NoZombieBefore(s, a, i + 1)
    ensures NoChildBefore(s, a, i) ==> NoChildBefore(s, a, i + 1)
  {
    assert !ChildOf(s, a, i);
  }

  /** A scan moves past a child that has not exited. */
  lemma ScanChild(s: State, a: nat, i: nat)
    requires i < |s.procs| && s.procs[i].parent == Some(a) && s.procs[i].st != Zombie
    ensures NoZombieBefore(s, a, i) ==> NoZombieBefore(s, a, i + 1)
    ensures HasChild(s, a)
  {
    assert ChildOf(s, a, i) && !ZombieChild(s, a, i);
  }

  /** An entry after wakeup(q) has visited it. */
  function Visited(c: Proc, q: nat): Proc {
    if c.st == Sleeping && c.chan == On(q) then c.(st := Runnable) else c
  }

  lemma StartForkTables(s: State, a: nat, b: nat)
    requires Inv(s) && a < |s.procs| && b < |s.procs| && s.procs[a].pc == User && s.procs[a].st == Running
    requires s.procs[b].st == Unused && s.procs[b].lock == None
    ensures var s1 := Changed(s, a, s.procs[a].(pc := Fork1(b)), b,
                              Proc(Used, NoChan, None, Some(a), User, s.nextPid), s.waitLock);
            TableOk(s1) && ScansOk(s1)
  {
    var ca, cb := s.procs[a].(pc := Fork1(b)), Proc(Used, NoChan, None, Some(a), User, s.nextPid);
    KnowsOf(s, a, b);
    hide Inv, NoChildBefore, NoZombieBefore, HasChild;
    KinKeepsAll(s, Changed(s, a, ca, b, cb, s.waitLock), a);
    QuietKeeps(s, a, ca, b, cb, s.waitLock);
  }

  lemma ForkFailsTables(s: State, a: nat)
    requires Inv(s) && a < |s.procs| && s.procs[a].pc.Fork1? && s.procs[a].st == Running && s.procs[a].pc.np < |s.procs|
    ensures var s1 := Changed(s, a, s.procs[a].(pc := User), s.procs[a].pc.np,
                              Freed(s.procs[s.procs[a].pc.np]).(lock := None), s.waitLock);
            TableOk(s1) && ScansOk(s1)
  {
    var b := s.procs[a].pc.np;
    var ca, cb := s.procs[a].(pc := User), Freed(s.procs[s.procs[a].pc.np]).(lock := None);
    KnowsOf(s, a, b);
    hide Inv, NoChildBefore, NoZombieBefore, HasChild;
    KinKeepsAll(s, Changed(s, a, ca, b, cb, s.waitLock), a);
    QuietKeeps(s, a, ca, b, cb, s.waitLock);
  }

  lemma Fork1Keeps(s: State, a: nat)
    requires Inv(s) && a < |s.procs| && s.procs[a].pc.Fork1? && s.procs[a].pc.np < |s.procs|
    ensures Inv(Changed(s, a, s.procs[a].(pc := Fork2(s.procs[a].pc.np)), s.procs[a].pc.np,
                        s.procs[s.procs[a].pc.np].(lock := None), s.waitLock))
  {
    var b := s.procs[a].pc.np;
    var ca, cb := s.procs[a].(pc := Fork2(s.procs[a].pc.np)), s.procs[s.procs[a].pc.np].(lock := None);
    KnowsOf(s, a, b);
    hide Inv, NoChildBefore, NoZombieBefore, HasChild;
    KinKeepsAll(s, Changed(s, a, ca, b, cb, s.waitLock), a);
    Quiet(s, a, ca, b, cb, s.waitLock);
  }

  lemma Fork3Keeps(s: State, a: nat)
    requires Inv(s) && a < |s.procs| && s.procs[a].pc.Fork3? && s.procs[a].st == Running
    requires s.procs[a].pc.np < |s.procs| && s.procs[s.procs[a].pc.np].lock == None
    ensures Inv(Changed(s, a, s.procs[a].(pc := User), s.procs[a].pc.np, s.procs[s.procs[a].pc.np].(st := Runnable),
                        s.waitLock))
  {
    var b := s.procs[a].pc.np;
    var ca, cb := s.procs[a].(pc := User), s.procs[s.procs[a].pc.np].(st := Runnable);
    KnowsOf(s, a, b);
    hide Inv, NoChildBefore, NoZombieBefore, HasChild;
    KinKeepsAll(s, Changed(s, a, ca, b, cb, s.waitLock), a);
    Quiet(s, a, ca, b, cb, s.waitLock);
  }

  lemma WaitLockKeeps(s: State, a: nat)
    requires Inv(s) && a < |s.procs| && s.procs[a].pc.Wait1? && s.procs[a].pc.i < |s.procs| && s.procs[a].pc.i != a
    requires s.procs[s.procs[a].pc.i].parent == Some(a) && s.procs[s.procs[a].pc.i].lock == None
    ensures Inv(Changed(s, a, s.procs[a].(pc := Wait2(s.procs[a].pc.i)), s.procs[a].pc.i,
                        s.procs[s.procs[a].pc.i].(lock := Some(a)), s.waitLock))
  {
    var b := s.procs[a].pc.i;
    var ca, cb := s.procs[a].(pc := Wait2(s.procs[a].pc.i)), s.procs[s.procs[a].pc.i].(lock := Some(a));
    KnowsOf(s, a, b);
    hide Inv, NoChildBefore, NoZombieBefore, HasChild;
    KinKeepsAll(s, Changed(s, a, ca, b, cb, s.waitLock), a);
    Quiet(s, a, ca, b, cb, s.waitLock);
  }

  lemma WaitNextKeeps(s: State, a: nat)
    requires Inv(s) && a < |s.procs| && s.procs[a].pc.Wait2? && s.procs[a].pc.i < |s.procs|
    requires s.procs[s.procs[a].pc.i].st != Zombie
    ensures Inv(Changed(s, a, s.procs[a].(pc := Wait1(s.procs[a].pc.i + 1, true)), s.procs[a].pc.i,
                        s.procs[s.procs[a].pc.i].(lock := None), s.waitLock))
  {
    var b := s.procs[a].pc.i;
    var ca, cb := s.procs[a].(pc := Wait1(s.procs[a].pc.i + 1, true)), s.procs[s.procs[a].pc.i].(lock := None);
    KnowsOf(s, a, b);
    ScanChild(s, a, b);
    hide Inv, NoChildBefore, NoZombieBefore, HasChild;
    KinKeepsAll(s, Changed(s, a, ca, b, cb, s.waitLock), a);
    Quiet(s, a, ca, b, cb, s.waitLock);
  }

  lemma WaitFailsKeeps(s: State, a: nat)
    requires Inv(s) && a < |s.procs| && s.procs[a].pc.Wait2? && s.procs[a].pc.i < |s.procs|
    ensures Inv(Changed(s, a, s.procs[a].(pc := User), s.procs[a].pc.i, s.procs[s.procs[a].pc.i].(lock := None), None))
  {
    var b := s.procs[a].pc.i;
    var ca, cb := s.procs[a].(pc := User), s.procs[s.procs[a].pc.i].(lock := None);
    KnowsOf(s, a, b);
    hide Inv, NoChildBefore, NoZombieBefore, HasChild;
    KinKeepsAll(s, Changed(s, a, ca, b, cb, None), a);
    Quiet(s, a, ca, b, cb, None);
  }

  lemma WakeInitKeeps(s: State, a: nat)
    requires Inv(s) && a < |s.procs| && s.procs[a].pc.ExitWake? && s.procs[a].pc.j < |s.procs|
    requires s.procs[a].pc.j != a && s.procs[s.procs[a].pc.j].lock == None
    ensures Inv(Changed(s, a, s.procs[a].(pc := ExitWake(s.procs[a].pc.i, s.procs[a].pc.j + 1)), s.procs[a].pc.j,
                        Visited(s.procs[s.procs[a].pc.j], s.ini), s.waitLock))
  {
    var b := s.procs[a].pc.j;
    var ca := s.procs[a].(pc := ExitWake(s.procs[a].pc.i, s.procs[a].pc.j + 1));
    var cb := Visited(s.procs[s.procs[a].pc.j], s.ini);
    KnowsOf(s, a, b);
    hide Inv, NoChildBefore, NoZombieBefore, HasChild;
    KinKeepsAll(s, Changed(s, a, ca, b, cb, s.waitLock), a);
    Quiet(s, a, ca, b, cb, s.waitLock);
  }

  lemma WakeParentKeeps(s: State, a: nat)
    requires Inv(s) && a < |s.procs| && s.procs[a].pc.ExitParent? && s.procs[a].pc.j < |s.procs|
    requires s.procs[a].pc.j != a && s.procs[s.procs[a].pc.j].lock == None
    ensures Inv(Changed(s, a, s.procs[a].(pc := ExitParent(s.procs[a].pc.j + 1, s.procs[a].pc.q)), s.procs[a].pc.j,
                        Visited(s.procs[s.procs[a].pc.j], s.procs[a].pc.q), s.waitLock))
  {
    var b := s.procs[a].pc.j;
    var ca := s.procs[a].(pc := ExitParent(s.procs[a].pc.j + 1, s.procs[a].pc.q));
    var cb := Visited(s.procs[s.procs[a].pc.j], s.procs[a].pc.q);
    KnowsOf(s, a, b);
    hide Inv, NoChildBefore, NoZombieBefore, HasChild;
    KinKeepsAll(s, Changed(s, a, ca, b, cb, s.waitLock), a);
    Quiet(s, a, ca, b, cb, s.waitLock);
  }

  // ----- The four steps that change families -----

  /** With wait_lock free or held by `a`, nobody else is scanning; a dead process keeps having no
      children as long as nobody becomes its child. */
  lemma OthersIdle(s: State, a: nat, ca: Proc, b: nat, cb: Proc, w: Option<nat>, p: nat)
    requires Inv(s) && a < |s.procs| && b < |s.procs| && p < |s.procs| && p != a
    requires s.waitLock == None || s.waitLock == Some(a)
    requires b != a ==> cb.pc == s.procs[b].pc || cb.pc == User
    requires ca.parent == s.procs[a].parent
    requires b != a && cb.parent.Some? ==> cb.parent.value < |s.procs| && Alive(s.procs[cb.parent.value].st)
    ensures Scanned(Changed(s, a, ca, b, cb, w), p)
  {
    var s' := Changed(s, a, ca, b, cb, w);
    assert Scanned(s, p) && OwnsWait(s, p) && Agree(s, p);
    hide TableOk, ScansOk, PidsOk;
    if s'.procs[p].pc == Dead || s'.procs[p].pc == Gone {
      forall c: nat | c < |s.procs| ensures !ChildOf(s', p, c) { assert !ChildOf(s, p, c); }
    }
  }

  lemma Fork2Keeps(s: State, a: nat)
    requires Inv(s) && a < |s.procs| && s.procs[a].pc.Fork2? && s.procs[a].st == Running
    requires s.procs[a].pc.np < |s.procs| && s.waitLock == None
    ensures Inv(Changed(s, a, s.procs[a].(pc := Fork3(s.procs[a].pc.np)), s.procs[a].pc.np,
                        s.procs[s.procs[a].pc.np].(parent := Some(a)), None))
  {
    var b := s.procs[a].pc.np;
    var ca, cb := s.procs[a].(pc := Fork3(b)), s.procs[b].(parent := Some(a));
    var s' := Changed(s, a, ca, b, cb, None);
    KnowsOf(s, a, b);
    forall p: nat | p < |s.procs| ensures Family(s', p) { assert Family(s, p); }
    forall p: nat | p < |s.procs| ensures Safe(s', p) {
      assert Safe(s, p);
      forall c: nat | c < |s.procs| ensures ZombieChild(s', p, c) ==> ZombieChild(s, p, c) {}
      forall c: nat | c < |s.procs| && ChildOf(s, p, c) ensures ChildOf(s', p, c) {}
    }
    hide TableOk, ScansOk, PidsOk, Family, Safe;
    TableChange(s, a, ca, b, cb, None);
    forall p: nat | p < |s.procs| ensures Scanned(s', p) { if p != a { OthersIdle(s, a, ca, b, cb, None, p); } }
    PidsSame(s, s');
    Assemble(s');
  }

  lemma Assemble(s: State)
    requires TableOk(s) && PidsOk(s)
    requires forall p: nat :: p < |s.procs| ==> Scanned(s, p) && Safe(s, p)
    ensures Inv(s)
  {
  }

  lemma ReparentKeeps(s: State, a: nat)
    requires Inv(s) && a < |s.procs| && s.procs[a].pc.Exit1? && s.procs[a].pc.i < |s.procs|
    requires s.procs[s.procs[a].pc.i].parent == Some(a)
    requires s.procs[a].pc.i != a && s.procs[a].st == Running
    ensures Inv(Changed(s, a, s.procs[a].(pc := ExitWake(s.procs[a].pc.i, 0)), s.procs[a].pc.i,
                        s.procs[s.procs[a].pc.i].(parent := Some(s.ini)), s.waitLock))
  {
    var b := s.procs[a].pc.i;
    var ca, cb := s.procs[a].(pc := ExitWake(b, 0)), s.procs[b].(parent := Some(s.ini));
    var s' := Changed(s, a, ca, b, cb, s.waitLock);
    KnowsOf(s, a, b);
    ReparentFamily(s, a, b, ca, cb);
    forall p: nat | p < |s.procs| ensures Safe(s', p) { ReparentSafe(s, a, b, ca, cb, p); }
    assert Scanned(s', a) by {
      forall c: nat | c < b + 1 && c < |s.procs| ensures !ChildOf(s', a, c) { assert c < b ==> !ChildOf(s, a, c); }
    }
    hide TableOk, ScansOk, PidsOk, Family, Safe, Scanned;
    TableChange(s, a, ca, b, cb, s.waitLock);
    forall p: nat | p < |s.procs| ensures Scanned(s', p) { if p != a { OthersIdle(s, a, ca, b, cb, s.waitLock, p); } }
    PidsSame(s, s');
    Assemble(s');
  }

  lemma ReparentFamily(s: State, a: nat, b: nat, ca: Proc, cb: Proc)
    requires Inv(s) && a < |s.procs| && b < |s.procs| && b != a && s.procs[b].parent == Some(a)
    requires ca == s.procs[a].(pc := ca.pc) && cb == s.procs[b].(parent := Some(s.ini)) && s.procs[a].pc.Exit1?
    ensures b != s.ini && a != s.ini && Alive(s.procs[s.ini].st) && s.procs[b].st != Used && s.procs[b].st != Unused
    ensures forall p: nat :: p < |s.procs| ==> Family(Changed(s, a, ca, b, cb, s.waitLock), p)
  {
    assert Agree(s, a) && Agree(s, b) && Family(s, a) && Family(s, b) && Family(s, s.ini);
    forall p: nat | p < |s.procs| ensures Family(Changed(s, a, ca, b, cb, s.waitLock), p) { assert Family(s, p); }
  }

  lemma ReparentSafe(s: State, a: nat, b: nat, ca: Proc, cb: Proc, p: nat)
    requires Inv(s) && a < |s.procs| && b < |s.procs| && b != a && p < |s.procs| && s.procs[b].parent == Some(a)
    requires ca == s.procs[a].(pc := ExitWake(b, 0)) && cb == s.procs[b].(parent := Some(s.ini)) && s.procs[a].pc.Exit1?
    ensures Safe(Changed(s, a, ca, b, cb, s.waitLock), p)
  {
    var s' := Changed(s, a, ca, b, cb, s.waitLock);
    assert Safe(s, p) && OwnsWait(s, a) && Agree(s, a);
    hide TableOk, ScansOk, PidsOk;
    if Dozing(s', p) {
      var c: nat :| c < |s.procs| && ChildOf(s, p, c);
      assert ChildOf(s', p, c);
      if p != s.ini {
        forall c: nat | c < |s.procs| ensures !ZombieChild(s', p, c) { assert !ZombieChild(s, p, c); }
      }
    }
  }

  /** The last step of exit: becoming a zombie and releasing wait_lock. */
  lemma DieKeeps(s: State, a: nat)
    requires Inv(s) && a < |s.procs| && s.procs[a].pc.ExitParent? && s.procs[a].pc.j == |s.procs|
    requires s.procs[a].st == Running
    requires s.procs[a].lock == None
    ensures var ca := s.procs[a].(st := Zombie, lock := Some(a), pc := Dead); Inv(Alone(s, a, ca, None))
  {
    var ca := s.procs[a].(st := Zombie, lock := Some(a), pc := Dead);
    var s' := Changed(s, a, ca, a, ca, None);
    KnowsOf(s, a, a);
    assert Family(s, a);
    forall p: nat | p < |s.procs| ensures Family(s', p) { assert Family(s, p) && !ChildOf(s, a, p); }
    forall p: nat | p < |s.procs| ensures Safe(s', p) { DieSafe(s, a, ca, p); }
    assert Scanned(s', a) by {
      forall c: nat | c < |s.procs| ensures !ChildOf(s', a, c) { assert !ChildOf(s, a, c); }
    }
    hide TableOk, ScansOk, PidsOk, Family, Safe, Scanned, NoChildBefore;
    TableChange(s, a, ca, a, ca, None);
    forall p: nat | p < |s.procs| ensures Scanned(s', p) { if p != a { OthersIdle(s, a, ca, a, ca, None, p); } }
    PidsSame(s, s');
    Assemble(s');
    assert s' == Alone(s, a, ca, None);
  }

  lemma DieSafe(s: State, a: nat, ca: Proc, p: nat)
    requires Inv(s) && a < |s.procs| && p < |s.procs| && s.procs[a].pc.ExitParent? && s.procs[a].pc.j == |s.procs|
    requires ca == s.procs[a].(st := Zombie, lock := Some(a), pc := Dead)
    ensures Safe(Changed(s, a, ca, a, ca, None), p)
  {
    var s' := Changed(s, a, ca, a, ca, None);
    assert Safe(s, p) && Scanned(s, a) && Family(s, a) && OwnsWait(s, a);
    hide TableOk, ScansOk, PidsOk;
    if Dozing(s', p) {
      var c: nat :| c < |s.procs| && ChildOf(s, p, c);
      assert ChildOf(s', p, c);
      forall c: nat | c < |s.procs| ensures !ZombieChild(s', p, c) { assert !ZombieChild(s, p, c); }
    }
  }

  /** wait frees a zombie child. */
  lemma ReapKeeps(s: State, a: nat)
    requires Inv(s) && a < |s.procs| && s.procs[a].pc.Wait2? && s.procs[a].pc.i < |s.procs|
    requires s.procs[s.procs[a].pc.i].st == Zombie
    requires s.procs[a].st == Running
    ensures var b := s.procs[a].pc.i;
            Inv(Changed(s, a, s.procs[a].(pc := User), b, Freed(s.procs[b]).(lock := None), None)
                .(reaped := s.reaped + [s.procs[b].pid]))
  {
    var b := s.procs[a].pc.i;
    var ca, cb := s.procs[a].(pc := User), Freed(s.procs[b]).(lock := None);
    var s1 := Changed(s, a, ca, b, cb, None);
    KnowsOf(s, a, b);
    assert Family(s, b);
    forall p: nat | p < |s.procs| ensures Family(s1, p) { assert Family(s, p); }
    forall p: nat | p < |s.procs| ensures Safe(s1, p) { ReapSafe(s, a, b, ca, cb, p); }
    assert ForkApart(s, a, b) && ForkOk(s, b);
    hide TableOk, ScansOk, PidsOk, Family, Safe;
    TableChange(s, a, ca, b, cb, None);
    forall p: nat | p < |s.procs| ensures Scanned(s1, p) { if p != a { OthersIdle(s, a, ca, b, cb, None, p); } }
    hide Scanned;
    var s' := s1.(reaped := s.reaped + [s.procs[b].pid]);
    SameTable(s1, s');
    ReapPids(s, a, b);
  }

  lemma ReapSafe(s: State, a: nat, b: nat, ca: Proc, cb: Proc, p: nat)
    requires Inv(s) && a < |s.procs| && b < |s.procs| && b != a && p < |s.procs| && s.procs[a].pc == Wait2(b)
    requires ca == s.procs[a].(pc := User) && cb == Freed(s.procs[b]).(lock := None)
    ensures Safe(Changed(s, a, ca, b, cb, None), p)
  {
    var s' := Changed(s, a, ca, b, cb, None);
    assert Safe(s, p) && Scanned(s, a) && OwnsWait(s, a);
    hide TableOk, ScansOk, PidsOk;
    if Dozing(s', p) {
      var c: nat :| c < |s.procs| && ChildOf(s, p, c);
      assert ChildOf(s', p, c);
      forall c: nat | c < |s.procs| ensures !ZombieChild(s', p, c) { assert !ZombieChild(s, p, c); }
    }
  }

  lemma ReapPids(s: State, a: nat, b: nat)
    requires PidsOk(s) && a < |s.procs| && b < |s.procs| && a != b && s.procs[b].st != Unused
    ensures PidsOk(Changed(s, a, s.procs[a].(pc := User), b, Freed(s.procs[b]).(lock := None), None)
                   .(reaped := s.reaped + [s.procs[b].pid]))
  {
  }

  /** The invariant of table and scans does not look at process identifiers. */
  lemma SameTable(s: State, s': State)
    requires TableOk(s) && (forall p: nat :: p < |s.procs| ==> Scanned(s, p) && Safe(s, p))
    requires s'.procs == s.procs && s'.ini == s.ini && s'.waitLock == s.waitLock
    ensures TableOk(s') && ScansOk(s')
  {
    var n := |s.procs|;
    forall p: nat, x: nat | p < n && x < n ensures Owns(s', p, x) { assert Owns(s, p, x); }
    forall p: nat | p < n ensures OwnsWait(s', p) { assert OwnsWait(s, p); }
    forall p: nat | p < n ensures Agree(s', p) { assert Agree(s, p); }
    forall p: nat | p < n ensures Family(s', p) { assert Family(s, p); }
    forall p: nat | p < n ensures ForkOk(s', p) { assert ForkOk(s, p); }
    forall p: nat, q: nat | p < n && q < n ensures ForkApart(s', p, q) { assert ForkApart(s, p, q); }
    hide Owns, OwnsWait, Agree, Family, ForkOk, ForkApart, TableOk;
    assert SameKin(s, s');
    forall p: nat | p < n ensures Scanned(s', p) && Safe(s', p) {
      assert Scanned(s, p) && Safe(s, p);
      KinKeeps(s, s', p, ScanTo(s.procs[p].pc, n));
      KinKeeps(s, s', p, n);
    }
  }

  // ----- Every step keeps the invariant -----

  lemma StartForkKeeps(s: State, a: nat, b: nat)
    requires Inv(s) && Step(s, StartFork(a, b)).Next?
    ensures Inv(Step(s, StartFork(a, b)).s)
  {
    var s' := Step(s, StartFork(a, b)).s;
    var s1 := Changed(s, a, s.procs[a].(pc := Fork1(b)), b, Proc(Used, NoChan, None, Some(a), User, s.nextPid),
                      s.waitLock);
    StartForkTables(s, a, b);
    assert s' == s1.(nextPid := s.nextPid + 1);
    hide TableOk, Scanned, Safe;
    SameTable(s1, s');
  }

  lemma ForkFailsKeeps(s: State, a: nat)
    requires Inv(s) && Step(s, ForkFails(a)).Next?
    ensures Inv(Step(s, ForkFails(a)).s)
  {
    ForkFailsTables(s, a);
    hide TableOk, ScansOk;
  }

  lemma GiveUpKeeps(s: State, a: nat)
    requires Inv(s) && Step(s, GiveUp(a)).Next?
    ensures Inv(Step(s, GiveUp(a)).s)
  {
    hide Inv;
    if s.procs[a].pc.Wait1? { LeaveWaitKeeps(s, a); } else { WaitFailsKeeps(s, a); }
  }

  lemma GoForkKeeps(s: State, a: nat)
    requires Inv(s) && a < |s.procs| && NextOf(s, a).Next?
    requires var pc := s.procs[a].pc; pc.Fork1? || pc.Fork2? || pc.Fork3?
    ensures Inv(NextOf(s, a).s)
  {
    ScanBounds(s, a);
    hide Inv;
    var n := |s.procs|;
    match s.procs[a].pc
    case Fork1(_) => Fork1Keeps(s, a);
    case Fork2(_) => Fork2Keeps(s, a);
    case Fork3(_) => Fork3Keeps(s, a);
  }

  lemma GoExitKeeps(s: State, a: nat)
    requires Inv(s) && a < |s.procs| && NextOf(s, a).Next?
    requires var pc := s.procs[a].pc; pc.Exit1? || pc.Dead?
    ensures Inv(NextOf(s, a).s)
  {
    ScanBounds(s, a);
    hide Inv;
    var n := |s.procs|;
    match s.procs[a].pc
    case Dead => DeadKeeps(s, a);
    case Exit1(i) =>
      if i == n { ExitDoneKeeps(s, a); }
      else if s.procs[i].parent == Some(a) { ReparentKeeps(s, a); }
      else { ExitSkipKeeps(s, a); }
  }

  lemma GoWakeKeeps(s: State, a: nat)
    requires Inv(s) && a < |s.procs| && NextOf(s, a).Next?
    requires var pc := s.procs[a].pc; pc.ExitWake? || pc.ExitParent?
    ensures Inv(NextOf(s, a).s)
  {
    ScanBounds(s, a);
    hide Inv;
    var n := |s.procs|;
    match s.procs[a].pc
    case ExitWake(_, j) =>
      if j == n {
        WakeDoneKeeps(s, a);
      } else if j == a {
        WakeSelfKeeps(s, a);
      } else {
        WokenVisited(s, a, j, s.ini);
        WakeInitKeeps(s, a);
      }
    case ExitParent(j, q) =>
      if j == n {
        DieKeeps(s, a);
      } else if j == a {
        WakeParentSelfKeeps(s, a);
      } else {
        WokenVisited(s, a, j, q);
        WakeParentKeeps(s, a);
      }
  }

  lemma GoWaitKeeps(s: State, a: nat)
    requires Inv(s) && a < |s.procs| && NextOf(s, a).Next?
    requires var pc := s.procs[a].pc; pc.Wait1? || pc.Wait2?
    ensures Inv(NextOf(s, a).s)
  {
    ScanBounds(s, a);
    hide Inv;
    var n := |s.procs|;
    match s.procs[a].pc
    case Wait1(i, kids) =>
      if i == n {
        if kids { GoSleepKeeps(s, a); } else { LeaveWaitKeeps(s, a); }
      } else if s.procs[i].parent == Some(a) { WaitLockKeeps(s, a); }
      else { WaitSkipKeeps(s, a); }
    case Wait2(i) =>
      if s.procs[i].st == Zombie { ReapKeeps(s, a); } else { WaitNextKeeps(s, a); }
  }

  lemma GoSleepsKeep(s: State, a: nat)
    requires Inv(s) && a < |s.procs| && NextOf(s, a).Next?
    requires var pc := s.procs[a].pc; pc.Sleep1? || pc.Sleep2? || pc.Sleep3? || pc.Sleep5? || pc.Sleep6?
    ensures Inv(NextOf(s, a).s)
  {
    ScanBounds(s, a);
    hide Inv;
    var n := |s.procs|;
    match s.procs[a].pc
    case Sleep1 => Sleep1Keeps(s, a);
    case Sleep2 => Sleep2Keeps(s, a);
    case Sleep3 => Sleep3Keeps(s, a);
    case Sleep5 => Sleep5Keeps(s, a);
    case Sleep6 => Sleep6Keeps(s, a);
  }

  lemma WokenVisited(s: State, a: nat, j: nat, q: nat)
    requires a < |s.procs| && j < |s.procs| && a != j
    ensures Woken(s, j, q).procs == s.procs[j := Visited(s.procs[j], q)]
    ensures Woken(s, j, q) == s.(procs := s.procs[j := Visited(s.procs[j], q)])
  {
  }

  lemma GoKeeps(s: State, a: nat)
    requires Inv(s) && a < |s.procs| && NextOf(s, a).Next?
    ensures Inv(NextOf(s, a).s)
  {
    hide Inv;
    var pc := s.procs[a].pc;
    if pc.Fork1? || pc.Fork2? || pc.Fork3? { GoForkKeeps(s, a); }
    else if pc.Exit1? || pc.Dead? { GoExitKeeps(s, a); }
    else if pc.ExitWake? || pc.ExitParent? { GoWakeKeeps(s, a); }
    else if pc.Wait1? || pc.Wait2? { GoWaitKeeps(s, a); }
    else { GoSleepsKeep(s, a); }
  }

  lemma ScanBounds(s: State, a: nat)
    requires Inv(s) && a < |s.procs|
    ensures match s.procs[a].pc
            case Exit1(i) => i <= |s.procs| && (i < |s.procs| && s.procs[i].parent == Some(a) ==> i != a)
            case ExitWake(_, j) => j <= |s.procs|
            case ExitParent(j, _) => j <= |s.procs|
            case Wait1(i, _) => i <= |s.procs| && (i < |s.procs| && s.procs[i].parent == Some(a) ==> i != a)
            case Wait2(i) => i < |s.procs|
            case _ => true
  {
    assert Scanned(s, a) && Family(s, a);
  }

  lemma StepKeeps(s: State, e: Event)
    requires Inv(s) && Step(s, e).Next?
    ensures Inv(Step(s, e).s)
  {
    hide Inv, NextOf;
    match e
    case StartFork(p, np) => StartForkKeeps(s, p, np);
    case ForkFails(p) => ForkFailsKeeps(s, p);
    case StartExit(p) => StartExitKeeps(s, p);
    case StartWait(p) => StartWaitKeeps(s, p);
    case GiveUp(p) => GiveUpKeeps(s, p);
    case Go(p) => GoKeeps(s, p);
    case Yield(p) => YieldKeeps(s, p);
    case Dispatch(p) => if s.procs[p].pc == Sleep4 { ResumeKeeps(s, p); } else { DispatchKeeps(s, p); }
    case SleepOther(p) => SleepOtherKeeps(s, p);
    case WakeOther(p) => AwakenKeeps(s, p);
    case Kill(p) => if s.procs[p].st == Sleeping { AwakenKeeps(s, p); }
  }

  // ----- Runs -----

  /** After userinit: init can run, everything else is unused. */
  predicate Booted(s: State) {
    && s.ini < |s.procs| && s.waitLock == None && s.nextPid == 2 && s.reaped == []
    && s.procs[s.ini] == Proc(Runnable, NoChan, None, None, User, 1)
    && forall p :: 0 <= p < |s.procs| && p != s.ini ==> s.procs[p] == Proc(Unused, NoChan, None, None, User, 0)
  }

  function Run(s: State, es: seq<Event>): Outcome {
    if es == [] then Next(s)
    else
      var r := Run(s, es[..|es| - 1]);
      if r.Next? then Step(r.s, es[|es| - 1]) else Blocked
  }

  lemma BootedInv(s: State)
    requires Booted(s)
    ensures Inv(s)
  {
    var n := |s.procs|;
    forall p: nat | p < n ensures Scanned(s, p) && Safe(s, p) {}
    hide Scanned, Safe;
    forall p: nat, x: nat | p < n && x < n ensures Owns(s, p, x) {}
    forall p: nat | p < n ensures OwnsWait(s, p) && Agree(s, p) && Family(s, p) && ForkOk(s, p) {}
    forall p: nat, q: nat | p < n && q < n ensures ForkApart(s, p, q) {}
  }

  lemma {:induction false} RunKeeps(s: State, es: seq<Event>)
    requires Booted(s) && Run(s, es).Next?
    ensures Inv(Run(s, es).s)
  {
    if es == [] {
      BootedInv(s);
    } else {
      RunKeeps(s, es[..|es| - 1]);
      StepKeeps(Run(s, es[..|es| - 1]).s, es[|es| - 1]);
    }
  }

  /** No lost wakeup: whenever wait_lock is free, a process that has gone to sleep in wait and has not
      been woken has a child, and no child of it has exited. */
  lemma NoLostWakeup(s0: State, es: seq<Event>, q: nat, c: nat)
    requires Booted(s0) && Run(s0, es).Next?
    requires var s := Run(s0, es).s; s.waitLock == None && q < |s.procs| && c < |s.procs| && Dozing(s, q)
    ensures var s := Run(s0, es).s;
            HasChild(s, q) && (s.procs[c].parent == Some(q) ==> s.procs[c].st != Zombie)
  {
    RunKeeps(s0, es);
    var s := Run(s0, es).s;
    assert Safe(s, q);
    assert !ZombieChild(s, q, c);
  }

  /** Nobody is orphaned: every process other than init that can run, or has exited, has a parent that
      has not exited; and init itself never exits. */
  lemma ParentsLive(s0: State, es: seq<Event>, c: nat)
    requires Booted(s0) && Run(s0, es).Next?
    requires var s := Run(s0, es).s; c < |s.procs| && (Alive(s.procs[c].st) || s.procs[c].st == Zombie)
    ensures var s := Run(s0, es).s;
            if c == s.ini then Alive(s.procs[c].st) && s.procs[c].parent == None
            else s.procs[c].parent.Some? && var q := s.procs[c].parent.value;
                 q < |s.procs| && q != c && Alive(s.procs[q].st)
  {
    RunKeeps(s0, es);
    assert Family(Run(s0, es).s, c);
  }

  /** A zombie stays one until its parent of that moment frees it in wait. */
  lemma OnlyParentReaps(s: State, e: Event, c: nat)
    requires Inv(s) && Step(s, e).Next? && c < |s.procs| && s.procs[c].st == Zombie
    ensures var s' := Step(s, e).s;
            || (c < |s'.procs| && s'.procs[c].st == Zombie && s'.procs[c].pid == s.procs[c].pid)
            || (e.Go? && s.procs[c].parent == Some(e.p) && c < |s'.procs| && s'.procs[c].st == Unused
                && s'.reaped == s.reaped + [s.procs[c].pid])
  {
    assert Agree(s, c);
    if e.p < |s.procs| {
      assert Scanned(s, e.p) && Agree(s, e.p) && ForkOk(s, e.p);
      if e.Go? { GoReaps(s, e.p, c); }
    }
    hide Inv, NextOf, Scanned, Holds, HoldsWait;
  }

  lemma GoReaps(s: State, a: nat, c: nat)
    requires a < |s.procs| && NextOf(s, a).Next? && c < |s.procs| && s.procs[c].st == Zombie
    requires Agree(s, c) && Agree(s, a) && Scanned(s, a) && ForkOk(s, a)
    ensures var s' := NextOf(s, a).s;
            || (c < |s'.procs| && s'.procs[c].st == Zombie && s'.procs[c].pid == s.procs[c].pid)
            || (s.procs[c].parent == Some(a) && c < |s'.procs| && s'.procs[c].st == Unused
                && s'.reaped == s.reaped + [s.procs[c].pid])
  {
    hide NoChildBefore, NoZombieBefore, HasChild;
  }

  /** No process is freed twice: the identifiers reaped in a run are all different. */
  lemma ReapedOnce(s0: State, es: seq<Event>, i: nat, j: nat)
    requires Booted(s0) && Run(s0, es).Next? && i < j < |Run(s0, es).s.reaped|
    ensures var s := Run(s0, es).s; s.reaped[i] != s.reaped[j]
  {
    RunKeeps(s0, es);
  }
}
