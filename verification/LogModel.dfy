/** The redo log of kernel/log.c as a machine whose every step writes at most one disk block.

    A crash may come between any two steps. The machine also remembers, in fields no step looks at,
    what has been logged since the disk was made: the `history` of log_write calls, how many of them
    were covered by the last completed header write (`cut`), and the block contents before and after
    the uncovered rest (`committed` and `view`). */
module LogModel {

  const LOGSIZE: nat := 30
  const MAXOPBLOCKS: nat := 10
  const NBUF: nat := 30     // buffers in the cache
  const BWORDS: nat := 256  // words in a block

  type Block = seq<int>

  /** Where the log lies: header block at `start`, then nlog-1 log blocks. */
  datatype Layout = Layout(start: nat, nlog: nat, size: nat)

  /** A file-system call between begin_op and end_op, and how many blocks it added to the log. */
  datatype Op = Op(id: nat, used: nat)

  /** One log_write: which call, which block, which contents. */
  datatype Entry = Entry(op: nat, b: nat, v: Block)

  /** What the committing or recovering process does next. */
  datatype Phase =
    | Idle
    | WriteLog(tail: nat)    // write_log; at the end of the list, write_head
    | Install(tail: nat)     // install_trans(0); at the end, clear the header
    | ReadHead               // just rebooted
    | Reinstall(tail: nat)   // install_trans(1); at the end, clear the header

  datatype State = State(
    disk: seq<Block>,
    cache: map<nat, Block>,  // home blocks in the buffer cache
    lh: seq<nat>,            // log.lh.block[0 .. log.lh.n]
    ops: seq<Op>,            // the outstanding calls
    phase: Phase,
    nextId: nat,
    base: seq<Block>,
    history: seq<Entry>,
    cut: nat,
    view: seq<Block>,
    committed: seq<Block>)

  datatype Event =
    | BeginOp                              // begin_op returned
    | LogWrite(k: nat, b: nat, v: Block)   // call k changed block b to v and log_wrote it
    | EndOp(k: nat)
    | Load(b: nat)                         // the cache reads a block
    | Evict(b: nat)                        // the cache recycles an unpinned buffer
    | Advance                              // the commit or recovery in progress takes its next step
    | Crash

  datatype Outcome = Refused | Next(s: State)

  predicate IsHome(lay: Layout, b: nat) {
    b < lay.size && !(lay.start <= b < lay.start + lay.nlog)
  }

  /** The header block: the count, then the block numbers; the rest is left as it was. */
  function EncodeHead(was: Block, lh: seq<nat>): Block
    requires |was| > |lh|
  {
    [|lh|] + seq(|lh|, i requires 0 <= i < |lh| => lh[i]) + was[1 + |lh|..]
  }

  predicate HeadOk(h: Block) {
    && |h| == BWORDS && 0 <= h[0] <= LOGSIZE
    && forall i :: 1 <= i <= h[0] ==> h[i] >= 0
  }

  function DecodeHead(h: Block): seq<nat>
    requires HeadOk(h)
  {
    seq(h[0], i requires 0 <= i < h[0] => h[i + 1])
  }

  lemma HeadRoundTrip(was: Block, lh: seq<nat>)
    requires |was| == BWORDS && |lh| <= LOGSIZE
    ensures HeadOk(EncodeHead(was, lh)) && DecodeHead(EncodeHead(was, lh)) == lh
  {
  }

  /** The contents of home block `b` as bread returns them. */
  function Read(s: State, b: nat): Block
    requires b < |s.disk|
  {
    if b in s.cache then s.cache[b] else s.disk[b]
  }

  /** The buffers log_write pinned and install_trans has not yet unpinned. */
  function Pinned(s: State): seq<nat> {
    match s.phase
    case Idle => s.lh
    case WriteLog(_) => s.lh
    case Install(t) => if t <= |s.lh| then s.lh[t..] else []
    case ReadHead => []
    case Reinstall(_) => []
  }

  function Remove(ops: seq<Op>, k: nat): seq<Op>
    requires k < |ops|
  {
    ops[..k] + ops[k + 1..]
  }

  /** log_write's panic "too big a transaction"; it is checked before looking for absorption. */
  predicate TooBig(lay: Layout, s: State) {
    |s.lh| >= LOGSIZE || |s.lh| >= lay.nlog - 1
  }

  /** begin_op does not sleep. */
  predicate MayBegin(s: State) {
    s.phase == Idle && |s.lh| + (|s.ops| + 1) * MAXOPBLOCKS <= LOGSIZE
  }

  function Step(lay: Layout, s: State, e: Event): Outcome
    requires Fits(lay, s)
  {
    match e
    case BeginOp =>
      if MayBegin(s) then Next(s.(ops := s.ops + [Op(s.nextId, 0)], nextId := s.nextId + 1)) else Refused
    case LogWrite(k, b, v) =>
      if s.phase == Idle && k < |s.ops| && IsHome(lay, b) && |v| == BWORDS && !TooBig(lay, s)
      then Next(Logged(s, k, b, v)) else Refused
    case EndOp(k) =>
      if s.phase == Idle && k < |s.ops| then
        var ops := Remove(s.ops, k);
        Next(s.(ops := ops, phase := if ops == [] && s.lh != [] then WriteLog(0) else Idle))
      else Refused
    case Load(b) =>
      if IsHome(lay, b) && b !in s.cache then Next(s.(cache := s.cache[b := s.disk[b]])) else Refused
    case Evict(b) =>
      if b in s.cache && b !in Pinned(s) then Next(s.(cache := s.cache - {b})) else Refused
    case Advance => Advanced(lay, s)
    case Crash =>
      Next(s.(cache := map[], lh := [], ops := [], phase := ReadHead,
              history := s.history[..s.cut], view := s.committed))
  }

  function Logged(s: State, k: nat, b: nat, v: Block): State
    requires k < |s.ops| && b < |s.view|
  {
    var op := s.ops[k];
    var t := s.(cache := s.cache[b := v],
                history := s.history + [Entry(op.id, b, v)], view := s.view[b := v]);
    if b in s.lh then t else t.(lh := s.lh + [b], ops := s.ops[k := Op(op.id, op.used + 1)])
  }

  function Advanced(lay: Layout, s: State): Outcome
    requires Fits(lay, s)
  {
    match s.phase
    case Idle => Refused
    case WriteLog(t) =>
      if t < |s.lh| then Next(s.(disk := s.disk[lay.start + 1 + t := Read(s, s.lh[t])], phase := WriteLog(t + 1)))
      else Next(s.(disk := s.disk[lay.start := EncodeHead(s.disk[lay.start], s.lh)], phase := Install(0),
                   cut := |s.history|, committed := s.view))
    case Install(t) =>
      if t < |s.lh| then Next(Installed(lay, s, t).(phase := Install(t + 1)))
      else Next(s.(lh := [], disk := s.disk[lay.start := EncodeHead(s.disk[lay.start], [])], phase := Idle))
    case ReadHead =>
      Next(s.(lh := DecodeHead(s.disk[lay.start]), phase := Reinstall(0)))
    case Reinstall(t) =>
      if t < |s.lh| then Next(Installed(lay, s, t).(phase := Reinstall(t + 1)))
      else Next(s.(lh := [], disk := s.disk[lay.start := EncodeHead(s.disk[lay.start], [])], phase := Idle))
  }

  function Installed(lay: Layout, s: State, t: nat): State
    requires Fits(lay, s) && t < |s.lh|
  {
    var v := s.disk[lay.start + 1 + t];
    s.(disk := s.disk[s.lh[t] := v], cache := s.cache[s.lh[t] := v])
  }

  /** The sizes agree, so that no step indexes outside the disk. */
  predicate Fits(lay: Layout, s: State) {
    && 1 <= lay.nlog && lay.start + lay.nlog <= lay.size
    && |s.disk| == |s.base| == |s.view| == |s.committed| == lay.size
    && s.cut <= |s.history|
    && |s.lh| <= LOGSIZE && |s.lh| <= lay.nlog - 1
    && (forall i :: 0 <= i < |s.lh| ==> IsHome(lay, s.lh[i]))
    && HeadOk(s.disk[lay.start])
  }

  // ----- The invariant -----

  predicate Distinct(l: seq<nat>) {
    forall i, j :: 0 <= i < j < |l| ==> l[i] != l[j]
  }

  /** The list on disk names distinct home blocks and fits the log. */
  predicate ListOk(lay: Layout, l: seq<nat>) {
    && |l| <= LOGSIZE && |l| <= lay.nlog - 1
    && Distinct(l)
    && forall i :: 0 <= i < |l| ==> IsHome(lay, l[i])
  }

  function OnDisk(lay: Layout, s: State): seq<nat>
    requires Fits(lay, s)
  {
    DecodeHead(s.disk[lay.start])
  }

  /** The list whose blocks still have to reach their homes. */
  function Pending(lay: Layout, s: State): seq<nat>
    requires Fits(lay, s)
  {
    match s.phase
    case Idle => []
    case WriteLog(_) => []
    case Install(t) => if t <= |s.lh| then s.lh[t..] else []
    case ReadHead => OnDisk(lay, s)
    case Reinstall(t) => if t <= |s.lh| then s.lh[t..] else []
  }

  predicate BeforeCommit(p: Phase) {
    p.Idle? || p.WriteLog?
  }

  /** Home block `b`: what the disk, the cache and the remembered contents say about it. */
  predicate HomeAt(lay: Layout, s: State, b: nat)
    requires Fits(lay, s) && b < lay.size
  {
    if BeforeCommit(s.phase) then
      && s.disk[b] == s.committed[b]
      && (if b in s.lh then b in s.cache && s.cache[b] == s.view[b]
          else s.view[b] == s.committed[b] && (b in s.cache ==> s.cache[b] == s.view[b]))
    else
      && s.view[b] == s.committed[b]
      && (b !in Pending(lay, s) ==> s.disk[b] == s.view[b] && (b in s.cache ==> s.cache[b] == s.view[b]))
      && (b in Pending(lay, s) && s.phase.Install? ==> b in s.cache && s.cache[b] == s.view[b])
  }

  /** Log block `i`: once written it holds the new contents of the i-th block of the list. */
  predicate LogAt(lay: Layout, s: State, i: nat)
    requires Fits(lay, s)
  {
    match s.phase
    case Idle => true
    case WriteLog(t) => i < t && i < |s.lh| ==> s.disk[lay.start + 1 + i] == s.view[s.lh[i]]
    case Install(_) => i < |s.lh| ==> s.disk[lay.start + 1 + i] == s.view[s.lh[i]]
    case ReadHead =>
      var l := OnDisk(lay, s);
      i < |l| && ListOk(lay, l) ==> s.disk[lay.start + 1 + i] == s.view[l[i]]
    case Reinstall(_) => i < |s.lh| ==> s.disk[lay.start + 1 + i] == s.view[s.lh[i]]
  }

  predicate PhaseOk(lay: Layout, s: State)
    requires Fits(lay, s)
  {
    && (s.phase != Idle ==> s.ops == [])
    && (BeforeCommit(s.phase) ==> OnDisk(lay, s) == [])
    && (!BeforeCommit(s.phase) ==> s.cut == |s.history|)
    && match s.phase
       case Idle => true
       case WriteLog(t) => t <= |s.lh|
       case Install(t) => t <= |s.lh| && OnDisk(lay, s) == s.lh
       case ReadHead => s.lh == []
       case Reinstall(t) => t <= |s.lh| && OnDisk(lay, s) == s.lh
  }

  /** No call has log_writes on both sides of the cut, and outstanding calls have none before it. */
  predicate CallsWhole(s: State) {
    && s.cut <= |s.history|
    && (forall i, j {:trigger s.history[i], s.history[j]} :: 0 <= i < s.cut <= j < |s.history| ==>
        s.history[i].op != s.history[j].op)
    && (forall i, k {:trigger s.history[i], s.ops[k]} :: 0 <= i < s.cut && 0 <= k < |s.ops| ==>
        s.history[i].op != s.ops[k].id)
    && (forall i :: 0 <= i < |s.history| ==> s.history[i].op < s.nextId)
    && (forall k :: 0 <= k < |s.ops| ==> s.ops[k].id < s.nextId)
  }

  /** Block contents after a list of log_writes. */
  function Apply(base: seq<Block>, h: seq<Entry>): (r: seq<Block>)
    ensures |r| == |base|
  {
    if h == [] then base
    else
      var r := Apply(base, h[..|h| - 1]);
      var e := h[|h| - 1];
      if e.b < |r| then r[e.b := e.v] else r
  }

  predicate HistoryOk(s: State) {
    && s.cut <= |s.history|
    && s.view == Apply(s.base, s.history)
    && s.committed == Apply(s.base, s.history[..s.cut])
  }

  ghost predicate Inv(lay: Layout, s: State) {
    && Fits(lay, s)
    && ListOk(lay, s.lh) && ListOk(lay, OnDisk(lay, s))
    && PhaseOk(lay, s)
    && CallsWhole(s)
    && HistoryOk(s)
    && (forall b: nat {:trigger HomeAt(lay, s, b)} :: IsHome(lay, b) ==> HomeAt(lay, s, b))
    && (forall i: nat {:trigger LogAt(lay, s, i)} :: LogAt(lay, s, i))
  }

  // ----- Every step keeps it -----

  lemma BeginKeeps(lay: Layout, s: State)
    requires Inv(lay, s) && MayBegin(s)
    ensures Inv(lay, Step(lay, s, BeginOp).s)
  {
    var s' := Step(lay, s, BeginOp).s;
    forall b: nat | IsHome(lay, b) ensures HomeAt(lay, s', b) { assert HomeAt(lay, s, b); }
    forall i: nat ensures LogAt(lay, s', i) { assert LogAt(lay, s, i); }
  }

  lemma LogWriteKeeps(lay: Layout, s: State, k: nat, b: nat, v: Block)
    requires Inv(lay, s) && Step(lay, s, LogWrite(k, b, v)).Next?
    ensures Inv(lay, Step(lay, s, LogWrite(k, b, v)).s)
  {
    hide CallsWhole, HistoryOk;
    var s' := Step(lay, s, LogWrite(k, b, v)).s;
    LogWriteHistory(s, k, b, v);
    forall c: nat | IsHome(lay, c) ensures HomeAt(lay, s', c) { assert HomeAt(lay, s, c); }
    forall i: nat ensures LogAt(lay, s', i) { assert LogAt(lay, s, i); }
  }

  lemma LogWriteHistory(s: State, k: nat, b: nat, v: Block)
    requires CallsWhole(s) && HistoryOk(s) && k < |s.ops| && b < |s.view|
    ensures CallsWhole(Logged(s, k, b, v)) && HistoryOk(Logged(s, k, b, v))
  {
    var s' := Logged(s, k, b, v);
    assert s'.history[..|s'.history| - 1] == s.history;
    assert s'.history[..s'.cut] == s.history[..s.cut];
    forall j | 0 <= j < |s'.ops| ensures s'.ops[j].id == s.ops[j].id {}
  }

  lemma EndKeeps(lay: Layout, s: State, k: nat)
    requires Inv(lay, s) && Step(lay, s, EndOp(k)).Next?
    ensures Inv(lay, Step(lay, s, EndOp(k)).s)
  {
    var s' := Step(lay, s, EndOp(k)).s;
    forall j | 0 <= j < |s'.ops| ensures s'.ops[j] == s.ops[if j < k then j else j + 1] {}
    forall b: nat | IsHome(lay, b) ensures HomeAt(lay, s', b) { assert HomeAt(lay, s, b); }
    forall i: nat ensures LogAt(lay, s', i) { assert LogAt(lay, s, i); }
  }

  lemma CacheKeeps(lay: Layout, s: State, e: Event)
    requires Inv(lay, s) && (e.Load? || e.Evict?) && Step(lay, s, e).Next?
    ensures Inv(lay, Step(lay, s, e).s)
  {
    var s' := Step(lay, s, e).s;
    forall b: nat | IsHome(lay, b) ensures HomeAt(lay, s', b) { assert HomeAt(lay, s, b); }
    forall i: nat ensures LogAt(lay, s', i) { assert LogAt(lay, s, i); }
  }

  lemma CrashKeeps(lay: Layout, s: State)
    requires Inv(lay, s)
    ensures Inv(lay, Step(lay, s, Crash).s)
  {
    var s' := Step(lay, s, Crash).s;
    assert s'.history[..s'.cut] == s'.history;
    forall b: nat | IsHome(lay, b) ensures HomeAt(lay, s', b) { assert HomeAt(lay, s, b); }
    forall i: nat ensures LogAt(lay, s', i) {
      assert LogAt(lay, s, i);
      if i < |OnDisk(lay, s)| { assert HomeAt(lay, s, OnDisk(lay, s)[i]); }
    }
  }

  lemma WriteLogKeeps(lay: Layout, s: State)
    requires Inv(lay, s) && s.phase.WriteLog? && s.phase.tail < |s.lh|
    ensures Inv(lay, Advanced(lay, s).s)
  {
    var t := s.phase.tail;
    var s' := Advanced(lay, s).s;
    forall b: nat | IsHome(lay, b) ensures HomeAt(lay, s', b) { assert HomeAt(lay, s, b); }
    assert HomeAt(lay, s, s.lh[t]);
    forall i: nat ensures LogAt(lay, s', i) { assert LogAt(lay, s, i); }
  }

  /** The step that commits: the header names the list, and all of the list is in the log. */
  lemma WriteHeadKeeps(lay: Layout, s: State)
    requires Inv(lay, s) && s.phase.WriteLog? && s.phase.tail == |s.lh|
    ensures Inv(lay, Advanced(lay, s).s)
  {
    var s' := Advanced(lay, s).s;
    HeadRoundTrip(s.disk[lay.start], s.lh);
    assert s'.history[..s'.cut] == s.history;
    assert s.lh[0..] == s.lh;
    forall b: nat | IsHome(lay, b) ensures HomeAt(lay, s', b) { assert HomeAt(lay, s, b); }
    forall i: nat ensures LogAt(lay, s', i) { assert LogAt(lay, s, i); }
  }

  lemma InstallKeeps(lay: Layout, s: State)
    requires Inv(lay, s) && (s.phase.Install? || s.phase.Reinstall?) && s.phase.tail < |s.lh|
    ensures Inv(lay, Advanced(lay, s).s)
  {
    hide CallsWhole, HistoryOk;
    var s' := Advanced(lay, s).s;
    assert IsHome(lay, s.lh[s.phase.tail]);
    SameHistory(s, s');
    forall b: nat | IsHome(lay, b) ensures HomeAt(lay, s', b) { InstallHome(lay, s, b); }
    forall i: nat ensures LogAt(lay, s', i) { assert LogAt(lay, s, i); }
  }

  lemma SameHistory(s: State, s': State)
    requires CallsWhole(s) && HistoryOk(s)
    requires s'.history == s.history && s'.cut == s.cut && s'.ops == s.ops && s'.nextId == s.nextId
    requires s'.base == s.base && s'.view == s.view && s'.committed == s.committed
    ensures CallsWhole(s') && HistoryOk(s')
  {
  }

  lemma InstallHome(lay: Layout, s: State, b: nat)
    requires Inv(lay, s) && (s.phase.Install? || s.phase.Reinstall?) && s.phase.tail < |s.lh| && IsHome(lay, b)
    requires Fits(lay, Advanced(lay, s).s)
    ensures HomeAt(lay, Advanced(lay, s).s, b)
  {
    hide Inv, HeadOk, DecodeHead, EncodeHead, ListOk, PhaseOk, Distinct, HomeAt, Pending;
    var t := s.phase.tail;
    PartsOf(lay, s, b, t);
    var s' := Advanced(lay, s).s;
    RestOfList(s.lh, t, b);
    PendingIs(lay, s, t);
    PendingIs(lay, s', t + 1);
    HomeInstalled(lay, s, s', b, t);
  }

  lemma PendingIs(lay: Layout, s: State, t: nat)
    requires Fits(lay, s) && (s.phase == Install(t) || s.phase == Reinstall(t)) && t <= |s.lh|
    ensures Pending(lay, s) == s.lh[t..] && !BeforeCommit(s.phase)
  {
  }

  lemma HomeInstalled(lay: Layout, s: State, s': State, b: nat, t: nat)
    requires Fits(lay, s) && Fits(lay, s') && b < lay.size && t < |s.lh| && s'.lh == s.lh && s'.view == s.view
    requires !BeforeCommit(s.phase) && !BeforeCommit(s'.phase) && (s'.phase.Install? <==> s.phase.Install?)
    requires Pending(lay, s) == s.lh[t..] && Pending(lay, s') == s.lh[t + 1..] && HomeAt(lay, s, b)
    requires b in s.lh[t..] <==> b == s.lh[t] || b in s.lh[t + 1..]
    requires s.lh[t] !in s.lh[t + 1..] && s'.committed == s.committed
    requires s'.disk == s.disk[s.lh[t] := s.view[s.lh[t]]] && s'.cache == s.cache[s.lh[t] := s.view[s.lh[t]]]
    ensures HomeAt(lay, s', b)
  {
    hide Pending, HeadOk;
  }

  /** What the invariant says of one home block and one block of the log. */
  lemma PartsOf(lay: Layout, s: State, b: nat, i: nat)
    requires Inv(lay, s) && IsHome(lay, b)
    ensures Fits(lay, s) && Distinct(s.lh) && HomeAt(lay, s, b) && LogAt(lay, s, i)
    ensures PhaseOk(lay, s) && ListOk(lay, OnDisk(lay, s))
  {
  }

  lemma RestOfList(l: seq<nat>, t: nat, b: nat)
    requires t < |l| && Distinct(l)
    ensures b in l[t..] <==> b == l[t] || b in l[t + 1..]
    ensures l[t] !in l[t + 1..]
  {
    assert l[t..] == [l[t]] + l[t + 1..];
  }

  lemma ClearKeeps(lay: Layout, s: State)
    requires Inv(lay, s) && (s.phase.Install? || s.phase.Reinstall?) && s.phase.tail == |s.lh|
    ensures Inv(lay, Advanced(lay, s).s)
  {
    var s' := Advanced(lay, s).s;
    HeadRoundTrip(s.disk[lay.start], []);
    forall b: nat | IsHome(lay, b) ensures HomeAt(lay, s', b) { assert HomeAt(lay, s, b); }
    forall i: nat ensures LogAt(lay, s', i) { assert LogAt(lay, s, i); }
  }

  lemma ReadHeadKeeps(lay: Layout, s: State)
    requires Inv(lay, s) && s.phase.ReadHead?
    ensures Inv(lay, Advanced(lay, s).s)
  {
    var s' := Advanced(lay, s).s;
    assert s'.lh[0..] == s'.lh;
    forall b: nat | IsHome(lay, b) ensures HomeAt(lay, s', b) { assert HomeAt(lay, s, b); }
    forall i: nat ensures LogAt(lay, s', i) { assert LogAt(lay, s, i); }
  }

  lemma StepKeeps(lay: Layout, s: State, e: Event)
    requires Inv(lay, s) && Step(lay, s, e).Next?
    ensures Inv(lay, Step(lay, s, e).s)
  {
    hide Inv, HomeAt, LogAt, CallsWhole, HistoryOk, ListOk;
    Opened(lay, s);
    match e
    case BeginOp => BeginKeeps(lay, s);
    case LogWrite(k, b, v) => LogWriteKeeps(lay, s, k, b, v);
    case EndOp(k) => EndKeeps(lay, s, k);
    case Load(_) => CacheKeeps(lay, s, e);
    case Evict(_) => CacheKeeps(lay, s, e);
    case Crash => CrashKeeps(lay, s);
    case Advance =>
      match s.phase
      case WriteLog(t) => if t < |s.lh| { WriteLogKeeps(lay, s); } else { WriteHeadKeeps(lay, s); }
      case Install(t) => if t < |s.lh| { InstallKeeps(lay, s); } else { ClearKeeps(lay, s); }
      case Reinstall(t) => if t < |s.lh| { InstallKeeps(lay, s); } else { ClearKeeps(lay, s); }
      case ReadHead => ReadHeadKeeps(lay, s);
  }

  lemma Opened(lay: Layout, s: State)
    requires Inv(lay, s)
    ensures Fits(lay, s) && PhaseOk(lay, s)
  {
  }

  /** The first `n` listed blocks have the contents of their log blocks, all blocks not listed their own. */
  predicate Homed(lay: Layout, lh: seq<nat>, was: seq<Block>, disk: seq<Block>, n: nat) {
    && |disk| == |was| == lay.size && n <= |lh| < lay.nlog && lay.start + lay.nlog <= lay.size
    && (forall i :: 0 <= i < |lh| ==> lh[i] < |disk|)
    && (forall i :: 0 <= i < n ==> disk[lh[i]] == was[lay.start + 1 + i])
    && (forall b :: 0 <= b < |disk| && b !in lh ==> disk[b] == was[b])
  }

  lemma NoneHomed(lay: Layout, lh: seq<nat>, disk: seq<Block>)
    requires ListOk(lay, lh) && |disk| == lay.size && 1 <= lay.nlog && lay.start + lay.nlog <= lay.size
    ensures Homed(lay, lh, disk, disk, 0)
  {
  }

  lemma HomedMore(lay: Layout, lh: seq<nat>, was: seq<Block>, disk: seq<Block>, n: nat)
    requires ListOk(lay, lh) && Homed(lay, lh, was, disk, n) && n < |lh|
    ensures Homed(lay, lh, was, disk[lh[n] := disk[lay.start + 1 + n]], n + 1)
  {
    assert lay.start + 1 + n !in lh;
  }

  /** Before the commit point every listed block is in the cache. */
  lemma ListedCached(lay: Layout, s: State)
    requires Inv(lay, s)
    ensures Fits(lay, s) && ListOk(lay, s.lh)
    ensures BeforeCommit(s.phase) ==> forall i :: 0 <= i < |s.lh| ==> s.lh[i] in s.cache
  {
    if BeforeCommit(s.phase) {
      forall i | 0 <= i < |s.lh| ensures s.lh[i] in s.cache { assert HomeAt(lay, s, s.lh[i]); }
    }
  }

  // ----- Runs -----

  /** The state after a run of events, or nothing if some event was refused. */
  function Run(lay: Layout, s: State, es: seq<Event>): Outcome {
    if es == [] then Next(s)
    else
      var r := Run(lay, s, es[..|es| - 1]);
      if r.Next? && Fits(lay, r.s) then Step(lay, r.s, es[|es| - 1]) else Refused
  }

  lemma {:induction false} RunKeeps(lay: Layout, s: State, es: seq<Event>)
    requires Inv(lay, s) && Run(lay, s, es).Next?
    ensures Inv(lay, Run(lay, s, es).s)
  {
    if es != [] {
      RunKeeps(lay, s, es[..|es| - 1]);
      StepKeeps(lay, Run(lay, s, es[..|es| - 1]).s, es[|es| - 1]);
    }
  }

  /** A disk as mkfs, or any earlier life of the system, may leave it: the header names distinct home
      blocks (none, on a new disk). What its log says counts as the initial contents. */
  predicate Bootable(lay: Layout, disk: seq<Block>) {
    && 1 <= lay.nlog && lay.start + lay.nlog <= lay.size == |disk|
    && HeadOk(disk[lay.start]) && ListOk(lay, DecodeHead(disk[lay.start]))
  }

  /** Home block `b` as the log on this disk would leave it. */
  function Recovered(lay: Layout, disk: seq<Block>, b: nat): Block
    requires Bootable(lay, disk) && b < lay.size
  {
    var l := DecodeHead(disk[lay.start]);
    if b in l then var i :| 0 <= i < |l| && l[i] == b; disk[lay.start + 1 + i] else disk[b]
  }

  function Boot(lay: Layout, disk: seq<Block>): State
    requires Bootable(lay, disk)
  {
    var base := seq(lay.size, b requires 0 <= b < lay.size => Recovered(lay, disk, b));
    State(disk, map[], [], [], ReadHead, 0, base, [], 0, base, base)
  }

  lemma BootInv(lay: Layout, disk: seq<Block>)
    requires Bootable(lay, disk)
    ensures Inv(lay, Boot(lay, disk))
  {
    var s := Boot(lay, disk);
    forall b: nat | IsHome(lay, b) ensures HomeAt(lay, s, b) {}
    forall i: nat ensures LogAt(lay, s, i) {
      var l := DecodeHead(disk[lay.start]);
      if i < |l| { assert IsHome(lay, l[i]); }
    }
  }

  // ----- Crash atomicity -----

  /** Whatever ran before, recovery from the disk as it is now yields, for every home block, the
      contents at the last completed header write: exactly the log_writes before the cut, and every
      call lies on one side of the cut. */
  lemma {:induction false} CrashAtomicity(lay: Layout, disk: seq<Block>, es: seq<Event>, b: nat)
    requires Bootable(lay, disk) && Run(lay, Boot(lay, disk), es).Next? && IsHome(lay, b)
    ensures var s := Run(lay, Boot(lay, disk), es).s;
            && Bootable(lay, s.disk) && s.cut <= |s.history| && |s.base| == lay.size
            && Recovered(lay, s.disk, b) == Apply(s.base, s.history[..s.cut])[b]
            && forall i, j :: 0 <= i < s.cut <= j < |s.history| ==> s.history[i].op != s.history[j].op
  {
    BootInv(lay, disk);
    RunKeeps(lay, Boot(lay, disk), es);
    RecoveredIsCommitted(lay, Run(lay, Boot(lay, disk), es).s, b);
  }

  lemma RecoveredIsCommitted(lay: Layout, s: State, b: nat)
    requires Inv(lay, s) && IsHome(lay, b)
    ensures Bootable(lay, s.disk) && Recovered(lay, s.disk, b) == s.committed[b]
  {
    hide Inv, DecodeHead, HeadOk;
    PartsOf(lay, s, b, 0);
    var l := OnDisk(lay, s);
    if b in l {
      RecoveredIs(lay, s.disk, b);
      var i: nat :| i < |l| && l[i] == b && Recovered(lay, s.disk, b) == s.disk[lay.start + 1 + i];
      PartsOf(lay, s, b, i);
    }
  }

  lemma RecoveredIs(lay: Layout, disk: seq<Block>, b: nat)
    requires Bootable(lay, disk) && b < lay.size && b in DecodeHead(disk[lay.start])
    ensures var l := DecodeHead(disk[lay.start]);
            exists i: nat :: i < |l| && l[i] == b && Recovered(lay, disk, b) == disk[lay.start + 1 + i]
  {
  }

  /** What the cut means: it moves only when a header write completes, it then covers everything
      logged so far, and no call is outstanding at that moment. */
  lemma OnlyHeaderWriteCommits(lay: Layout, s: State, e: Event)
    requires Inv(lay, s) && Step(lay, s, e).Next?
    ensures var s' := Step(lay, s, e).s;
            || (s'.cut == s.cut && s'.committed == s.committed && s'.history[..s.cut] == s.history[..s.cut])
            || (e == Advance && s.phase == WriteLog(|s.lh|) && s.ops == []
                && s'.cut == |s.history| && s'.history == s.history && s'.committed == s.view)
  {
    hide CallsWhole, HistoryOk, HomeAt, LogAt;
  }

  predicate RecoveryEvent(e: Event) {
    e.Crash? || e.Advance? || e.Load? || e.Evict?
  }

  /** A reboot, with any number of further crashes on the way, ends with the home blocks equal to the
      contents at the last commit. */
  lemma {:induction false} RecoveryRestores(lay: Layout, s: State, es: seq<Event>, b: nat)
    requires Inv(lay, s) && IsHome(lay, b)
    requires forall i :: 0 <= i < |es| ==> RecoveryEvent(es[i])
    requires var r := Run(lay, Step(lay, s, Crash).s, es); r.Next? && r.s.phase == Idle
    ensures var s' := Run(lay, Step(lay, s, Crash).s, es).s;
            |s'.disk| == |s.disk| == lay.size && s'.disk[b] == s.committed[b]
  {
    var c := Step(lay, s, Crash).s;
    CrashKeeps(lay, s);
    RecoveryCommitsNothing(lay, c, es);
    RunKeeps(lay, c, es);
    assert HomeAt(lay, Run(lay, c, es).s, b);
  }

  lemma {:induction false} RecoveryCommitsNothing(lay: Layout, s: State, es: seq<Event>)
    requires Inv(lay, s) && (s.phase.ReadHead? || s.phase.Reinstall? || (s.phase.Idle? && s.ops == []))
    requires Run(lay, s, es).Next? && forall i :: 0 <= i < |es| ==> RecoveryEvent(es[i])
    ensures var s' := Run(lay, s, es).s;
            && s'.committed == s.committed
            && (s'.phase.ReadHead? || s'.phase.Reinstall? || (s'.phase.Idle? && s'.ops == []))
  {
    hide CallsWhole, HistoryOk, HomeAt, LogAt;
    if es != [] {
      var pre := es[..|es| - 1];
      RecoveryCommitsNothing(lay, s, pre);
      RunKeeps(lay, s, pre);
      assert RecoveryEvent(es[|es| - 1]);
    }
  }

  /** Uninterrupted, recovery needs one step for the header, one per listed block and one to clear. */
  lemma {:induction false} RecoveryFinishes(lay: Layout, s: State, n: nat)
    requires Inv(lay, s) && s.phase == ReadHead && n <= |OnDisk(lay, s)| + 2
    ensures var r := Run(lay, s, seq(n, _ => Advance));
            && r.Next? && Inv(lay, r.s)
            && OnDisk(lay, r.s) == (if n == |OnDisk(lay, s)| + 2 then [] else OnDisk(lay, s))
            && r.s.phase == if n == 0 then ReadHead else if n == |OnDisk(lay, s)| + 2 then Idle else Reinstall(n - 1)
  {
    hide CallsWhole, HistoryOk, HomeAt, LogAt, ListOk;
    if n > 0 {
      RecoveryFinishes(lay, s, n - 1);
      var es := seq(n, _ => Advance);
      assert es[..n - 1] == seq(n - 1, _ => Advance);
      StepKeeps(lay, Run(lay, s, es[..n - 1]).s, Advance);
      HeadRoundTrip(Run(lay, s, es[..n - 1]).s.disk[lay.start], []);
    }
  }

  /** Once no call is outstanding and no commit is under way, everything logged is committed. */
  lemma QuietMeansDurable(lay: Layout, s: State, b: nat)
    requires Inv(lay, s) && s.phase == Idle && s.lh == [] && IsHome(lay, b)
    ensures s.disk[b] == s.committed[b] == s.view[b] == Read(s, b)
  {
    assert HomeAt(lay, s, b);
  }

  /** Except in recovery, bread returns what was logged last, also while a commit is under way. */
  lemma ReadsLatest(lay: Layout, s: State, b: nat)
    requires Inv(lay, s) && (BeforeCommit(s.phase) || s.phase.Install?) && IsHome(lay, b)
    ensures Read(s, b) == Apply(s.base, s.history)[b]
  {
    assert HomeAt(lay, s, b);
  }

  // ----- Waiting in begin_op -----

  /** Without calls and without a commit there is nothing in the log. */
  predicate RestsEmpty(s: State) {
    s.phase == Idle && s.ops == [] ==> s.lh == []
  }

  function ToGo(s: State, t: nat): nat {
    if t <= |s.lh| then |s.lh| - t else 0
  }

  /** The steps that outstanding calls and a commit or recovery still need until the log rests. */
  function Work(lay: Layout, s: State): nat
    requires Fits(lay, s)
  {
    match s.phase
    case Idle => |s.ops| + if s.ops != [] && s.lh != [] then 2 * |s.lh| + 2 else 0
    case WriteLog(t) => ToGo(s, t) + |s.lh| + 2
    case Install(t) => ToGo(s, t) + 1
    case ReadHead => |OnDisk(lay, s)| + 2
    case Reinstall(t) => ToGo(s, t) + 1
  }

  /** What can end the waiting: a call ends, or a commit or recovery goes on. */
  predicate Ending(e: Event) {
    e.EndOp? || e.Advance?
  }

  lemma RestsKeeps(lay: Layout, s: State, e: Event)
    requires Inv(lay, s) && RestsEmpty(s) && Step(lay, s, e).Next?
    ensures RestsEmpty(Step(lay, s, e).s)
  {
    hide CallsWhole, HistoryOk, HomeAt, LogAt, ListOk;
  }

  lemma EndingWorks(lay: Layout, s: State, e: Event)
    requires Inv(lay, s) && RestsEmpty(s) && Ending(e) && Step(lay, s, e).Next?
    ensures Inv(lay, Step(lay, s, e).s) && RestsEmpty(Step(lay, s, e).s)
    ensures Work(lay, Step(lay, s, e).s) == Work(lay, s) - 1
  {
    hide CallsWhole, HistoryOk, HomeAt, LogAt, ListOk;
    StepKeeps(lay, s, e);
    RestsKeeps(lay, s, e);
    var s' := Step(lay, s, e).s;
    if e.EndOp? {
      assert |s'.ops| == |s.ops| - 1;
    } else if s.phase == ReadHead {
      assert s'.lh == OnDisk(lay, s);
    }
  }

  /** begin_op lets a call in exactly when nothing is being committed or recovered and, with ten blocks for
      it and for each outstanding call on top of those listed, there are at most thirty. In particular a
      second call need not wait for the first. */
  lemma LetsIn(lay: Layout, s: State)
    requires Fits(lay, s)
    ensures Step(lay, s, BeginOp).Next? <==> s.phase == Idle && |s.lh| + 10 * (|s.ops| + 1) <= 30
    ensures s.phase == Idle && |s.ops| == 1 && |s.lh| <= 10 ==> Step(lay, s, BeginOp).Next?
    ensures Step(lay, s, BeginOp).Next? ==>
              Step(lay, s, BeginOp).s == s.(ops := s.ops + [Op(s.nextId, 0)], nextId := s.nextId + 1)
  {
  }

  /** A begin_op that has to wait waits for something: some call can end, or the commit can go on. And
      it is let in only where wakeup(&log) is called: when a call ends or a commit does. */
  lemma WaitsForSomething(lay: Layout, s: State, e: Event)
    requires Inv(lay, s) && RestsEmpty(s) && !MayBegin(s)
    ensures if s.phase == Idle then s.ops != [] && forall k :: 0 <= k < |s.ops| ==> Step(lay, s, EndOp(k)).Next?
            else Step(lay, s, Advance).Next?
    ensures Step(lay, s, e).Next? && MayBegin(Step(lay, s, e).s) ==>
              e.EndOp? || (e.Advance? && Step(lay, s, e).s.phase == Idle)
  {
    hide CallsWhole, HistoryOk, HomeAt, LogAt, ListOk;
  }

  lemma {:induction false} RestsAlways(lay: Layout, s: State, es: seq<Event>)
    requires Inv(lay, s) && RestsEmpty(s) && Run(lay, s, es).Next?
    ensures Inv(lay, Run(lay, s, es).s) && RestsEmpty(Run(lay, s, es).s)
  {
    hide Inv, RestsEmpty;
    RunKeeps(lay, s, es);
    if es != [] {
      var pre := es[..|es| - 1];
      RestsAlways(lay, s, pre);
      RestsKeeps(lay, Run(lay, s, pre).s, es[|es| - 1]);
    }
  }

  lemma {:induction false} WorkEnds(lay: Layout, s: State, es: seq<Event>)
    requires Inv(lay, s) && RestsEmpty(s) && Run(lay, s, es).Next?
    requires forall i :: 0 <= i < |es| ==> Ending(es[i])
    ensures Fits(lay, s) && Fits(lay, Run(lay, s, es).s)
    ensures Work(lay, Run(lay, s, es).s) == Work(lay, s) - |es|
  {
    Opened(lay, s);
    RestsAlways(lay, s, es);
    Opened(lay, Run(lay, s, es).s);
    hide Inv, RestsEmpty, Work;
    if es != [] {
      var pre := es[..|es| - 1];
      RestsAlways(lay, s, pre);
      WorkEnds(lay, s, pre);
      EndingWorks(lay, Run(lay, s, pre).s, es[|es| - 1]);
    }
  }

  /** After any run, with any crashes: if from now on only calls end and the commit goes on, in whatever
      order, that is over after exactly Work steps, and then begin_op is let in. */
  lemma BeginOpGetsIn(lay: Layout, disk: seq<Block>, before: seq<Event>, es: seq<Event>)
    requires Bootable(lay, disk) && Run(lay, Boot(lay, disk), before).Next?
    requires Run(lay, Run(lay, Boot(lay, disk), before).s, es).Next?
    requires forall i :: 0 <= i < |es| ==> Ending(es[i])
    ensures var s := Run(lay, Boot(lay, disk), before).s;
      && Fits(lay, s) && |es| <= Work(lay, s) && (|es| == Work(lay, s) ==> MayBegin(Run(lay, s, es).s))
  {
    BootInv(lay, disk);
    RestsAlways(lay, Boot(lay, disk), before);
    var s := Run(lay, Boot(lay, disk), before).s;
    WorkEnds(lay, s, es);
    RestsAlways(lay, s, es);
  }

  // ----- Log space -----

  /** What the outstanding calls may still add. */
  function Unspent(ops: seq<Op>): int {
    if ops == [] then 0 else Unspent(ops[..|ops| - 1]) + (MAXOPBLOCKS - ops[|ops| - 1].used)
  }

  /** The caller's promise: a call adds at most MAXOPBLOCKS blocks. */
  predicate KeepsPromise(s: State, e: Event) {
    e.LogWrite? && e.k < |s.ops| && e.b !in s.lh ==> s.ops[e.k].used < MAXOPBLOCKS
  }

  predicate Reserved(s: State) {
    && (forall k :: 0 <= k < |s.ops| ==> s.ops[k].used <= MAXOPBLOCKS)
    && |s.lh| + Unspent(s.ops) <= LOGSIZE
  }

  lemma {:induction false} UnspentBounds(ops: seq<Op>)
    requires forall k :: 0 <= k < |ops| ==> ops[k].used <= MAXOPBLOCKS
    ensures 0 <= Unspent(ops) <= |ops| * MAXOPBLOCKS
  {
    if ops != [] { UnspentBounds(ops[..|ops| - 1]); }
  }

  lemma {:induction false} UnspentUpdate(ops: seq<Op>, k: nat, op: Op)
    requires k < |ops|
    ensures Unspent(ops[k := op]) == Unspent(ops) + ops[k].used - op.used
  {
    var n := |ops| - 1;
    var u := ops[k := op];
    if k == n {
      assert u[..n] == ops[..n];
    } else {
      assert u[..n] == ops[..n][k := op];
      UnspentUpdate(ops[..n], k, op);
    }
  }

  lemma {:induction false} UnspentRemove(ops: seq<Op>, k: nat)
    requires k < |ops|
    ensures Unspent(Remove(ops, k)) == Unspent(ops) - (MAXOPBLOCKS - ops[k].used)
  {
    var n := |ops| - 1;
    var u := Remove(ops, k);
    if k == n {
      assert u == ops[..n];
    } else {
      assert u[..|u| - 1] == Remove(ops[..n], k);
      UnspentRemove(ops[..n], k);
    }
  }

  lemma WriteReserves(s: State, k: nat, b: nat, v: Block)
    requires Reserved(s) && k < |s.ops| && b < |s.view| && (b !in s.lh ==> s.ops[k].used < MAXOPBLOCKS)
    ensures Reserved(Logged(s, k, b, v))
  {
    UnspentUpdate(s.ops, k, Op(s.ops[k].id, s.ops[k].used + 1));
  }

  lemma EndReserves(s: State, k: nat, p: Phase)
    requires Reserved(s) && k < |s.ops|
    ensures Reserved(s.(ops := Remove(s.ops, k), phase := p))
  {
    UnspentRemove(s.ops, k);
    var ops := Remove(s.ops, k);
    forall j | 0 <= j < |ops| ensures ops[j] == s.ops[if j < k then j else j + 1] {}
  }

  lemma BeginReserves(s: State)
    requires Reserved(s) && MayBegin(s)
    ensures Reserved(s.(ops := s.ops + [Op(s.nextId, 0)], nextId := s.nextId + 1))
  {
    UnspentBounds(s.ops);
    assert (s.ops + [Op(s.nextId, 0)])[..|s.ops|] == s.ops;
  }

  /** Calls that keep their promise never outgrow the log: what is logged plus what the outstanding
      calls may still add stays within LOGSIZE. */
  lemma ReservationKeeps(lay: Layout, s: State, e: Event)
    requires Inv(lay, s) && Step(lay, s, e).Next? && Reserved(s) && KeepsPromise(s, e)
    ensures Reserved(Step(lay, s, e).s)
  {
    hide Inv, HomeAt, LogAt, CallsWhole, HistoryOk, ListOk, PhaseOk, Advanced;
    Opened(lay, s);
    match e
    case BeginOp => BeginReserves(s);
    case LogWrite(k, b, v) => WriteReserves(s, k, b, v);
    case EndOp(k) => EndReserves(s, k, Step(lay, s, e).s.phase);
    case Advance => AdvanceShrinksLog(lay, s);
    case _ => UnspentBounds(s.ops);
  }

  lemma AdvanceShrinksLog(lay: Layout, s: State)
    requires Inv(lay, s) && Advanced(lay, s).Next?
    ensures var s' := Advanced(lay, s).s; s'.ops == s.ops == [] && |s'.lh| <= LOGSIZE
  {
    hide HomeAt, LogAt, CallsWhole, HistoryOk;
  }

  /** Every log_write of the run keeps the promise. */
  ghost predicate Promised(lay: Layout, s: State, es: seq<Event>) {
    es == [] ||
    (var pre := es[..|es| - 1];
     Promised(lay, s, pre) && (Run(lay, s, pre).Next? ==> KeepsPromise(Run(lay, s, pre).s, es[|es| - 1])))
  }

  lemma {:induction false} ReservationHolds(lay: Layout, disk: seq<Block>, es: seq<Event>)
    requires Bootable(lay, disk) && Run(lay, Boot(lay, disk), es).Next? && Promised(lay, Boot(lay, disk), es)
    ensures Reserved(Run(lay, Boot(lay, disk), es).s)
  {
    if es != [] {
      var pre := es[..|es| - 1];
      ReservationHolds(lay, disk, pre);
      BootInv(lay, disk);
      RunKeeps(lay, Boot(lay, disk), pre);
      ReservationKeeps(lay, Run(lay, Boot(lay, disk), pre).s, es[|es| - 1]);
    }
  }

  /** In every run of promise-keeping calls, a call that may still add a block can log any block, a new
      one or one that is listed already. */
  ghost predicate NeverTooBig(lay: Layout) {
    forall disk, es, k: nat {:trigger MayAdd(lay, disk, es, k)} ::
      MayAdd(lay, disk, es, k) ==> !TooBig(lay, Run(lay, Boot(lay, disk), es).s)
  }

  ghost predicate MayAdd(lay: Layout, disk: seq<Block>, es: seq<Event>, k: nat) {
    && Bootable(lay, disk)
    && Promised(lay, Boot(lay, disk), es)
    && var r := Run(lay, Boot(lay, disk), es);
       r.Next? && k < |r.s.ops| && r.s.ops[k].used < MAXOPBLOCKS
  }

  /** That is so exactly when the log has more than LOGSIZE blocks. mkfs makes it LOGSIZE blocks long
      (mkfs/mkfs.c:30), one short, because the header takes one. */
  lemma NeverTooBigExactly(lay: Layout)
    requires 1 <= lay.nlog && lay.start + lay.nlog <= lay.size && lay.nlog + LOGSIZE <= lay.size
    ensures NeverTooBig(lay) <==> lay.nlog > LOGSIZE
  {
    if lay.nlog > LOGSIZE {
      forall disk, es, k: nat | MayAdd(lay, disk, es, k)
        ensures !TooBig(lay, Run(lay, Boot(lay, disk), es).s)
      {
        ReservationHolds(lay, disk, es);
        UnspentCovers(Run(lay, Boot(lay, disk), es).s.ops, k);
      }
    } else {
      var n := lay.nlog - 1;
      var disk := BlankDisk(lay);
      var es := FillRun(lay, n);
      var s := Run(lay, Boot(lay, disk), es).s;
      assert s.ops[n / 10].used == n % 10;
      assert MayAdd(lay, disk, es, n / 10);
    }
  }

  lemma {:induction false} UnspentCovers(ops: seq<Op>, k: nat)
    requires k < |ops| && forall j :: 0 <= j < |ops| ==> ops[j].used <= MAXOPBLOCKS
    ensures MAXOPBLOCKS - ops[k].used <= Unspent(ops)
  {
    UnspentBounds(ops[..|ops| - 1]);
    if k < |ops| - 1 { UnspentCovers(ops[..|ops| - 1], k); }
  }

  /** Even with a longer log, a full log refuses to absorb: log_write checks the size first, so it
      panics although the block is listed already. */
  lemma FullLogRefusesAbsorption(lay: Layout) returns (disk: seq<Block>, es: seq<Event>)
    requires lay.nlog > LOGSIZE && lay.start + lay.nlog <= lay.size && lay.nlog + LOGSIZE <= lay.size
    ensures Bootable(lay, disk) && Promised(lay, Boot(lay, disk), es)
    ensures var r := Run(lay, Boot(lay, disk), es);
            && r.Next? && Fits(lay, r.s) && r.s.phase == Idle && |r.s.ops| == 3 && |r.s.lh| == LOGSIZE
            && forall k: nat, b: nat, v: Block :: b in r.s.lh ==> Step(lay, r.s, LogWrite(k, b, v)) == Refused
  {
    disk := BlankDisk(lay);
    es := FillRun(lay, LOGSIZE);
  }

  /** But with a longer log that takes a full list, and then every outstanding call has spent its whole
      reservation. */
  lemma RefusedOnlyWhenSpent(lay: Layout, disk: seq<Block>, es: seq<Event>, k: nat, b: nat, v: Block)
    requires Bootable(lay, disk) && Promised(lay, Boot(lay, disk), es) && lay.nlog > LOGSIZE
    requires var r := Run(lay, Boot(lay, disk), es);
      && r.Next? && Fits(lay, r.s) && r.s.phase == Idle && k < |r.s.ops| && IsHome(lay, b) && |v| == BWORDS
    ensures var s := Run(lay, Boot(lay, disk), es).s;
      && (Step(lay, s, LogWrite(k, b, v)) == Refused <==> |s.lh| == LOGSIZE)
      && (|s.lh| == LOGSIZE ==> forall j :: 0 <= j < |s.ops| ==> s.ops[j].used == MAXOPBLOCKS)
  {
    var s := Run(lay, Boot(lay, disk), es).s;
    ReservationHolds(lay, disk, es);
    forall j | 0 <= j < |s.ops| && |s.lh| == LOGSIZE ensures s.ops[j].used == MAXOPBLOCKS {
      UnspentCovers(s.ops, j);
    }
  }

  /** In every run of promise-keeping calls, a commit starts with fewer blocks listed than there are buffers;
      write_log needs one more than those pinned. */
  ghost predicate AlwaysABuffer(lay: Layout) {
    forall disk, es {:trigger Commits(lay, disk, es)} ::
      Commits(lay, disk, es) ==> |Run(lay, Boot(lay, disk), es).s.lh| < NBUF
  }

  ghost predicate Commits(lay: Layout, disk: seq<Block>, es: seq<Event>) {
    && Bootable(lay, disk)
    && Promised(lay, Boot(lay, disk), es)
    && var r := Run(lay, Boot(lay, disk), es);
       r.Next? && r.s.phase == WriteLog(0)
  }

  /** That is so exactly when the log has at most LOGSIZE blocks. */
  lemma AlwaysABufferExactly(lay: Layout)
    requires 1 <= lay.nlog && lay.start + lay.nlog <= lay.size && lay.nlog + LOGSIZE <= lay.size
    ensures AlwaysABuffer(lay) <==> lay.nlog <= LOGSIZE
  {
    if lay.nlog <= LOGSIZE {
      forall disk, es | Commits(lay, disk, es) ensures |Run(lay, Boot(lay, disk), es).s.lh| < NBUF {
        BootInv(lay, disk);
        RunKeeps(lay, Boot(lay, disk), es);
        Opened(lay, Run(lay, Boot(lay, disk), es).s);
      }
    } else {
      var es := FullCommit(lay);
      assert Commits(lay, BlankDisk(lay), es);
    }
  }

  lemma FullCommit(lay: Layout) returns (es: seq<Event>)
    requires lay.nlog > LOGSIZE && lay.start + lay.nlog <= lay.size && lay.nlog + LOGSIZE <= lay.size
    ensures Commits(lay, BlankDisk(lay), es) && |Run(lay, Boot(lay, BlankDisk(lay)), es).s.lh| == NBUF
  {
    var boot := Boot(lay, BlankDisk(lay));
    es := FillRun(lay, LOGSIZE);
    BootInv(lay, BlankDisk(lay));
    RunKeeps(lay, boot, es);
    es := AllEnd(lay, boot, es, Run(lay, boot, es).s);
  }

  lemma AllEnd(lay: Layout, boot: State, es: seq<Event>, s: State) returns (es': seq<Event>)
    requires Inv(lay, boot) && Inv(lay, s) && Promised(lay, boot, es) && Run(lay, boot, es) == Next(s)
    requires s.phase == Idle && |s.ops| == 3 && s.lh != []
    ensures Promised(lay, boot, es') && Run(lay, boot, es').Next?
    ensures Run(lay, boot, es').s.phase == WriteLog(0) && Run(lay, boot, es').s.lh == s.lh
  {
    hide Inv, Run, Promised;
    Opened(lay, s);
    var s';
    es', s' := Then(lay, boot, es, s, EndOp(0));
    es', s' := Then(lay, boot, es', s', EndOp(0));
    es', s' := Then(lay, boot, es', s', EndOp(0));
  }

  /** So for no length of the log are promise-keeping calls safe from both panics, "too big a transaction" and
      "bget: no buffers". */
  lemma OneOfTwoPanics(lay: Layout)
    requires 1 <= lay.nlog && lay.start + lay.nlog <= lay.size && lay.nlog + LOGSIZE <= lay.size
    ensures !(NeverTooBig(lay) && AlwaysABuffer(lay))
  {
    NeverTooBigExactly(lay);
    AlwaysABufferExactly(lay);
  }

  // ----- A run that fills the log -----

  function BlankDisk(lay: Layout): (d: seq<Block>)
    requires 1 <= lay.nlog && lay.start + lay.nlog <= lay.size
    ensures Bootable(lay, d) && DecodeHead(d[lay.start]) == []
  {
    seq(lay.size, _ => seq(BWORDS, _ => 0))
  }

  function HomeNo(lay: Layout, i: nat): nat {
    if i < lay.start then i else i + lay.nlog
  }

  function Clamp(x: int): nat {
    if x < 0 then 0 else if x > 10 then 10 else x
  }

  /** Three calls that have added `n` blocks between them, ten each at most. */
  function ThreeOps(n: nat): seq<Op> {
    [Op(0, Clamp(n)), Op(1, Clamp(n - 10)), Op(2, Clamp(n - 20))]
  }

  predicate Filled(lay: Layout, s: State, n: nat) {
    && Fits(lay, s) && s.phase == Idle && s.ops == ThreeOps(n)
    && |s.lh| == n && forall i :: 0 <= i < n ==> s.lh[i] == HomeNo(lay, i)
  }

  lemma {:induction false} FillRun(lay: Layout, n: nat) returns (es: seq<Event>)
    requires 1 <= lay.nlog && lay.start + lay.nlog <= lay.size && lay.nlog + LOGSIZE <= lay.size
    requires n <= LOGSIZE && n <= lay.nlog - 1
    ensures var b := Boot(lay, BlankDisk(lay));
            Promised(lay, b, es) && Run(lay, b, es).Next? && Filled(lay, Run(lay, b, es).s, n)
  {
    var boot := Boot(lay, BlankDisk(lay));
    BootInv(lay, BlankDisk(lay));
    if n == 0 {
      es := ThreeBegins(lay, boot);
    } else {
      var pre := FillRun(lay, n - 1);
      var e := LogWrite((n - 1) / 10, HomeNo(lay, n - 1), seq(BWORDS, _ => 0));
      var s := Run(lay, boot, pre).s;
      es := pre + [e];
      assert es[..|es| - 1] == pre;
      RunKeeps(lay, boot, pre);
      FillStep(lay, s, n);
      StepKeeps(lay, s, e);
    }
  }

  lemma FillStep(lay: Layout, s: State, n: nat)
    requires 0 < n <= LOGSIZE && n <= lay.nlog - 1 && lay.nlog + LOGSIZE <= lay.size && Filled(lay, s, n - 1)
    ensures var e := LogWrite((n - 1) / 10, HomeNo(lay, n - 1), seq(BWORDS, _ => 0));
            KeepsPromise(s, e) && Step(lay, s, e).Next? &&
            (Fits(lay, Step(lay, s, e).s) ==> Filled(lay, Step(lay, s, e).s, n))
  {
    assert HomeNo(lay, n - 1) !in s.lh;
  }

  lemma ThreeBegins(lay: Layout, boot: State) returns (es: seq<Event>)
    requires Inv(lay, boot) && boot.phase == ReadHead && OnDisk(lay, boot) == [] && boot.ops == [] && boot.nextId == 0
    ensures Promised(lay, boot, es) && Run(lay, boot, es).Next? && Filled(lay, Run(lay, boot, es).s, 0)
  {
    hide Inv, Run, Promised, HeadOk, DecodeHead, EncodeHead, Advanced;
    var s;
    es, s := ToIdle(lay, boot);
    es, s := Then(lay, boot, es, s, BeginOp);
    es, s := Then(lay, boot, es, s, BeginOp);
    es, s := Then(lay, boot, es, s, BeginOp);
  }

  lemma ToIdle(lay: Layout, boot: State) returns (es: seq<Event>, s: State)
    requires Inv(lay, boot) && boot.phase == ReadHead && OnDisk(lay, boot) == [] && boot.ops == [] && boot.nextId == 0
    ensures Promised(lay, boot, es) && Run(lay, boot, es) == Next(s) && Inv(lay, s) && Fits(lay, s)
    ensures s.phase == Idle && s.lh == [] && s.ops == [] && s.nextId == 0
  {
    assert Run(lay, boot, []) == Next(boot) && Promised(lay, boot, []);
    hide Inv, Run, Promised;
    Opened(lay, boot);
    es, s := Then(lay, boot, [], boot, Advance);
    es, s := Then(lay, boot, es, s, Advance);
  }

  lemma Then(lay: Layout, boot: State, es: seq<Event>, s: State, e: Event) returns (es': seq<Event>, s': State)
    requires Inv(lay, boot) && Inv(lay, s) && Promised(lay, boot, es) && Run(lay, boot, es) == Next(s)
    requires Step(lay, s, e).Next? && !e.LogWrite?
    ensures s' == Step(lay, s, e).s && Inv(lay, s') && Promised(lay, boot, es') && Run(lay, boot, es') == Next(s')
    ensures Fits(lay, s')
  {
    es' := es + [e];
    assert es'[..|es'| - 1] == es;
    s' := Step(lay, s, e).s;
    StepKeeps(lay, s, e);
  }
}
