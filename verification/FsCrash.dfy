/** The file system on the log: calls change the file system and write what they changed through the log,
    the log commits and recovers, and the machine may crash between any two disk writes. Any number of
    calls may be outstanding, and those that have ended are committed together. */
module FsCrash {
  import opened Bytes
  import opened FsModel
  import opened FsLogged
  import opened FsWords
  import opened Wrappers
  import F = Fs
  import L = LogModel

  /** A log_write of a call. */
  type Write = (nat, Words)

  /** The state of the log, the file system now, and the file system at the last commit, with their
      owners. */
  datatype Sys = Sys(s: L.State, d: Disk, o: Owners, d0: Disk, o0: Owners)

  datatype Deed =
    | Log(e: L.Event)                                  // a step of the log other than a log_write, or a crash
    | Act(k: nat, ws: seq<Write>, d: Disk, o: Owners)  // call k changes the file system and logs the change
    | Broken(es: seq<L.Event>)                         // any steps of calls, and then a crash

  // ----- A call in the log -----

  function Writes(k: nat, ws: seq<Write>): seq<L.Event> {
    seq(|ws|, i requires 0 <= i < |ws| => L.LogWrite(k, ws[i].0, ws[i].1))
  }

  predicate WritesOk(lay: L.Layout, ws: seq<Write>) {
    forall i :: 0 <= i < |ws| ==> L.IsHome(lay, ws[i].0) && |ws[i].1| == L.BWORDS
  }

  /** The blocks after the writes. */
  function Rewritten(raw: seq<Words>, ws: seq<Write>): (r: seq<Words>)
    ensures |r| == |raw|
  {
    if ws == [] then raw
    else
      var r := Rewritten(raw, ws[..|ws| - 1]);
      var x := ws[|ws| - 1];
      if x.0 < |r| then r[x.0 := x.1] else r
  }

  /** No later write is of the same block. */
  predicate Last(ws: seq<Write>, i: nat)
    requires i < |ws|
  {
    forall j :: i < j < |ws| ==> ws[j].0 != ws[i].0
  }

  lemma {:induction false} RewrittenAt(raw: seq<Words>, ws: seq<Write>, b: nat)
    requires b < |raw|
    ensures (forall i :: 0 <= i < |ws| ==> ws[i].0 != b) ==> Rewritten(raw, ws)[b] == raw[b]
    ensures forall i {:trigger Last(ws, i)} :: 0 <= i < |ws| && ws[i].0 == b && Last(ws, i) ==>
              Rewritten(raw, ws)[b] == ws[i].1
  {
    if ws != [] {
      var n := |ws| - 1;
      var pre := ws[..n];
      RewrittenAt(raw, pre, b);
      forall i {:trigger Last(ws, i)} | 0 <= i < |ws| && ws[i].0 == b && Last(ws, i)
        ensures Rewritten(raw, ws)[b] == ws[i].1
      {
        if i < n {
          assert pre[i] == ws[i] && ws[n].0 != b;
          assert Last(pre, i);
        }
      }
    }
  }

  /** A block that is written is written a last time. */
  lemma {:induction false} LastWrite(ws: seq<Write>, b: nat, i: nat) returns (j: nat)
    requires i < |ws| && ws[i].0 == b
    ensures j < |ws| && ws[j].0 == b && Last(ws, j)
    decreases |ws| - i
  {
    if Last(ws, i) {
      j := i;
    } else {
      var n :| i < n < |ws| && ws[n].0 == ws[i].0;
      j := LastWrite(ws, b, n);
    }
  }

  /** The state `s'` after a call has logged `ws`. */
  predicate AfterWrites(s: L.State, s': L.State, ws: seq<Write>) {
    && s'.phase == s.phase && |s'.ops| == |s.ops|
    && s'.view == Rewritten(s.view, ws) && s'.committed == s.committed
    && s.lh <= s'.lh && |s'.lh| <= |s.lh| + |ws| && (ws != [] ==> s'.lh != [])
    && forall j :: |s.lh| <= j < |s'.lh| ==> exists i :: 0 <= i < |ws| && ws[i].0 == s'.lh[j]
  }

  /** If no log_write is refused, the blocks written are the new view, still uncommitted. */
  lemma {:induction false} WritesDo(lay: L.Layout, s: L.State, k: nat, ws: seq<Write>)
    requires L.Inv(lay, s) && L.Run(lay, s, Writes(k, ws)).Next?
    ensures L.Inv(lay, L.Run(lay, s, Writes(k, ws)).s) && AfterWrites(s, L.Run(lay, s, Writes(k, ws)).s, ws)
  {
    hide L.HomeAt, L.LogAt, L.CallsWhole, L.HistoryOk, L.ListOk;
    var es := Writes(k, ws);
    L.RunKeeps(lay, s, es);
    if ws != [] {
      var n := |ws| - 1;
      assert es[..n] == Writes(k, ws[..n]);
      WritesDo(lay, s, k, ws[..n]);
      MoreWrites(s, L.Run(lay, s, es[..n]).s, L.Run(lay, s, es).s, k, ws);
    }
  }

  lemma MoreWrites(s: L.State, s1: L.State, s2: L.State, k: nat, ws: seq<Write>)
    requires ws != [] && AfterWrites(s, s1, ws[..|ws| - 1]) && k < |s1.ops| && ws[|ws| - 1].0 < |s1.view|
    requires s2 == L.Logged(s1, k, ws[|ws| - 1].0, ws[|ws| - 1].1)
    ensures AfterWrites(s, s2, ws)
  {
    var n := |ws| - 1;
    forall j | |s.lh| <= j < |s2.lh| ensures exists i :: 0 <= i < |ws| && ws[i].0 == s2.lh[j] {
      if j < |s1.lh| {
        var i :| 0 <= i < n && ws[..n][i].0 == s1.lh[j];
        assert ws[i].0 == s2.lh[j];
      } else {
        assert ws[n].0 == s2.lh[j];
      }
    }
  }

  /** The log has room for `n` more blocks. */
  predicate RoomFor(lay: L.Layout, s: L.State, n: nat) {
    |s.lh| + n <= L.LOGSIZE && |s.lh| + n < lay.nlog
  }

  lemma {:induction false} DistinctIn(q: seq<nat>, l: set<nat>)
    requires L.Distinct(q) && forall i :: 0 <= i < |q| ==> q[i] in l
    ensures |q| <= |l|
  {
    if q != [] {
      var n := |q| - 1;
      DistinctIn(q[..n], l - {q[n]});
    }
  }

  /** The list grows by at most the blocks written. */
  lemma ListGrows(s: L.State, s': L.State, ws: seq<Write>, l: set<nat>)
    requires AfterWrites(s, s', ws) && L.Distinct(s'.lh) && forall i :: 0 <= i < |ws| ==> ws[i].0 in l
    ensures |s'.lh| <= |s.lh| + |l|
  {
    DistinctIn(s'.lh[|s.lh|..], l);
  }

  /** Where there is room, an outstanding call that logs the blocks of `l` is not refused. If it logs some of
      them again there must be room for one more, because log_write looks at the size first. */
  lemma {:induction false} WritesGoThrough(lay: L.Layout, s: L.State, k: nat, ws: seq<Write>, l: set<nat>)
    requires L.Inv(lay, s) && s.phase == L.Idle && k < |s.ops| && WritesOk(lay, ws)
    requires forall i :: 0 <= i < |ws| ==> ws[i].0 in l
    requires RoomFor(lay, s, if |ws| <= |l| then |l| else |l| + 1)
    ensures L.Run(lay, s, Writes(k, ws)).Next?
  {
    hide L.Inv, L.Logged, Rewritten;
    if ws != [] {
      var n := |ws| - 1;
      var es := Writes(k, ws);
      assert es[..n] == Writes(k, ws[..n]);
      WritesGoThrough(lay, s, k, ws[..n], l);
      WritesDo(lay, s, k, ws[..n]);
      var s1 := L.Run(lay, s, es[..n]).s;
      ListDistinct(lay, s1);
      L.Opened(lay, s1);
      ListGrows(s, s1, ws[..n], l);
      assert L.IsHome(lay, ws[n].0);
    }
  }

  lemma ListDistinct(lay: L.Layout, s: L.State)
    requires L.Inv(lay, s)
    ensures L.Distinct(s.lh)
  {
  }

  /** There is room for the whole reservation of a call that has not logged anything yet, if all calls keep
      their promise and the log is long enough. */
  lemma NewCallHasRoom(lay: L.Layout, s: L.State, k: nat)
    requires L.Reserved(s) && k < |s.ops| && s.ops[k].used == 0 && lay.nlog > L.LOGSIZE
    ensures RoomFor(lay, s, L.MAXOPBLOCKS)
  {
    L.UnspentCovers(s.ops, k);
  }

  /** Nothing is going on. */
  predicate Resting(s: L.State) {
    s.phase == L.Idle && s.ops == [] && s.lh == []
  }

  function CallEvents(ws: seq<Write>): seq<L.Event> {
    [L.BeginOp] + Writes(0, ws) + [L.EndOp(0)]
  }

  /** A call alone on a resting log runs to its end; what it wrote is the new view, still uncommitted. */
  lemma CallRuns(lay: L.Layout, s: L.State, ws: seq<Write>)
    requires L.Inv(lay, s) && Resting(s) && WritesOk(lay, ws) && lay.nlog > L.MAXOPBLOCKS + 1
    requires |set i | 0 <= i < |ws| :: ws[i].0| <= L.MAXOPBLOCKS
    ensures var r := L.Run(lay, s, CallEvents(ws));
      && r.Next? && L.Inv(lay, r.s) && r.s.ops == []
      && r.s.view == Rewritten(s.view, ws) && r.s.committed == s.committed
      && (if ws == [] then Resting(r.s) else r.s.phase == L.WriteLog(0))
  {
    hide L.HomeAt, L.LogAt, L.CallsWhole, L.HistoryOk, L.ListOk;
    L.Opened(lay, s);
    L.StepKeeps(lay, s, L.BeginOp);
    var s1 := L.Step(lay, s, L.BeginOp).s;
    var l := set i | 0 <= i < |ws| :: ws[i].0;
    WritesGoThrough(lay, s1, 0, ws, l);
    WritesDo(lay, s1, 0, ws);
    var s2 := L.Run(lay, s1, Writes(0, ws)).s;
    L.Opened(lay, s2);
    L.StepKeeps(lay, s2, L.EndOp(0));
    assert L.Remove(s2.ops, 0) == [];
    RunFrom(lay, s, L.BeginOp, Writes(0, ws));
    var es := CallEvents(ws);
    assert es[..|es| - 1] == [L.BeginOp] + Writes(0, ws);
  }

  lemma {:induction false} RunFrom(lay: L.Layout, s: L.State, e: L.Event, es: seq<L.Event>)
    requires L.Fits(lay, s) && L.Step(lay, s, e).Next?
    ensures L.Run(lay, s, [e] + es) == L.Run(lay, L.Step(lay, s, e).s, es)
  {
    var all := [e] + es;
    if es == [] {
      assert all == [e] && all[..0] == [];
    } else {
      assert all[..|all| - 1] == [e] + es[..|es| - 1];
      RunFrom(lay, s, e, es[..|es| - 1]);
    }
  }

  // ----- The whole -----

  ghost predicate FsOk(g: Area, d: Disk, o: Owners) {
    Inv(d, o, g.dataStart, {}, {}) && AllFilled(d) && AreaOk(g, d)
  }

  /** The log is sound and holds the file system, committed and not. */
  ghost predicate Sound(lay: L.Layout, g: Area, x: Sys) {
    && L.Inv(lay, x.s) && lay.start + lay.nlog <= g.inodeStart
    && |x.d.used| == |x.d0.used| == lay.size
    && FsOk(g, x.d, x.o) && FsOk(g, x.d0, x.o0)
    && Stores(g, x.s.view, x.d) && Stores(g, x.s.committed, x.d0)
  }

  /** `ws` writes the blocks of `l`, in any order and any number of times, each the last time with the words
      that it is to have. */
  ghost predicate WritesBack(g: Area, raw: seq<Words>, d: Disk, l: set<nat>, ws: seq<Write>)
    requires Shape(d)
  {
    && (forall i :: 0 <= i < |ws| ==> ws[i].0 in l && Sized(raw, ws[i].0) && |ws[i].1| == BWORDS)
    && (forall b :: b in l ==> exists i :: 0 <= i < |ws| && ws[i].0 == b)
    && (forall i {:trigger Last(ws, i)} :: 0 <= i < |ws| && Last(ws, i) ==>
        ws[i].1 == NewWords(g, d, raw[ws[i].0], ws[i].0))
  }

  /** What may happen: the log goes on, or crashes, or a call does to the file system what keeps it in
      order, logging every block it changes. */
  ghost predicate Lawful(g: Area, x: Sys, deed: Deed) {
    match deed
    case Log(e) => !e.LogWrite?
    case Act(k, ws, d, o) =>
      FsOk(g, d, o) && exists l :: Covered(g, x.d, d, {}, l, {}) && WritesBack(g, x.s.view, d, l, ws)
    case Broken(es) => forall i :: 0 <= i < |es| ==> CallStep(es[i])
  }

  /** A step of a call or the cache; it does not commit. */
  predicate CallStep(e: L.Event) {
    e.BeginOp? || e.LogWrite? || e.EndOp? || e.Load? || e.Evict?
  }

  /** The next step of the log is the header write that commits. */
  predicate Committing(s: L.State) {
    s.phase == L.WriteLog(|s.lh|)
  }

  function Perform(lay: L.Layout, x: Sys, deed: Deed): Option<Sys> {
    match deed
    case Log(e) =>
      if !L.Fits(lay, x.s) || L.Step(lay, x.s, e) == L.Refused then None
      else
        var s := L.Step(lay, x.s, e).s;
        if e == L.Crash then Some(Sys(s, x.d0, x.o0, x.d0, x.o0))
        else if e == L.Advance && Committing(x.s) then Some(Sys(s, x.d, x.o, x.d, x.o))
        else Some(x.(s := s))
    case Act(k, ws, d, o) =>
      var r := L.Run(lay, x.s, Writes(k, ws));
      if r.Next? then Some(Sys(r.s, d, o, x.d0, x.o0)) else None
    case Broken(es) =>
      var r := L.Run(lay, x.s, es + [L.Crash]);
      if r.Next? then Some(Sys(r.s, x.d0, x.o0, x.d0, x.o0)) else None
  }

  /** Blocks of the file system are home blocks. */
  lemma AreaIsHome(lay: L.Layout, g: Area, d: Disk, b: nat)
    requires AreaOk(g, d) && InArea(g, d, b) && lay.start + lay.nlog <= g.inodeStart && |d.used| == lay.size
    ensures L.IsHome(lay, b)
  {
    if c: nat :| c < |d.used| && b == MapBlock(g, c) { }
  }

  lemma StoredSized(g: Area, raw: seq<Words>, d: Disk, b: nat)
    requires Stores(g, raw, d) && InArea(g, d, b) && |d.blocks| == |d.used|
    ensures Sized(raw, b)
  {
    if g.dataStart <= b < |d.used| {
      assert DataStored(raw, d, b);
    } else if c: nat :| c < |d.used| && b == MapBlock(g, c) {
      assert BitStored(g, raw, d, c);
    } else {
      var i :| i in d.inodes && b == InodeBlock(g, i);
      assert InodeStored(g, raw, d, i);
    }
  }

  lemma LogKeeps(lay: L.Layout, g: Area, x: Sys, e: L.Event)
    requires Sound(lay, g, x) && !e.LogWrite? && Perform(lay, x, Log(e)).Some?
    ensures Sound(lay, g, Perform(lay, x, Log(e)).value)
  {
    hide L.HomeAt, L.LogAt, L.CallsWhole, L.HistoryOk, L.ListOk, Stores, FsOk;
    L.Opened(lay, x.s);
    L.StepKeeps(lay, x.s, e);
  }

  lemma ActWritesOk(lay: L.Layout, g: Area, x: Sys, ws: seq<Write>, d: Disk, l: set<nat>)
    requires Sound(lay, g, x) && Shape(d)
    requires Covered(g, x.d, d, {}, l, {}) && WritesBack(g, x.s.view, d, l, ws)
    ensures WritesOk(lay, ws)
  {
    forall i | 0 <= i < |ws| ensures L.IsHome(lay, ws[i].0) && |ws[i].1| == L.BWORDS {
      AreaIsHome(lay, g, x.d, ws[i].0);
    }
  }

  lemma WrittenBackAt(g: Area, raw: seq<Words>, d: Disk, l: set<nat>, ws: seq<Write>, b: nat)
    requires Shape(d) && WritesBack(g, raw, d, l, ws) && Sized(raw, b)
    ensures Rewritten(raw, ws)[b] == if b in l then NewWords(g, d, raw[b], b) else raw[b]
  {
    hide NewWords;
    RewrittenAt(raw, ws, b);
    if b in l {
      var i :| 0 <= i < |ws| && ws[i].0 == b;
      var j := LastWrite(ws, b, i);
    }
  }

  lemma ActStores(lay: L.Layout, g: Area, x: Sys, ws: seq<Write>, d: Disk, l: set<nat>)
    requires Sound(lay, g, x) && Shape(d) && Covered(g, x.d, d, {}, l, {}) && WritesBack(g, x.s.view, d, l, ws)
    ensures Stores(g, Rewritten(x.s.view, ws), d)
  {
    hide Stores, NewWords, L.Inv, Covered, WritesBack, Rewritten;
    var raw' := Rewritten(x.s.view, ws);
    forall b: nat | Sized(x.s.view, b)
      ensures raw'[b] == if b in l then NewWords(g, d, x.s.view[b], b) else x.s.view[b]
    {
      WrittenBackAt(g, x.s.view, d, l, ws, b);
    }
    LoggedIsEnough(g, x.s.view, x.d, raw', d, l);
  }

  lemma ActKeeps(lay: L.Layout, g: Area, x: Sys, k: nat, ws: seq<Write>, d: Disk, o: Owners)
    requires Sound(lay, g, x) && Lawful(g, x, Act(k, ws, d, o)) && Perform(lay, x, Act(k, ws, d, o)).Some?
    ensures Sound(lay, g, Perform(lay, x, Act(k, ws, d, o)).value)
  {
    var l :| Covered(g, x.d, d, {}, l, {}) && WritesBack(g, x.s.view, d, l, ws);
    assert Shape(d) && |d.used| == |x.d.used|;
    hide Stores, WritesBack, Covered, L.Inv, FsOk;
    WritesDo(lay, x.s, k, ws);
    ActStores(lay, g, x, ws, d, l);
  }

  /** An outstanding call that does what is lawful is not refused where the log has room. */
  lemma ActGoesThrough(lay: L.Layout, g: Area, x: Sys, k: nat, ws: seq<Write>, d: Disk, l: set<nat>)
    requires Sound(lay, g, x) && Shape(d) && Covered(g, x.d, d, {}, l, {}) && WritesBack(g, x.s.view, d, l, ws)
    requires x.s.phase == L.Idle && k < |x.s.ops| && RoomFor(lay, x.s, if |ws| <= |l| then |l| else |l| + 1)
    ensures L.Run(lay, x.s, Writes(k, ws)).Next?
  {
    hide Stores, Covered, L.Inv, FsOk, NewWords;
    ActWritesOk(lay, g, x, ws, d, l);
    WritesGoThrough(lay, x.s, k, ws, l);
  }

  /** What calls do before a commit does not touch what is committed. */
  lemma {:induction false} StepsCommitNothing(lay: L.Layout, s: L.State, es: seq<L.Event>)
    requires L.Run(lay, s, es).Next? && forall i :: 0 <= i < |es| ==> CallStep(es[i])
    ensures L.Run(lay, s, es).s.committed == s.committed
  {
    if es != [] { StepsCommitNothing(lay, s, es[..|es| - 1]); }
  }

  lemma BrokenKeeps(lay: L.Layout, g: Area, x: Sys, es: seq<L.Event>)
    requires Sound(lay, g, x) && Lawful(g, x, Broken(es)) && Perform(lay, x, Broken(es)).Some?
    ensures Sound(lay, g, Perform(lay, x, Broken(es)).value)
  {
    hide L.HomeAt, L.LogAt, L.CallsWhole, L.HistoryOk, L.ListOk, Stores, FsOk;
    var all := es + [L.Crash];
    assert all[..|all| - 1] == es;
    L.RunKeeps(lay, x.s, all);
    StepsCommitNothing(lay, x.s, es);
  }

  lemma PerformKeeps(lay: L.Layout, g: Area, x: Sys, deed: Deed)
    requires Sound(lay, g, x) && Lawful(g, x, deed) && Perform(lay, x, deed).Some?
    ensures Sound(lay, g, Perform(lay, x, deed).value)
  {
    match deed
    case Log(e) => LogKeeps(lay, g, x, e);
    case Act(k, ws, d, o) => ActKeeps(lay, g, x, k, ws, d, o);
    case Broken(es) => BrokenKeeps(lay, g, x, es);
  }

  function PerformAll(lay: L.Layout, x: Sys, deeds: seq<Deed>): Option<Sys> {
    if deeds == [] then Some(x)
    else
      var r := PerformAll(lay, x, deeds[..|deeds| - 1]);
      if r.Some? then Perform(lay, r.value, deeds[|deeds| - 1]) else None
  }

  ghost predicate AllLawful(lay: L.Layout, g: Area, x: Sys, deeds: seq<Deed>) {
    deeds == [] ||
    (var pre := deeds[..|deeds| - 1];
     AllLawful(lay, g, x, pre) && (PerformAll(lay, x, pre).Some? ==>
         Lawful(g, PerformAll(lay, x, pre).value, deeds[|deeds| - 1])))
  }

  lemma {:induction false} PerformAllKeeps(lay: L.Layout, g: Area, x: Sys, deeds: seq<Deed>)
    requires Sound(lay, g, x) && AllLawful(lay, g, x, deeds) && PerformAll(lay, x, deeds).Some?
    ensures Sound(lay, g, PerformAll(lay, x, deeds).value)
  {
    if deeds != [] {
      var pre := deeds[..|deeds| - 1];
      PerformAllKeeps(lay, g, x, pre);
      PerformKeeps(lay, g, PerformAll(lay, x, pre).value, deeds[|deeds| - 1]);
    }
  }

  /** A call that ends while others are outstanding is not committed; the last one to end starts the commit. */
  lemma EndedCallsWait(lay: L.Layout, g: Area, x: Sys, k: nat)
    requires Sound(lay, g, x) && x.s.phase == L.Idle && k < |x.s.ops|
    ensures var r := Perform(lay, x, Log(L.EndOp(k)));
      && r.Some? && r.value.d == x.d && r.value.d0 == x.d0 && |r.value.s.ops| == |x.s.ops| - 1
      && r.value.s.phase == if |x.s.ops| == 1 && x.s.lh != [] then L.WriteLog(0) else L.Idle
  {
    hide L.Inv, Stores, FsOk;
    L.Opened(lay, x.s);
  }

  /** The commit then takes the changes of all of them together: one step for each listed block, in which
      nothing is committed, and the header write, after which everything is. */
  lemma {:induction false} CommitTakesAll(lay: L.Layout, g: Area, x: Sys, n: nat)
    requires Sound(lay, g, x) && x.s.phase == L.WriteLog(0) && n <= |x.s.lh| + 1
    ensures var r := PerformAll(lay, x, seq(n, _ => Log(L.Advance)));
      && r.Some? && Sound(lay, g, r.value) && r.value.d == x.d && r.value.s.lh == x.s.lh
      && (if n <= |x.s.lh| then r.value.s.phase == L.WriteLog(n) && r.value.d0 == x.d0
          else r.value.s.phase == L.Install(0) && r.value.d0 == x.d)
  {
    hide Sound, Perform;
    if n > 0 {
      CommitTakesAll(lay, g, x, n - 1);
      var ds := seq(n, _ => Log(L.Advance));
      assert ds[..n - 1] == seq(n - 1, _ => Log(L.Advance));
      var y := PerformAll(lay, x, ds[..n - 1]).value;
      CommitStep(lay, g, y, n - 1);
    }
  }

  lemma CommitStep(lay: L.Layout, g: Area, x: Sys, t: nat)
    requires Sound(lay, g, x) && x.s.phase == L.WriteLog(t) && t <= |x.s.lh|
    ensures var r := Perform(lay, x, Log(L.Advance));
      && r.Some? && Sound(lay, g, r.value) && r.value.d == x.d && r.value.s.lh == x.s.lh
      && (if t < |x.s.lh| then r.value.s.phase == L.WriteLog(t + 1) && r.value.d0 == x.d0
          else r.value.s.phase == L.Install(0) && r.value.d0 == x.d)
  {
    hide Sound, L.EncodeHead, L.Read;
    SoundFits(lay, g, x);
    LogKeeps(lay, g, x, L.Advance);
  }

  lemma SoundFits(lay: L.Layout, g: Area, x: Sys)
    requires Sound(lay, g, x)
    ensures L.Fits(lay, x.s)
  {
  }

  // ----- What a crash leaves -----

  /** The blocks that recovery will make of a disk. */
  function AfterRecovery(lay: L.Layout, disk: seq<Words>): (r: seq<Words>)
    requires L.Bootable(lay, disk)
    ensures |r| == lay.size && forall b :: 0 <= b < lay.size ==> r[b] == L.Recovered(lay, disk, b)
  {
    seq(lay.size, b requires 0 <= b < lay.size => L.Recovered(lay, disk, b))
  }

  /** The system as it boots from a disk with a file system on it. */
  ghost predicate Booted(lay: L.Layout, g: Area, disk: seq<Words>, x: Sys) {
    && L.Bootable(lay, disk) && x.s == L.Boot(lay, disk) && x.d0 == x.d && x.o0 == x.o
    && lay.start + lay.nlog <= g.inodeStart && |x.d.used| == lay.size
    && FsOk(g, x.d, x.o) && Stores(g, AfterRecovery(lay, disk), x.d)
  }

  /** Whatever has been done, and wherever the disk writes stopped: recovery finds on the disk the file
      system of the last commit, in order, with every file as it was then, and with no other contents. */
  lemma FilesSurvive(lay: L.Layout, g: Area, disk: seq<Words>, x0: Sys, deeds: seq<Deed>)
    requires Booted(lay, g, disk, x0) && AllLawful(lay, g, x0, deeds) && PerformAll(lay, x0, deeds).Some?
    ensures var x := PerformAll(lay, x0, deeds).value;
      && L.Bootable(lay, x.s.disk) && FsOk(g, x.d0, x.o0) && Stores(g, AfterRecovery(lay, x.s.disk), x.d0)
      && forall e, p, i ::
           Stores(g, AfterRecovery(lay, x.s.disk), e) && FsOk(g, e, p) && |e.used| == lay.size
           && i in e.inodes && i in x.d0.inodes ==>
           Content(e, i) == Content(x.d0, i)
  {
    hide Stores, L.Inv;
    L.BootInv(lay, disk);
    assert x0.s.view == AfterRecovery(lay, disk) == x0.s.committed;
    PerformAllKeeps(lay, g, x0, deeds);
    var x := PerformAll(lay, x0, deeds).value;
    CommittedRecovers(lay, g, x);
    forall e, p, i | Stores(g, AfterRecovery(lay, x.s.disk), e) && FsOk(g, e, p) && |e.used| == lay.size
                     && i in e.inodes && i in x.d0.inodes
      ensures Content(e, i) == Content(x.d0, i)
    {
      DiskDetermines(g, AfterRecovery(lay, x.s.disk), e, p, x.d0, x.o0, i);
    }
  }

  lemma CommittedRecovers(lay: L.Layout, g: Area, x: Sys)
    requires Sound(lay, g, x)
    ensures L.Bootable(lay, x.s.disk) && Stores(g, AfterRecovery(lay, x.s.disk), x.d0)
  {
    hide Stores;
    assert L.IsHome(lay, g.inodeStart) || lay.size <= g.inodeStart;
    assert L.Bootable(lay, x.s.disk);
    var r := AfterRecovery(lay, x.s.disk);
    hide L.Inv;
    forall b: nat | b < |x.s.committed| && InArea(g, x.d0, b) ensures r[b] == x.s.committed[b] {
      AreaIsHome(lay, g, x.d0, b);
      L.RecoveredIsCommitted(lay, x.s, b);
    }
    StoresSame(g, x.s.committed, r, x.d0);
  }

  // ----- A disk to start from -----

  /** A disk with the file system `d` on it and an empty log. */
  ghost function Made(lay: L.Layout, g: Area, d: Disk): (raw: seq<Words>)
    requires Shape(d)
    ensures |raw| == lay.size
    ensures forall b :: 0 <= b < lay.size ==>
              raw[b] == if b < g.inodeStart then seq(BWORDS, _ => 0) else NewWords(g, d, seq(BWORDS, _ => 0), b)
  {
    seq(lay.size, b requires 0 <= b < lay.size =>
      if b < g.inodeStart then seq(BWORDS, _ => 0) else NewWords(g, d, seq(BWORDS, _ => 0), b))
  }

  lemma MadeStores(lay: L.Layout, g: Area, d: Disk)
    requires AreaOk(g, d) && |d.used| == lay.size
    ensures Stores(g, Made(lay, g, d), d)
  {
    hide NewWords, Bit;
    var raw, zeros := Made(lay, g, d), seq(BWORDS, _ => 0);
    forall b: nat | b < |d.used| ensures BitStored(g, raw, d, b) {
      assert g.bmapStart <= MapBlock(g, b) < g.dataStart;
      NewBit(g, d, zeros, b);
    }
    forall b: nat | g.dataStart <= b < |d.blocks| ensures DataStored(raw, d, b) { }
    forall i | i in d.inodes ensures InodeStored(g, raw, d, i) {
      assert g.inodeStart <= InodeBlock(g, i) < g.bmapStart;
      forall f: nat | 2 <= f < 16 ensures InodeField(raw[InodeBlock(g, i)], i % IPB, d.inodes[i], f) {
        NewInodeField(g, d, zeros, i, f);
      }
    }
  }

  /** Every file system in order can be put on a disk to boot from. */
  lemma CanBoot(lay: L.Layout, g: Area, d: Disk, o: Owners)
    requires FsOk(g, d, o) && |d.used| == lay.size && 1 <= lay.nlog && lay.start + lay.nlog <= g.inodeStart
    ensures L.Bootable(lay, Made(lay, g, d))
    ensures Booted(lay, g, Made(lay, g, d), Sys(L.Boot(lay, Made(lay, g, d)), d, o, d, o))
  {
    hide NewWords, Stores, Inv, AllFilled;
    assert AreaOk(g, d);
    var raw := Made(lay, g, d);
    assert raw[lay.start] == seq(BWORDS, _ => 0);
    MadeStores(lay, g, d);
    assert L.Bootable(lay, raw) && AfterRecovery(lay, raw) == raw;
  }

  // ----- The code of kernel/fs.c on the log -----

  /** The members of a set, in some order. */
  ghost function InOrder(l: set<nat>): (r: seq<nat>)
    ensures |r| == |l| && (forall i :: 0 <= i < |r| ==> r[i] in l) && (forall b :: b in l ==> b in r)
    ensures forall i, j :: 0 <= i < j < |r| ==> r[i] != r[j]
  {
    if l == {} then []
    else
      var b :| b in l;
      [b] + InOrder(l - {b})
  }

  ghost predicate AllSized(raw: seq<Words>, bs: seq<nat>) {
    forall i {:trigger bs[i]} :: 0 <= i < |bs| ==> Sized(raw, bs[i])
  }

  ghost function WritesFor(g: Area, raw: seq<Words>, d: Disk, bs: seq<nat>): (ws: seq<Write>)
    requires Shape(d) && AllSized(raw, bs)
    ensures |ws| == |bs|
    ensures forall i {:trigger ws[i]} :: 0 <= i < |bs| ==> ws[i] == (bs[i], NewWords(g, d, raw[bs[i]], bs[i]))
  {
    seq(|bs|, i requires 0 <= i < |bs| => (bs[i], NewWords(g, d, raw[bs[i]], bs[i])))
  }

  lemma WritesForBack(g: Area, raw: seq<Words>, d: Disk, l: set<nat>)
    requires Shape(d) && AllSized(raw, InOrder(l))
    ensures WritesBack(g, raw, d, l, WritesFor(g, raw, d, InOrder(l)))
  {
    hide NewWords, InOrder, WritesFor, Shape;
    var bs, ws := InOrder(l), WritesFor(g, raw, d, InOrder(l));
    forall i | 0 <= i < |ws|
      ensures ws[i].0 in l && Sized(raw, ws[i].0) && |ws[i].1| == BWORDS
      ensures ws[i].1 == NewWords(g, d, raw[ws[i].0], ws[i].0)
    {
      assert ws[i].0 == bs[i];
    }
    forall b | b in l ensures exists i :: 0 <= i < |ws| && ws[i].0 == b {
      assert b in bs;
      var i :| 0 <= i < |bs| && bs[i] == b;
      assert ws[i].0 == b;
    }
  }

  /** Some log_writes write back the blocks that cover a change. */
  lemma CanLog(lay: L.Layout, g: Area, x: Sys, d: Disk, l: set<nat>) returns (ws: seq<Write>)
    requires Sound(lay, g, x) && Shape(d) && Covered(g, x.d, d, {}, l, {})
    ensures WritesBack(g, x.s.view, d, l, ws)
  {
    hide NewWords, Stores, InOrder, WritesFor, L.Inv, WritesBack, Inv;
    var bs := InOrder(l);
    forall i | 0 <= i < |bs| ensures Sized(x.s.view, bs[i]) { StoredSized(g, x.s.view, x.d, bs[i]); }
    ws := WritesFor(g, x.s.view, d, bs);
    WritesForBack(g, x.s.view, d, l);
  }

  lemma CoveredArea(g: Area, d: Disk, d': Disk, l: set<nat>)
    requires Covered(g, d, d', {}, l, {}) && AreaOk(g, d) && Shape(d')
    ensures AreaOk(g, d') && |d'.used| == |d.used|
  {
  }

  /** Call `k`, in the state `x`, has made the change to `d` and logged it by `ws`; that is lawful, and leaves
      everything in order. */
  ghost predicate Done(lay: L.Layout, g: Area, x: Sys, k: nat, ws: seq<Write>, d: Disk, o: Owners) {
    var deed := Act(k, ws, d, o);
    && Lawful(g, x, deed) && Perform(lay, x, deed).Some?
    && var x' := Perform(lay, x, deed).value;
       Sound(lay, g, x') && x'.d == d && x'.o == o && x'.d0 == x.d0
  }

  /** One transaction of filewrite, by the code of writei, as call `k` of a log with room for it, whatever other
      calls are outstanding. There are ways to log the blocks it changes, and whichever it takes, in whatever
      order and however often: the file system it leaves is one that the next commit makes safe. */
  method WriteOnLog(fs: F.FileSystem, inum: nat, off: nat, ch: seq<Byte>,
                    ghost lay: L.Layout, ghost x: Sys, ghost k: nat)
    returns (r: int, ghost some: seq<Write>)
    requires fs.Valid() && inum in fs.inodes && off < WORD && |ch| <= 3 * BSIZE
    requires Sound(lay, fs.G(), x) && x.d == fs.D() && x.o == fs.owner
    requires x.s.phase == L.Idle && k < |x.s.ops| && RoomFor(lay, x.s, L.MAXOPBLOCKS + 1)
    modifies fs
    ensures fs.Valid() && Shape(fs.D()) && WritesBack(fs.G(), x.s.view, fs.D(), fs.logged, some)
    ensures forall ws :: WritesBack(fs.G(), x.s.view, fs.D(), fs.logged, ws) ==>
              Done(lay, fs.G(), x, k, ws, fs.D(), fs.owner)
    ensures r != -1 ==> 0 <= r <= |ch| && off <= |Content(x.d, inum)| && inum in fs.inodes
    ensures r != -1 ==> Content(fs.D(), inum) == Overwrite(Content(x.d, inum), off, ch[..r])
  {
    hide Inv, AllFilled, Stores, L.Inv, Covered, Overwrite, F.MaxLogged, Shape, WritesBack, Done, Sound;
    r := fs.WriteInOp(inum, off, ch);
    ShapeOf(fs.G(), fs.D(), fs.owner);
    some := CanLog(lay, fs.G(), x, fs.D(), fs.logged);
    forall ws | WritesBack(fs.G(), x.s.view, fs.D(), fs.logged, ws)
      ensures Done(lay, fs.G(), x, k, ws, fs.D(), fs.owner)
    {
      ChangeIsDone(lay, fs.G(), x, k, ws, fs.D(), fs.owner, fs.logged);
    }
  }

  lemma ShapeOf(g: Area, d: Disk, o: Owners)
    requires Inv(d, o, g.dataStart, {}, {})
    ensures Shape(d)
  {
  }

  lemma ChangeIsDone(lay: L.Layout, g: Area, x: Sys, k: nat, ws: seq<Write>, d: Disk, o: Owners, l: set<nat>)
    requires Sound(lay, g, x) && Covered(g, x.d, d, {}, l, {}) && Inv(d, o, g.dataStart, {}, {}) && AllFilled(d)
    requires WritesBack(g, x.s.view, d, l, ws) && |l| <= L.MAXOPBLOCKS
    requires x.s.phase == L.Idle && k < |x.s.ops| && RoomFor(lay, x.s, L.MAXOPBLOCKS + 1)
    ensures Done(lay, g, x, k, ws, d, o)
  {
    FsOkAfter(g, x.d, x.o, d, o, l);
    hide Inv, AllFilled, Stores, L.Inv, Covered, Shape, WritesBack, FsOk;
    ActGoesThrough(lay, g, x, k, ws, d, l);
    ActKeeps(lay, g, x, k, ws, d, o);
  }

  lemma FsOkAfter(g: Area, d: Disk, o: Owners, d': Disk, o': Owners, l: set<nat>)
    requires FsOk(g, d, o) && Covered(g, d, d', {}, l, {}) && Inv(d', o', g.dataStart, {}, {}) && AllFilled(d')
    ensures FsOk(g, d', o')
  {
    CoveredArea(g, d, d', l);
  }
}
