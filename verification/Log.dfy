/** The code of kernel/log.c: loops over the header list, one bwrite at a time. Each method extends
    a run of the machine in LogModel.dfy by the steps it takes, so everything proved of runs (above
    all CrashAtomicity, for every prefix of the run) holds of the code. */
module Log {
  import opened LogModel

  class Log {
    const lay: Layout
    var disk: seq<Block>
    var cache: map<nat, Block>
    var lh: seq<nat>          // log.lh
    var outstanding: nat
    var committing: bool
    ghost const first: seq<Block>    // the disk at the reboot
    ghost var events: seq<Event>     // the steps taken since
    ghost var s: State               // the state they lead to

    ghost predicate Valid()
      reads this
    {
      && Bootable(lay, first)
      && Run(lay, Boot(lay, first), events) == Next(s)
      && Inv(lay, s)
      && disk == s.disk && cache == s.cache && lh == s.lh && outstanding == |s.ops|
    }

    /** Nothing is being committed or recovered. */
    ghost predicate Ready()
      reads this
    {
      Valid() && s.phase == Idle && !committing
    }

    /** The abstract state takes the step that the fields have just taken. */
    ghost method Tick(e: Event)
      requires Bootable(lay, first) && Run(lay, Boot(lay, first), events) == Next(s) && Inv(lay, s)
      requires Step(lay, s, e).Next?
      modifies this`events, this`s
      ensures events == old(events) + [e] && s == Step(lay, old(s), e).s
      ensures Run(lay, Boot(lay, first), events) == Next(s) && Inv(lay, s)
    {
      StepKeeps(lay, s, e);
      events := events + [e];
      assert events[..|events| - 1] == old(events);
      s := Step(lay, s, e).s;
    }

    /** initlog: after a reboot, replay the log. */
    constructor InitLog(lay: Layout, d: seq<Block>)
      requires Bootable(lay, d)
      ensures Ready() && this.lay == lay && first == d
      ensures outstanding == 0 && lh == []
      ensures forall b: nat :: IsHome(lay, b) ==> |disk| == lay.size && disk[b] == Recovered(lay, d, b)
    {
      this.lay := lay;
      disk, cache, lh, outstanding, committing := d, map[], [], 0, false;
      first, events, s := d, [], Boot(lay, d);
      new;
      BootInv(lay, d);
      RecoverFromLog();
      forall b: nat | IsHome(lay, b)
        ensures disk[b] == Recovered(lay, d, b)
      {
        QuietMeansDurable(lay, s, b);
      }
    }

    /** bread of a home block. */
    method Bread(b: nat) returns (v: Block)
      requires Valid() && IsHome(lay, b)
      modifies this`cache, this`events, this`s
      ensures Valid() && old(events) <= events
      ensures s == old(s).(cache := s.cache) && v == Read(s, b) == old(Read(s, b))
      ensures b in cache && v == cache[b] && (b in old(cache) ==> cache == old(cache))
    {
      hide Inv;
      Opened(lay, s);
      if b !in cache {
        cache := cache[b := disk[b]];
        Tick(Load(b));
      }
      v := cache[b];
    }

    /** install_trans: block i of the log goes home to the i-th listed block number, one write per step. */
    method InstallTrans(recovering: bool)
      requires Valid() && s.phase == if recovering then Reinstall(0) else Install(0)
      modifies this`disk, this`cache, this`events, this`s
      ensures Valid() && old(events) <= events && lh == old(lh)
      ensures s.phase == if recovering then Reinstall(|lh|) else Install(|lh|)
      ensures s.view == old(s.view) && Homed(lay, lh, old(disk), disk, |lh|)
    {
      hide Inv, Run, Boot, Bootable, HeadOk, DecodeHead, Homed, ListOk;
      ListedCached(lay, s);
      NoneHomed(lay, lh, disk);
      for tail := 0 to |lh|
        invariant Valid() && old(events) <= events && lh == old(lh) && s.view == old(s.view)
        invariant s.phase == if recovering then Reinstall(tail) else Install(tail)
        invariant ListOk(lay, lh) && Homed(lay, lh, old(disk), disk, tail)
      {
        HomedMore(lay, lh, old(disk), disk, tail);
        InstallOne(recovering, tail);
      }
    }

    /** One round of install_trans. */
    method InstallOne(recovering: bool, tail: nat)
      requires Valid() && s.phase == (if recovering then Reinstall(tail) else Install(tail)) && tail < |lh|
      modifies this`disk, this`cache, this`events, this`s
      ensures Valid() && old(events) <= events && s.view == old(s.view)
      ensures s.phase == if recovering then Reinstall(tail + 1) else Install(tail + 1)
      ensures lh[tail] < |old(disk)| && lay.start + 1 + tail < |old(disk)|
      ensures disk == old(disk)[lh[tail] := old(disk)[lay.start + 1 + tail]]
    {
      hide Inv, Run, Boot, Bootable, HeadOk, DecodeHead;
      Opened(lay, s);
      var lbuf := disk[lay.start + tail + 1];
      var dbuf := Bread(lh[tail]);
      Opened(lay, s);
      dbuf := lbuf;
      cache := cache[lh[tail] := dbuf];
      disk := disk[lh[tail] := dbuf];
      Tick(Advance);
    }

    /** read_head: the list in memory becomes the list in the header block. */
    method ReadHead()
      requires Valid() && s.phase == LogModel.ReadHead
      modifies this`lh, this`events, this`s
      ensures Valid() && old(events) <= events && s.phase == Reinstall(0) && s.view == old(s.view)
      ensures lay.start < |disk| && |disk[lay.start]| > |lh| == disk[lay.start][0]
      ensures forall i :: 0 <= i < |lh| ==> lh[i] == disk[lay.start][1 + i]
    {
      hide Inv;
      Opened(lay, s);
      var hb := disk[lay.start];
      var n := hb[0];
      var l: seq<nat> := [];
      for i := 0 to n
        invariant |l| == i && forall j :: 0 <= j < i ==> l[j] == hb[1 + j]
      {
        l := l + [hb[1 + i]];
      }
      assert l == DecodeHead(hb);
      lh := l;
      Tick(Advance);
    }

    /** The header block as write_head fills it in. */
    method FillHead() returns (hb: Block)
      requires Valid()
      ensures lay.start < |disk| && |disk[lay.start]| > |lh| && hb == EncodeHead(disk[lay.start], lh)
      ensures |hb| > |lh| == hb[0] && forall i :: 0 <= i < |lh| ==> hb[1 + i] == lh[i]
    {
      hide Inv;
      Opened(lay, s);
      hb := disk[lay.start];
      hb := hb[0 := |lh|];
      for i := 0 to |lh|
        invariant |hb| == BWORDS && hb[0] == |lh|
        invariant forall j :: 1 <= j < BWORDS ==> hb[j] == if j <= i then lh[j - 1] else disk[lay.start][j]
      {
        hb := hb[1 + i := lh[i]];
      }
      assert hb == EncodeHead(disk[lay.start], lh);
    }

    /** write_head of a list: this one disk write commits everything logged so far. */
    method WriteHead()
      requires Valid() && s.phase == LogModel.WriteLog(|lh|)
      modifies this`disk, this`events, this`s
      ensures Valid() && old(events) <= events && lh == old(lh) && s.phase == Install(0)
      ensures s.view == old(s.view) == s.committed
      ensures |disk| == |old(disk)| > lay.start && disk == old(disk)[lay.start := disk[lay.start]]
      ensures |disk[lay.start]| > |lh| == disk[lay.start][0]
      ensures forall i :: 0 <= i < |lh| ==> disk[lay.start][1 + i] == lh[i]
    {
      hide Inv, Run, Boot, Bootable, HeadOk, DecodeHead, EncodeHead;
      Opened(lay, s);
      var hb := FillHead();
      disk := disk[lay.start := hb];
      Tick(Advance);
    }

    /** `log.lh.n = 0; write_head();` */
    method ClearHead()
      requires Valid() && (s.phase == Install(|lh|) || s.phase == Reinstall(|lh|))
      modifies this`disk, this`lh, this`events, this`s
      ensures Valid() && old(events) <= events && s.phase == Idle && lh == [] && s.view == old(s.view)
    {
      hide Inv;
      Opened(lay, s);
      lh := [];
      var hb := disk[lay.start];
      hb := hb[0 := 0];
      assert hb == EncodeHead(disk[lay.start], []);
      disk := disk[lay.start := hb];
      Tick(Advance);
    }

    method RecoverFromLog()
      requires Valid() && s.phase == LogModel.ReadHead && !committing
      modifies this`disk, this`cache, this`lh, this`events, this`s
      ensures Ready() && old(events) <= events && lh == [] && s.view == old(s.view)
    {
      hide Inv;
      ReadHead();
      InstallTrans(true);
      ClearHead();
    }

    /** write_log: the i-th listed block goes to block i of the log, one write per step. */
    method WriteLog()
      requires Valid() && s.phase == LogModel.WriteLog(0)
      modifies this`disk, this`cache, this`events, this`s
      ensures Valid() && old(events) <= events && lh == old(lh) && s.phase == LogModel.WriteLog(|lh|)
      ensures s.view == old(s.view) && |disk| == |old(disk)| == lay.size
      ensures forall i :: 0 <= i < |lh| ==> lh[i] in old(cache) && lay.start + 1 + i < |disk|
                                            && disk[lay.start + 1 + i] == old(cache)[lh[i]]
      ensures forall b :: 0 <= b < |disk| && !(lay.start < b <= lay.start + |lh|) ==> disk[b] == old(disk)[b]
    {
      hide Inv, Run, Boot, Bootable, HeadOk, DecodeHead;
      ListedCached(lay, s);
      for tail := 0 to |lh|
        invariant Valid() && old(events) <= events && lh == old(lh) && s.view == old(s.view)
        invariant s.phase == LogModel.WriteLog(tail) && cache == old(cache)
        invariant |disk| == |old(disk)| == lay.size
        invariant forall i :: 0 <= i < tail ==> disk[lay.start + 1 + i] == old(cache)[lh[i]]
        invariant forall b :: 0 <= b < |disk| && !(lay.start < b <= lay.start + tail) ==> disk[b] == old(disk)[b]
      {
        Opened(lay, s);
        var from := Bread(lh[tail]);
        Opened(lay, s);
        disk := disk[lay.start + 1 + tail := from];
        Tick(Advance);
      }
    }

    method Commit()
      requires Valid() && s.phase == (if lh == [] then Idle else LogModel.WriteLog(0))
      modifies this`disk, this`cache, this`lh, this`events, this`s
      ensures Valid() && old(events) <= events && s.phase == Idle && lh == [] && s.view == old(s.view)
    {
      hide Inv, Run, Boot, Bootable, HeadOk, DecodeHead;
      if |lh| > 0 {
        WriteLog();
        WriteHead();
        InstallTrans(false);
        ClearHead();
      }
    }

    /** One round of begin_op's loop; false means it would sleep. */
    method BeginOp() returns (ok: bool)
      requires Valid() && (committing <==> s.phase != Idle)
      modifies this`outstanding, this`events, this`s
      ensures Valid() && old(events) <= events && (committing <==> s.phase != Idle)
      ensures ok <==> !old(committing) && |old(lh)| + 10 * (old(outstanding) + 1) <= 30
      ensures outstanding == if ok then old(outstanding) + 1 else old(outstanding)
      ensures if ok then s == Step(lay, old(s), Event.BeginOp).s else s == old(s)
    {
      hide Inv, Run, Boot, Bootable, HeadOk, DecodeHead;
      if committing {
        ok := false;
      } else if |lh| + (outstanding + 1) * MAXOPBLOCKS > LOGSIZE {
        ok := false;
      } else {
        ok := true;
        outstanding := outstanding + 1;
        Opened(lay, s);
        Tick(Event.BeginOp);
      }
    }

    /** end_op of the k-th outstanding call. When it was the last, on return everything logged so far
        is at home on the disk. */
    method EndOp(ghost k: nat)
      requires Ready() && k < outstanding
      modifies this`disk, this`cache, this`lh, this`outstanding, this`committing, this`events, this`s
      ensures Ready() && old(events) <= events && outstanding == old(outstanding) - 1
      ensures outstanding == 0 ==> lh == [] && forall b: nat :: IsHome(lay, b) ==>
                |disk| == |old(s.view)| == lay.size && disk[b] == old(s.view)[b]
      ensures outstanding > 0 ==> disk == old(disk) && cache == old(cache) && lh == old(lh)
    {
      hide Inv, Run, Boot, Bootable, HeadOk, DecodeHead;
      Opened(lay, s);
      var doCommit := false;
      outstanding := outstanding - 1;
      Tick(Event.EndOp(k));
      if outstanding == 0 {
        doCommit := true;
        committing := true;
      }
      if doCommit {
        Commit();
        committing := false;
        Opened(lay, s);
        forall b: nat | IsHome(lay, b)
          ensures disk[b] == old(s.view)[b]
        {
          QuietMeansDurable(lay, s, b);
        }
      }
    }

    /** log_write of block `b`, changed to `v`, by the k-th outstanding call. False means one of the
        two panics. */
    method LogWrite(b: nat, v: Block, ghost k: nat) returns (ok: bool)
      requires Ready() && IsHome(lay, b) && |v| == BWORDS && (outstanding > 0 ==> k < outstanding)
      modifies this`cache, this`lh, this`events, this`s
      ensures Ready() && old(events) <= events
      ensures ok <==> |old(lh)| < 30 && |old(lh)| < lay.nlog - 1 && outstanding >= 1
      ensures ok ==> cache == old(cache)[b := v] && lh == old(lh) + if b in old(lh) then [] else [b]
      ensures if ok then s == Logged(old(s), k, b, v) else s == old(s)
    {
      hide Inv, Run, Boot, Bootable, HeadOk, DecodeHead;
      Opened(lay, s);
      if |lh| >= LOGSIZE || |lh| >= lay.nlog - 1 { return false; }
      if outstanding < 1 { return false; }
      cache := cache[b := v];
      var i := 0;
      while i < |lh| && lh[i] != b
        invariant 0 <= i <= |lh|
        invariant forall j :: 0 <= j < i ==> lh[j] != b
      {
        i := i + 1;
      }
      if i == |lh| {
        lh := lh + [b];
      } else {
        lh := lh[i := b];
      }
      Tick(Event.LogWrite(k, b, v));
      ok := true;
    }
  }
}
