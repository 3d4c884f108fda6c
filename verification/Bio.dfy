/** The buffer cache of kernel/bio.c: a ring of buffers in order of last release, in front of a disk. The
    cache and the disk together behave as a plain array of blocks, `View`.

    Device 0 is the device number of buffers that have not been used yet. A sleep lock is the field
    `locked`; the methods are what happens between two points where a process may sleep. */
module Bio {
  import opened Lists
  import opened Wrappers

  type Block = seq<nat>

  /** Device and block number. */
  type Key = (nat, nat)

  type Disk = map<Key, Block>

  datatype Buf = Buf(key: Key, valid: bool, refcnt: nat, locked: bool, data: Block)

  predicate Holds(bufs: seq<Buf>, b: nat, k: Key) {
    b < |bufs| && bufs[b].key == k
  }

  /** No block of a real device is cached twice. */
  ghost predicate Unique(bufs: seq<Buf>) {
    forall b: nat, c: nat, k: Key {:trigger Holds(bufs, b, k), Holds(bufs, c, k)} ::
      Holds(bufs, b, k) && Holds(bufs, c, k) && k.0 != 0 ==> b == c
  }

  /** A buffer in nobody's hands holds nothing the disk does not. */
  predicate CleanIfFree(u: Buf, disk: Disk) {
    && (u.locked ==> u.refcnt > 0)
    && (u.refcnt == 0 && u.valid && u.key in disk ==> u.data == disk[u.key])
  }

  ghost predicate AllClean(bufs: seq<Buf>, disk: Disk) {
    forall b :: 0 <= b < |bufs| ==> CleanIfFree(bufs[b], disk)
  }

  ghost predicate Cached(bufs: seq<Buf>, k: Key) {
    exists b: nat :: Holds(bufs, b, k)
  }

  /** The latest contents of block `k`. */
  ghost function View(bufs: seq<Buf>, disk: Disk, k: Key): Block
    requires k in disk
  {
    if Cached(bufs, k) then
      var b: nat :| Holds(bufs, b, k);
      if bufs[b].valid then bufs[b].data else disk[k]
    else disk[k]
  }

  lemma ViewOf(bufs: seq<Buf>, disk: Disk, k: Key, b: nat)
    requires Unique(bufs) && k in disk && k.0 != 0 && Holds(bufs, b, k)
    ensures View(bufs, disk, k) == if bufs[b].valid then bufs[b].data else disk[k]
  {
  }

  /** Every block of every real device has the contents it had. */
  ghost predicate SameView(bufs: seq<Buf>, disk: Disk, bufs': seq<Buf>, disk': Disk) {
    && disk'.Keys == disk.Keys
    && forall k {:trigger View(bufs', disk', k)} :: k in disk && k.0 != 0 ==>
        View(bufs', disk', k) == View(bufs, disk, k)
  }

  /** Block `to` has new contents; every other block of a real device has those it had. */
  ghost predicate ViewPut(bufs: seq<Buf>, disk: Disk, bufs': seq<Buf>, disk': Disk, to: Key, data: Block) {
    && disk'.Keys == disk.Keys
    && forall k {:trigger View(bufs', disk', k)} :: k in disk && k.0 != 0 ==>
         View(bufs', disk', k) == if k == to then data else View(bufs, disk, k)
  }

  lemma SameViewTwice(bufs: seq<Buf>, disk: Disk, bufs1: seq<Buf>, disk1: Disk, bufs2: seq<Buf>, disk2: Disk)
    requires SameView(bufs, disk, bufs1, disk1) && SameView(bufs1, disk1, bufs2, disk2)
    ensures SameView(bufs, disk, bufs2, disk2)
  {
    hide View;
  }

  lemma ViewPutAfter(bufs: seq<Buf>, disk: Disk, bufs1: seq<Buf>, bufs2: seq<Buf>, to: Key, data: Block)
    requires SameView(bufs, disk, bufs1, disk) && ViewPut(bufs1, disk, bufs2, disk, to, data)
    ensures ViewPut(bufs, disk, bufs2, disk, to, data)
  {
    hide View;
  }

  lemma ViewPutThen(bufs: seq<Buf>, disk: Disk, bufs1: seq<Buf>, disk1: Disk, bufs2: seq<Buf>, disk2: Disk, to: Key,
                    data: Block)
    requires ViewPut(bufs, disk, bufs1, disk1, to, data) && SameView(bufs1, disk1, bufs2, disk2)
    ensures ViewPut(bufs, disk, bufs2, disk2, to, data)
  {
    hide View;
  }

  // ----- The order of the ring -----

  ghost predicate Perm(order: seq<nat>, n: nat) {
    && (forall i :: 0 <= i < |order| ==> order[i] < n)
    && (forall b: nat :: b < n ==> b in order)
    && (forall i, j :: 0 <= i < |order| && 0 <= j < |order| && order[i] == order[j] ==> i == j)
  }

  /** The ring is in order of last release, latest first. */
  ghost predicate ByRelease(order: seq<nat>, stamp: seq<nat>, clock: nat) {
    && (forall i :: 0 <= i < |order| ==> order[i] < |stamp| && stamp[order[i]] < clock)
    && (forall i, j {:trigger order[i], order[j]} :: 0 <= i < j < |order| ==>
        order[j] < |stamp| && stamp[order[j]] < stamp[order[i]])
  }

  ghost function PlaceOf(order: seq<nat>, n: nat, b: nat): (i: nat)
    requires Perm(order, n) && b < n
    ensures i < |order| && order[i] == b
  {
    assert b in order;
    var i: nat :| i < |order| && order[i] == b;
    i
  }

  lemma PermPush(order: seq<nat>, n: nat)
    requires Perm(order, n)
    ensures Perm([n] + order, n + 1) && n !in order
  {
    var r := [n] + order;
    forall b: nat | b < n + 1
      ensures b in r
    {
      if b < n { assert b in order; } else { assert r[0] == b; }
    }
  }

  /** Stamps that are the buffer numbers. */
  lemma ReleasePush(order: seq<nat>, stamp: seq<nat>, n: nat)
    requires Perm(order, n) && ByRelease(order, stamp, n) && n < |stamp| && stamp[n] == n
    ensures ByRelease([n] + order, stamp, n + 1)
  {
    var r := [n] + order;
    forall i, j | 0 <= i < j < |r|
      ensures r[j] < |stamp| && stamp[r[j]] < stamp[r[i]]
    {
      assert r[j] == order[j - 1];
      if i > 0 { assert r[i] == order[i - 1]; }
    }
  }

  function Fronted(order: seq<nat>, i: nat): (r: seq<nat>)
    requires i < |order|
    ensures |r| == |order|
    ensures forall j :: 0 <= j < |r| ==> r[j] == order[if j == 0 then i else if j <= i then j - 1 else j]
  {
    [order[i]] + Without(order, i)
  }

  lemma FrontedPerm(order: seq<nat>, n: nat, i: nat)
    requires Perm(order, n) && i < |order|
    ensures Perm(Fronted(order, i), n) && order[i] !in Without(order, i)
  {
    var r := Fronted(order, i);
    hide Fronted;
    forall b: nat | b < n
      ensures b in r
    {
      assert b in order;
      var j :| 0 <= j < |order| && order[j] == b;
      assert b == r[if j == i then 0 else if j < i then j + 1 else j];
    }
  }

  lemma FrontedByRelease(order: seq<nat>, stamp: seq<nat>, clock: nat, i: nat)
    requires Perm(order, |stamp|) && ByRelease(order, stamp, clock) && i < |order| && order[i] < |stamp|
    ensures ByRelease(Fronted(order, i), stamp[order[i] := clock], clock + 1)
  {
    hide Fronted;
    var r, stamp' := Fronted(order, i), stamp[order[i] := clock];
    forall j | 0 <= j < |r|
      ensures r[j] < |stamp| && stamp'[r[j]] == if j == 0 then clock else stamp[r[j]]
    {
    }
    forall j, k | 0 <= j < k < |r|
      ensures stamp'[r[k]] < stamp'[r[j]]
    {
      var j', k' := if j <= i then j - 1 else j, if k <= i then k - 1 else k;
      assert r[k] == order[k'];
      if j > 0 { assert r[j] == order[j']; }
    }
  }

  // ----- Steps -----

  /** Recycling a free buffer for a block that is not cached. */
  lemma RecycleStep(bufs: seq<Buf>, disk: Disk, b: nat, k: Key)
    requires Unique(bufs) && AllClean(bufs, disk) && b < |bufs| && bufs[b].refcnt == 0 && !Cached(bufs, k) && k.0 != 0
    ensures var bufs' := bufs[b := bufs[b].(key := k, valid := false, refcnt := 1)];
      Unique(bufs') && AllClean(bufs', disk) && SameView(bufs, disk, bufs', disk)
  {
    var bufs' := bufs[b := bufs[b].(key := k, valid := false, refcnt := 1)];
    forall c: nat, d: nat, j: Key | Holds(bufs', c, j) && Holds(bufs', d, j) && j.0 != 0
      ensures c == d
    {
      if c != b { assert Holds(bufs, c, j); }
      if d != b { assert Holds(bufs, d, j); }
    }
    forall j | j in disk && j.0 != 0
      ensures View(bufs', disk, j) == View(bufs, disk, j)
    {
      if c: nat :| Holds(bufs', c, j) {
        ViewOf(bufs', disk, j, c);
        if c != b {
          assert Holds(bufs, c, j);
          ViewOf(bufs, disk, j, c);
        }
      } else if c: nat :| Holds(bufs, c, j) {
        assert c != b ==> Holds(bufs', c, j);
        ViewOf(bufs, disk, j, c);
      }
    }
  }

  /** One buffer changes without its key, and not so that its block would look different. */
  lemma SameKeyStep(bufs: seq<Buf>, disk: Disk, b: nat, u: Buf, disk': Disk)
    requires Unique(bufs) && AllClean(bufs, disk) && b < |bufs| && u.key == bufs[b].key && CleanIfFree(u, disk')
    requires disk'.Keys == disk.Keys && forall k :: k in disk && k != u.key ==> disk'[k] == disk[k]
    requires u.key in disk && u.key.0 != 0
    ensures Unique(bufs[b := u]) && AllClean(bufs[b := u], disk')
    ensures forall k :: k in disk && k.0 != 0 ==>
              View(bufs[b := u], disk', k) == if k != u.key then View(bufs, disk, k) else if u.valid then u.data
                  else disk'[k]
  {
    var bufs' := bufs[b := u];
    assert Holds(bufs, b, u.key) && Holds(bufs', b, u.key);
    forall c: nat, j: Key ensures Holds(bufs', c, j) == Holds(bufs, c, j) { }
    forall c | 0 <= c < |bufs'| ensures CleanIfFree(bufs'[c], disk') {
      if c != b { assert Holds(bufs, c, bufs[c].key) && CleanIfFree(bufs[c], disk); }
    }
    forall k | k in disk && k.0 != 0
      ensures View(bufs', disk', k) == if k != u.key then View(bufs, disk, k) else if u.valid then u.data else disk'[k]
    {
      if c: nat :| Holds(bufs, c, k) {
        assert Holds(bufs', c, k);
        ViewOf(bufs, disk, k, c);
        ViewOf(bufs', disk', k, c);
      }
    }
  }

  // ----- The buffers that a commit needs -----

  /** Block `k` is in a buffer that the log has pinned. */
  ghost predicate PinnedIn(bufs: seq<Buf>, b: nat, k: Key) {
    Holds(bufs, b, k) && bufs[b].refcnt > 0 && bufs[b].valid
  }

  ghost predicate Pinned(bufs: seq<Buf>, k: Key) {
    exists b: nat :: PinnedIn(bufs, b, k)
  }

  /** The blocks of the list are pinned, and nothing else is in use. */
  ghost predicate Pins(bufs: seq<Buf>, dev: nat, lh: seq<nat>) {
    && (forall t :: 0 <= t < |lh| ==> Pinned(bufs, (dev, lh[t])))
    && (forall b :: 0 <= b < |bufs| ==> !bufs[b].locked)
    && (forall b {:trigger bufs[b]} :: 0 <= b < |bufs| && bufs[b].refcnt > 0 ==> Listed(bufs[b].key, dev, lh))
  }

  ghost predicate Listed(k: Key, dev: nat, lh: seq<nat>) {
    exists t :: 0 <= t < |lh| && k == (dev, lh[t])
  }

  ghost predicate NoneTwice(lh: seq<nat>) {
    forall i, j :: 0 <= i < j < |lh| ==> lh[i] != lh[j]
  }

  /** The buffers that hold the blocks of the list. */
  ghost function Holders(bufs: seq<Buf>, dev: nat, lh: seq<nat>): set<nat> {
    set b | 0 <= b < |bufs| && Listed(bufs[b].key, dev, lh)
  }

  lemma {:induction false} HoldersCount(bufs: seq<Buf>, dev: nat, lh: seq<nat>)
    requires Unique(bufs) && dev != 0 && NoneTwice(lh)
    requires forall t :: 0 <= t < |lh| ==> Cached(bufs, (dev, lh[t]))
    ensures |Holders(bufs, dev, lh)| == |lh|
  {
    if lh == [] {
      assert Holders(bufs, dev, lh) == {};
    } else {
      var n := |lh| - 1;
      var pre := lh[..n];
      HoldersCount(bufs, dev, pre);
      var b: nat :| Holds(bufs, b, (dev, lh[n]));
      assert b !in Holders(bufs, dev, pre);
      forall c ensures c in Holders(bufs, dev, lh) <==> c == b || c in Holders(bufs, dev, pre) {
        HolderOf(bufs, dev, lh, b, c);
      }
      assert Holders(bufs, dev, lh) == Holders(bufs, dev, pre) + {b};
    }
  }

  lemma HolderOf(bufs: seq<Buf>, dev: nat, lh: seq<nat>, b: nat, c: int)
    requires Unique(bufs) && dev != 0 && lh != [] && Holds(bufs, b, (dev, lh[|lh| - 1]))
    ensures 0 <= c < |bufs| && Listed(bufs[c].key, dev, lh) <==>
            c == b || (0 <= c < |bufs| && Listed(bufs[c].key, dev, lh[..|lh| - 1]))
  {
    var n := |lh| - 1;
    if 0 <= c < |bufs| && c != b {
      assert Holds(bufs, c, bufs[c].key);
      if Listed(bufs[c].key, dev, lh) {
        var t :| 0 <= t < |lh| && bufs[c].key == (dev, lh[t]);
        assert t < n ==> lh[..n][t] == lh[t];
      }
      if Listed(bufs[c].key, dev, lh[..n]) {
        var t :| 0 <= t < n && bufs[c].key == (dev, lh[..n][t]);
        assert lh[..n][t] == lh[t];
      }
    }
  }

  lemma {:induction false} AllOf(s: set<nat>, n: nat)
    requires forall b :: b in s ==> b < n
    ensures |s| <= n && (|s| == n <==> forall b: nat :: b < n ==> b in s)
  {
    if n > 0 {
      AllOf(s - {n - 1}, n - 1);
    }
  }

  /** With the blocks of the list pinned and nothing else in use, a buffer is free exactly when the list is
      shorter than the cache. If not, every buffer holds a listed block. */
  lemma FreeBufferExactly(bufs: seq<Buf>, dev: nat, lh: seq<nat>)
    requires Unique(bufs) && dev != 0 && NoneTwice(lh) && Pins(bufs, dev, lh)
    ensures |lh| <= |bufs|
    ensures (exists b :: 0 <= b < |bufs| && bufs[b].refcnt == 0) <==> |lh| < |bufs|
    ensures |lh| == |bufs| ==> forall b :: 0 <= b < |bufs| ==> Listed(bufs[b].key, dev, lh)
  {
    forall t | 0 <= t < |lh| ensures Cached(bufs, (dev, lh[t])) {
      assert Pinned(bufs, (dev, lh[t]));
      var b: nat :| PinnedIn(bufs, b, (dev, lh[t]));
    }
    HoldersCount(bufs, dev, lh);
    AllOf(Holders(bufs, dev, lh), |bufs|);
    forall b | 0 <= b < |bufs| ensures bufs[b].refcnt > 0 <==> b in Holders(bufs, dev, lh) {
      if Listed(bufs[b].key, dev, lh) {
        var t :| 0 <= t < |lh| && bufs[b].key == (dev, lh[t]);
        assert Pinned(bufs, (dev, lh[t]));
        var c: nat :| PinnedIn(bufs, c, (dev, lh[t]));
        assert Holds(bufs, b, (dev, lh[t])) && Holds(bufs, c, (dev, lh[t]));
      }
    }
  }

  /** Only the buffer `t` has changed; it was free, is free, and holds block `k` now. */
  ghost predicate OnlyReused(bufs: seq<Buf>, bufs': seq<Buf>, t: nat, k: Key) {
    && |bufs'| == |bufs| && t < |bufs| && bufs[t].refcnt == 0 && bufs' == bufs[t := bufs'[t]]
    && bufs'[t].key == k && bufs'[t].refcnt == 0 && !bufs'[t].locked
  }

  lemma CachedIn(bufs: seq<Buf>, b: nat, k: Key)
    requires Holds(bufs, b, k)
    ensures Cached(bufs, k)
  {
  }

  lemma PinsStay(bufs: seq<Buf>, bufs': seq<Buf>, dev: nat, lh: seq<nat>, t: nat, k: Key)
    requires Pins(bufs, dev, lh) && OnlyReused(bufs, bufs', t, k)
    ensures Pins(bufs', dev, lh)
  {
    forall i | 0 <= i < |lh| ensures Pinned(bufs', (dev, lh[i])) {
      assert Pinned(bufs, (dev, lh[i]));
      var b: nat :| PinnedIn(bufs, b, (dev, lh[i]));
      assert PinnedIn(bufs', b, (dev, lh[i]));
    }
  }

  lemma ListedOnce(lh: seq<nat>, n: nat)
    requires NoneTwice(lh) && n !in lh
    ensures NoneTwice(lh + [n])
  {
  }

  /** The buffer of a block has references exactly when the block is listed. */
  lemma PinnedIfListed(bufs: seq<Buf>, dev: nat, lh: seq<nat>, n: nat, b: nat)
    requires Unique(bufs) && dev != 0 && Pins(bufs, dev, lh) && Holds(bufs, b, (dev, n))
    ensures bufs[b].refcnt > 0 <==> n in lh
  {
    if n in lh {
      var t :| 0 <= t < |lh| && lh[t] == n;
      assert Pinned(bufs, (dev, lh[t]));
      var c: nat :| PinnedIn(bufs, c, (dev, n));
      assert c == b;
    }
  }

  /** Buffer `b`, which held the block if it was listed and else was free, holds and pins it now. */
  lemma PinsMore(bufs: seq<Buf>, bufs': seq<Buf>, dev: nat, lh: seq<nat>, n: nat, b: nat)
    requires Pins(bufs, dev, lh) && |bufs'| == |bufs| && b < |bufs| && bufs' == bufs[b := bufs'[b]]
    requires PinnedIn(bufs', b, (dev, n)) && !bufs'[b].locked
    requires if n in lh then Holds(bufs, b, (dev, n)) else bufs[b].refcnt == 0
    ensures Pins(bufs', dev, if n in lh then lh else lh + [n])
  {
    var lh' := if n in lh then lh else lh + [n];
    forall t | 0 <= t < |lh'| ensures Pinned(bufs', (dev, lh'[t])) {
      if lh'[t] != n {
        assert Pinned(bufs, (dev, lh[t]));
        var c: nat :| PinnedIn(bufs, c, (dev, lh[t]));
        assert PinnedIn(bufs', c, (dev, lh[t]));
      }
    }
    forall c | 0 <= c < |bufs'| && bufs'[c].refcnt > 0 ensures Listed(bufs'[c].key, dev, lh') {
      if c == b {
        var t :| 0 <= t < |lh'| && lh'[t] == n;
      } else {
        var t :| 0 <= t < |lh| && bufs[c].key == (dev, lh[t]);
        assert lh'[t] == lh[t];
      }
    }
  }

  lemma LogNotPinned(bufs: seq<Buf>, dev: nat, lh: seq<nat>, n: nat)
    requires Pins(bufs, dev, lh) && forall t :: 0 <= t < |lh| ==> lh[t] != n
    ensures forall b: nat :: Holds(bufs, b, (dev, n)) ==> bufs[b].refcnt == 0
  {
    forall b: nat | Holds(bufs, b, (dev, n)) ensures bufs[b].refcnt == 0 { }
  }

  /** One of the first `n` blocks of the log behind its header. */
  predicate InLog(k: Key, dev: nat, start: nat, n: nat) {
    k.0 == dev && start < k.1 <= start + n
  }

  /** The first `n` blocks of the log hold the listed blocks as they were; nothing else is different, on disk or
      for a reader. */
  ghost predicate Copied(bufs: seq<Buf>, disk: Disk, bufs': seq<Buf>, disk': Disk, dev: nat, start: nat,
                         lh: seq<nat>, n: nat)
    requires n <= |lh|
  {
    && disk'.Keys == disk.Keys
    && (forall k :: k in disk && !InLog(k, dev, start, n) ==> disk'[k] == disk[k])
    && (forall k {:trigger View(bufs', disk', k)} :: k in disk && k.0 != 0 && !InLog(k, dev, start, n) ==>
          View(bufs', disk', k) == View(bufs, disk, k))
    && (forall t {:trigger lh[t]} :: 0 <= t < n ==>
          && (dev, lh[t]) in disk && (dev, start + 1 + t) in disk
          && disk'[(dev, start + 1 + t)] == View(bufs, disk, (dev, lh[t])))
  }

  lemma NothingCopied(bufs: seq<Buf>, disk: Disk, dev: nat, start: nat, lh: seq<nat>)
    ensures Copied(bufs, disk, bufs, disk, dev, start, lh, 0)
  {
  }

  lemma CopiedMore(bufs: seq<Buf>, disk: Disk, bufs1: seq<Buf>, disk1: Disk, bufs2: seq<Buf>, disk2: Disk, dev: nat,
                   start: nat, lh: seq<nat>, n: nat)
    requires n < |lh| && Copied(bufs, disk, bufs1, disk1, dev, start, lh, n) && dev != 0
    requires (dev, lh[n]) in disk && (dev, start + 1 + n) in disk && !(start < lh[n] <= start + n)
    requires disk2 == disk1[(dev, start + 1 + n) := View(bufs1, disk1, (dev, lh[n]))]
    requires ViewPut(bufs1, disk1, bufs2, disk2, (dev, start + 1 + n), View(bufs1, disk1, (dev, lh[n])))
    ensures Copied(bufs, disk, bufs2, disk2, dev, start, lh, n + 1)
  {
    hide View;
  }

  class Cache {
    var next: map<Node, Node>
    var prev: map<Node, Node>
    var bufs: seq<Buf>
    var disk: Disk
    ghost var order: seq<nat>
    ghost var stamp: seq<nat>
    ghost var clock: nat

    ghost predicate Ordered()
      reads this
    {
      Ring(next, prev, Head(0), order) && Perm(order, |bufs|) && |stamp| == |bufs| && ByRelease(order, stamp, clock)
    }

    ghost predicate Valid()
      reads this
    {
      Ordered() && Unique(bufs) && AllClean(bufs, disk)
    }

    /** A buffer some process works with. */
    ghost predicate InUse(b: nat)
      reads this
    {
      b < |bufs| && bufs[b].refcnt > 0 && bufs[b].key in disk && bufs[b].key.0 != 0
    }

    /** binit */
    constructor Binit(n: nat, contents: Disk)
      ensures Valid() && |bufs| == n && disk == contents
      ensures forall b :: 0 <= b < n ==> bufs[b].refcnt == 0 && !bufs[b].valid
      ensures forall dev: nat :: Pins(bufs, dev, [])
    {
      disk, clock, order := contents, 0, [];
      next := map[Head(0) := Head(0)];
      prev := map[Head(0) := Head(0)];
      bufs := seq(n, _ => Buf((0, 0), false, 0, false, []));
      stamp := seq(n, i => i);
      new;
      Threads(n);
      clock := n;
    }

    /** The loop of binit. */
    method Threads(n: nat)
      requires next == map[Head(0) := Head(0)] && prev == map[Head(0) := Head(0)] && order == []
      requires |stamp| == n && forall b :: 0 <= b < n ==> stamp[b] == b
      modifies this`next, this`prev, this`order
      ensures Ring(next, prev, Head(0), order) && Perm(order, n) && ByRelease(order, stamp, n)
    {
      assert Ring(next, prev, Head(0), order) && Perm(order, 0) && ByRelease(order, stamp, 0);
      for b := 0 to n
        invariant Ring(next, prev, Head(0), order) && Perm(order, b) && ByRelease(order, stamp, b)
      {
        PermPush(order, b);
        ReleasePush(order, stamp, b);
        PushFront(b);
        order := [b] + order;
      }
    }

    /** Links buffer `b` in behind the head. */
    method PushFront(b: nat)
      requires Ring(next, prev, Head(0), order) && b !in order
      modifies this`next, this`prev
      ensures Ring(next, prev, Head(0), [b] + order)
    {
      assert LinkAt(next, prev, Head(0), order, 0);
      PushRing(next, prev, Head(0), order, b);
      next := next[At(b) := next[Head(0)]];
      prev := prev[At(b) := Head(0)];
      prev := prev[next[Head(0)] := At(b)];
      next := next[Head(0) := At(b)];
    }

    /** bget's first loop. */
    method FindCached(k: Key) returns (r: Option<nat>)
      requires Valid()
      ensures r.None? <==> !Cached(bufs, k)
      ensures r.Some? ==> Holds(bufs, r.value, k)
    {
      assert LinkAt(next, prev, Head(0), order, 0);
      var n := next[Head(0)];
      ghost var i := 0;
      while n != Head(0)
        invariant i <= |order| && n == Cell(Head(0), order, i + 1)
        invariant forall j :: 0 <= j < i ==> bufs[order[j]].key != k
        decreases |order| - i
      {
        if bufs[n.p].key == k {
          assert Holds(bufs, n.p, k);
          return Some(n.p);
        }
        assert LinkAt(next, prev, Head(0), order, i + 1);
        n := next[n];
        i := i + 1;
      }
      forall b: nat ensures !Holds(bufs, b, k) {
        if b < |bufs| { assert b in order; }
      }
      r := None;
    }

    /** bget's second loop: the buffer released longest ago among those not in use. */
    method FindVictim() returns (r: Option<nat>)
      requires Valid()
      ensures r.None? <==> forall b :: 0 <= b < |bufs| ==> bufs[b].refcnt > 0
      ensures r.Some? ==> r.value < |bufs| && bufs[r.value].refcnt == 0
      ensures r.Some? ==> forall b :: 0 <= b < |bufs| && bufs[b].refcnt == 0 ==> stamp[r.value] <= stamp[b]
    {
      assert LinkAt(next, prev, Head(0), order, |order|);
      var n := prev[Head(0)];
      ghost var i := |order|;
      while n != Head(0)
        invariant 0 <= i <= |order| && n == Cell(Head(0), order, i)
        invariant forall j :: i <= j < |order| ==> bufs[order[j]].refcnt > 0
        decreases i
      {
        if bufs[n.p].refcnt == 0 {
          forall b | 0 <= b < |bufs| && bufs[b].refcnt == 0
            ensures stamp[n.p] <= stamp[b]
          {
            assert b in order;
            var j :| 0 <= j < |order| && order[j] == b;
            assert n.p == order[i - 1];
          }
          return Some(n.p);
        }
        assert LinkAt(next, prev, Head(0), order, i - 1);
        n := prev[n];
        i := i - 1;
      }
      forall b | 0 <= b < |bufs| ensures bufs[b].refcnt > 0 { assert b in order; }
      r := None;
    }

    /** bget without the sleep lock; None where it panics for want of buffers. */
    method Bget(k: Key) returns (r: Option<nat>)
      requires Valid() && k in disk && k.0 != 0
      modifies this`bufs
      ensures Valid() && SameView(old(bufs), disk, bufs, disk)
      ensures r.None? <==> !Cached(old(bufs), k) && forall b :: 0 <= b < |old(bufs)| ==> old(bufs)[b].refcnt > 0
      ensures r.None? ==> bufs == old(bufs)
      ensures r.Some? ==> Holds(bufs, r.value, k) && r.value < |old(bufs)| && InUse(r.value)
      ensures r.Some? && Cached(old(bufs), k) ==>
                bufs == old(bufs)[r.value := old(bufs)[r.value].(refcnt := old(bufs)[r.value].refcnt + 1)]
      ensures r.Some? && !Cached(old(bufs), k) ==>
                && old(bufs)[r.value].refcnt == 0
                && (forall b :: 0 <= b < |stamp| && old(bufs)[b].refcnt == 0 ==> stamp[r.value] <= stamp[b])
                && bufs == old(bufs)[r.value := old(bufs)[r.value].(key := k, valid := false, refcnt := 1)]
    {
      r := FindCached(k);
      if r.Some? {
        var b := r.value;
        var u := bufs[b].(refcnt := bufs[b].refcnt + 1);
        SameKeyStep(bufs, disk, b, u, disk);
        ViewOf(bufs, disk, k, b);
        bufs := bufs[b := u];
        return;
      }
      r := FindVictim();
      if r.Some? {
        var b := r.value;
        RecycleStep(bufs, disk, b, k);
        bufs := bufs[b := bufs[b].(key := k, valid := false, refcnt := 1)];
      }
    }

    /** bread where the lock is free: the latest contents of the block, in a buffer for the caller alone. */
    method Bread(k: Key) returns (r: Option<nat>)
      requires Valid() && k in disk && k.0 != 0
      requires forall b: nat :: Holds(bufs, b, k) ==> !bufs[b].locked
      modifies this`bufs
      ensures Valid() && SameView(old(bufs), disk, bufs, disk)
      ensures r.None? <==> !Cached(old(bufs), k) && forall b :: 0 <= b < |old(bufs)| ==> old(bufs)[b].refcnt > 0
      ensures r.Some? ==> Holds(bufs, r.value, k) && InUse(r.value) && bufs[r.value].locked && bufs[r.value].valid
      ensures r.Some? ==> bufs[r.value].data == View(old(bufs), disk, k)
      ensures |bufs| == |old(bufs)| && (r.None? ==> bufs == old(bufs))
      ensures r.Some? ==> forall b :: 0 <= b < |bufs| && b != r.value ==> bufs[b] == old(bufs)[b]
      ensures r.Some? && Cached(old(bufs), k) ==>
                && Holds(old(bufs), r.value, k) && bufs[r.value].refcnt == old(bufs)[r.value].refcnt + 1
                && (old(bufs)[r.value].valid ==> bufs[r.value].data == old(bufs)[r.value].data)
      ensures r.Some? && !Cached(old(bufs), k) ==> old(bufs)[r.value].refcnt == 0 && bufs[r.value].refcnt == 1
    {
      r := Bget(k);
      if r.None? { return; }
      var b := r.value;
      ViewOf(bufs, disk, k, b);
      var u := bufs[b].(locked := true);
      if !u.valid {
        u := u.(data := disk[k], valid := true);
      }
      SameKeyStep(bufs, disk, b, u, disk);
      bufs := bufs[b := u];
    }

    /** A change of the data by the process that holds the buffer. */
    method Modify(b: nat, data: Block)
      requires Valid() && InUse(b) && bufs[b].locked && bufs[b].valid
      modifies this`bufs
      ensures Valid() && bufs == old(bufs)[b := old(bufs)[b].(data := data)]
      ensures ViewPut(old(bufs), disk, bufs, disk, bufs[b].key, data)
    {
      SameKeyStep(bufs, disk, b, bufs[b].(data := data), disk);
      bufs := bufs[b := bufs[b].(data := data)];
    }

    /** bwrite */
    method Bwrite(b: nat)
      requires Valid() && InUse(b) && bufs[b].locked && bufs[b].valid
      modifies this`disk
      ensures Valid() && disk == old(disk)[bufs[b].key := bufs[b].data] && SameView(bufs, old(disk), bufs, disk)
    {
      var k := bufs[b].key;
      SameKeyStep(bufs, disk, b, bufs[b], disk[k := bufs[b].data]);
      ViewOf(bufs, disk, k, b);
      assert bufs[b := bufs[b]] == bufs;
      disk := disk[k := bufs[b].data];
    }

    /** brelse, by the holder; the last to let go leaves nothing that is not on disk. A buffer that is no
        longer in use goes to the front of the ring. */
    method Brelse(b: nat)
      requires Valid() && InUse(b) && bufs[b].locked && bufs[b].valid
      requires bufs[b].refcnt > 1 || bufs[b].data == disk[bufs[b].key]
      modifies this`bufs, this`next, this`prev, this`order, this`stamp, this`clock
      ensures Valid() && SameView(old(bufs), disk, bufs, disk)
      ensures bufs == old(bufs)[b := old(bufs)[b].(locked := false, refcnt := old(bufs)[b].refcnt - 1)]
      ensures bufs[b].refcnt > 0 ==> order == old(order) && stamp == old(stamp)
      ensures bufs[b].refcnt == 0 ==> stamp == old(stamp)[b := old(clock)] && clock == old(clock) + 1
    {
      var u := bufs[b].(locked := false, refcnt := bufs[b].refcnt - 1);
      SameKeyStep(bufs, disk, b, u, disk);
      ViewOf(bufs, disk, bufs[b].key, b);
      bufs := bufs[b := u];
      if u.refcnt == 0 {
        MoveToFront(b);
      }
    }

    /** Links buffer `b` out of the ring. */
    method Unlink(b: nat, ghost i: nat)
      requires Ring(next, prev, Head(0), order) && Perm(order, |bufs|) && i < |order| && order[i] == b
      modifies this`next, this`prev
      ensures Ring(next, prev, Head(0), Without(order, i))
    {
      hide Without;
      assert LinkAt(next, prev, Head(0), order, i) && LinkAt(next, prev, Head(0), order, i + 1);
      RemoveRing(next, prev, Head(0), order, i);
      prev := prev[next[At(b)] := prev[At(b)]];
      next := next[prev[At(b)] := next[At(b)]];
    }

    method MoveToFront(b: nat)
      requires Ordered() && b < |bufs|
      modifies this`next, this`prev, this`order, this`stamp, this`clock
      ensures Ordered() && stamp == old(stamp)[b := old(clock)] && clock == old(clock) + 1
    {
      hide Ring, Perm, ByRelease, Without;
      ghost var i := PlaceOf(order, |bufs|, b);
      FrontedPerm(order, |bufs|, i);
      FrontedByRelease(order, stamp, clock, i);
      Unlink(b, i);
      assert [b] + Without(order, i) == Fronted(order, i);
      order := Without(order, i);
      PushFront(b);
      order := [b] + order;
      stamp := stamp[b := clock];
      clock := clock + 1;
    }

    /** bpin */
    method Bpin(b: nat)
      requires Valid() && InUse(b)
      modifies this`bufs
      ensures Valid() && bufs == old(bufs)[b := old(bufs)[b].(refcnt := old(bufs)[b].refcnt + 1)]
      ensures SameView(old(bufs), disk, bufs, disk)
    {
      SameKeyStep(bufs, disk, b, bufs[b].(refcnt := bufs[b].refcnt + 1), disk);
      ViewOf(bufs, disk, bufs[b].key, b);
      bufs := bufs[b := bufs[b].(refcnt := bufs[b].refcnt + 1)];
    }

    /** bunpin, while the buffer is held. */
    method Bunpin(b: nat)
      requires Valid() && InUse(b) && bufs[b].refcnt > 1
      modifies this`bufs
      ensures Valid() && bufs == old(bufs)[b := old(bufs)[b].(refcnt := old(bufs)[b].refcnt - 1)]
      ensures SameView(old(bufs), disk, bufs, disk)
    {
      SameKeyStep(bufs, disk, b, bufs[b].(refcnt := bufs[b].refcnt - 1), disk);
      ViewOf(bufs, disk, bufs[b].key, b);
      bufs := bufs[b := bufs[b].(refcnt := bufs[b].refcnt - 1)];
    }

    lemma OneHolder(b: nat, c: nat, k: Key)
      requires Valid() && Holds(bufs, b, k) && Holds(bufs, c, k) && k.0 != 0
      ensures b == c
    {
    }

    /** What bread finds for a call. */
    lemma CallBuffers(dev: nat, lh: seq<nat>, n: nat)
      requires Valid() && dev != 0 && NoneTwice(lh) && Pins(bufs, dev, lh)
      ensures Cached(bufs, (dev, n)) || (exists b :: 0 <= b < |bufs| && bufs[b].refcnt == 0) <==>
              n in lh || |lh| < |bufs|
      ensures forall b: nat :: Holds(bufs, b, (dev, n)) ==> !bufs[b].locked && (bufs[b].refcnt > 0 <==> n in lh)
      ensures n in lh ==> Cached(bufs, (dev, n))
    {
      FreeBufferExactly(bufs, dev, lh);
      forall b: nat | Holds(bufs, b, (dev, n)) ensures !bufs[b].locked && (bufs[b].refcnt > 0 <==> n in lh) {
        PinnedIfListed(bufs, dev, lh, n, b);
      }
      if n in lh {
        var t :| 0 <= t < |lh| && lh[t] == n;
        assert Pinned(bufs, (dev, lh[t]));
      }
    }

    /** What a call does with one block: bread, a change of the data, log_write and brelse. The block is listed
        and pinned once, the disk stays as it is, and a reader sees the change. It fails, for want of buffers,
        exactly when every buffer is pinned for another block. */
    method LogBlock(dev: nat, lh: seq<nat>, n: nat, data: Block) returns (ok: bool, lh': seq<nat>)
      requires Valid() && dev != 0 && (dev, n) in disk && NoneTwice(lh) && Pins(bufs, dev, lh)
      modifies this`bufs, this`next, this`prev, this`order, this`stamp, this`clock
      ensures Valid() && |bufs| == |old(bufs)| && NoneTwice(lh') && Pins(bufs, dev, lh')
      ensures ok <==> n in lh || |lh| < |bufs|
      ensures lh' == if !ok || n in lh then lh else lh + [n]
      ensures if ok then ViewPut(old(bufs), disk, bufs, disk, (dev, n), data) else bufs == old(bufs)
    {
      hide Valid, View, ViewPut, SameView, NoneTwice, Pins, Cached;
      lh' := lh;
      CallBuffers(dev, lh, n);
      var r := Bread((dev, n));
      if r.None? { return false, lh; }
      var b := r.value;
      ghost var bufs1 := bufs;
      Modify(b, data);
      ViewPutAfter(old(bufs), disk, bufs1, bufs, (dev, n), data);
      ghost var bufs2 := bufs;
      if n !in lh {
        Bpin(b);
        ViewPutThen(old(bufs), disk, bufs2, disk, bufs, disk, (dev, n), data);
        lh' := lh + [n];
        ListedOnce(lh, n);
      }
      ghost var bufs3 := bufs;
      Brelse(b);
      ViewPutThen(old(bufs), disk, bufs3, disk, bufs, disk, (dev, n), data);
      PinsMore(old(bufs), bufs, dev, lh, n, b);
      ok := true;
    }

    /** The two breads of a round of write_log; the second finds a pinned buffer. */
    method ReadBoth(to: Key, from: Key) returns (t: Option<nat>, f: nat)
      requires Valid() && to in disk && from in disk && to.0 != 0 && from.0 != 0 && to != from
      requires forall b :: 0 <= b < |bufs| ==> !bufs[b].locked
      requires Pinned(bufs, from)
      requires forall b: nat :: Holds(bufs, b, to) ==> bufs[b].refcnt == 0
      modifies this`bufs
      ensures Valid() && |bufs| == |old(bufs)| && SameView(old(bufs), disk, bufs, disk)
      ensures t.None? <==> !Cached(old(bufs), to) && forall b :: 0 <= b < |old(bufs)| ==> old(bufs)[b].refcnt > 0
      ensures t.None? ==> bufs == old(bufs)
      ensures t.Some? ==>
                && t.value < |bufs| && f < |bufs| && t.value != f && old(bufs)[t.value].refcnt == 0
                && bufs[f] == old(bufs)[f].(refcnt := old(bufs)[f].refcnt + 1, locked := true) && bufs[f].refcnt > 1
                && bufs[t.value].key == to && bufs[t.value].refcnt == 1
                && bufs == old(bufs)[t.value := bufs[t.value]][f := bufs[f]]
                && InUse(f) && InUse(t.value) && bufs[f].valid && bufs[t.value].valid && bufs[t.value].locked
                && bufs[f].data == View(old(bufs), disk, from) && bufs[f].key == from
    {
      hide Valid, View, Cached;
      f := 0;
      ghost var b: nat :| PinnedIn(bufs, b, from);
      t := Bread(to);
      if t.None? { return; }
      assert PinnedIn(bufs, b, from) && Holds(bufs, t.value, to);
      ghost var mid := bufs;
      CachedIn(bufs, b, from);
      var g := Bread(from);
      f := g.value;
      OneHolder(b, f, from);
      SameViewTwice(old(bufs), disk, mid, disk, bufs, disk);
    }

    /** One round of write_log: the contents of block `from` go to block `to` of the log. */
    method CopyToLog(to: Key, from: Key) returns (ok: bool, ghost reused: nat)
      requires Valid() && to in disk && from in disk && to.0 != 0 && from.0 != 0 && to != from
      requires forall b :: 0 <= b < |bufs| ==> !bufs[b].locked
      requires Pinned(bufs, from)
      requires forall b: nat :: Holds(bufs, b, to) ==> bufs[b].refcnt == 0
      modifies this`bufs, this`disk, this`next, this`prev, this`order, this`stamp, this`clock
      ensures Valid() && |bufs| == |old(bufs)|
      ensures ok <==> Cached(old(bufs), to) || exists b :: 0 <= b < |old(bufs)| && old(bufs)[b].refcnt == 0
      ensures disk == if ok then old(disk)[to := View(old(bufs), old(disk), from)] else old(disk)
      ensures ok ==> ViewPut(old(bufs), old(disk), bufs, disk, to, View(old(bufs), old(disk), from))
      ensures ok ==> OnlyReused(old(bufs), bufs, reused, to)
      ensures !ok ==> bufs == old(bufs)
    {
      hide Valid, View, Cached, SameView, ViewPut, Pinned;
      reused := 0;
      var t, f := ReadBoth(to, from);
      if t.None? { return false, 0; }
      ghost var bufs1, data := bufs, bufs[f].data;
      Modify(t.value, bufs[f].data);
      ghost var bufs2, disk2 := bufs, disk;
      ViewPutAfter(old(bufs), disk, bufs1, bufs2, to, data);
      Bwrite(t.value);
      ViewPutThen(old(bufs), old(disk), bufs2, disk2, bufs, disk, to, data);
      Brelse(f);
      ghost var bufs3 := bufs;
      ViewPutThen(old(bufs), old(disk), bufs2, disk, bufs3, disk, to, data);
      Brelse(t.value);
      ViewPutThen(old(bufs), old(disk), bufs3, disk, bufs, disk, to, data);
      ok, reused := true, t.value;
    }

    /** write_log: every listed block goes to its block of the log. That succeeds exactly when the list is
        shorter than the cache; otherwise the first bread finds no buffer and panics. */
    method WriteLog(dev: nat, start: nat, lh: seq<nat>) returns (ok: bool)
      requires Valid() && dev != 0 && lh != [] && NoneTwice(lh) && Pins(bufs, dev, lh)
      requires forall t :: 0 <= t < |lh| ==> (dev, lh[t]) in disk && (dev, start + 1 + t) in disk
      requires forall t :: 0 <= t < |lh| ==> !(start < lh[t] <= start + |lh|)
      modifies this`bufs, this`disk, this`next, this`prev, this`order, this`stamp, this`clock
      ensures Valid() && Pins(bufs, dev, lh)
      ensures ok <==> |lh| < |old(bufs)|
      ensures if ok then Copied(old(bufs), old(disk), bufs, disk, dev, start, lh, |lh|)
              else disk == old(disk) && bufs == old(bufs)
    {
      hide Valid, View, Cached, ViewPut, Pins, NoneTwice, Copied, OnlyReused, Pinned;
      NothingCopied(bufs, disk, dev, start, lh);
      for tail := 0 to |lh|
        invariant Valid() && Pins(bufs, dev, lh) && |bufs| == |old(bufs)| && (tail > 0 ==> |lh| < |bufs|)
        invariant disk.Keys == old(disk.Keys) && (tail == 0 ==> disk == old(disk) && bufs == old(bufs))
        invariant Copied(old(bufs), old(disk), bufs, disk, dev, start, lh, tail)
      {
        RoundBuffers(dev, start, lh, tail);
        ghost var was, disk1 := bufs, disk;
        ghost var reused;
        ok, reused := CopyToLog((dev, start + 1 + tail), (dev, lh[tail]));
        if !ok { return; }
        PinsStay(was, bufs, dev, lh, reused, (dev, start + 1 + tail));
        CopiedMore(old(bufs), old(disk), was, disk1, bufs, disk, dev, start, lh, tail);
      }
      ok := true;
    }

    /** What a round of write_log finds in the cache. */
    lemma RoundBuffers(dev: nat, start: nat, lh: seq<nat>, t: nat)
      requires Valid() && dev != 0 && NoneTwice(lh) && Pins(bufs, dev, lh) && t < |lh|
      requires forall t :: 0 <= t < |lh| ==> !(start < lh[t] <= start + |lh|)
      ensures Pinned(bufs, (dev, lh[t])) && forall b :: 0 <= b < |bufs| ==> !bufs[b].locked
      ensures forall b: nat :: Holds(bufs, b, (dev, start + 1 + t)) ==> bufs[b].refcnt == 0
      ensures Cached(bufs, (dev, start + 1 + t)) || (exists b :: 0 <= b < |bufs| && bufs[b].refcnt == 0) <==>
              |lh| < |bufs|
    {
      FreeBufferExactly(bufs, dev, lh);
      LogNotPinned(bufs, dev, lh, start + 1 + t);
    }
  }
}
