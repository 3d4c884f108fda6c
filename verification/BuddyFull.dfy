/** bd_init on memory that fills its heap to the end. The right edge of every level is then past its
    last block, and the pair bit that bd_initfree reads there is a spare bit of the level's own vector
    or, because the vectors lie one behind the other, the first bit of the next one. */
module BuddyFull {
  import opened Arith
  import opened BuddyTree
  import opened BuddyTables
  import opened BuddyInit

  /** Bit `i` counted from the start of vector `k` is in that vector or one behind it. */
  predicate InRows(rows: Rows, k: nat, i: nat)
    decreases |rows| - k
  {
    k < |rows| && (i < |rows[k]| || InRows(rows, k + 1, i - |rows[k]|))
  }

  /** That bit. */
  function Flat(rows: Rows, k: nat, i: nat): bool
    requires InRows(rows, k, i)
    decreases |rows| - k
  {
    if i < |rows[k]| then rows[k][i] else Flat(rows, k + 1, i - |rows[k]|)
  }

  /** Bits behind the last pair of a level are clear. */
  ghost predicate SpareClear(rows: Rows, m: nat) {
    && |rows| == m + 1
    && forall k, j {:trigger rows[k][j]} ::
         0 <= k <= m && 0 <= j < |rows[k]| && 2 * j >= Pow2(m - k) ==> !rows[k][j]
  }

  // ----- What the scan sums up -----

  /** The bit at that place, if there is one. */
  predicate Bit(rows: Rows, k: nat, i: nat) {
    InRows(rows, k, i) && Flat(rows, k, i)
  }

  /** The scan of level `k` stays within the vectors. */
  predicate Readable(rows: Rows, lo: nat, hi: nat, k: nat) {
    && InRows(rows, k, CeilShr(lo, k) / 2)
    && (Shr(hi, k) > CeilShr(lo, k) ==> InRows(rows, k, Shr(hi, k) / 2))
  }

  /** Leaves of the blocks that bd_initfree pushes at level `k`. */
  function LevelSum(rows: Rows, lo: nat, hi: nat, k: nat): nat {
    var l, r := CeilShr(lo, k), Shr(hi, k);
    (if Bit(rows, k, l / 2) then Pow2(k) else 0) + (if r > l && Bit(rows, k, r / 2) then Pow2(k) else 0)
  }

  /** Leaves of the blocks that it pushes below level `k`. */
  function ScanSum(rows: Rows, lo: nat, hi: nat, k: nat): nat {
    if k == 0 then 0 else ScanSum(rows, lo, hi, k - 1) + LevelSum(rows, lo, hi, k - 1)
  }

  lemma SpareIsClear(rows: Rows, m: nat, lo: nat, hi: nat)
    requires MarkedRows(rows, m, lo, hi) && lo <= Pow2(m)
    ensures RowsExact(rows, m) && SpareClear(rows, m)
  {
    forall k, j | 0 <= k <= m && 0 <= j < |rows[k]| && 2 * j >= Pow2(m - k) ensures !rows[k][j] {
      LeftBound(lo, k, m);
      assert rows[k][j] == MarkBit(m, lo, hi, k, j);
    }
  }

  /** At level `k` the scan finds a set bit past the end and pushes a block that does not exist. */
  predicate Stray(m: nat, lo: nat, hi: nat, k: nat) {
    Full(m, hi) && k + 4 <= m && CeilShr(lo, k + 1) == 1
  }

  /** The bit at the right edge of a full heap is set exactly at those levels. */
  lemma ReadsNextRow(alloc: Rows, m: nat, lo: nat, hi: nat, k: nat)
    requires Sane(m, lo, hi) && Full(m, hi) && k < m && MarkedRows(alloc, m, lo, hi)
    ensures InRows(alloc, k, Shr(hi, k) / 2) && (Flat(alloc, k, Shr(hi, k) / 2) <==> Stray(m, lo, hi, k))
  {
    hide RowBytes, MarkedRows, InHeap, Sane;
    SaneBelow(m, lo, hi);
    SpareIsClear(alloc, m, lo, hi);
    FullEdge(m, k);
    RowBytesCases(m - k);
    var i := Shr(hi, k) / 2;
    assert 2 * i == Pow2(m - k);
    if m - k <= 3 {
      SmallPow2(m - k);
      assert i < |alloc[k]|;
      assert !alloc[k][i];
    } else {
      if m - k == 4 { SmallPow2(4); }
      assert i == |alloc[k]|;
      RowBytesCases(m - (k + 1));
      assert |alloc[k + 1]| > 0;
      assert InRows(alloc, k + 1, 0) && Flat(alloc, k + 1, 0) == alloc[k + 1][0];
      FirstPairBit(alloc, m, lo, hi, k + 1);
    }
  }

  lemma SmallPow2(j: nat)
    requires 1 <= j <= 4
    ensures Pow2(j) == if j == 1 then 2 else if j == 2 then 4 else if j == 3 then 8 else 16
  {
  }

  /** The first pair of a level differs exactly when the left edge is at block 1. */
  lemma FirstPairBit(alloc: Rows, m: nat, lo: nat, hi: nat, k: nat)
    requires Sane(m, lo, hi) && Full(m, hi) && 0 < k < m - 1 && MarkedRows(alloc, m, lo, hi)
    ensures k < |alloc| && 0 < |alloc[k]| && (alloc[k][0] <==> CeilShr(lo, k) == 1)
  {
    EdgesApart(m, lo, hi, k);
    ScannedPair(alloc, m, lo, hi, Block(k, 0));
    FullEdge(m, k);
    assert Pow2(m - k) >= 2 by { Pow2AtLeast(m - k, 1); }
  }

  // ----- When that happens -----

  ghost predicate AnyStray(m: nat, lo: nat, hi: nat) {
    exists k: nat :: k < m && Stray(m, lo, hi, k)
  }

  lemma CeilIsOne(lo: nat, j: nat)
    requires lo > 0
    ensures CeilShr(lo, j) == 1 <==> lo <= Pow2(j)
  {
    CeilShrIsDiv(lo, j);
    DivZero(lo, Pow2(j));
    var q, r := lo / Pow2(j), lo % Pow2(j);
    assert lo == q * Pow2(j) + r;
    if lo <= Pow2(j) {
      LeftBound(lo, j, j);
      LeftPositive(lo, j);
    } else if q >= 2 {
      MulGap(q, 1, Pow2(j));
    } else {
      assert q == 1 && r > 0;
    }
  }

  lemma AnyStrayIs(m: nat, lo: nat, hi: nat)
    requires Sane(m, lo, hi) && m >= 4
    ensures AnyStray(m, lo, hi) <==> Full(m, hi) && lo <= Pow2(m - 3)
  {
    if Full(m, hi) && lo <= Pow2(m - 3) {
      CeilIsOne(lo, m - 3);
      assert Stray(m, lo, hi, m - 4);
    }
    if k: nat :| k < m && Stray(m, lo, hi, k) {
      CeilIsOne(lo, k + 1);
      Pow2AtLeast(m - 3, k + 1);
    }
  }

  /** One more level of 2^m blocks. */
  lemma TableStep(m: nat, e: nat)
    requires m >= 1 && Pow2(m) == 16 * e
    ensures TableBytes(m) == TableBytes(m - 1) + SZ_INFO + 2 * e
  {
    AllocRow(m, e);
    assert Pow2(m - 1) == 8 * e;
    SplitRow(m - 1, e);
  }

  lemma {:induction false} TablesBelowEighth(m: nat)
    requires m >= 8
    ensures TableBytes(m) <= 2 * Pow2(m)
  {
    hide TableBytes;
    if m == 8 {
      SmallTables();
    } else {
      TablesBelowEighth(m - 1);
      var e := Pow2(m - 4);
      assert Pow2(m - 2) == 4 * e;
      TableStep(m, e);
      Pow2AtLeast(m - 4, 4);
      SmallTables();
    }
  }

  lemma SmallTables()
    ensures TableBytes(6) == 245 && TableBytes(7) == 293 && TableBytes(8) == 357
    ensures Pow2(3) == 8 && Pow2(4) == 16 && Pow2(5) == 32 && Pow2(6) == 64 && Pow2(7) == 128 && Pow2(8) == 256
  {
    hide TableBytes;
    TablesOf64();
    assert Pow2(4) == 16 && Pow2(7) == 128 && Pow2(8) == 256;
    TableStep(7, 8);
    TableStep(8, 16);
  }

  /** The tables take less than an eighth of the heap from 4096 bytes on. */
  lemma TablesLeafBound(m: nat)
    requires m >= 6
    ensures RoundUp(TableBytes(m), LEAF_SIZE) / LEAF_SIZE <= Pow2(m - 3) <==> m >= 8
  {
    hide TableBytes, RoundUp;
    RoundUpBounds(TableBytes(m), LEAF_SIZE);
    SmallTables();
    if m >= 8 {
      TablesBelowEighth(m);
      assert Pow2(m - 1) == 4 * Pow2(m - 3);
      RoundUpLeast(TableBytes(m), LEAF_SIZE, Pow2(m - 3));
    }
  }

  /** For the memory that bd_init gets: exactly when its size is a block size of 4096 bytes or more. */
  lemma StraysExactly(sz: nat)
    requires sz > 512
    ensures var m := Height(sz);
      AnyStray(m, RoundUp(TableBytes(m), LEAF_SIZE) / LEAF_SIZE, sz / LEAF_SIZE) <==> IsBlockSize(sz) && sz >= 4096
  {
    hide RoundUp, TableBytes, Height;
    var m := Height(sz);
    InitEnd(sz, m, if BlkSize(m) > sz then RoundUp(BlkSize(m) - sz, LEAF_SIZE) else 0);
    var meta := RoundUp(TableBytes(m), LEAF_SIZE);
    InitMeta(sz, m, meta);
    AnyStrayIs(m, meta / LEAF_SIZE, sz / LEAF_SIZE);
    TablesLeafBound(m);
    SmallTables();
    if m >= 8 { Pow2AtLeast(m, 8); } else { Pow2AtLeast(7, m); }
  }

  // ----- What it does to the sum and the lists -----

  /** Bytes of the blocks pushed past the end below level `k`. */
  function StrayBytes(m: nat, lo: nat, hi: nat, k: nat): nat {
    if k == 0 then 0 else StrayBytes(m, lo, hi, k - 1) + (if Stray(m, lo, hi, k - 1) then BlkSize(k - 1) else 0)
  }

  lemma {:induction false} StrayBytesZero(m: nat, lo: nat, hi: nat, k: nat)
    ensures StrayBytes(m, lo, hi, k) == 0 <==> forall j: nat :: j < k ==> !Stray(m, lo, hi, j)
  {
    if k > 0 { StrayBytesZero(m, lo, hi, k - 1); }
  }

  /** What one level adds to the sum. */
  lemma LevelAdds(alloc: Rows, m: nat, lo: nat, hi: nat, k: nat)
    requires Sane(m, lo, hi) && k < m && MarkedRows(alloc, m, lo, hi)
    ensures Readable(alloc, lo, hi, k)
    ensures LevelSum(alloc, lo, hi, k) == (if LeftFree(m, lo, hi, k) then Pow2(k) else 0)
                                          + (if RightFree(m, hi, k) then Pow2(k) else 0)
                                          + (if Stray(m, lo, hi, k) then Pow2(k) else 0)
  {
    hide MarkedRows, Sane, Shr, CeilShr;
    EdgesApart(m, lo, hi, k);
    ScannedBits(alloc, m, lo, hi, k);
    if Full(m, hi) {
      RightEven(m, hi, k);
      ReadsNextRow(alloc, m, lo, hi, k);
    }
  }

  /** The sum is all leaves between the ends and those of the blocks past the end. */
  lemma {:induction false} SumIs(alloc: Rows, m: nat, lo: nat, hi: nat, k: nat)
    requires Sane(m, lo, hi) && k <= m && MarkedRows(alloc, m, lo, hi)
    ensures LEAF_SIZE * ScanSum(alloc, lo, hi, k)
            == LEAF_SIZE * FreedBelow(m, lo, hi, if k < m then k else Meeting(m, hi)) + StrayBytes(m, lo, hi, k)
  {
    hide MarkedRows, FreedBelow, LevelSum, Stray, Shr, CeilShr, Sane;
    if k == 0 {
      FreedNone(m, lo, hi);
      assert m > 0 by { SaneHeight(m, lo, hi); }
    } else {
      SumIs(alloc, m, lo, hi, k - 1);
      LevelAdds(alloc, m, lo, hi, k - 1);
      EdgesApart(m, lo, hi, k - 1);
      FreedStep(m, lo, hi, k - 1);
    }
  }

  lemma SaneHeight(m: nat, lo: nat, hi: nat)
    requires Sane(m, lo, hi)
    ensures m > 0
  {
  }

  /** So it is wrong exactly when there is such a block. */
  lemma SumRightExactly(alloc: Rows, m: nat, lo: nat, hi: nat)
    requires Sane(m, lo, hi) && MarkedRows(alloc, m, lo, hi)
    ensures ScanSum(alloc, lo, hi, m) != hi - lo <==> AnyStray(m, lo, hi)
    ensures forall k: nat :: k < m ==> Readable(alloc, lo, hi, k)
  {
    hide MarkedRows, FreedBelow, LevelSum, Stray, Shr, CeilShr, Sane, ScanSum, Readable;
    SumIs(alloc, m, lo, hi, m);
    FreedAll(m, lo, hi);
    StrayBytesZero(m, lo, hi, m);
    forall k: nat | k < m ensures Readable(alloc, lo, hi, k) { LevelAdds(alloc, m, lo, hi, k); }
  }

  function StrayAddr(base: nat, m: nat, k: nat): nat
    requires k <= m
  {
    Addr(base, Block(k, Pow2(m - k) + 1))
  }

  lemma StrayPlace(base: nat, m: nat, k: nat)
    requires k <= m
    ensures StrayAddr(base, m, k) == base + BlkSize(m) + BlkSize(k)
  {
    Pow2Split(m - k, k);
    var a, c := Pow2(m - k), Pow2(k);
    assert (a + 1) * (LEAF_SIZE * c) == LEAF_SIZE * (a * c) + LEAF_SIZE * c;
  }

  /** `p` was pushed past the end at level j, below level k. */
  predicate IsStray(base: nat, m: nat, lo: nat, hi: nat, k: nat, j: nat, p: nat) {
    j < k && j <= m && Stray(m, lo, hi, j) && p == StrayAddr(base, m, j)
  }

  /** The lists are `clean` but for blocks past the end pushed below level `k`. */
  ghost predicate Littered(lists: seq<seq<nat>>, clean: seq<seq<nat>>, base: nat, m: nat, lo: nat, hi: nat, k: nat) {
    && |lists| == |clean| == m + 1
    && (forall j, p {:trigger p in lists[j]} :: 0 <= j <= m && p in lists[j] ==>
        p in clean[j] || IsStray(base, m, lo, hi, k, j, p))
    && ((forall j: nat :: j < k ==> !Stray(m, lo, hi, j)) ==> lists == clean)
  }

  lemma NotLittered(lists: seq<seq<nat>>, base: nat, m: nat, lo: nat, hi: nat)
    requires |lists| == m + 1
    ensures Littered(lists, lists, base, m, lo, hi, 0)
  {
  }

  lemma InHeapBelow(base: nat, m: nat, b: Block)
    requires InHeap(m, b)
    ensures b.k <= m && Addr(base, b) < base + BlkSize(m)
  {
    IndexBound(m, b);
    Pow2Split(m - b.k, b.k);
    var a, c := Pow2(m - b.k), Pow2(b.k);
    assert b.i * (LEAF_SIZE * c) == LEAF_SIZE * (b.i * c);
    MulGap(a, b.i, c);
  }

  /** A block of the heap that is not on the clean lists can be pushed on both. */
  lemma PushInHeap(lists: seq<seq<nat>>, clean: seq<seq<nat>>, base: nat, m: nat, lo: nat, hi: nat, k: nat, b: Block,
                   yes: bool)
    requires Littered(lists, clean, base, m, lo, hi, k) && InHeap(m, b)
    requires yes ==> forall j :: 0 <= j <= m ==> Addr(base, b) !in clean[j]
    ensures |lists| == |clean| == m + 1 && (yes ==> forall j :: 0 <= j <= m ==> Addr(base, b) !in lists[j])
    ensures Littered(Pushed(lists, base, b, yes), Pushed(clean, base, b, yes), base, m, lo, hi, k)
  {
    hide Stray, Addr, InHeap;
    InHeapBelow(base, m, b);
    if yes {
      forall j | 0 <= j <= m ensures Addr(base, b) !in lists[j] {
        StrayPlace(base, m, j);
      }
      var lists', clean' := Pushed(lists, base, b, yes), Pushed(clean, base, b, yes);
      forall j, p | 0 <= j <= m && p in lists'[j]
        ensures p in clean'[j] || IsStray(base, m, lo, hi, k, j, p)
      {
        assert p in lists[j] || (j == b.k && p == Addr(base, b));
      }
    }
  }

  /** A block past the end is on no list yet. */
  lemma PushPastEnd(lists: seq<seq<nat>>, clean: seq<seq<nat>>, base: nat, m: nat, lo: nat, hi: nat, k: nat, t: Tree)
    requires Littered(lists, clean, base, m, lo, hi, k) && k < m && ListsTied(clean, base, t, m)
    ensures Stray(m, lo, hi, k) ==> forall j :: 0 <= j <= m ==> StrayAddr(base, m, k) !in lists[j]
    ensures Littered(Pushed(lists, base, Block(k, Pow2(m - k) + 1), Stray(m, lo, hi, k)), clean, base, m, lo, hi, k + 1)
  {
    hide Stray, InHeap, ListTied;
    StrayPlace(base, m, k);
    forall j | 0 <= j <= m
      ensures StrayAddr(base, m, k) !in lists[j]
    {
      StrayPlace(base, m, j);
      if j < k { Pow2Grows(j, k); }
      forall x | 0 <= x < |clean[j]| ensures clean[j][x] < base + BlkSize(m) {
        assert IsBlockOf(base, m, j, clean[j][x]);
        InHeapBelow(base, m, Block(j, BlkIndex(base, j, clean[j][x])));
      }
    }
  }

  lemma Pow2Grows(j: nat, k: nat)
    requires j < k
    ensures Pow2(j) < Pow2(k)
  {
    Pow2AtLeast(k - 1, j);
  }

  lemma LitteredNext(lists: seq<seq<nat>>, clean: seq<seq<nat>>, base: nat, m: nat, lo: nat, hi: nat, k: nat)
    requires Littered(lists, clean, base, m, lo, hi, k) && !Stray(m, lo, hi, k)
    ensures Littered(lists, clean, base, m, lo, hi, k + 1)
  {
    hide Stray;
  }

  lemma NoLitter(lists: seq<seq<nat>>, clean: seq<seq<nat>>, base: nat, m: nat, lo: nat, hi: nat)
    requires Littered(lists, clean, base, m, lo, hi, m)
    ensures !AnyStray(m, lo, hi) ==> lists == clean
  {
    hide Stray;
  }

  lemma SaneBelow(m: nat, lo: nat, hi: nat)
    requires Sane(m, lo, hi)
    ensures lo <= Pow2(m)
  {
    Pow2AtLeast(m, m - 2);
  }

  lemma RightEven(m: nat, hi: nat, k: nat)
    requires Full(m, hi) && k < m
    ensures Shr(hi, k) == Pow2(m - k) && Shr(hi, k) % 2 == 0 && !RightFree(m, hi, k)
  {
    FullEdge(m, k);
  }

  /** The left edge of a level, as one round of bd_initfree meets it. */
  lemma LeftScan(alloc: Rows, lists: seq<seq<nat>>, clean: seq<seq<nat>>, base: nat, m: nat, lo: nat,
                 hi: nat, k: nat)
    requires Sane(m, lo, hi) && k < m && MarkedRows(alloc, m, lo, hi)
    requires Littered(lists, clean, base, m, lo, hi, k) && ListsTied(clean, base, Upto(InitTree(m, lo, hi), k), m)
    ensures |clean| == |lists| == m + 1
    ensures var l, b := CeilShr(lo, k), LeftEdge(lo, k);
      && InRows(alloc, k, l / 2) && Flat(alloc, k, l / 2) == LeftFree(m, lo, hi, k)
      && ScanTarget(k, l, false) == b
      && (LeftFree(m, lo, hi, k) ==> forall j :: 0 <= j <= m ==> Addr(base, b) !in lists[j])
      && Littered(Pushed(lists, base, b, LeftFree(m, lo, hi, k)), Pushed(clean, base, b, LeftFree(m, lo, hi, k)),
                  base, m, lo, hi, k)
      && ListsTied(Pushed(clean, base, b, LeftFree(m, lo, hi, k)), base, WithLeft(m, lo, hi, k), m)
  {
    assert |clean| == |lists| == m + 1;
    hide Stray, Littered, MarkedRows, ListsTied, InitTree, Addr, Sane, Pushed, Upto;
    EdgesApart(m, lo, hi, k);
    ScannedBits(alloc, m, lo, hi, k);
    LeftPush(clean, base, m, lo, hi, k);
    EdgesInTree(m, lo, hi, k);
    PushInHeap(lists, clean, base, m, lo, hi, k, LeftEdge(lo, k), LeftFree(m, lo, hi, k));
  }

  /** The second half of a round of bd_initfree, once the left edge has been dealt with. */
  lemma RightScan(alloc: Rows, lists: seq<seq<nat>>, mid: seq<seq<nat>>, base: nat, m: nat, lo: nat,
                  hi: nat, k: nat)
    requires Sane(m, lo, hi) && k < m && MarkedRows(alloc, m, lo, hi)
    requires Littered(lists, mid, base, m, lo, hi, k) && ListsTied(mid, base, WithLeft(m, lo, hi, k), m)
    ensures Shr(hi, k) > 0 && |mid| == |lists| == m + 1
    ensures Shr(hi, k) > CeilShr(lo, k) ==>
              var bit, b := RightFree(m, hi, k) || Stray(m, lo, hi, k), ScanTarget(k, Shr(hi, k), true);
              && InRows(alloc, k, Shr(hi, k) / 2) && Flat(alloc, k, Shr(hi, k) / 2) == bit
              && !(RightFree(m, hi, k) && Stray(m, lo, hi, k))
              && (bit ==> forall j :: 0 <= j <= m ==> Addr(base, b) !in lists[j])
              && Littered(Pushed(lists, base, b, bit), Pushed(mid, base, RightEdge(hi, k), RightFree(m, hi, k)), base,
                          m, lo, hi, k + 1)
    ensures Shr(hi, k) <= CeilShr(lo, k) ==>
              && !RightFree(m, hi, k) && !Stray(m, lo, hi, k)
              && Littered(lists, Pushed(mid, base, RightEdge(hi, k), RightFree(m, hi, k)), base, m, lo, hi, k + 1)
  {
    EdgesApart(m, lo, hi, k);
    if Full(m, hi) {
      FullScan(alloc, lists, mid, base, m, lo, hi, k);
    } else {
      PartScan(alloc, lists, mid, base, m, lo, hi, k);
    }
  }

  lemma FullScan(alloc: Rows, lists: seq<seq<nat>>, mid: seq<seq<nat>>, base: nat, m: nat, lo: nat,
                 hi: nat, k: nat)
    requires Sane(m, lo, hi) && Full(m, hi) && k < m && MarkedRows(alloc, m, lo, hi)
    requires Littered(lists, mid, base, m, lo, hi, k) && ListsTied(mid, base, WithLeft(m, lo, hi, k), m)
    ensures Shr(hi, k) > CeilShr(lo, k) && !RightFree(m, hi, k)
    ensures InRows(alloc, k, Shr(hi, k) / 2) && Flat(alloc, k, Shr(hi, k) / 2) == Stray(m, lo, hi, k)
    ensures var b := ScanTarget(k, Shr(hi, k), true);
      && (Stray(m, lo, hi, k) ==> forall j :: 0 <= j <= m ==> Addr(base, b) !in lists[j])
      && Littered(Pushed(lists, base, b, Stray(m, lo, hi, k)), mid, base, m, lo, hi, k + 1)
  {
    hide Stray, Littered, MarkedRows, ListsTied, InitTree, Sane, Flat, InRows;
    EdgesApart(m, lo, hi, k);
    RightEven(m, hi, k);
    ReadsNextRow(alloc, m, lo, hi, k);
    PushPastEnd(lists, mid, base, m, lo, hi, k, WithLeft(m, lo, hi, k));
  }

  lemma PartScan(alloc: Rows, lists: seq<seq<nat>>, mid: seq<seq<nat>>, base: nat, m: nat, lo: nat,
                 hi: nat, k: nat)
    requires Sane(m, lo, hi) && !Full(m, hi) && k < m && MarkedRows(alloc, m, lo, hi)
    requires Littered(lists, mid, base, m, lo, hi, k) && ListsTied(mid, base, WithLeft(m, lo, hi, k), m)
    ensures !Stray(m, lo, hi, k) && (Shr(hi, k) > CeilShr(lo, k) <==> k < m - 1) && Shr(hi, k) > 0
    ensures |mid| == |lists| == m + 1
    ensures k < m - 1 ==> InRows(alloc, k, Shr(hi, k) / 2) && Flat(alloc, k, Shr(hi, k) / 2) == RightFree(m, hi, k)
    ensures RightFree(m, hi, k) ==> ScanTarget(k, Shr(hi, k), true) == RightEdge(hi, k)
    ensures RightFree(m, hi, k) ==> forall j :: 0 <= j <= m ==> Addr(base, RightEdge(hi, k)) !in lists[j]
    ensures Littered(Pushed(lists, base, RightEdge(hi, k), RightFree(m, hi, k)),
                     Pushed(mid, base, RightEdge(hi, k), RightFree(m, hi, k)), base, m, lo, hi, k + 1)
  {
    assert !Stray(m, lo, hi, k) && |mid| == |lists| == m + 1;
    hide Stray, Littered, MarkedRows, ListsTied, InitTree, Addr;
    EdgesApart(m, lo, hi, k);
    ScannedBits(alloc, m, lo, hi, k);
    RightPush(mid, base, m, lo, hi, k);
    EdgesInTree(m, lo, hi, k);
    PushInHeap(lists, mid, base, m, lo, hi, k, RightEdge(hi, k), RightFree(m, hi, k));
    LitteredNext(Pushed(lists, base, RightEdge(hi, k), RightFree(m, hi, k)),
                 Pushed(mid, base, RightEdge(hi, k), RightFree(m, hi, k)), base, m, lo, hi, k);
  }
}
