/** What bd_init computes: the table sizes, the first tree, and why the pair scan of bd_initfree
    finds exactly its free blocks. */
module BuddyInit {
  import opened Arith
  import opened BuddyTree
  import opened BuddyTables

  // ----- Sizes -----

  /** ROUNDUP */
  function RoundUp(n: nat, sz: nat): (r: nat)
    requires sz > 0
  {
    ((n - 1) / sz + 1) * sz
  }

  lemma RoundUpBounds(n: nat, sz: nat)
    requires sz > 0
    ensures n <= RoundUp(n, sz) < n + sz
    ensures RoundUp(n, sz) % sz == 0
  {
    var q, r := (n - 1) / sz, (n - 1) % sz;
    assert n - 1 == q * sz + r;
    assert (q + 1) * sz == q * sz + sz;
    DivUnique((q + 1) * sz, sz, q + 1, 0);
  }

  lemma RoundUpLeast(n: nat, sz: nat, c: nat)
    requires sz > 0 && n <= c * sz
    ensures RoundUp(n, sz) <= c * sz
  {
    var q := (n - 1) / sz;
    assert n - 1 == q * sz + (n - 1) % sz;
    assert (q + 1) * sz == q * sz + sz;
    if q + 1 > c { MulGap(q + 1, c, sz); }
  }

  lemma RoundUpExact(c: nat, sz: nat)
    requires sz > 0
    ensures RoundUp(c * sz, sz) == c * sz && RoundUp(c * sz, sz) / sz == c
  {
    RoundUpLeast(c * sz, sz, c);
    RoundUpBounds(c * sz, sz);
    DivUnique(c * sz, sz, c, 0);
  }

  function Log2(n: nat): nat {
    if n <= 1 then 0 else 1 + Log2(n / 2)
  }

  lemma Log2Bounds(n: nat)
    requires n >= 1
    ensures Pow2(Log2(n)) <= n < 2 * Pow2(Log2(n))
  {
  }

  /** Bytes of the xor vector of a level with 2^j blocks. */
  function RowBytes(j: nat): nat {
    RoundUp(Pow2(j), 16) / 16
  }

  lemma RowBytesCases(j: nat)
    ensures 16 * RowBytes(j) >= Pow2(j)
    ensures if j <= 4 then RowBytes(j) == 1 else 16 * RowBytes(j) == Pow2(j)
  {
    assert Pow2(4) == 16;
    if j <= 4 {
      Pow2AtLeast(4, j);
      RoundUpSmall(Pow2(j), 16);
    } else {
      Pow2Split(j - 4, 4);
      RoundUpExact(Pow2(j - 4), 16);
    }
  }

  /** Bytes of all xor vectors for levels with 2^0 .. 2^(j-1) blocks. */
  function AllocSum(j: nat): nat {
    if j == 0 then 0 else AllocSum(j - 1) + RowBytes(j - 1)
  }

  /** Bytes of all split vectors for levels with 2^0 .. 2^(j-1) blocks. */
  function SplitSum(j: nat): nat {
    if j == 0 then 0 else SplitSum(j - 1) + RoundUp(Pow2(j - 1), 8) / 8
  }

  const SZ_INFO: nat := 32  // sizeof(Sz_info)

  function TableBytes(m: nat): nat {
    SZ_INFO * (m + 1) + AllocSum(m + 1) + SplitSum(m)
  }

  /** From 1024 bytes of heap on, the tables take at most a quarter of it. */
  lemma {:induction false} TablesTakeAQuarter(m: nat)
    requires m >= 6
    ensures RoundUp(TableBytes(m), LEAF_SIZE) <= 4 * Pow2(m)
  {
    TableBound(m);
    assert Pow2(m) == 4 * Pow2(m - 2);
    RoundUpLeast(TableBytes(m), LEAF_SIZE, Pow2(m - 2));
  }

  lemma {:induction false} TableBound(m: nat)
    requires m >= 6
    ensures TableBytes(m) <= 4 * Pow2(m)
  {
    if m == 6 {
      TablesOf64();
    } else {
      TableBound(m - 1);
      var e := Pow2(m - 5);
      assert Pow2(m - 1) == 16 * e && Pow2(m) == 32 * e by {
        assert Pow2(m - 3) == 4 * e;
      }
      AllocRow(m, 2 * e);
      SplitRow(m - 1, 2 * e);
      Pow2AtLeast(m - 5, 2);
    }
  }

  lemma TablesOf64()
    ensures TableBytes(6) == 245 && Pow2(6) == 64
  {
    hide AllocSum, SplitSum, RowBytes;
    assert Pow2(4) == 16 && Pow2(5) == 32;
    SmallSums(5);
    SmallSums(4);
    AllocRow(5, 2);
    AllocRow(6, 4);
    SplitRow(4, 2);
    SplitRow(5, 4);
  }

  lemma RoundUpSmall(n: nat, sz: nat)
    requires 0 < n <= sz
    ensures RoundUp(n, sz) / sz == 1
  {
    DivUnique(n - 1, sz, 0, n - 1);
    DivUnique(sz, sz, 1, 0);
  }

  lemma AllocRow(j: nat, e: nat)
    requires Pow2(j) == e * 16
    ensures AllocSum(j + 1) == AllocSum(j) + e
  {
    RoundUpExact(e, 16);
  }

  lemma SplitRow(j: nat, e: nat)
    requires Pow2(j) == e * 8
    ensures SplitSum(j + 1) == SplitSum(j) + e
  {
    RoundUpExact(e, 8);
  }

  /** Levels of at most 16 and at most 8 blocks take one byte each. */
  lemma SmallSums(j: nat)
    ensures j <= 5 ==> AllocSum(j) == j
    ensures j <= 4 ==> SplitSum(j) == j
  {
    if 0 < j <= 5 {
      SmallSums(j - 1);
      Pow2AtLeast(4, j - 1);
      assert Pow2(4) == 16;
      RoundUpSmall(Pow2(j - 1), 16);
      if j <= 4 {
        Pow2AtLeast(3, j - 1);
        assert Pow2(3) == 8;
        RoundUpSmall(Pow2(j - 1), 8);
      }
    }
  }

  lemma Pow2AtLeast(a: nat, b: nat)
    requires a >= b
    ensures Pow2(a) >= Pow2(b)
  {
  }

  lemma Pow2Split(a: nat, b: nat)
    ensures Pow2(a + b) == Pow2(a) * Pow2(b)
  {
    if a > 0 {
      Pow2Split(a - 1, b);
      assert Pow2(a) * Pow2(b) == 2 * (Pow2(a - 1) * Pow2(b));
    }
  }

  /** The height bd_init chooses for `sz` bytes. */
  function Height(sz: nat): nat {
    var l := Log2(sz / LEAF_SIZE);
    if sz > BlkSize(l) then l + 1 else l
  }

  ghost predicate IsBlockSize(sz: nat) {
    exists k: nat :: sz == BlkSize(k)
  }

  lemma {:induction false} Log2OfPow2(k: nat)
    ensures Log2(Pow2(k)) == k
  {
    if k > 0 { Log2OfPow2(k - 1); }
  }

  /** The heap of the chosen height is the memory if its size is a block size, and otherwise larger
      than the memory but less than twice as large. */
  lemma HeightFits(sz: nat)
    requires sz >= LEAF_SIZE
    ensures if IsBlockSize(sz) then BlkSize(Height(sz)) == sz else sz < BlkSize(Height(sz)) < 2 * sz && Height(sz) > 0
  {
    var l := Log2(sz / LEAF_SIZE);
    Log2Bounds(sz / LEAF_SIZE);
    if IsBlockSize(sz) {
      var k: nat :| sz == BlkSize(k);
      Log2OfPow2(k);
    } else {
      assert sz != BlkSize(l);
    }
  }

  /** The right edge that bd_initfree looks at lies within its level, at every level, exactly when the
      size of the memory is not a block size. */
  lemma ScanInRangeExactly(sz: nat)
    requires sz > LEAF_SIZE
    ensures (forall k: nat :: k < Height(sz) ==> Shr(sz / LEAF_SIZE, k) < Pow2(Height(sz) - k)) <==> !IsBlockSize(sz)
  {
    var m := Height(sz);
    HeightFits(sz);
    if IsBlockSize(sz) {
      assert m > 0 && sz / LEAF_SIZE == Pow2(m);
      assert Shr(Pow2(m), 0) == Pow2(m - 0);
    } else {
      forall k: nat | k < m ensures Shr(sz / LEAF_SIZE, k) < Pow2(m - k) { RightAbove(sz / LEAF_SIZE, k, m); }
    }
  }

  // ----- Levels of the reserved ends -----

  lemma LeftBound(lo: nat, k: nat, e: nat)
    requires k <= e && lo <= Pow2(e)
    ensures CeilShr(lo, k) <= Pow2(e - k)
  {
    if k > 0 { LeftBound(lo, k - 1, e); }
  }

  lemma LeftPositive(lo: nat, k: nat)
    requires lo > 0
    ensures CeilShr(lo, k) > 0
  {
  }

  lemma RightBound(hi: nat, k: nat, e: nat)
    requires k <= e && Pow2(e) <= hi
    ensures Pow2(e - k) <= Shr(hi, k)
  {
    if k > 0 { RightBound(hi, k - 1, e); }
  }

  lemma RightAbove(hi: nat, k: nat, e: nat)
    requires k <= e && hi < Pow2(e)
    ensures Shr(hi, k) < Pow2(e - k)
  {
    if k > 0 { RightAbove(hi, k - 1, e); }
  }

  /** The tables end within the first quarter of the heap and the memory ends in its second half. */
  predicate Sane(m: nat, lo: nat, hi: nat) {
    m >= 2 && 0 < lo <= Pow2(m - 2) && Pow2(m - 1) <= hi <= Pow2(m)
  }

  /** The memory fills the heap to its end. */
  predicate Full(m: nat, hi: nat) {
    hi == Pow2(m)
  }

  /** The right edge of a full heap is past the last block of every level. */
  lemma FullEdge(m: nat, k: nat)
    requires k <= m
    ensures Shr(Pow2(m), k) == Pow2(m - k)
    ensures !InHeap(m, Block(k, Pow2(m - k)))
  {
    RightBound(Pow2(m), k, m);
    LeftBound(Pow2(m), k, m);
    FloorBelowCeil(Pow2(m), k);
    IndexBound(m, Block(k, Pow2(m - k)));
  }

  lemma FloorBelowCeil(x: nat, k: nat)
    ensures Shr(x, k) <= CeilShr(x, k)
  {
  }

  /** At each level below the top two, the block at the left edge and the block at the right edge
      belong to different pairs; at level m-1 both edges are at the middle, unless the heap is full. */
  lemma EdgesApart(m: nat, lo: nat, hi: nat, k: nat)
    requires Sane(m, lo, hi) && k < m
    ensures 0 < CeilShr(lo, k) <= Shr(hi, k) <= Pow2(m - k) && CeilShr(lo, k) < Pow2(m - k)
    ensures if Full(m, hi) then Shr(hi, k) == Pow2(m - k) else Shr(hi, k) < Pow2(m - k)
    ensures k < m - 1 ==> CeilShr(lo, k) / 2 < Shr(hi, k) / 2
    ensures k == m - 1 ==> CeilShr(lo, k) == 1 && (Full(m, hi) || Shr(hi, k) == 1)
  {
    LeftPositive(lo, k);
    RightBound(hi, k, m - 1);
    if Full(m, hi) { FullEdge(m, k); } else { RightAbove(hi, k, m); }
    if k < m - 1 {
      LeftBound(lo, k, m - 2);
    } else {
      LeftBound(lo, m - 2, m - 2);
    }
  }

  // ----- The first tree -----

  function HeapBlocks(m: nat): (s: set<Block>)
    ensures forall b :: b in s <==> InHeap(m, b)
  {
    var s := set k: nat, i: nat | k <= m && i < Pow2(m - k) :: Block(k, i);
    assert forall b :: b in s <==> InHeap(m, b) by {
      forall b
        ensures b in s <==> InHeap(m, b)
      {
        if b.k <= m { IndexBound(m, b); }
      }
    }
    s
  }

  /** The first tree has block `b`: it lies over a reserved end, or its parent does. */
  predicate InitHas(m: nat, lo: nat, hi: nat, b: Block) {
    InHeap(m, b) && (Reserved(lo, hi, b) || (b.k < m && Reserved(lo, hi, Parent(b))))
  }

  function InitStatus(lo: nat, hi: nat, b: Block): Status {
    if Reserved(lo, hi, b) then ReservedStatus(b) else Free
  }

  /** Blocks over a reserved end are split (leaves: used); a block beside one is free. */
  function InitTree(m: nat, lo: nat, hi: nat): (t: Tree)
    ensures forall b :: b in t <==> InitHas(m, lo, hi, b)
    ensures forall b :: b in t ==> t[b] == InitStatus(lo, hi, b)
  {
    map b | b in HeapBlocks(m) && InitHas(m, lo, hi, b) :: InitStatus(lo, hi, b)
  }

  lemma InitTreeOk(m: nat, lo: nat, hi: nat)
    requires lo > 0
    ensures Ok(InitTree(m, lo, hi), m, lo, hi)
    ensures Live(InitTree(m, lo, hi), lo, hi) == {}
  {
    var t := InitTree(m, lo, hi);
    LeftPositive(lo, m);
    assert InitHas(m, lo, hi, Block(m, 0));
    forall b | b in t
      ensures Local(t, m, b)
    {
      InitLocal(t, m, lo, hi, b);
    }
    forall b | InHeap(m, b)
      ensures KeepsReserved(t, lo, hi, b)
    {
      assert Reserved(lo, hi, b) ==> InitHas(m, lo, hi, b);
    }
  }

  lemma InitLocal(t: Tree, m: nat, lo: nat, hi: nat, b: Block)
    requires forall c :: c in t <==> InitHas(m, lo, hi, c)
    requires forall c :: c in t ==> t[c] == InitStatus(lo, hi, c)
    requires b in t
    ensures Local(t, m, b)
  {
    assert InitHas(m, lo, hi, b);
    assert t[b] == InitStatus(lo, hi, b);
    if b.k < m {
      InitParent(m, lo, hi, b);
    }
    if b.k > 0 && Reserved(lo, hi, b) {
      HalvesInHeap(m, b);
      assert Parent(Left(b)) == b && Parent(Right(b)) == b;
      assert InitHas(m, lo, hi, Left(b)) && InitHas(m, lo, hi, Right(b));
    }
  }

  lemma InitParent(m: nat, lo: nat, hi: nat, b: Block)
    requires InitHas(m, lo, hi, b) && b.k < m
    ensures InitHas(m, lo, hi, Parent(b)) && InitStatus(lo, hi, Parent(b)) == Split
    ensures InitStatus(lo, hi, b) == Free ==> InitStatus(lo, hi, Buddy(b)) != Free
  {
    ParentInHeap(m, b);
    PairOf(b);
    HalvesReserved(lo, hi, Parent(b));
  }

  /** Whatever happened in between, once nothing is handed out the tree is the first tree again and
      every free list holds the blocks that bd_init put there. */
  lemma FreeingAllRestores(t: Tree, m: nat, lo: nat, hi: nat, base: nat, lists0: seq<seq<nat>>, lists: seq<seq<nat>>)
    requires lo > 0 && Ok(t, m, lo, hi) && Live(t, lo, hi) == {}
    requires ListsTied(lists0, base, InitTree(m, lo, hi), m) && ListsTied(lists, base, t, m)
    ensures t == InitTree(m, lo, hi)
    ensures forall k, p :: 0 <= k <= m ==> (p in lists[k] <==> p in lists0[k])
  {
    InitTreeOk(m, lo, hi);
    Canonical(t, InitTree(m, lo, hi), m, lo, hi);
    forall k, p | 0 <= k <= m
      ensures p in lists[k] <==> p in lists0[k]
    {
      SameBlocksOnLists(lists, lists0, base, t, m, k, p);
      SameBlocksOnLists(lists0, lists, base, t, m, k, p);
    }
  }

  /** The block at the left edge of level `k` is free: its index is odd, and so it has no free buddy. */
  predicate LeftFree(m: nat, lo: nat, hi: nat, k: nat) {
    CeilShr(lo, k) % 2 == 1 && (k < m - 1 || Full(m, hi))
  }

  predicate RightFree(m: nat, hi: nat, k: nat) {
    k < m - 1 && Shr(hi, k) % 2 == 1
  }

  /** Which blocks of level `k` the first tree calls free: the one at the left edge if its index is
      odd, and the one before the right edge if that edge is odd. */
  lemma InitFreeAt(m: nat, lo: nat, hi: nat, b: Block)
    requires Sane(m, lo, hi) && InHeap(m, b) && b.k < m
    ensures (b in InitTree(m, lo, hi) && InitTree(m, lo, hi)[b] == Free) <==>
            (b.i == CeilShr(lo, b.k) && LeftFree(m, lo, hi, b.k)) || (b.i + 1 == Shr(hi, b.k) && RightFree(m, hi, b.k))
  {
    var l, r := CeilShr(lo, b.k), Shr(hi, b.k);
    EdgesApart(m, lo, hi, b.k);
    PairOf(b);
    HalvesReserved(lo, hi, Parent(b));
    assert b in InitTree(m, lo, hi) <==> InitHas(m, lo, hi, b);
  }

  /** The pair bits the marking leaves behind: at the left edge, set exactly when the edge is odd;
      at the right edge, too. */
  lemma EdgePairBits(m: nat, lo: nat, hi: nat, k: nat)
    requires Sane(m, lo, hi) && k < m
    ensures var l := CeilShr(lo, k);
            (Reserved(lo, hi, Block(k, 2 * (l / 2))) != Reserved(lo, hi, Block(k, 2 * (l / 2) + 1)))
            <==> LeftFree(m, lo, hi, k)
    ensures var r := Shr(hi, k);
            k < m - 1 && !Full(m, hi) ==>
              ((Reserved(lo, hi, Block(k, 2 * (r / 2))) != Reserved(lo, hi, Block(k, 2 * (r / 2) + 1)))
               <==> RightFree(m, hi, k))
  {
    EdgesApart(m, lo, hi, k);
  }

  /** Leaves freed up to level `k`: what lies between the reserved ends and the edges of level k. */
  function FreedBelow(m: nat, lo: nat, hi: nat, k: nat): int {
    (CeilShr(lo, k) * Pow2(k) - lo) + (hi - Shr(hi, k) * Pow2(k))
  }

  lemma FreedNone(m: nat, lo: nat, hi: nat)
    ensures FreedBelow(m, lo, hi, 0) == 0
  {
  }

  lemma FreedStep(m: nat, lo: nat, hi: nat, k: nat)
    ensures FreedBelow(m, lo, hi, k + 1) == FreedBelow(m, lo, hi, k)
              + (if CeilShr(lo, k) % 2 == 1 then Pow2(k) else 0)
              + (if Shr(hi, k) % 2 == 1 then Pow2(k) else 0)
  {
    DoubledEdge(CeilShr(lo, k) + 1, Pow2(k));
    DoubledEdge(Shr(hi, k), Pow2(k));
    assert (CeilShr(lo, k) + 1) * Pow2(k) == CeilShr(lo, k) * Pow2(k) + Pow2(k);
  }

  lemma DoubledEdge(x: nat, p: nat)
    ensures x / 2 * (2 * p) == x * p - (if x % 2 == 1 then p else 0)
  {
    var h := x / 2;
    assert h * (2 * p) == (2 * h) * p;
    if x % 2 == 1 { assert (2 * h + 1) * p == (2 * h) * p + p; }
  }

  /** How many levels the scan goes through before its edges meet. */
  function Meeting(m: nat, hi: nat): nat {
    if m > 0 && !Full(m, hi) then m - 1 else m
  }

  /** There everything between the reserved ends has been freed. */
  lemma FreedAll(m: nat, lo: nat, hi: nat)
    requires Sane(m, lo, hi)
    ensures FreedBelow(m, lo, hi, Meeting(m, hi)) == hi - lo
  {
    EdgesApart(m, lo, hi, m - 1);
    if Full(m, hi) { FullEdge(m, m); }
  }

  // ----- Marking the reserved ends -----

  /** Row `now` is row `was` with the blocks bi .. bj-1 marked split. */
  predicate MarkedSplit(now: seq<bool>, was: seq<bool>, bi: nat, bj: nat) {
    && |now| == |was|
    && forall i :: 0 <= i < |now| ==> (now[i] <==> was[i] || bi <= i < bj)
  }

  /** Row `now` is row `was` with the bit of its pair inverted once for each of the blocks bi .. bj-1. */
  predicate MarkedPair(now: seq<bool>, was: seq<bool>, bi: nat, bj: nat) {
    && |now| == |was|
    && forall j {:trigger now[j]} :: 0 <= j < |now| ==>
        now[j] == Inverted(was[j], bi <= 2 * j < bj, bi <= 2 * j + 1 < bj)
  }

  predicate Inverted(b: bool, once: bool, again: bool) {
    (b != once) != again
  }

  /** The vectors have the lengths that bd_init gives them. */
  ghost predicate RowsExact(rows: Rows, m: nat) {
    |rows| == m + 1 && forall k :: 0 <= k <= m ==> |rows[k]| == 8 * RowBytes(m - k)
  }

  /** The bit of pair `j` of a level with its blocks below `l` marked and those from `r` to n-1: inverted
      for every mark of one of its blocks. */
  predicate PairBit(l: nat, r: nat, n: nat, j: nat) {
    Inverted(Inverted(false, 2 * j < l, 2 * j + 1 < l), r <= 2 * j < n, r <= 2 * j + 1 < n)
  }

  /** The bit of pair `j` of level `k` once both ends are marked. */
  predicate MarkBit(m: nat, lo: nat, hi: nat, k: nat, j: nat)
    requires k <= m
  {
    PairBit(CeilShr(lo, k), Shr(hi, k), Pow2(m - k), j)
  }

  /** The vectors as marking both ends leaves them. */
  ghost predicate MarkedRows(rows: Rows, m: nat, lo: nat, hi: nat) {
    && RowsExact(rows, m)
    && forall k, j {:trigger rows[k][j]} :: 0 <= k <= m && 0 <= j < |rows[k]| ==> rows[k][j] == MarkBit(m, lo, hi, k, j)
  }

  lemma MarkNone(pairs: seq<bool>, splits: seq<bool>, bi: nat, bj: nat)
    requires bj <= bi
    ensures MarkedPair(pairs, pairs, bi, bj) && MarkedSplit(splits, splits, bi, bj)
  {
  }

  lemma SplitOneMore(now: seq<bool>, was: seq<bool>, bi: nat, i: nat)
    requires MarkedSplit(now, was, bi, i) && bi <= i < |now|
    ensures MarkedSplit(now[i := true], was, bi, i + 1)
  {
  }

  lemma MarkOneMore(now: seq<bool>, was: seq<bool>, bi: nat, i: nat)
    requires MarkedPair(now, was, bi, i) && bi <= i && i / 2 < |now|
    ensures MarkedPair(now[i / 2 := !now[i / 2]], was, bi, i + 1)
  {
  }

  /** Two markings, starting from cleared vectors. */
  lemma MarkedTwice(row0: seq<bool>, row1: seq<bool>, row: seq<bool>, m: nat, lo: nat, hi: nat, k: nat)
    requires k <= m && Cleared(row0) && MarkedPair(row1, row0, 0, CeilShr(lo, k))
    requires MarkedPair(row, row1, Shr(hi, k), Pow2(m - k))
    ensures |row| == |row0| && forall j :: 0 <= j < |row| ==> row[j] == MarkBit(m, lo, hi, k, j)
  {
    forall j | 0 <= j < |row| ensures row[j] == MarkBit(m, lo, hi, k, j) {
      assert row1[j] == Inverted(row0[j], 0 <= 2 * j < CeilShr(lo, k), 0 <= 2 * j + 1 < CeilShr(lo, k));
    }
  }

  /** After both ends are marked the bits stand for the first tree. */
  lemma InitBitsTied(split0: Rows, split1: Rows, alloc: Rows, split: Rows, m: nat, lo: nat, hi: nat)
    requires Sane(m, lo, hi) && MarkedRows(alloc, m, lo, hi) && |split0| == |split1| == |split| == m + 1
    requires forall k :: 0 < k <= m ==>
               |split0[k]| >= Pow2(m - k) && Cleared(split0[k]) &&
               MarkedSplit(split1[k], split0[k], 0, CeilShr(lo, k)) &&
               MarkedSplit(split[k], split1[k], Shr(hi, k), Pow2(m - k))
    ensures BitsTied(alloc, split, InitTree(m, lo, hi), m)
  {
    hide InitTree, MarkedRows, MarkedSplit, Sane, SplitTied, PairTied, Cleared;
    var t := InitTree(m, lo, hi);
    forall b | InHeap(m, b) && b.k > 0
      ensures SplitTied(split, t, b)
    {
      IndexBound(m, b);
      InitSplitTied(split0, split1, split, m, lo, hi, b);
    }
    forall p | InHeap(m, p) && p.k > 0
      ensures PairTied(alloc, t, p)
    {
      InitPairTied(alloc, m, lo, hi, p);
    }
  }

  lemma InitSplitTied(split0: Rows, split1: Rows, split: Rows, m: nat, lo: nat, hi: nat, b: Block)
    requires InHeap(m, b) && b.k > 0 && |split0| == |split1| == |split| == m + 1 && b.k <= m
    requires |split0[b.k]| >= Pow2(m - b.k) && Cleared(split0[b.k])
    requires MarkedSplit(split1[b.k], split0[b.k], 0, CeilShr(lo, b.k))
    requires MarkedSplit(split[b.k], split1[b.k], Shr(hi, b.k), Pow2(m - b.k))
    ensures SplitTied(split, InitTree(m, lo, hi), b)
  {
    hide InHeap;
    IndexBound(m, b);
    assert b in InitTree(m, lo, hi) <==> InitHas(m, lo, hi, b);
  }

  lemma InitPairTied(alloc: Rows, m: nat, lo: nat, hi: nat, p: Block)
    requires Sane(m, lo, hi) && InHeap(m, p) && p.k > 0 && MarkedRows(alloc, m, lo, hi)
    ensures PairTied(alloc, InitTree(m, lo, hi), p)
  {
    hide InHeap, InitTree, MarkedRows, Sane;
    HalvesInHeap(m, p);
    IndexBound(m, Left(p));
    IndexBound(m, Right(p));
    ScannedPair(alloc, m, lo, hi, Left(p));
    InUseIsReserved(m, lo, hi, Left(p));
    InUseIsReserved(m, lo, hi, Right(p));
  }

  lemma InUseIsReserved(m: nat, lo: nat, hi: nat, b: Block)
    requires InHeap(m, b)
    ensures InUse(InitTree(m, lo, hi), b) <==> Reserved(lo, hi, b)
  {
    assert b in InitTree(m, lo, hi) <==> InitHas(m, lo, hi, b);
  }

  predicate Cleared(row: seq<bool>) {
    forall i :: 0 <= i < |row| ==> !row[i]
  }

  /** The rows of level `k` are long enough for its blocks. */
  predicate Fits(alloc: seq<bool>, split: seq<bool>, m: nat, k: nat)
    requires k <= m
  {
    |alloc| == 8 * RowBytes(m - k) && 2 * |alloc| >= Pow2(m - k) && (k > 0 ==> |split| >= Pow2(m - k))
  }

  // ----- The lists under construction -----

  /** The part of a tree below level `k`. */
  function Upto(t: Tree, k: nat): Tree {
    map b | b in t && b.k < k :: t[b]
  }

  lemma ListsTiedSame(lists: seq<seq<nat>>, base: nat, t: Tree, u: Tree, m: nat)
    requires ListsTied(lists, base, t, m)
    requires forall c :: InHeap(m, c) ==> ((c in u && u[c] == Free) <==> (c in t && t[c] == Free))
    ensures ListsTied(lists, base, u, m)
  {
    forall c | InHeap(m, c)
      ensures ListTied(lists, base, u, c)
    {
      assert ListTied(lists, base, t, c);
    }
  }

  /** The lists with block `b` pushed on its level's list if `yes`. */
  function Pushed(lists: seq<seq<nat>>, base: nat, b: Block, yes: bool): seq<seq<nat>>
    requires b.k < |lists|
  {
    if yes then lists[b.k := [Addr(base, b)] + lists[b.k]] else lists
  }

  function LeftEdge(lo: nat, k: nat): Block {
    Block(k, CeilShr(lo, k))
  }

  function RightEdge(hi: nat, k: nat): Block
    requires Shr(hi, k) > 0
  {
    Block(k, Shr(hi, k) - 1)
  }

  function WithLeft(m: nat, lo: nat, hi: nat, k: nat): Tree {
    if LeftFree(m, lo, hi, k) then Upto(InitTree(m, lo, hi), k)[LeftEdge(lo, k) := Free]
        else Upto(InitTree(m, lo, hi), k)
  }

  lemma EdgesInTree(m: nat, lo: nat, hi: nat, k: nat)
    requires Sane(m, lo, hi) && k < m
    ensures var t := InitTree(m, lo, hi); var l := LeftEdge(lo, k);
            InHeap(m, l) && (LeftFree(m, lo, hi, k) ==> l in t && t[l] == Free)
    ensures Shr(hi, k) > 0
    ensures var t := InitTree(m, lo, hi); var r := RightEdge(hi, k);
            InHeap(m, r) && (RightFree(m, hi, k) ==> r in t && t[r] == Free && r != LeftEdge(lo, k))
  {
    hide Sane, InHeap, InitTree;
    EdgesApart(m, lo, hi, k);
    IndexBound(m, LeftEdge(lo, k));
    IndexBound(m, RightEdge(hi, k));
    InitFreeAt(m, lo, hi, LeftEdge(lo, k));
    InitFreeAt(m, lo, hi, RightEdge(hi, k));
  }

  lemma LeftPush(lists: seq<seq<nat>>, base: nat, m: nat, lo: nat, hi: nat, k: nat)
    requires Sane(m, lo, hi) && k < m
    requires ListsTied(lists, base, Upto(InitTree(m, lo, hi), k), m)
    ensures LeftFree(m, lo, hi, k) ==> forall j :: 0 <= j <= m ==> Addr(base, LeftEdge(lo, k)) !in lists[j]
    ensures ListsTied(Pushed(lists, base, LeftEdge(lo, k), LeftFree(m, lo, hi, k)), base, WithLeft(m, lo, hi, k), m)
  {
    EdgesInTree(m, lo, hi, k);
    InitTreeOk(m, lo, hi);
    if LeftFree(m, lo, hi, k) {
      var t := InitTree(m, lo, hi);
      var l, u := LeftEdge(lo, k), Upto(t, k);
      FreshOnNoList(lists, base, u, t, m, lo, hi, l);
      ListChange(lists, Pushed(lists, base, l, true), base, u, u[l := Free], m, l);
    }
  }

  lemma RightPush(lists: seq<seq<nat>>, base: nat, m: nat, lo: nat, hi: nat, k: nat)
    requires Sane(m, lo, hi) && k < m
    requires ListsTied(lists, base, WithLeft(m, lo, hi, k), m)
    ensures Shr(hi, k) > 0
    ensures RightFree(m, hi, k) ==> forall j :: 0 <= j <= m ==> Addr(base, RightEdge(hi, k)) !in lists[j]
    ensures ListsTied(Pushed(lists, base, RightEdge(hi, k), RightFree(m, hi, k)), base,
                      Upto(InitTree(m, lo, hi), k + 1), m)
  {
    EdgesInTree(m, lo, hi, k);
    if RightFree(m, hi, k) {
      RightEdgeJoins(lists, base, m, lo, hi, k);
      var v := WithLeft(m, lo, hi, k)[RightEdge(hi, k) := Free];
      SameFreeBlocks(m, lo, hi, k, v);
      ListsTiedSame(Pushed(lists, base, RightEdge(hi, k), true), base, v, Upto(InitTree(m, lo, hi), k + 1), m);
    } else {
      SameFreeBlocks(m, lo, hi, k, WithLeft(m, lo, hi, k));
      ListsTiedSame(lists, base, WithLeft(m, lo, hi, k), Upto(InitTree(m, lo, hi), k + 1), m);
    }
  }

  lemma RightEdgeJoins(lists: seq<seq<nat>>, base: nat, m: nat, lo: nat, hi: nat, k: nat)
    requires Sane(m, lo, hi) && k < m && RightFree(m, hi, k) && Shr(hi, k) > 0
    requires ListsTied(lists, base, WithLeft(m, lo, hi, k), m)
    ensures forall j :: 0 <= j <= m ==> Addr(base, RightEdge(hi, k)) !in lists[j]
    ensures ListsTied(Pushed(lists, base, RightEdge(hi, k), true), base,
                      WithLeft(m, lo, hi, k)[RightEdge(hi, k) := Free], m)
  {
    hide Ok, InitTree, Addr, InHeap;
    EdgesInTree(m, lo, hi, k);
    InitTreeOk(m, lo, hi);
    var t := InitTree(m, lo, hi);
    var r, u := RightEdge(hi, k), WithLeft(m, lo, hi, k);
    FreshOnNoList(lists, base, u, t, m, lo, hi, r);
    ListChange(lists, Pushed(lists, base, r, true), base, u, u[r := Free], m, r);
  }

  lemma SameFreeBlocks(m: nat, lo: nat, hi: nat, k: nat, v: Tree)
    requires Sane(m, lo, hi) && k < m && Shr(hi, k) > 0
    requires v == if RightFree(m, hi, k) then WithLeft(m, lo, hi, k)[RightEdge(hi, k) := Free]
              else WithLeft(m, lo, hi, k)
    ensures var w := Upto(InitTree(m, lo, hi), k + 1);
            forall c :: InHeap(m, c) ==> ((c in w && w[c] == Free) <==> (c in v && v[c] == Free))
  {
    var w := Upto(InitTree(m, lo, hi), k + 1);
    forall c | InHeap(m, c)
      ensures (c in w && w[c] == Free) <==> (c in v && v[c] == Free)
    {
      LevelFree(m, lo, hi, k, c);
    }
  }

  /** The free blocks below level k+1 are those below level `k` and the odd edges of level `k`. */
  lemma LevelFree(m: nat, lo: nat, hi: nat, k: nat, c: Block)
    requires Sane(m, lo, hi) && k < m && InHeap(m, c)
    ensures Shr(hi, k) > 0
    ensures var t := InitTree(m, lo, hi);
            (c in Upto(t, k + 1) && t[c] == Free) <==>
            ((c in Upto(t, k) && t[c] == Free) || (c == LeftEdge(lo, k) && LeftFree(m, lo, hi, k))
             || (c == RightEdge(hi, k) && RightFree(m, hi, k)))
  {
    hide InHeap, Sane, InitHas;
    EdgesApart(m, lo, hi, k);
    EdgesInTree(m, lo, hi, k);
    if c.k == k { InitFreeAt(m, lo, hi, c); }
  }

  lemma NoListsYet(lists: seq<seq<nat>>, base: nat, t: Tree, m: nat)
    requires |lists| == m + 1 && forall j :: 0 <= j <= m ==> lists[j] == []
    ensures ListsTied(lists, base, Upto(t, 0), m)
  {
    forall b | InHeap(m, b)
      ensures ListTied(lists, base, Upto(t, 0), b)
    {
    }
  }

  /** The root is not free, so the lists are complete below it. */
  lemma ListsComplete(lists: seq<seq<nat>>, base: nat, m: nat, lo: nat, hi: nat)
    requires lo > 0 && ListsTied(lists, base, Upto(InitTree(m, lo, hi), m), m)
    ensures ListsTied(lists, base, InitTree(m, lo, hi), m)
  {
    var t := InitTree(m, lo, hi);
    LeftPositive(lo, m);
    forall c | InHeap(m, c)
      ensures (c in t && t[c] == Free) <==> (c in Upto(t, m) && Upto(t, m)[c] == Free)
    {
      if c.k == m { assert c == Block(m, 0); }
    }
    ListsTiedSame(lists, base, Upto(t, m), t, m);
  }

  /** The bits that the scan of level `k` looks at. */
  lemma ScannedBits(alloc: Rows, m: nat, lo: nat, hi: nat, k: nat)
    requires Sane(m, lo, hi) && k < m && MarkedRows(alloc, m, lo, hi)
    ensures k < |alloc| && CeilShr(lo, k) / 2 < |alloc[k]|
    ensures alloc[k][CeilShr(lo, k) / 2] <==> LeftFree(m, lo, hi, k)
    ensures !Full(m, hi) ==> Shr(hi, k) / 2 < |alloc[k]|
    ensures !Full(m, hi) && k < m - 1 ==> (alloc[k][Shr(hi, k) / 2] <==> RightFree(m, hi, k))
  {
    hide MarkedRows, Sane, Shr, CeilShr;
    EdgesApart(m, lo, hi, k);
    EdgePairBits(m, lo, hi, k);
    ScannedPair(alloc, m, lo, hi, Block(k, CeilShr(lo, k)));
    if !Full(m, hi) { ScannedPair(alloc, m, lo, hi, Block(k, Shr(hi, k))); }
  }

  lemma ScannedPair(alloc: Rows, m: nat, lo: nat, hi: nat, b: Block)
    requires Sane(m, lo, hi) && MarkedRows(alloc, m, lo, hi) && b.k < m && b.i < Pow2(m - b.k)
    ensures b.k < |alloc| && b.i / 2 < |alloc[b.k]|
    ensures alloc[b.k][b.i / 2] <==>
            Reserved(lo, hi, Block(b.k, 2 * (b.i / 2))) != Reserved(lo, hi, Block(b.k, 2 * (b.i / 2) + 1))
  {
    hide RowBytes, Sane, Shr, CeilShr;
    RowBytesCases(m - b.k);
    EdgesApart(m, lo, hi, b.k);
    EvenLevel(m, b.k);
    assert alloc[b.k][b.i / 2] == MarkBit(m, lo, hi, b.k, b.i / 2);
  }

  lemma EvenLevel(m: nat, k: nat)
    requires k < m
    ensures Pow2(m - k) % 2 == 0
  {
    assert Pow2(m - k) == 2 * Pow2(m - k - 1);
  }

  /** The block range of a marked interval ends within its level. */
  lemma LastBlock(base: nat, m: nat, k: nat, stop: nat)
    requires k <= m && base <= stop <= base + BlkSize(m) && (stop - base) % LEAF_SIZE == 0
    ensures BlkIndexNext(base, k, stop) <= Pow2(m - k)
  {
    var x := (stop - base) / LEAF_SIZE;
    assert stop == base + LEAF_SIZE * x;
    BlkIndexOfLeaf(base, k, x);
    LeftBound(x, k, m);
  }

  /** The missing rest of the heap, rounded up to `unavailable`, starts at leaf sz / 16. */
  lemma InitEnd(sz: nat, m: nat, unavailable: nat)
    requires sz >= LEAF_SIZE && m == Height(sz)
    requires unavailable == if BlkSize(m) > sz then RoundUp(BlkSize(m) - sz, LEAF_SIZE) else 0
    ensures sz <= BlkSize(m) < 2 * sz && (sz > 512 ==> m >= 6) && (sz == BlkSize(m) <==> IsBlockSize(sz))
    ensures unavailable <= BlkSize(m) && BlkSize(m) - unavailable == LEAF_SIZE * (sz / LEAF_SIZE)
  {
    hide RoundUp, Height, Pow2;
    HeightFits(sz);
    if sz > 512 { AtLeast64Leaves(sz, m); }
    if BlkSize(m) > sz {
      RoundUpBounds(BlkSize(m) - sz, LEAF_SIZE);
      LeftOver(sz, BlkSize(m), unavailable);
    }
  }

  /** The tables end within the first quarter of the heap. */
  lemma InitMeta(sz: nat, m: nat, meta: nat)
    requires sz <= BlkSize(m) < 2 * sz && m >= 6 && meta == RoundUp(TableBytes(m), LEAF_SIZE)
    ensures meta == LEAF_SIZE * (meta / LEAF_SIZE)
    ensures Sane(m, meta / LEAF_SIZE, sz / LEAF_SIZE) && (Full(m, sz / LEAF_SIZE) <==> sz == BlkSize(m))
  {
    assert TableBytes(m) >= SZ_INFO;
    hide RoundUp, TableBytes, Pow2, Sane;
    TablesTakeAQuarter(m);
    RoundUpBounds(TableBytes(m), LEAF_SIZE);
    EndsAreSane(sz, m, meta);
  }

  lemma EndsAreSane(sz: nat, m: nat, meta: nat)
    requires m >= 2 && 0 < meta <= 4 * Pow2(m) && meta % LEAF_SIZE == 0 && sz <= BlkSize(m) < 2 * sz
    ensures Sane(m, meta / LEAF_SIZE, sz / LEAF_SIZE) && (Full(m, sz / LEAF_SIZE) <==> sz == BlkSize(m))
  {
    var q := Pow2(m - 2);
    assert Pow2(m - 1) == 2 * q && Pow2(m) == 4 * q;
    assert meta <= LEAF_SIZE * q;
    assert LEAF_SIZE * (2 * q) < sz <= LEAF_SIZE * (4 * q);
  }

  lemma AtLeast64Leaves(sz: nat, m: nat)
    requires 512 < sz <= BlkSize(m)
    ensures m >= 6
  {
    assert Pow2(5) == 32;
    if m < 6 { Pow2AtLeast(5, m); }
  }

  /** What rounding the missing bytes up to whole leaves leaves of the heap. */
  lemma LeftOver(sz: nat, heap: nat, unavailable: nat)
    requires sz < heap && heap % LEAF_SIZE == 0
    requires heap - sz <= unavailable < heap - sz + LEAF_SIZE && unavailable % LEAF_SIZE == 0
    ensures unavailable <= heap && heap - unavailable == LEAF_SIZE * (sz / LEAF_SIZE)
  {
    var c := heap / LEAF_SIZE - unavailable / LEAF_SIZE;
    assert LEAF_SIZE * c <= sz < LEAF_SIZE * c + LEAF_SIZE;
    assert sz / LEAF_SIZE == c;
  }

  /** The block ranges that bd_mark computes for the two reserved ends. */
  lemma EndRanges(base: nat, m: nat, lo: nat, hi: nat, k: nat)
    requires k <= m
    ensures BlkIndex(base, k, base) == 0
    ensures BlkIndexNext(base, k, base + LEAF_SIZE * lo) == CeilShr(lo, k)
    ensures BlkIndex(base, k, base + LEAF_SIZE * hi) == Shr(hi, k)
    ensures BlkIndexNext(base, k, base + BlkSize(m)) == Pow2(m - k)
  {
    BlkIndexOfLeaf(base, k, 0);
    ShrZero(k);
    BlkIndexOfLeaf(base, k, lo);
    BlkIndexOfLeaf(base, k, hi);
    BlkIndexOfLeaf(base, k, Pow2(m));
    FullEdge(m, k);
    LeftBound(Pow2(m), k, m);
    FloorBelowCeil(Pow2(m), k);
  }

  lemma ShrZero(k: nat)
    ensures Shr(0, k) == 0
  {
  }

  /** Rounding up commutes with adding an aligned base. */
  lemma RoundUpShift(n: nat, base: nat, sz: nat)
    requires sz > 0 && base % sz == 0
    ensures RoundUp(base + n, sz) == base + RoundUp(n, sz)
  {
    var c := base / sz;
    assert base == c * sz;
    var q, r := (n - 1) / sz, (n - 1) % sz;
    assert n - 1 == q * sz + r;
    assert (c + q) * sz == c * sz + q * sz;
    DivUnique(base + n - 1, sz, c + q, r);
    assert (c + q + 1) * sz == c * sz + (q + 1) * sz;
  }

  lemma HeapEnds(base: nat, m: nat, lo: nat, hi: nat)
    requires lo <= hi <= Pow2(m)
    ensures LEAF_SIZE * lo <= LEAF_SIZE * hi <= BlkSize(m) && BlkSize(m) % LEAF_SIZE == 0
  {
  }

  /** The block that bd_initfree_pair pushes. */
  function ScanTarget(k: nat, bi: nat, isRight: bool): Block {
    if isRight then Buddy(Block(k, bi)) else Block(k, bi)
  }
}
