/** The buddy allocator of kernel/buddy.c: bd_malloc, size and bd_free over byte arrays of split
    bits and xor bits and over intrusive free lists. */
module Buddy {
  import opened Arith
  import opened BuddyTree
  import opened BuddyTables
  import opened BuddyFull
  import opened BuddySmall
  import opened BuddyInit
  import opened Wrappers
  import opened BuddyStore
  import opened Lists

  /** The first k with 16 * 2^k >= n. */
  function FirstK(n: nat): (k: nat)
    ensures BlkSize(k) >= n
    ensures k > 0 ==> BlkSize(k - 1) < n
  {
    FirstKFrom(n, 0)
  }

  function FirstKFrom(n: nat, k: nat): (r: nat)
    requires k > 0 ==> BlkSize(k - 1) < n
    ensures BlkSize(r) >= n
    ensures r > 0 ==> BlkSize(r - 1) < n
    decreases n - BlkSize(k)
  {
    if BlkSize(k) < n then FirstKFrom(n, k + 1) else k
  }

  const TWO63: nat := 0x8000_0000_0000_0000
  const TWO64: nat := 0x1_0000_0000_0000_0000

  /** firstk, with its 64-bit size doubling modulo 2^64. Beyond 2^63 the loop would not end; see
      FirstKNeverEnds. */
  method ComputeFirstK(n: nat) returns (k: nat)
    requires n <= TWO63
    ensures k == FirstK(n)
  {
    k := 0;
    var size := LEAF_SIZE;
    while size < n
      invariant size == BlkSize(k)
      invariant k > 0 ==> BlkSize(k - 1) < n
      invariant FirstKFrom(n, k) == FirstK(n)
      decreases n - size
    {
      k := k + 1;
      DoubledCases(size);
      size := Doubled(size);
    }
  }

  /** Doubling a 64-bit unsigned number. */
  function Doubled(size: nat): nat {
    size * 2 % TWO64
  }

  lemma DoubledCases(size: nat)
    ensures size < TWO63 ==> Doubled(size) == 2 * size
    ensures Doubled(TWO63) == 0 && Doubled(0) == 0
  {
  }

  /** The value of firstk's size after `i` rounds. */
  function WrappedSize(i: nat): nat {
    if i == 0 then LEAF_SIZE else Doubled(WrappedSize(i - 1))
  }

  /** For a request above 2^63 bytes the loop guard of firstk holds in every round: the size is a
      power of two up to 2^63 and then 0 for ever. */
  lemma {:induction false} FirstKNeverEnds(n: nat, i: nat)
    requires n > TWO63
    ensures WrappedSize(i) < n
    ensures if i <= 59 then WrappedSize(i) == BlkSize(i) <= TWO63 else WrappedSize(i) == 0
  {
    hide BlkSize, Doubled;
    if i == 0 {
      BlkSize59(0);
    } else {
      FirstKNeverEnds(n, i - 1);
      DoubledCases(WrappedSize(i - 1));
      if i <= 60 { BlkSize59(if i <= 59 then i else 59); }
    }
  }

  lemma BlkSize59(i: nat)
    requires i <= 59
    ensures BlkSize(i) <= BlkSize(59) == TWO63
    ensures if i == 0 then BlkSize(i) == LEAF_SIZE else BlkSize(i) == 2 * BlkSize(i - 1)
  {
    Pow2Mono(i, 59);
    Pow2At(59);
  }

  lemma Pow2Mono(i: nat, j: nat)
    requires i <= j
    ensures Pow2(i) <= Pow2(j)
  {
  }

  lemma Pow2At(i: nat)
    requires i == 59
    ensures Pow2(i) == 0x800_0000_0000_0000
  {
    assert Pow2(0) == 1;
    assert Pow2(8) == 0x100;
    assert Pow2(16) == 0x1_0000;
    assert Pow2(24) == 0x100_0000;
    assert Pow2(32) == 0x1_0000_0000;
    assert Pow2(40) == 0x100_0000_0000;
    assert Pow2(48) == 0x1_0000_0000_0000;
    assert Pow2(56) == 0x100_0000_0000_0000;
  }

  /** log2 */
  method ComputeLog2(n: nat) returns (k: nat)
    ensures k == Log2(n)
  {
    k := 0;
    var r := n;
    while r > 1
      invariant k + Log2(r) == Log2(n)
    {
      k := k + 1;
      r := r / 2;
    }
  }

  /** The two loops of bd_init that lay out the bit vectors from address `p` on: their lengths in
      bytes and the first address behind them. */
  method TableLengths(p: nat, m: nat) returns (allocLens: seq<nat>, splitLens: seq<nat>, q: nat)
    ensures |allocLens| == m + 1 && |splitLens| == m + 1 && splitLens[0] == 0
    ensures forall k :: 0 <= k <= m ==> allocLens[k] == RowBytes(m - k) && 16 * allocLens[k] >= Pow2(m - k)
    ensures forall k :: 1 <= k <= m ==> 8 * splitLens[k] >= Pow2(m - k)
    ensures q == p + AllocSum(m + 1) + SplitSum(m)
  {
    hide RoundUp;
    allocLens, splitLens, q := [], [0], p;
    for k := 0 to m + 1
      invariant |allocLens| == k && q + AllocSum(m + 1 - k) == p + AllocSum(m + 1)
      invariant forall j :: 0 <= j < k ==> allocLens[j] == RowBytes(m - j) && 16 * allocLens[j] >= Pow2(m - j)
    {
      RoundUpBounds(Pow2(m - k), 16);
      var sz := RoundUp(Pow2(m - k), 16) / 16;
      allocLens := allocLens + [sz];
      q := q + sz;
    }
    for k := 1 to m + 1
      invariant |splitLens| == k && splitLens[0] == 0 && q + SplitSum(m + 1 - k) == p + AllocSum(m + 1) + SplitSum(m)
      invariant forall j :: 1 <= j < k ==> 8 * splitLens[j] >= Pow2(m - j)
    {
      RoundUpBounds(Pow2(m - k), 8);
      var sz := RoundUp(Pow2(m - k), 8) / 8;
      splitLens := splitLens + [sz];
      q := q + sz;
    }
  }

  /** The arithmetic of bd_init up to the marking: the aligned base, the height `m`, the lengths of
      the bit vectors, the address `p` behind the tables, and how much of the heap is missing. */
  method Layout(start: nat, end: nat)
    returns (base: nat, m: nat, allocLens: seq<nat>, splitLens: seq<nat>, p: nat, unavailable: nat)
    requires RoundUp(start, LEAF_SIZE) <= end
    requires HoldsTables(end - RoundUp(start, LEAF_SIZE))
    ensures base == RoundUp(start, LEAF_SIZE) && base % LEAF_SIZE == 0 && m == Height(end - base)
    ensures |allocLens| == m + 1 && |splitLens| == m + 1
    ensures forall k :: 0 <= k <= m ==> allocLens[k] == RowBytes(m - k) && 16 * allocLens[k] >= Pow2(m - k)
    ensures forall k :: 1 <= k <= m ==> 8 * splitLens[k] >= Pow2(m - k)
    ensures p == base + LEAF_SIZE * TableLeaves(m)
    ensures BlkSize(m) - unavailable == LEAF_SIZE * ((end - base) / LEAF_SIZE)
    ensures 0 < TableLeaves(m) <= (end - base) / LEAF_SIZE <= Pow2(m)
    ensures end - base > 512 ==> Sane(m, TableLeaves(m), (end - base) / LEAF_SIZE)
  {
    hide IsBlockSize, RoundUp, Sane, BlkSize, TableLeaves, HoldsTables, AllocSum, SplitSum, RowBytes, Pow2, Log2;
    base := RoundUp(start, LEAF_SIZE);
    RoundUpBounds(start, LEAF_SIZE);
    var sz := end - base;
    var l := ComputeLog2(sz / LEAF_SIZE);
    var nsizes := l + 1;
    if sz > BlkSize(nsizes - 1) {
      nsizes := nsizes + 1;
    }
    m := nsizes - 1;
    var q;
    allocLens, splitLens, q := TableLengths(base + SZ_INFO * nsizes, m);
    RoundUpShift(TableBytes(m), base, LEAF_SIZE);
    p := RoundUp(q, LEAF_SIZE);
    SizeFits(sz);
    unavailable := BlkSize(m) - sz;
    if unavailable > 0 { unavailable := RoundUp(unavailable, LEAF_SIZE); }
    EndsFit(sz, m, unavailable);
  }

  class Allocator {
    const base: nat
    const m: nat                 // MAXSIZE
    const mem: Store             // the arrays and lists of bd_sizes
    var panicked: bool           // a panic() of the initialisation was reached
    ghost const lo: nat          // leaves below lo hold the allocator's own tables
    ghost const hi: nat          // leaves from hi on do not exist
    ghost var t: Tree            // the tree the tables stand for

    ghost predicate Tables()
      reads this, mem, mem.Repr
    {
      && mem.Valid() && this !in mem.Repr
      && |mem.pairs| == m + 1 && |mem.splits| == m + 1 && |mem.lists| == m + 1
    }

    /** The same without the lists being rings. */
    ghost predicate Framed()
      reads this, mem, mem.Repr
    {
      && mem.Rooted() && this !in mem.Repr
      && |mem.pairs| == m + 1 && |mem.splits| == m + 1 && |mem.lists| == m + 1
    }

    lemma TablesAreFramed()
      requires Tables()
      ensures Framed()
    {
      mem.ValidIsRooted();
    }

    ghost predicate Valid()
      reads this, mem, mem.Repr
    {
      Tables() && Stands(mem.pairs, mem.splits, mem.lists, base, t, m, lo, hi)
    }

    lemma NowValid(pairs: Rows, splits: Rows, lists: seq<seq<nat>>, u: Tree)
      requires Tables() && Stands(pairs, splits, lists, base, u, m, lo, hi)
      requires mem.pairs == pairs && mem.splits == splits && mem.lists == lists && t == u
      ensures Valid()
    {
    }

    /** The blocks handed out and not yet given back. */
    ghost function LiveBlocks(): set<Block>
      reads this
    {
      Live(t, lo, hi)
    }

    /** Some aligned block of the level that fits `n` bytes has no busy leaf. */
    ghost predicate Available(n: nat)
      reads this
    {
      exists b :: InHeap(m, b) && b.k == FirstK(n) && BlockFree(LiveBlocks(), lo, hi, b)
    }

    /** bd_init for the memory from `start` to `end`, which must hold the tables; because offsets are kept in
        ints it must be at most 2^30 bytes. Its panic is reached exactly for the sizes of SumWrong. Otherwise,
        above 512 bytes, the tables stand for the first tree and nothing is handed out. */
    constructor BdInit(start: nat, end: nat)
      requires RoundUp(start, LEAF_SIZE) <= end
      requires HoldsTables(end - RoundUp(start, LEAF_SIZE)) && end - RoundUp(start, LEAF_SIZE) <= 0x4000_0000
      ensures base == RoundUp(start, LEAF_SIZE) && m == Height(end - base)
      ensures lo == TableLeaves(m) && hi == (end - base) / LEAF_SIZE
      ensures panicked <==> SumWrong(end - base)
      ensures !panicked && end - base > 512 ==>
                Sane(m, lo, hi) && Valid() && t == InitTree(m, lo, hi) && LiveBlocks() == {}
      ensures fresh(mem.Repr)
    {
      hide Store.Valid, Store.Rooted, Stands, InitTree, IsBlockSize, Live, BlkSize, RoundUp, Sane, Height, TableBytes,
           SumWrong, MarkedRows, Readable, ScanSum;
      var bdBase, top, allocLens, splitLens, p, unavailable := Layout(start, end);
      var store := new Store(allocLens, splitLens);
      base, m, mem, panicked := bdBase, top, store, false;
      lo, hi, t := TableLeaves(top), (end - bdBase) / LEAF_SIZE, map[];
      new;
      MarkAndScan(p, unavailable, end - base);
    }

    /** The second half of bd_init: mark both ends, build the lists, check the sum. */
    method MarkAndScan(p: nat, unavailable: nat, ghost sz: nat)
      requires Tables() && RowsFit() && base % LEAF_SIZE == 0 && !panicked
      requires HoldsTables(sz) && m == Height(sz) && lo == TableLeaves(m) && hi == sz / LEAF_SIZE
      requires 0 < lo <= hi <= Pow2(m) && (sz > 512 ==> Sane(m, lo, hi))
      requires forall k :: 0 <= k <= m ==> Cleared(mem.pairs[k]) && Cleared(mem.splits[k]) && mem.lists[k] == []
      requires p == base + LEAF_SIZE * lo && BlkSize(m) - unavailable == LEAF_SIZE * hi
      modifies this, mem.Repr
      ensures panicked <==> SumWrong(sz)
      ensures !panicked && sz > 512 ==> Valid() && t == InitTree(m, lo, hi) && LiveBlocks() == {}
    {
      hide Store.Valid, Store.Rooted, BitsTied, ListsTied, InitTree, Ok, Live, Marked, BlkIndex, BlkIndexNext, Fits,
           BlkSize, Cleared, Sane, Stray, MarkedRows, Readable, ScanSum, SumWrong, HoldsTables, TableLeaves, Height,
           AnyStray;
      var meta := p - base;
      var bdEnd := base + BlkSize(m) - unavailable;
      ghost var pairs0, splits0 := mem.pairs, mem.splits;
      HeapEnds(base, m, lo, hi);
      BdMark(base, p);
      ghost var pairs1, splits1 := mem.pairs, mem.splits;
      BdMark(bdEnd, base + BlkSize(m));
      MarksMade(pairs0, splits0, pairs1, splits1, p, bdEnd);
      if sz > 512 { MarksTied(pairs0, splits0, pairs1, splits1, p, bdEnd); }
      SumWrongExactly(sz, mem.pairs);
      var freed := BdInitFree(p, bdEnd, sz > 512);
      t := InitTree(m, lo, hi);
      InitTreeOk(m, lo, hi);
      if sz > 512 { SumRightExactly(mem.pairs, m, lo, hi); }
      panicked := freed != BlkSize(m) - meta - unavailable;  // panic("bd_init: free mem")
    }

    /** Each row is long enough for the blocks of its level. */
    ghost predicate RowsFit()
      reads this, mem
    {
      && |mem.pairs| == m + 1 && |mem.splits| == m + 1
      && forall k :: 0 <= k <= m ==> Fits(mem.pairs[k], mem.splits[k], m, k)
    }

    /** The rows of level `k` after marking [start, stop). */
    ghost predicate Marked(k: nat, pairs: seq<bool>, pairs0: seq<bool>, splits: seq<bool>, splits0: seq<bool>,
                           start: nat, stop: nat)
      requires base <= start && base <= stop
    {
      && MarkedPair(pairs, pairs0, BlkIndex(base, k, start), BlkIndexNext(base, k, stop))
      && (k > 0 ==> MarkedSplit(splits, splits0, BlkIndex(base, k, start), BlkIndexNext(base, k, stop)))
    }

    /** bd_mark: marks the blocks of every level that overlap [start, stop). */
    method BdMark(start: nat, stop: nat)
      requires Tables() && RowsFit() && base % LEAF_SIZE == 0
      requires base <= start <= stop <= base + BlkSize(m)
      modifies this`panicked, mem.Repr
      ensures Tables() && RowsFit() && mem.lists == old(mem.lists)
      ensures start % LEAF_SIZE != 0 || stop % LEAF_SIZE != 0 ==>
                panicked && mem.pairs == old(mem.pairs) && mem.splits == old(mem.splits)
      ensures start % LEAF_SIZE == 0 && stop % LEAF_SIZE == 0 ==>
                && panicked == old(panicked)
                && (forall k :: 0 <= k <= m ==>
                    Marked(k, mem.pairs[k], old(mem.pairs)[k], mem.splits[k], old(mem.splits)[k], start, stop))
    {
      if start % LEAF_SIZE != 0 || stop % LEAF_SIZE != 0 {
        panicked := true;
        return;
      }
      for k := 0 to m + 1
        invariant Tables() && RowsFit() && panicked == old(panicked) && mem.lists == old(mem.lists)
        invariant forall j :: 0 <= j < k ==>
                  Marked(j, mem.pairs[j], old(mem.pairs)[j], mem.splits[j], old(mem.splits)[j], start, stop)
        invariant forall j :: k <= j <= m ==> mem.pairs[j] == old(mem.pairs)[j] && mem.splits[j] == old(mem.splits)[j]
      {
        LastBlock(base, m, k, stop);
        MarkLevel(k, BlkIndex(base, k, start), BlkIndexNext(base, k, stop));
      }
    }

    /** The inner loop of bd_mark. */
    method MarkLevel(k: nat, first: nat, last: nat)
      requires Tables() && RowsFit() && k <= m && last <= Pow2(m - k)
      modifies mem.Repr
      ensures Tables() && RowsFit() && mem.lists == old(mem.lists)
      ensures forall j :: 0 <= j <= m && j != k ==>
                mem.pairs[j] == old(mem.pairs)[j] && mem.splits[j] == old(mem.splits)[j]
      ensures MarkedPair(mem.pairs[k], old(mem.pairs)[k], first, last)
      ensures if k > 0 then MarkedSplit(mem.splits[k], old(mem.splits)[k], first, last)
                else mem.splits[k] == old(mem.splits)[k]
    {
      hide Store.Valid, MarkedPair, MarkedSplit;
      var bi := first;
      MarkNone(mem.pairs[k], mem.splits[k], first, bi);
      MarkNone(mem.pairs[k], mem.splits[k], first, if first < last then first else last);
      while bi < last
        invariant first <= bi && (first < last ==> bi <= last) && (first >= last ==> bi == first)
        invariant Tables() && RowsFit() && mem.lists == old(mem.lists)
        invariant forall j :: 0 <= j <= m && j != k ==>
                  mem.pairs[j] == old(mem.pairs)[j] && mem.splits[j] == old(mem.splits)[j]
        invariant MarkedPair(mem.pairs[k], old(mem.pairs)[k], first, bi)
        invariant if k > 0 then MarkedSplit(mem.splits[k], old(mem.splits)[k], first, bi)
                  else mem.splits[k] == old(mem.splits)[k]
        invariant first >= last ==> mem.pairs[k] == old(mem.pairs)[k] && mem.splits[k] == old(mem.splits)[k]
      {
        assert Fits(mem.pairs[k], mem.splits[k], m, k);
        if k > 0 {
          SplitOneMore(mem.splits[k], old(mem.splits)[k], first, bi);
          mem.SetSplit(k, bi);
        }
        MarkOneMore(mem.pairs[k], old(mem.pairs)[k], first, bi);
        mem.InvertPair(k, bi / 2);
        bi := bi + 1;
      }
    }

    /** The vectors before and after the two markings. */
    ghost predicate BothMarked(pairs0: Rows, splits0: Rows, pairs1: Rows, splits1: Rows, p: nat, bdEnd: nat)
      requires base <= p && base <= bdEnd
      reads this, mem
    {
      && |pairs0| == |splits0| == |pairs1| == |splits1| == |mem.pairs| == |mem.splits| == m + 1
      && p == base + LEAF_SIZE * lo && bdEnd == base + LEAF_SIZE * hi
      && (forall k :: 0 <= k <= m ==> Fits(pairs0[k], splits0[k], m, k) && Cleared(pairs0[k]) && Cleared(splits0[k]))
      && (forall k :: 0 <= k <= m ==> Marked(k, pairs1[k], pairs0[k], splits1[k], splits0[k], base, p))
      && forall k :: 0 <= k <= m ==>
           Marked(k, mem.pairs[k], pairs1[k], mem.splits[k], splits1[k], bdEnd, base + BlkSize(m))
    }

    /** The block ranges that were marked. */
    lemma MarkedRanges(pairs0: Rows, splits0: Rows, pairs1: Rows, splits1: Rows, p: nat, bdEnd: nat, k: nat)
      requires base <= p && base <= bdEnd && BothMarked(pairs0, splits0, pairs1, splits1, p, bdEnd) && k <= m
      ensures MarkedPair(pairs1[k], pairs0[k], 0, CeilShr(lo, k))
      ensures MarkedPair(mem.pairs[k], pairs1[k], Shr(hi, k), Pow2(m - k))
      ensures k > 0 ==> MarkedSplit(splits1[k], splits0[k], 0, CeilShr(lo, k))
      ensures k > 0 ==> MarkedSplit(mem.splits[k], splits1[k], Shr(hi, k), Pow2(m - k))
    {
      hide MarkedPair, MarkedSplit, Fits, Cleared, BlkIndex, BlkIndexNext, BlkSize;
      EndRanges(base, m, lo, hi, k);
      assert Marked(k, pairs1[k], pairs0[k], splits1[k], splits0[k], base, p);
      assert Marked(k, mem.pairs[k], pairs1[k], mem.splits[k], splits1[k], bdEnd, base + BlkSize(m));
    }

    lemma MarksMade(pairs0: Rows, splits0: Rows, pairs1: Rows, splits1: Rows, p: nat, bdEnd: nat)
      requires base <= p && base <= bdEnd && BothMarked(pairs0, splits0, pairs1, splits1, p, bdEnd)
      ensures MarkedRows(mem.pairs, m, lo, hi)
    {
      hide MarkedPair, MarkedSplit, BlkSize, Marked, MarkBit, Cleared;
      forall k | 0 <= k <= m
        ensures |mem.pairs[k]| == 8 * RowBytes(m - k)
        ensures forall j :: 0 <= j < |mem.pairs[k]| ==> mem.pairs[k][j] == MarkBit(m, lo, hi, k, j)
      {
        MarkedRanges(pairs0, splits0, pairs1, splits1, p, bdEnd, k);
        assert Fits(pairs0[k], splits0[k], m, k);
        MarkedTwice(pairs0[k], pairs1[k], mem.pairs[k], m, lo, hi, k);
      }
    }

    /** After both ends are marked the bits stand for the first tree. */
    lemma MarksTied(pairs0: Rows, splits0: Rows, pairs1: Rows, splits1: Rows, p: nat, bdEnd: nat)
      requires base <= p && base <= bdEnd && BothMarked(pairs0, splits0, pairs1, splits1, p, bdEnd)
      requires Sane(m, lo, hi) && MarkedRows(mem.pairs, m, lo, hi)
      ensures BitsTied(mem.pairs, mem.splits, InitTree(m, lo, hi), m)
    {
      hide MarkedPair, MarkedSplit, BlkSize, Marked, MarkedRows, BitsTied, Sane, Cleared;
      forall k | 0 < k <= m
        ensures |splits0[k]| >= Pow2(m - k) && Cleared(splits0[k])
        ensures MarkedSplit(splits1[k], splits0[k], 0, CeilShr(lo, k))
        ensures MarkedSplit(mem.splits[k], splits1[k], Shr(hi, k), Pow2(m - k))
      {
        MarkedRanges(pairs0, splits0, pairs1, splits1, p, bdEnd, k);
        assert Fits(pairs0[k], splits0[k], m, k);
      }
      InitBitsTied(splits0, splits1, mem.pairs, mem.splits, m, lo, hi);
    }

    /** bd_initfree_pair */
    method BdInitFreePair(k: nat, bi: nat, isRight: bool) returns (bytes: nat)
      requires Framed() && k <= m && InRows(mem.pairs, k, bi / 2)
      modifies mem.Repr
      ensures Framed() && mem.pairs == old(mem.pairs) && mem.splits == old(mem.splits)
      ensures bytes == if Bit(mem.pairs, k, bi / 2) then BlkSize(k) else 0
      ensures mem.lists == Pushed(old(mem.lists), base, ScanTarget(k, bi, isRight), Bit(mem.pairs, k, bi / 2))
      ensures old(Tables()) && (Bit(mem.pairs, k, bi / 2) ==> OnNoList(old(mem.lists), ScanTarget(k, bi, isRight))) ==>
                Tables()
    {
      var buddy := if bi % 2 == 0 then bi + 1 else bi - 1;
      bytes := 0;
      var one := mem.IsPairFrom(k, bi / 2);
      if one {
        bytes := BlkSize(k);
        if isRight {
          mem.Push(k, Addr(base, Block(k, buddy)));
        } else {
          mem.Push(k, Addr(base, Block(k, bi)));
        }
      }
    }

    predicate OnNoList(lists: seq<seq<nat>>, b: Block) {
      forall j :: 0 <= j < |lists| ==> Addr(base, b) !in lists[j]
    }

    /** bd_initfree returns the sum of the blocks it pushes. In a heap with its ends apart (`sane`), unless it
        pushes blocks past the end, the lists come to hold exactly the free blocks of the first tree. */
    method BdInitFree(left: nat, right: nat, ghost sane: bool) returns (bytes: int)
      requires Tables() && MarkedRows(mem.pairs, m, lo, hi) && (sane ==> Sane(m, lo, hi)) && 0 < lo
      requires forall k: nat :: k < m ==> Readable(mem.pairs, lo, hi, k)
      requires forall j :: 0 <= j <= m ==> mem.lists[j] == []
      requires left == base + LEAF_SIZE * lo && right == base + LEAF_SIZE * hi
      modifies mem.Repr
      ensures mem.pairs == old(mem.pairs) && mem.splits == old(mem.splits)
      ensures sane ==> Tables()
      ensures sane && !AnyStray(m, lo, hi) ==> ListsTied(mem.lists, base, InitTree(m, lo, hi), m)
      ensures bytes == LEAF_SIZE * ScanSum(mem.pairs, lo, hi, m)
    {
      hide Store.Valid, Store.Rooted, ListsTied, MarkedRows, InitTree, Addr, BlkIndex, BlkIndexNext, Littered, LevelSum,
           Readable, Sane;
      bytes := 0;
      ghost var clean := mem.lists;
      NoListsYet(mem.lists, base, InitTree(m, lo, hi), m);
      NotLittered(mem.lists, base, m, lo, hi);
      TablesAreFramed();
      for k := 0 to m
        invariant Framed() && mem.pairs == old(mem.pairs) && mem.splits == old(mem.splits)
        invariant sane ==> Tables() && Littered(mem.lists, clean, base, m, lo, hi, k)
        invariant sane ==> ListsTied(clean, base, Upto(InitTree(m, lo, hi), k), m)
        invariant bytes == LEAF_SIZE * ScanSum(mem.pairs, lo, hi, k)
      {
        var f;
        f, clean := ScanLevel(k, left, right, clean, sane);
        bytes := bytes + f;
      }
      if sane {
        ListsComplete(clean, base, m, lo, hi);
        NoLitter(mem.lists, clean, base, m, lo, hi);
      }
    }

    /** One round of bd_initfree's loop. */
    method ScanLevel(k: nat, left: nat, right: nat, ghost clean: seq<seq<nat>>, ghost sane: bool)
      returns (bytes: nat, ghost clean': seq<seq<nat>>)
      requires Framed() && k < m && MarkedRows(mem.pairs, m, lo, hi) && Readable(mem.pairs, lo, hi, k)
      requires sane ==> Sane(m, lo, hi) && Tables() && Littered(mem.lists, clean, base, m, lo, hi, k)
      requires sane ==> ListsTied(clean, base, Upto(InitTree(m, lo, hi), k), m)
      requires left == base + LEAF_SIZE * lo && right == base + LEAF_SIZE * hi
      modifies mem.Repr
      ensures Framed() && mem.pairs == old(mem.pairs) && mem.splits == old(mem.splits)
      ensures bytes == LEAF_SIZE * LevelSum(mem.pairs, lo, hi, k)
      ensures sane ==> Tables() && Littered(mem.lists, clean', base, m, lo, hi, k + 1)
      ensures sane ==> ListsTied(clean', base, Upto(InitTree(m, lo, hi), k + 1), m)
    {
      hide Store.Valid, Store.Rooted, ListsTied, InitTree, Sane, Addr, BlkIndex, BlkIndexNext, MarkedRows, Littered,
           Shr, CeilShr, Pushed, LeftFree, RightFree, WithLeft, Upto, Flat, InRows, ScanTarget, Stray;
      BlkIndexOfLeaf(base, k, lo);
      BlkIndexOfLeaf(base, k, hi);
      var li := BlkIndexNext(base, k, left);
      var ri := BlkIndex(base, k, right);
      clean' := clean;
      if sane {
        LeftScan(mem.pairs, mem.lists, clean, base, m, lo, hi, k);
        clean' := Pushed(clean, base, LeftEdge(lo, k), LeftFree(m, lo, hi, k));
      }
      bytes := BdInitFreePair(k, li, false);
      if sane {
        ghost var mid := clean';
        RightPush(mid, base, m, lo, hi, k);
        RightScan(mem.pairs, mem.lists, mid, base, m, lo, hi, k);
        clean' := Pushed(mid, base, RightEdge(hi, k), RightFree(m, hi, k));
      }
      if ri > li {
        var g := BdInitFreePair(k, ri, true);
        bytes := bytes + g;
      }
    }

    method BdMalloc(nbytes: nat) returns (r: Option<nat>, ghost b: Block)
      requires Valid() && nbytes <= TWO63
      modifies this`t, mem.Repr
      ensures Valid()
      ensures r.Some? <==> old(Available(nbytes))
      ensures r.None? ==> t == old(t) && mem.lists == old(mem.lists)
      ensures r.Some? ==>
                && r.value == Addr(base, b)
                && InHeap(m, b) && b.k == FirstK(nbytes)
                && BlockFree(old(LiveBlocks()), lo, hi, b)
                && LiveBlocks() == old(LiveBlocks()) + {b}
    {
      hide Store.Valid, Ok, BitsTied, ListsTied, BlockFree, Live, InHeap;
      var fk := ComputeFirstK(nbytes);
      var k := fk;
      b := Block(0, 0);
      while k <= m
        modifies {}
        invariant fk <= k
        invariant forall j :: fk <= j < k && j <= m ==> mem.lists[j] == []
      {
        var e := mem.Empty(k);
        if !e { break; }
        k := k + 1;
      }
      if k > m {
        NoneAvailable(nbytes);
        return None, b;
      }
      ghost var top := HeadIsFree(mem.lists, base, t, m, lo, hi, k);
      FoundAvailable(nbytes, top);
      b := top;
      var p := TakeTop(k, b);
      while k > fk
        invariant fk <= k <= top.k && b == Block(k, Shl(top.i, top.k - k)) && p == Addr(base, b)
        invariant Valid() && b in LiveBlocks()
        invariant LiveBlocks() == old(LiveBlocks()) + {b}
        invariant b !in old(LiveBlocks())
      {
        SplitTop(k, p, b);
        ShlDouble(top.i, top.k - k);
        b := Left(b);
        k := k - 1;
      }
      r := Some(p);
    }

    /** Pops the first block of list `k` and flips its pair's bit. */
    method TakeTop(k: nat, ghost b: Block) returns (p: nat)
      requires Valid() && b.k == k < m && InHeap(m, b) && b in t && t[b] == Free
      requires mem.lists[k] != [] && mem.lists[k][0] == Addr(base, b)
      modifies this`t, mem.Repr
      ensures Valid() && p == Addr(base, b) && LiveBlocks() == old(LiveBlocks()) + {b} && b !in old(LiveBlocks())
    {
      hide Store.Valid, Stands, Addr, BlkIndex, BlkSize, Live;
      mem.DistinctLists();
      PopStep(mem.pairs, mem.splits, mem.lists, base, t, m, lo, hi, b);
      BlkIndexHere(base, b);
      p := mem.Pop(k);
      mem.InvertPair(k, BlkIndex(base, k, p) / 2);
      t := t[b := Used];
    }

    /** One round of bd_malloc's splitting loop: the right half goes on the list below. */
    method SplitTop(k: nat, p: nat, ghost b: Block)
      requires Valid() && b.k == k > 0 && p == Addr(base, b) && b in LiveBlocks()
      modifies this`t, mem.Repr
      ensures Valid() && p == Addr(base, Left(b)) && LiveBlocks() == old(LiveBlocks()) - {b} + {Left(b)}
      ensures Left(b) !in old(LiveBlocks())
    {
      hide Store.Valid, Stands, Addr, BlkIndex, BlkSize, Live;
      SplitStep(mem.pairs, mem.splits, mem.lists, base, t, m, lo, hi, b);
      BlkIndexHere(base, b);
      AddrHalves(base, b);
      var q := p + BlkSize(k - 1);
      ghost var pairs, splits := Flip(mem.pairs, k - 1, b.i), Put(mem.splits, k, b.i, true);
      ghost var lists := mem.lists[k - 1 := [q] + mem.lists[k - 1]];
      mem.SetSplit(k, BlkIndex(base, k, p));
      mem.InvertPair(k - 1, BlkIndex(base, k - 1, p) / 2);
      mem.Push(k - 1, q);
      t := SplitUsed(t, b);
      NowValid(pairs, splits, lists, t);
    }

    lemma NoneAvailable(n: nat)
      requires Valid()
      requires forall j :: FirstK(n) <= j <= m ==> mem.lists[j] == []
      ensures !Available(n)
    {
      forall b | InHeap(m, b) && b.k == FirstK(n)
        ensures !BlockFree(LiveBlocks(), lo, hi, b)
      {
        EmptyListsMeanNoSpace(mem.lists, base, t, m, lo, hi, b);
      }
    }

    /** A free block of a sufficient level starts with a free block of the level asked for. */
    lemma FoundAvailable(n: nat, top: Block)
      requires Valid() && top in t && t[top] == Free && InHeap(m, top) && FirstK(n) <= top.k
      ensures var b := Block(FirstK(n), Shl(top.i, top.k - FirstK(n)));
              InHeap(m, b) && BlockFree(LiveBlocks(), lo, hi, b)
      ensures Available(n)
    {
      var d := top.k - FirstK(n);
      var b := Block(FirstK(n), Shl(top.i, d));
      ShrShl(top.i, d);
      ShrAdd(b.i, d, m - top.k);
      FreeNodeIsFree(t, m, lo, hi, top, b);
    }

    /** size: the level of a live block, found from the split bits above its address alone. */
    method Size(p: nat, ghost b: Block) returns (k: nat)
      requires Valid() && b in LiveBlocks() && p == Addr(base, b)
      ensures k == b.k < m
    {
      FirstSplitIsParent(mem.splits, t, m, lo, hi, mem.pairs, b, base, b.k);
      for j := 0 to m + 1
        invariant j <= b.k
      {
        FirstSplitIsParent(mem.splits, t, m, lo, hi, mem.pairs, b, base, j);
        var s := mem.IsSplit(j + 1, BlkIndex(base, j + 1, p));
        if s { return j; }
      }
      assert false;
    }

    /** bd_free of an address that bd_malloc returned. `b` is the block handed out there. */
    method BdFree(p0: nat, ghost b: Block)
      requires Valid() && b in LiveBlocks() && p0 == Addr(base, b)
      modifies this`t, mem.Repr
      ensures Valid()
      ensures LiveBlocks() == old(LiveBlocks()) - {b}
    {
      hide Store.Valid, Stands, Addr, BlkIndex, BlkSize, Live;
      var p := p0;
      ghost var c := b;
      var k := Size(p, c);
      var stop := false;
      while k < m && !stop
        invariant c.k == k < m && p == Addr(base, c)
        invariant !stop ==> Valid() && c in LiveBlocks() && LiveBlocks() - {c} == old(LiveBlocks()) - {b}
        invariant stop ==> Tables() && Returning(c) && Live(t[c := Free], lo, hi) == old(LiveBlocks()) - {b}
        decreases m - k, !stop
      {
        stop, p, c := MergeOnce(k, p, c);
        if !stop { k := k + 1; }
      }
      mem.ValidIsRooted();
      mem.Push(k, p);
      t := t[c := Free];
    }

    /** All that is missing is `c` on its free list. */
    ghost predicate Returning(c: Block)
      reads this, mem
    {
      && c.k <= m && |mem.lists| == m + 1
      && (forall k :: 0 <= k <= m ==> Addr(base, c) !in mem.lists[k])
      && Stands(mem.pairs, mem.splits, mem.lists[c.k := [Addr(base, c)] + mem.lists[c.k]], base,
                t[c := Free], m, lo, hi)
    }

    /** One round of bd_free's loop: flip the pair's bit; if it is set now the buddy is in use and
        the loop ends, else the buddy is taken off its list and the two become their parent. */
    method MergeOnce(k: nat, p0: nat, ghost c: Block) returns (stop: bool, p: nat, ghost d: Block)
      requires Valid() && c in LiveBlocks() && c.k == k && p0 == Addr(base, c)
      modifies this`t, mem.Repr
      ensures Tables()
      ensures stop <==> !(Buddy(c) in old(t) && old(t)[Buddy(c)] == Free)
      ensures stop ==> d == c && p == p0 && t == old(t) && k < m && Returning(c)
      ensures stop ==> Live(t[c := Free], lo, hi) == old(LiveBlocks()) - {c}
      ensures !stop ==> d == Parent(c) && d.k < m && p == Addr(base, d) && d !in old(LiveBlocks())
      ensures !stop ==> Valid() && LiveBlocks() == old(LiveBlocks()) - {c} + {d}
    {
      hide Store.Valid, Store.Rooted, Stands, Addr, BlkIndex, BlkSize, Live, MergeUsed, InHeap, Without;
      p, d := p0, c;
      BlkIndexHere(base, c);
      PairBitMeansBuddyFree(mem.pairs, mem.splits, mem.lists, base, t, m, lo, hi, c);
      var bi := BlkIndex(base, k, p);
      var buddy := if bi % 2 == 0 then bi + 1 else bi - 1;
      ghost var x := 0;
      if mem.pairs[k][c.i / 2] {
        mem.DistinctLists();
        x :| 0 <= x < |mem.lists[k]| && mem.lists[k][x] == Addr(base, Buddy(c));
        MergeStep(mem.pairs, mem.splits, mem.lists, base, t, m, lo, hi, c, x);
      } else {
        GiveStep(mem.pairs, mem.splits, mem.lists, base, t, m, lo, hi, c);
      }
      mem.InvertPair(k, buddy / 2);
      mem.ValidIsRooted();
      stop := mem.IsPair(k, buddy / 2);
      if !stop {
        d := Parent(c);
        p := Absorb(k, p, buddy, c, x);
      }
    }

    /** The buddy leaves its list, and the pair becomes a block that is not split. */
    method Absorb(k: nat, p0: nat, buddy: nat, ghost c: Block, ghost x: nat) returns (p: nat)
      requires Tables() && c.k == k < m && p0 == Addr(base, c) && Block(k, buddy) == Buddy(c)
      requires x < |mem.lists[k]| && mem.lists[k][x] == Addr(base, Buddy(c)) && c.i / 2 < |mem.splits[k + 1]|
      requires Stands(mem.pairs, Put(mem.splits, k + 1, c.i / 2, false), mem.lists[k := Without(mem.lists[k], x)],
                      base, MergeUsed(t, Parent(c)), m, lo, hi)
      modifies this`t, mem.Repr
      ensures Valid() && t == MergeUsed(old(t), Parent(c)) && p == Addr(base, Parent(c))
    {
      hide Store.Valid, Store.Rooted, Stands, Addr, BlkIndex, BlkSize, Live, MergeUsed, InHeap, Without;
      p := p0;
      var q := Addr(base, Block(k, buddy));
      mem.Remove(q, k, x);
      if buddy % 2 == 0 { p := q; }
      PairOf(c);
      AddrHalves(base, Parent(c));
      BlkIndexHere(base, Parent(c));
      mem.ClearSplit(k + 1, BlkIndex(base, k + 1, p));
      t := MergeUsed(t, Parent(c));
    }
  }
}
