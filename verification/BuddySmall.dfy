/** bd_init on memory of any size that holds its tables, the smallest included: for which sizes the sum
    that bd_initfree returns is wrong, and for which a block is pushed twice. */
module BuddySmall {
  import opened Arith
  import opened BuddyTree
  import opened BuddyTables
  import opened BuddyInit
  import opened BuddyFull

  /** The leaves that the tables take. */
  function TableLeaves(m: nat): nat {
    RoundUp(TableBytes(m), LEAF_SIZE) / LEAF_SIZE
  }

  /** The tables end within the memory. */
  predicate HoldsTables(sz: nat) {
    sz >= LEAF_SIZE && RoundUp(TableBytes(Height(sz)), LEAF_SIZE) <= sz
  }

  lemma SizeFits(sz: nat)
    requires HoldsTables(sz)
    ensures sz / LEAF_SIZE > 0 && sz <= BlkSize(Height(sz))
  {
    HeightFits(sz);
  }

  /** Where the two reserved ends lie. */
  lemma EndsFit(sz: nat, m: nat, unavailable: nat)
    requires HoldsTables(sz) && m == Height(sz)
    requires unavailable == if BlkSize(m) > sz then RoundUp(BlkSize(m) - sz, LEAF_SIZE) else 0
    ensures RoundUp(TableBytes(m), LEAF_SIZE) == LEAF_SIZE * TableLeaves(m)
    ensures 0 < TableLeaves(m) <= sz / LEAF_SIZE <= Pow2(m)
    ensures BlkSize(m) - unavailable == LEAF_SIZE * (sz / LEAF_SIZE)
    ensures sz > 512 ==> Sane(m, TableLeaves(m), sz / LEAF_SIZE)
  {
    hide TableBytes, Height, RoundUp, Sane, IsBlockSize;
    InitEnd(sz, m, unavailable);
    TablesAlign(sz, m);
    if sz > 512 { InitMeta(sz, m, RoundUp(TableBytes(m), LEAF_SIZE)); }
  }

  lemma TablesAlign(sz: nat, m: nat)
    requires HoldsTables(sz) && m == Height(sz) && sz <= BlkSize(m)
    ensures RoundUp(TableBytes(m), LEAF_SIZE) == LEAF_SIZE * TableLeaves(m)
    ensures 0 < TableLeaves(m) <= sz / LEAF_SIZE <= Pow2(m)
  {
    assert TableBytes(m) >= SZ_INFO;
    hide TableBytes;
    RoundUpBounds(TableBytes(m), LEAF_SIZE);
  }

  /** The sizes for which the sum is wrong. */
  ghost predicate SumWrong(sz: nat) {
    || 176 <= sz < 192
    || 224 <= sz < 256
    || 320 <= sz < 512
    || (IsBlockSize(sz) && sz >= 4096)
  }

  lemma TinyTables()
    ensures forall m: nat :: m <= 3 ==> TableBytes(m) > BlkSize(m)
    ensures TableBytes(4) == 169 && TableBytes(5) == 205 && BlkSize(4) == 256 && BlkSize(5) == 512
  {
    hide AllocSum, SplitSum, RowBytes;
    assert Pow2(3) == 8 && Pow2(4) == 16 && Pow2(5) == 32;
    SmallSums(5);
    SmallSums(4);
    AllocRow(5, 2);
    SplitRow(4, 2);
    forall m: nat | m <= 3 ensures TableBytes(m) > BlkSize(m) {
      SmallSums(m + 1);
      if m == 3 { } else if m == 2 { } else if m == 1 { } else { }
    }
  }

  /** There are two heaps of at most 512 bytes that hold their tables. */
  lemma SmallHeaps(sz: nat, m: nat)
    requires m <= 5 && sz <= BlkSize(m) < 2 * sz && RoundUp(TableBytes(m), LEAF_SIZE) <= sz
    ensures TableLeaves(m) == if m == 4 then 11 else 13
    ensures (m == 4 && 176 <= sz <= 256) || (m == 5 && 256 < sz <= 512)
  {
    hide TableBytes;
    TinyTables();
    RoundUpBounds(TableBytes(m), LEAF_SIZE);
  }

  lemma FewHalvings(x: nat)
    ensures Shr(x, 0) == x && Shr(x, 1) == x / 2 && Shr(x, 2) == x / 4 && Shr(x, 3) == x / 8 && Shr(x, 4) == x / 16
    ensures CeilShr(x, 0) == x && CeilShr(x, 1) == (x + 1) / 2 && CeilShr(x, 2) == ((x + 1) / 2 + 1) / 2
    ensures CeilShr(x, 3) == (CeilShr(x, 2) + 1) / 2 && CeilShr(x, 4) == (CeilShr(x, 3) + 1) / 2
    ensures Shr(x, 5) == x / 32 && CeilShr(x, 5) == (CeilShr(x, 4) + 1) / 2
  {
    assert Shr(x, 1) == Shr(x, 0) / 2 && Shr(x, 2) == Shr(x, 1) / 2;
    assert Shr(x, 3) == Shr(x, 2) / 2 && Shr(x, 4) == Shr(x, 3) / 2;
    assert CeilShr(x, 1) == (CeilShr(x, 0) + 1) / 2 && CeilShr(x, 2) == (CeilShr(x, 1) + 1) / 2;
  }

  // ----- The two small heaps -----

  lemma SmallRow(rows: Rows, m: nat, k: nat)
    requires RowsExact(rows, m) && k <= m <= 5
    ensures |rows[k]| == if m - k == 5 then 16 else 8
  {
    RowBytesCases(m - k);
    assert Pow2(5) == 32;
  }

  /** The bit that a look at index `i` of level `k` finds: one of the level, or the first of the next. */
  lemma SmallBit(rows: Rows, m: nat, lo: nat, hi: nat, k: nat, i: nat)
    requires MarkedRows(rows, m, lo, hi) && k < m <= 5 && i <= if m - k == 5 then 16 else 8
    ensures InRows(rows, k, i)
    ensures Bit(rows, k, i) == if i < (if m - k == 5 then 16 else 8) then MarkBit(m, lo, hi, k, i)
                               else MarkBit(m, lo, hi, k + 1, 0)
  {
    hide MarkBit;
    SmallRow(rows, m, k);
    SmallRow(rows, m, k + 1);
    if i < |rows[k]| {
      assert rows[k][i] == MarkBit(m, lo, hi, k, i);
    } else {
      assert rows[k + 1][0] == MarkBit(m, lo, hi, k + 1, 0);
      assert InRows(rows, k + 1, 0) && Flat(rows, k + 1, 0) == rows[k + 1][0];
    }
  }

  lemma FewPowers()
    ensures Pow2(0) == 1 && Pow2(1) == 2 && Pow2(2) == 4 && Pow2(3) == 8 && Pow2(4) == 16 && Pow2(5) == 32
  {
  }

  /** What a look at the left edge `l` or right edge `r` of a level of `n` blocks finds, and at those of the
      next level where the look goes past the vector of `len` bits. */
  predicate Look(l: nat, r: nat, n: nat, l': nat, r': nat, n': nat, len: nat, i: nat) {
    if i < len then PairBit(l, r, n, i) else PairBit(l', r', n', 0)
  }

  /** How many of the two looks at a level find a set bit. */
  function Looks(l: nat, r: nat, n: nat, l': nat, r': nat, n': nat, len: nat): nat {
    (if Look(l, r, n, l', r', n', len, l / 2) then 1 else 0)
    + (if r > l && Look(l, r, n, l', r', n', len, r / 2) then 1 else 0)
  }

  lemma SmallLevel(rows: Rows, m: nat, lo: nat, hi: nat, k: nat, len: nat)
    requires MarkedRows(rows, m, lo, hi) && k < m <= 5 && len == if m - k == 5 then 16 else 8
    requires CeilShr(lo, k) / 2 <= len && Shr(hi, k) / 2 <= len
    ensures Readable(rows, lo, hi, k)
    ensures LevelSum(rows, lo, hi, k) ==
            Pow2(k) * Looks(CeilShr(lo, k), Shr(hi, k), Pow2(m - k),
                            CeilShr(lo, k + 1), Shr(hi, k + 1), Pow2(m - k - 1), len)
  {
    hide PairBit, MarkedRows, Bit, InRows, Shr, CeilShr, Pow2;
    SmallBit(rows, m, lo, hi, k, CeilShr(lo, k) / 2);
    SmallBit(rows, m, lo, hi, k, Shr(hi, k) / 2);
  }

  lemma LooksOf256(hi: nat)
    requires 11 <= hi <= 16
    ensures Looks(11, hi, 16, 6, hi / 2, 8, 8) == if hi == 11 then 0 else if hi == 13 || hi == 15 then 2 else 1
    ensures Looks(6, hi / 2, 8, 3, hi / 4, 4, 8) == if hi == 14 || hi == 15 then 2 else 0
    ensures Looks(3, hi / 4, 4, 2, hi / 8, 2, 8) == if hi == 11 || hi == 16 then 1 else 0
    ensures Looks(2, hi / 8, 2, 1, hi / 16, 1, 8) == 0
  {
  }

  lemma LooksOf512(hi: nat)
    requires 16 <= hi <= 32
    ensures Looks(13, hi, 32, 7, hi / 2, 16, 16) == if hi % 2 == 1 then 2 else 1
    ensures Looks(7, hi / 2, 16, 4, hi / 4, 8, 8) == if hi / 2 % 2 == 1 then 2 else 1
  {
  }

  lemma MoreLooksOf512(q: nat)
    requires 4 <= q <= 8
    ensures Looks(4, q, 8, 2, q / 2, 4, 8) == if q == 5 then 2 else if q == 7 then 1 else 0
    ensures Looks(2, q / 2, 4, 1, q / 4, 2, 8) == if q / 2 == 3 then 2 else 0
    ensures Looks(1, q / 4, 2, 1, q / 8, 1, 8) == if q == 8 then 1 else 0
  {
  }

  lemma LevelsOf256(rows: Rows, hi: nat, k: nat)
    requires MarkedRows(rows, 4, 11, hi) && 11 <= hi <= 16 && k < 4
    ensures Readable(rows, 11, hi, k)
    ensures LevelSum(rows, 11, hi, k) ==
            if k == 0 then (if hi == 11 then 0 else if hi == 13 || hi == 15 then 2 else 1)
            else if k == 1 then (if hi == 14 || hi == 15 then 4 else 0)
            else if k == 2 then (if hi == 11 || hi == 16 then 4 else 0)
            else 0
  {
    hide MarkedRows, LevelSum, Readable, Shr, CeilShr, Pow2, Looks;
    FewHalvings(hi);
    FewHalvings(11);
    FewPowers();
    LooksOf256(hi);
    SmallLevel(rows, 4, 11, hi, k, 8);
  }

  lemma SumOf256(rows: Rows, hi: nat)
    requires MarkedRows(rows, 4, 11, hi) && 11 <= hi <= 16
    ensures forall k: nat :: k < 4 ==> Readable(rows, 11, hi, k)
    ensures ScanSum(rows, 11, hi, 4) != hi - 11 <==> hi == 11 || hi == 14 || hi == 15
  {
    hide MarkedRows, LevelSum, Readable, ScanSum;
    forall k: nat | k < 4 ensures Readable(rows, 11, hi, k) { LevelsOf256(rows, hi, k); }
    LevelsOf256(rows, hi, 0);
    LevelsOf256(rows, hi, 1);
    LevelsOf256(rows, hi, 2);
    LevelsOf256(rows, hi, 3);
    FourLevels(rows, 11, hi);
  }

  function Level512(hi: nat, k: nat): nat {
    if k == 0 then (if hi % 2 == 1 then 2 else 1)
    else if k == 1 then (if hi / 2 % 2 == 1 then 4 else 2)
    else if k == 2 then (if hi / 4 == 5 then 8 else if hi / 4 == 7 then 4 else 0)
    else if k == 3 then (if hi / 8 == 3 then 16 else 0)
    else if hi == 32 then 16 else 0
  }

  lemma Total512(hi: nat)
    requires 16 <= hi <= 32
    ensures Level512(hi, 0) + Level512(hi, 1) + Level512(hi, 2) + Level512(hi, 3) + Level512(hi, 4) != hi - 13
            <==> 20 <= hi < 32
  {
    var q, r := hi / 4, hi % 4;
    assert hi / 2 % 2 == (if r >= 2 then 1 else 0) && hi % 2 == r % 2 && hi / 8 == q / 2;
  }

  lemma LevelsOf512(rows: Rows, hi: nat, k: nat)
    requires MarkedRows(rows, 5, 13, hi) && 16 <= hi <= 32 && k < 5
    ensures Readable(rows, 13, hi, k)
    ensures LevelSum(rows, 13, hi, k) == Level512(hi, k)
  {
    hide MarkedRows, LevelSum, Readable, Shr, CeilShr, Pow2, Looks;
    FewHalvings(hi);
    FewHalvings(13);
    FewPowers();
    LooksOf512(hi);
    MoreLooksOf512(hi / 4);
    SmallLevel(rows, 5, 13, hi, k, if k == 0 then 16 else 8);
  }

  lemma SumOf512(rows: Rows, hi: nat)
    requires MarkedRows(rows, 5, 13, hi) && 16 <= hi <= 32
    ensures forall k: nat :: k < 5 ==> Readable(rows, 13, hi, k)
    ensures ScanSum(rows, 13, hi, 5) != hi - 13 <==> 20 <= hi < 32
  {
    hide MarkedRows, LevelSum, Readable, ScanSum, Level512;
    forall k: nat | k < 5 ensures Readable(rows, 13, hi, k) { LevelsOf512(rows, hi, k); }
    LevelsOf512(rows, hi, 0);
    LevelsOf512(rows, hi, 1);
    LevelsOf512(rows, hi, 2);
    LevelsOf512(rows, hi, 3);
    LevelsOf512(rows, hi, 4);
    FourLevels(rows, 13, hi);
    Total512(hi);
  }

  lemma FourLevels(rows: Rows, lo: nat, hi: nat)
    ensures ScanSum(rows, lo, hi, 4) == LevelSum(rows, lo, hi, 0) + LevelSum(rows, lo, hi, 1)
                                        + LevelSum(rows, lo, hi, 2) + LevelSum(rows, lo, hi, 3)
    ensures ScanSum(rows, lo, hi, 5) == ScanSum(rows, lo, hi, 4) + LevelSum(rows, lo, hi, 4)
  {
    hide LevelSum;
    assert ScanSum(rows, lo, hi, 2) == ScanSum(rows, lo, hi, 1) + LevelSum(rows, lo, hi, 1);
    assert ScanSum(rows, lo, hi, 3) == ScanSum(rows, lo, hi, 2) + LevelSum(rows, lo, hi, 2);
  }

  // ----- All sizes -----

  /** For every memory that holds the tables, the sum of the blocks that bd_initfree pushes is the memory
      between the tables and its end, except for the sizes of SumWrong. */
  lemma SumWrongExactly(sz: nat, rows: Rows)
    requires HoldsTables(sz) && MarkedRows(rows, Height(sz), TableLeaves(Height(sz)), sz / LEAF_SIZE)
    ensures var m, lo, hi := Height(sz), TableLeaves(Height(sz)), sz / LEAF_SIZE;
      && (forall k: nat :: k < m ==> Readable(rows, lo, hi, k))
      && (ScanSum(rows, lo, hi, m) != hi - lo <==> SumWrong(sz))
  {
    hide TableBytes, Height, RoundUp, MarkedRows, Readable, ScanSum, IsBlockSize;
    var m := Height(sz);
    HeightFits(sz);
    if m >= 6 {
      LargeSum(sz, m, rows);
    } else {
      SmallHeaps(sz, m);
      SmallSizes(sz);
      if m == 4 { SumOf256(rows, sz / LEAF_SIZE); } else { SumOf512(rows, sz / LEAF_SIZE); }
    }
  }

  lemma SmallSizes(sz: nat)
    requires 176 <= sz <= 512
    ensures 176 <= sz < 192 <==> sz / LEAF_SIZE == 11
    ensures 224 <= sz < 256 <==> sz / LEAF_SIZE == 14 || sz / LEAF_SIZE == 15
    ensures 320 <= sz < 512 <==> 20 <= sz / LEAF_SIZE < 32
    ensures sz <= 256 ==> 11 <= sz / LEAF_SIZE <= 16
    ensures sz > 256 ==> 16 <= sz / LEAF_SIZE <= 32
  {
  }

  lemma LargeSum(sz: nat, m: nat, rows: Rows)
    requires m == Height(sz) >= 6 && sz <= BlkSize(m) < 2 * sz
    requires MarkedRows(rows, m, TableLeaves(m), sz / LEAF_SIZE)
    ensures forall k: nat :: k < m ==> Readable(rows, TableLeaves(m), sz / LEAF_SIZE, k)
    ensures ScanSum(rows, TableLeaves(m), sz / LEAF_SIZE, m) != sz / LEAF_SIZE - TableLeaves(m) <==> SumWrong(sz)
  {
    hide TableBytes, Height, RoundUp, MarkedRows, Readable, ScanSum, IsBlockSize, AnyStray, Sane;
    assert Pow2(6) == 64;
    Pow2AtLeast(m, 6);
    InitMeta(sz, m, RoundUp(TableBytes(m), LEAF_SIZE));
    SumRightExactly(rows, m, TableLeaves(m), sz / LEAF_SIZE);
    if sz > 512 { StraysExactly(sz); }
  }

  // ----- Past the end of a level -----

  /** Both edges of level `k` are blocks of that level. */
  predicate EdgesInRange(m: nat, lo: nat, hi: nat, k: nat)
    requires k <= m
  {
    CeilShr(lo, k) < Pow2(m - k) && Shr(hi, k) < Pow2(m - k)
  }

  /** For every memory that holds the tables, the edges that bd_initfree looks at lie within their levels
      exactly when there are more than 256 bytes and the size is not a block size. */
  lemma EdgesInRangeExactly(sz: nat)
    requires HoldsTables(sz)
    ensures var m, lo, hi := Height(sz), TableLeaves(Height(sz)), sz / LEAF_SIZE;
      (forall k: nat :: k < m ==> EdgesInRange(m, lo, hi, k)) <==> sz > 256 && !IsBlockSize(sz)
  {
    hide TableBytes, Height, RoundUp, IsBlockSize, EdgesInRange, Pow2;
    var m := Height(sz);
    HeightFits(sz);
    if m >= 6 {
      LeftInRange(sz, m);
    } else {
      SmallHeaps(sz, m);
      SmallLeft(m, sz / LEAF_SIZE);
    }
    ScanInRangeExactly(sz);
    if IsBlockSize(sz) {
      var k: nat :| k < m && !(Shr(sz / LEAF_SIZE, k) < Pow2(m - k));
      InRangeIs(m, TableLeaves(m), sz / LEAF_SIZE, k);
    } else if m != 4 {
      forall k: nat | k < m ensures EdgesInRange(m, TableLeaves(m), sz / LEAF_SIZE, k) {
        InRangeIs(m, TableLeaves(m), sz / LEAF_SIZE, k);
      }
    }
  }

  lemma InRangeIs(m: nat, lo: nat, hi: nat, k: nat)
    requires k <= m
    ensures EdgesInRange(m, lo, hi, k) <==> CeilShr(lo, k) < Pow2(m - k) && Shr(hi, k) < Pow2(m - k)
  {
  }

  lemma LeftInRange(sz: nat, m: nat)
    requires m >= 6 && sz <= BlkSize(m) < 2 * sz
    ensures forall k: nat :: k < m ==> CeilShr(TableLeaves(m), k) < Pow2(m - k)
    ensures sz > 256
  {
    hide TableBytes, RoundUp, Shr, CeilShr, Sane;
    assert Pow2(6) == 64;
    Pow2AtLeast(m, 6);
    InitMeta(sz, m, RoundUp(TableBytes(m), LEAF_SIZE));
    forall k: nat | k < m ensures CeilShr(TableLeaves(m), k) < Pow2(m - k) {
      EdgesApart(m, TableLeaves(m), sz / LEAF_SIZE, k);
    }
  }

  lemma SmallLeft(m: nat, hi: nat)
    ensures m == 4 ==> !EdgesInRange(m, 11, hi, 3)
    ensures m == 5 ==> forall k: nat :: k < m ==> CeilShr(13, k) < Pow2(m - k)
  {
    FewHalvings(11);
    FewHalvings(13);
    FewPowers();
  }

  // ----- Pushed twice -----

  /** At level `k` both looks find a set bit, and push the same block. */
  predicate PushesTwice(rows: Rows, lo: nat, hi: nat, k: nat) {
    var l, r := CeilShr(lo, k), Shr(hi, k);
    && r > l && Bit(rows, k, l / 2) && Bit(rows, k, r / 2)
    && ScanTarget(k, l, false) == ScanTarget(k, r, true)
  }

  /** Both edges are in one pair, of which the left block is free. */
  predicate EdgesMeet(lo: nat, hi: nat, k: nat) {
    CeilShr(lo, k) % 2 == 0 && Shr(hi, k) == CeilShr(lo, k) + 1
  }

  lemma MeetingPushesTwice(rows: Rows, m: nat, lo: nat, hi: nat, k: nat)
    requires MarkedRows(rows, m, lo, hi) && k < m && hi < Pow2(m)
    ensures PushesTwice(rows, lo, hi, k) <==> EdgesMeet(lo, hi, k)
  {
    if EdgesMeet(lo, hi, k) {
      RightAbove(hi, k, m);
      RowBytesCases(m - k);
      assert rows[k][CeilShr(lo, k) / 2] == MarkBit(m, lo, hi, k, CeilShr(lo, k) / 2);
    }
  }

  /** For every memory that holds the tables, a block is pushed twice exactly for 224 to 255 and for 320 to
      511 bytes. */
  lemma PushesTwiceExactly(sz: nat, rows: Rows)
    requires HoldsTables(sz) && MarkedRows(rows, Height(sz), TableLeaves(Height(sz)), sz / LEAF_SIZE)
    ensures var m, lo, hi := Height(sz), TableLeaves(Height(sz)), sz / LEAF_SIZE;
      (exists k: nat :: k < m && PushesTwice(rows, lo, hi, k)) <==> 224 <= sz < 256 || 320 <= sz < 512
  {
    hide TableBytes, Height, RoundUp, IsBlockSize, MarkedRows, PushesTwice, EdgesMeet;
    var m := Height(sz);
    var lo, hi := TableLeaves(m), sz / LEAF_SIZE;
    HeightFits(sz);
    MeetingIs(sz, m);
    forall k: nat | k < m ensures PushesTwice(rows, lo, hi, k) <==> EdgesMeet(lo, hi, k) {
      if hi < Pow2(m) { MeetingPushesTwice(rows, m, lo, hi, k); } else { NoMeeting(rows, m, lo, hi, k); }
    }
  }

  lemma NoMeeting(rows: Rows, m: nat, lo: nat, hi: nat, k: nat)
    requires k < m && hi == Pow2(m)
    ensures !PushesTwice(rows, lo, hi, k) && !EdgesMeet(lo, hi, k)
  {
    FullEdge(m, k);
    EvenLevel(m, k);
  }

  lemma MeetingIs(sz: nat, m: nat)
    requires HoldsTables(sz) && m == Height(sz) && sz <= BlkSize(m) < 2 * sz
    ensures (exists k: nat :: k < m && EdgesMeet(TableLeaves(m), sz / LEAF_SIZE, k)) <==>
            224 <= sz < 256 || 320 <= sz < 512
  {
    hide TableBytes, Height, RoundUp, Sane, EdgesMeet;
    if m >= 6 {
      LargeApart(sz, m);
    } else {
      SmallHeaps(sz, m);
      SmallMeeting(sz, m, TableLeaves(m), sz / LEAF_SIZE);
    }
  }

  lemma LargeApart(sz: nat, m: nat)
    requires m >= 6 && sz <= BlkSize(m) < 2 * sz
    ensures forall k: nat :: k < m ==> !EdgesMeet(TableLeaves(m), sz / LEAF_SIZE, k)
    ensures sz >= 512
  {
    hide TableBytes, RoundUp, Shr, CeilShr, Sane;
    assert Pow2(6) == 64;
    Pow2AtLeast(m, 6);
    InitMeta(sz, m, RoundUp(TableBytes(m), LEAF_SIZE));
    forall k: nat | k < m ensures !EdgesMeet(TableLeaves(m), sz / LEAF_SIZE, k) {
      EdgesApart(m, TableLeaves(m), sz / LEAF_SIZE, k);
    }
  }

  lemma SmallMeeting(sz: nat, m: nat, lo: nat, hi: nat)
    requires (m == 4 && lo == 11 && 176 <= sz <= 256) || (m == 5 && lo == 13 && 256 < sz <= 512)
    requires hi == sz / LEAF_SIZE
    ensures (exists k: nat :: k < m && EdgesMeet(lo, hi, k)) <==> 224 <= sz < 256 || 320 <= sz < 512
  {
    FewHalvings(hi);
    FewHalvings(lo);
    hide Shr, CeilShr;
    if m == 4 {
      assert EdgesMeet(lo, hi, 1) <==> 224 <= sz < 256;
      assert !EdgesMeet(lo, hi, 0) && !EdgesMeet(lo, hi, 2) && !EdgesMeet(lo, hi, 3);
    } else {
      assert EdgesMeet(lo, hi, 2) <==> 320 <= sz < 384;
      assert EdgesMeet(lo, hi, 3) <==> 384 <= sz < 512;
      assert !EdgesMeet(lo, hi, 0) && !EdgesMeet(lo, hi, 1) && !EdgesMeet(lo, hi, 4);
    }
  }
}
