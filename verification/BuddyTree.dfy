/** The buddy tree: which blocks exist, and which of them are free, handed out or split. Nothing here
    mentions bits or lists; Buddy.dfy ties the allocator's tables to such a tree. */
module BuddyTree {
  import opened Arith

  /** Block `i` of level `k`: the 2^k leaves from leaf i * 2^k on.

      A tree of height `m` maps the blocks that exist at the moment to their status; `Block(m, 0)` is
      the root. Leaves below `lo` and from `hi` on are reserved for good: the allocator's own tables at
      the left end, and memory the machine does not have at the right end. */
  datatype Block = Block(k: nat, i: nat)

  datatype Status = Free | Used | Split

  type Tree = map<Block, Status>

  function Parent(b: Block): Block {
    Block(b.k + 1, b.i / 2)
  }

  function Left(b: Block): Block
    requires b.k > 0
  {
    Block(b.k - 1, 2 * b.i)
  }

  function Right(b: Block): Block
    requires b.k > 0
  {
    Block(b.k - 1, 2 * b.i + 1)
  }

  function Buddy(b: Block): Block {
    Block(b.k, if b.i % 2 == 0 then b.i + 1 else b.i - 1)
  }

  /** The block `d` levels above `b`. */
  function Above(b: Block, d: nat): Block {
    Block(b.k + d, Shr(b.i, d))
  }

  /** Block `b` lies inside the heap. */
  predicate InHeap(m: nat, b: Block) {
    b.k <= m && Shr(b.i, m - b.k) == 0
  }

  /** Block `b` overlaps one of the reserved ends. */
  predicate Reserved(lo: nat, hi: nat, b: Block) {
    b.i < CeilShr(lo, b.k) || b.i >= Shr(hi, b.k)
  }

  /** Status of a block that overlaps a reserved end: marked used if a leaf, split otherwise. */
  function ReservedStatus(b: Block): Status {
    if b.k == 0 then Used else Split
  }

  /** What the tree says around block `b`: its parent is split; if it is split both halves exist;
      if it is free its buddy is not. */
  predicate Local(t: Tree, m: nat, b: Block)
    requires b in t
  {
    && b.k <= m
    && (b.k == m ==> b.i == 0)
    && (b.k < m ==> Parent(b) in t && t[Parent(b)] == Split)
    && (t[b] == Split ==> b.k > 0 && Left(b) in t && Right(b) in t)
    && (t[b] == Free && Buddy(b) in t ==> t[Buddy(b)] != Free)
  }

  predicate KeepsReserved(t: Tree, lo: nat, hi: nat, b: Block) {
    Reserved(lo, hi, b) ==> b in t && t[b] == ReservedStatus(b)
  }

  ghost predicate Ok(t: Tree, m: nat, lo: nat, hi: nat) {
    && Block(m, 0) in t
    && Reserved(lo, hi, Block(m, 0))
    && (forall b {:trigger Local(t, m, b)} :: b in t ==> Local(t, m, b))
    && (forall b {:trigger KeepsReserved(t, lo, hi, b)} :: InHeap(m, b) ==> KeepsReserved(t, lo, hi, b))
  }

  /** The blocks handed out: those used that are not reserved leaves. */
  function Live(t: Tree, lo: nat, hi: nat): set<Block>
  {
    set b | b in t && t[b] == Used && !Reserved(lo, hi, b)
  }

  // ----- What one path through the tree looks like -----

  lemma {:induction false} InTreeInHeap(t: Tree, m: nat, lo: nat, hi: nat, b: Block)
    requires Ok(t, m, lo, hi) && b in t
    ensures InHeap(m, b)
    decreases m - b.k
  {
    assert Local(t, m, b);
    if b.k < m {
      InTreeInHeap(t, m, lo, hi, Parent(b));
      ShrHalf(b.i, m - b.k - 1);
    }
  }

  /** Everything above an existing block is split. */
  lemma {:induction false} AncestorsSplit(t: Tree, m: nat, lo: nat, hi: nat, b: Block, d: nat)
    requires Ok(t, m, lo, hi) && b in t && 0 < d && b.k + d <= m
    ensures Above(b, d) in t && t[Above(b, d)] == Split
    decreases d
  {
    assert Local(t, m, b);
    if d == 1 {
      assert Shr(b.i, 1) == Shr(b.i, 0) / 2;
    } else {
      AncestorsSplit(t, m, lo, hi, Parent(b), d - 1);
      ShrHalf(b.i, d - 1);
    }
  }

  /** The block of level `k` that holds leaf `x`. */
  function Over(x: nat, k: nat): Block {
    Block(k, Shr(x, k))
  }

  /** Below a block that is not split there is nothing. */
  lemma {:induction false} NothingBelow(t: Tree, m: nat, lo: nat, hi: nat, x: nat, k: nat, k': nat)
    requires Ok(t, m, lo, hi) && k <= k'
    requires Over(x, k) in t && Over(x, k') in t && t[Over(x, k')] != Split
    ensures k == k'
  {
    if k < k' {
      ShrAdd(x, k, k' - k);
      assert Local(t, m, Over(x, k'));
      AncestorsSplit(t, m, lo, hi, Over(x, k), k' - k);
    }
  }

  /** Above a block that does not exist there is one that is not split. */
  lemma {:induction false} TerminalAbove(t: Tree, m: nat, lo: nat, hi: nat, b: Block) returns (d: nat)
    requires Ok(t, m, lo, hi) && InHeap(m, b) && (b in t ==> t[b] != Split)
    ensures Above(b, d) in t && t[Above(b, d)] != Split
    decreases m - b.k
  {
    if b in t {
      d := 0;
    } else {
      assert b.k < m;
      ShrHalf(b.i, m - b.k - 1);
      SplitParent(t, m, lo, hi, b);
      var e := TerminalAbove(t, m, lo, hi, Parent(b));
      ShrHalf(b.i, e);
      d := e + 1;
    }
  }

  /** Because buddies are never both free, a split block always holds a used one. */
  lemma {:induction false} SplitHoldsUsed(t: Tree, m: nat, lo: nat, hi: nat, b: Block) returns (c: Block)
    requires Ok(t, m, lo, hi) && b in t && t[b] == Split
    ensures c.k < b.k && Above(c, b.k - c.k) == b && c in t && t[c] == Used
    decreases b.k
  {
    hide KeepsReserved, Reserved, InHeap;
    var h := UnfreeHalf(t, m, lo, hi, b);
    if t[h] == Used {
      c := h;
    } else {
      c := SplitHoldsUsed(t, m, lo, hi, h);
      AboveAbove(c, h.k - c.k, 1);
    }
  }

  lemma UnfreeHalf(t: Tree, m: nat, lo: nat, hi: nat, b: Block) returns (h: Block)
    requires Ok(t, m, lo, hi) && b in t && t[b] == Split
    ensures b.k > 0 && h.k == b.k - 1 && Above(h, 1) == b && h in t && t[h] != Free
  {
    hide KeepsReserved, Reserved, InHeap;
    assert Local(t, m, b);
    assert Local(t, m, Left(b));
    assert Buddy(Left(b)) == Right(b);
    h := if t[Left(b)] != Free then Left(b) else Right(b);
    AboveOne(h);
  }

  lemma AboveOne(b: Block)
    ensures Above(b, 1) == Parent(b)
  {
    assert Shr(b.i, 1) == Shr(b.i, 0) / 2;
  }

  lemma AboveAbove(b: Block, d: nat, e: nat)
    ensures Above(Above(b, d), e) == Above(b, d + e)
  {
    ShrAdd(b.i, d, e);
  }

  /** Two blocks that are not split start at different leaves. */
  lemma TerminalsStartApart(t: Tree, m: nat, lo: nat, hi: nat, b: Block, c: Block)
    requires Ok(t, m, lo, hi) && b in t && c in t && t[b] != Split && t[c] != Split
    requires Shl(b.i, b.k) == Shl(c.i, c.k)
    ensures b == c
  {
    var x := Shl(b.i, b.k);
    ShrShl(b.i, b.k);
    ShrShl(c.i, c.k);
    assert b == Over(x, b.k) && c == Over(x, c.k);
    if b.k <= c.k {
      NothingBelow(t, m, lo, hi, x, b.k, c.k);
    } else {
      NothingBelow(t, m, lo, hi, x, c.k, b.k);
    }
  }

  // ----- The canonical form -----

  /** The tree is determined by the blocks handed out: two trees over the same reserved ends with
      the same live blocks are the same tree. */
  lemma {:induction false} Canonical(t: Tree, u: Tree, m: nat, lo: nat, hi: nat)
    requires Ok(t, m, lo, hi) && Ok(u, m, lo, hi)
    requires Live(t, lo, hi) == Live(u, lo, hi)
    ensures t == u
  {
    forall b | b in t || b in u
      ensures b in t && b in u && t[b] == u[b]
    {
      if b in t {
        InTreeInHeap(t, m, lo, hi, b);
      } else {
        InTreeInHeap(u, m, lo, hi, b);
      }
      SameStatus(t, u, m, lo, hi, b);
    }
  }

  lemma {:induction false} SameStatus(t: Tree, u: Tree, m: nat, lo: nat, hi: nat, b: Block)
    requires Ok(t, m, lo, hi) && Ok(u, m, lo, hi)
    requires Live(t, lo, hi) == Live(u, lo, hi)
    requires InHeap(m, b)
    ensures b in t <==> b in u
    ensures b in t ==> t[b] == u[b]
    decreases m - b.k
  {
    if b.k < m {
      ShrHalf(b.i, m - b.k - 1);
      SameStatus(t, u, m, lo, hi, Parent(b));
      SplitParent(t, m, lo, hi, b);
      SplitParent(u, m, lo, hi, b);
    } else {
      assert b == Block(m, 0);
    }
    if Reserved(lo, hi, b) {
      assert KeepsReserved(t, lo, hi, b) && KeepsReserved(u, lo, hi, b);
    } else if b in t {
      assert b in Live(t, lo, hi) <==> b in Live(u, lo, hi);
      if t[b] == Free {
        FreeIsNotSplit(t, u, m, lo, hi, b);
      } else if u[b] == Free {
        FreeIsNotSplit(u, t, m, lo, hi, b);
      }
    }
  }

  /** A block below the root exists exactly when its parent is split. */
  lemma SplitParent(t: Tree, m: nat, lo: nat, hi: nat, b: Block)
    requires Ok(t, m, lo, hi) && b.k < m
    ensures b in t <==> Parent(b) in t && t[Parent(b)] == Split
  {
    assert b == Left(Parent(b)) || b == Right(Parent(b));
    if b in t {
      assert Local(t, m, b);
    } else if Parent(b) in t {
      assert Local(t, m, Parent(b));
    }
  }

  lemma FreeIsNotSplit(t: Tree, u: Tree, m: nat, lo: nat, hi: nat, b: Block)
    requires Ok(t, m, lo, hi) && Ok(u, m, lo, hi)
    requires Live(t, lo, hi) == Live(u, lo, hi)
    requires b in t && b in u && t[b] == Free
    ensures u[b] != Split
  {
    if u[b] == Split {
      var c := SplitHoldsUsed(u, m, lo, hi, b);
      InTreeInHeap(u, m, lo, hi, c);
      if Reserved(lo, hi, c) {
        assert KeepsReserved(t, lo, hi, c) && KeepsReserved(u, lo, hi, c);
      } else {
        assert c in Live(u, lo, hi);
        assert c in Live(t, lo, hi);
      }
      assert Local(t, m, b);
      AncestorsSplit(t, m, lo, hi, c, b.k - c.k);
    }
  }

  // ----- Free space, seen from the live blocks alone -----

  /** Leaf `x` is reserved or lies inside a live block. */
  ghost predicate LeafBusy(live: set<Block>, lo: nat, hi: nat, x: nat) {
    x < lo || x >= hi || exists k: nat :: Over(x, k) in live
  }

  /** Not one leaf of block `b` is busy. */
  ghost predicate BlockFree(live: set<Block>, lo: nat, hi: nat, b: Block) {
    forall x :: Over(x, b.k) == b ==> !LeafBusy(live, lo, hi, x)
  }

  /** A free block of the tree, and every smaller block inside it, has no busy leaf. */
  lemma FreeNodeIsFree(t: Tree, m: nat, lo: nat, hi: nat, b: Block, c: Block)
    requires Ok(t, m, lo, hi) && b in t && t[b] == Free
    requires c.k <= b.k && Above(c, b.k - c.k) == b
    ensures BlockFree(Live(t, lo, hi), lo, hi, c)
  {
    forall x | Over(x, c.k) == c
      ensures !LeafBusy(Live(t, lo, hi), lo, hi, x)
    {
      ShrAdd(x, c.k, b.k - c.k);
      LeafUnderFree(t, m, lo, hi, b, x);
    }
  }

  lemma LeafUnderFree(t: Tree, m: nat, lo: nat, hi: nat, b: Block, x: nat)
    requires Ok(t, m, lo, hi) && b in t && t[b] == Free && Over(x, b.k) == b
    ensures !LeafBusy(Live(t, lo, hi), lo, hi, x)
  {
    InTreeInHeap(t, m, lo, hi, b);
    ShrAdd(x, b.k, m - b.k);
    var leaf := Over(x, 0);
    if Reserved(lo, hi, leaf) {
      assert KeepsReserved(t, lo, hi, leaf);
      NothingBelow(t, m, lo, hi, x, 0, b.k);
    } else if exists k: nat :: Over(x, k) in Live(t, lo, hi) {
      var k: nat :| Over(x, k) in Live(t, lo, hi);
      if k <= b.k {
        NothingBelow(t, m, lo, hi, x, k, b.k);
      } else {
        NothingBelow(t, m, lo, hi, x, b.k, k);
      }
    }
  }

  /** When no block of level b.k or above is free, `b` has a busy leaf. */
  lemma NoFreeNodeMeansBusy(t: Tree, m: nat, lo: nat, hi: nat, b: Block)
    requires Ok(t, m, lo, hi) && InHeap(m, b)
    requires forall c :: c in t && c.k >= b.k ==> t[c] != Free
    ensures !BlockFree(Live(t, lo, hi), lo, hi, b)
  {
    if b in t && t[b] == Split {
      var c := SplitHoldsUsed(t, m, lo, hi, b);
      var x := Shl(c.i, c.k);
      ShrShl(c.i, c.k);
      ShrAdd(x, c.k, b.k - c.k);
      UsedLeafBusy(t, m, lo, hi, c, x);
      assert Over(x, b.k) == b;
    } else {
      var d := TerminalAbove(t, m, lo, hi, b);
      var x := Shl(b.i, b.k);
      ShrShl(b.i, b.k);
      ShrAdd(x, b.k, d);
      UsedLeafBusy(t, m, lo, hi, Above(b, d), x);
      assert Over(x, b.k) == b;
    }
  }

  lemma UsedLeafBusy(t: Tree, m: nat, lo: nat, hi: nat, c: Block, x: nat)
    requires Ok(t, m, lo, hi) && c in t && t[c] == Used && Over(x, c.k) == c
    ensures LeafBusy(Live(t, lo, hi), lo, hi, x)
  {
    if Reserved(lo, hi, c) {
      InTreeInHeap(t, m, lo, hi, c);
      assert KeepsReserved(t, lo, hi, c);
    } else {
      assert Over(x, c.k) in Live(t, lo, hi);
    }
  }

  /** The free blocks tile what is not busy: a leaf of the heap lies under exactly one free block if
      it is not busy, and under none if it is. */
  lemma FreeBlocksTile(t: Tree, m: nat, lo: nat, hi: nat, x: nat)
    requires Ok(t, m, lo, hi) && InHeap(m, Over(x, 0))
    ensures !LeafBusy(Live(t, lo, hi), lo, hi, x) <==> exists k: nat :: Over(x, k) in t && t[Over(x, k)] == Free
    ensures forall k: nat, k': nat ::
              Over(x, k) in t && t[Over(x, k)] == Free && Over(x, k') in t && t[Over(x, k')] == Free ==> k == k'
  {
    if LeafBusy(Live(t, lo, hi), lo, hi, x) {
      forall k: nat | Over(x, k) in t
        ensures t[Over(x, k)] != Free
      {
        if t[Over(x, k)] == Free { LeafUnderFree(t, m, lo, hi, Over(x, k), x); }
      }
    } else {
      var leaf := Over(x, 0);
      if leaf in t { assert Local(t, m, leaf); }
      var d := TerminalAbove(t, m, lo, hi, leaf);
      assert Above(leaf, d) == Over(x, d);
      if t[Over(x, d)] == Used { UsedLeafBusy(t, m, lo, hi, Over(x, d), x); }
    }
    forall k: nat, k': nat |
      Over(x, k) in t && t[Over(x, k)] == Free && Over(x, k') in t && t[Over(x, k')] == Free
      ensures k == k'
    {
      if k <= k' {
        NothingBelow(t, m, lo, hi, x, k, k');
      } else {
        NothingBelow(t, m, lo, hi, x, k', k);
      }
    }
  }

  /** Two blocks handed out share no leaf. */
  lemma LiveBlocksApart(t: Tree, m: nat, lo: nat, hi: nat, b: Block, c: Block, x: nat)
    requires Ok(t, m, lo, hi) && b in Live(t, lo, hi) && c in Live(t, lo, hi) && b != c
    ensures Over(x, b.k) != b || Over(x, c.k) != c
  {
    if Over(x, b.k) == b && Over(x, c.k) == c {
      if b.k <= c.k {
        NothingBelow(t, m, lo, hi, x, b.k, c.k);
      } else {
        NothingBelow(t, m, lo, hi, x, c.k, b.k);
      }
    }
  }

  // ----- The four local changes: taking a free block, splitting one, merging one, giving one back -----

  /** A block popped from its free list becomes used. */
  lemma TakeOk(t: Tree, m: nat, lo: nat, hi: nat, b: Block)
    requires Ok(t, m, lo, hi) && b in t && t[b] == Free
    ensures Ok(t[b := Used], m, lo, hi)
    ensures Live(t[b := Used], lo, hi) == Live(t, lo, hi) + {b}
  {
    InTreeInHeap(t, m, lo, hi, b);
    assert KeepsReserved(t, lo, hi, b);
    Restatus(t, m, lo, hi, b, Used);
  }

  /** A used block whose buddy is not free may become free. */
  lemma GiveOk(t: Tree, m: nat, lo: nat, hi: nat, b: Block)
    requires Ok(t, m, lo, hi) && b in Live(t, lo, hi)
    requires Buddy(b) in t ==> t[Buddy(b)] != Free
    ensures Ok(t[b := Free], m, lo, hi)
    ensures Live(t[b := Free], lo, hi) == Live(t, lo, hi) - {b}
  {
    Restatus(t, m, lo, hi, b, Free);
  }

  lemma Restatus(t: Tree, m: nat, lo: nat, hi: nat, b: Block, s: Status)
    requires Ok(t, m, lo, hi) && b in t && t[b] != Split && s != Split && !Reserved(lo, hi, b)
    requires s == Free && Buddy(b) in t ==> t[Buddy(b)] != Free
    ensures Ok(t[b := s], m, lo, hi)
  {
    var u := t[b := s];
    forall c | c in u
      ensures Local(u, m, c)
    {
      assert Local(t, m, c);
      assert Buddy(Buddy(c)) == c;
    }
    forall c | InHeap(m, c)
      ensures KeepsReserved(u, lo, hi, c)
    {
      assert KeepsReserved(t, lo, hi, c);
    }
  }

  /** Splitting a used block: the left half stays used, the right half becomes free. */
  function SplitUsed(t: Tree, b: Block): Tree
    requires b.k > 0
  {
    t[b := Split][Left(b) := Used][Right(b) := Free]
  }

  /** Merging a used block with its free buddy: the parent becomes the used block. */
  function MergeUsed(t: Tree, p: Block): Tree
    requires p.k > 0
  {
    (t - {Left(p), Right(p)})[p := Used]
  }

  lemma HalvesAbsent(t: Tree, m: nat, lo: nat, hi: nat, b: Block)
    requires Ok(t, m, lo, hi) && b in t && t[b] != Split && b.k > 0
    ensures Left(b) !in t && Right(b) !in t
  {
    assert Local(t, m, b);
    SplitParent(t, m, lo, hi, Left(b));
    SplitParent(t, m, lo, hi, Right(b));
  }

  lemma SplitOk(t: Tree, m: nat, lo: nat, hi: nat, b: Block)
    requires Ok(t, m, lo, hi) && b in Live(t, lo, hi) && b.k > 0
    ensures Left(b) !in t && Right(b) !in t
    ensures Ok(SplitUsed(t, b), m, lo, hi)
    ensures Live(SplitUsed(t, b), lo, hi) == Live(t, lo, hi) - {b} + {Left(b)}
  {
    HalvesAbsent(t, m, lo, hi, b);
    var u := SplitUsed(t, b);
    forall c | c in u
      ensures Local(u, m, c)
    {
      SplitLocal(t, m, lo, hi, b, c);
    }
    HalvesReserved(lo, hi, b);
    OutsideReserved(t, u, m, lo, hi, {b, Left(b), Right(b)});
    SplitLive(t, lo, hi, b);
  }

  lemma SplitLive(t: Tree, lo: nat, hi: nat, b: Block)
    requires b in Live(t, lo, hi) && b.k > 0 && Left(b) !in t && Right(b) !in t && !Reserved(lo, hi, Left(b))
    ensures Live(SplitUsed(t, b), lo, hi) == Live(t, lo, hi) - {b} + {Left(b)}
  {
    var u := SplitUsed(t, b);
    assert Left(b) != Right(b) && Left(b) != b && Right(b) != b;
    assert forall c :: c !in {b, Left(b), Right(b)} ==> (c in u <==> c in t) && (c in u ==> u[c] == t[c]);
  }

  lemma SplitLocal(t: Tree, m: nat, lo: nat, hi: nat, b: Block, c: Block)
    requires Ok(t, m, lo, hi) && b in t && t[b] == Used && b.k > 0
    requires Left(b) !in t && Right(b) !in t && c in SplitUsed(t, b)
    ensures Local(SplitUsed(t, b), m, c)
  {
    hide KeepsReserved, Reserved, InHeap;
    assert Local(t, m, b);
    if c == Left(b) || c == Right(b) {
      assert Parent(c) == b;
      assert Buddy(c) == if c == Left(b) then Right(b) else Left(b);
    } else {
      assert Local(t, m, c);
      assert Buddy(Buddy(c)) == c;
      assert Buddy(Left(b)) == Right(b) && Buddy(Right(b)) == Left(b);
    }
  }

  /** A block is reserved exactly when one of its halves is. */
  lemma HalvesReserved(lo: nat, hi: nat, b: Block)
    requires b.k > 0
    ensures Reserved(lo, hi, b) <==> Reserved(lo, hi, Left(b)) || Reserved(lo, hi, Right(b))
  {
  }

  lemma MergeOk(t: Tree, m: nat, lo: nat, hi: nat, b: Block)
    requires Ok(t, m, lo, hi) && b in Live(t, lo, hi) && b.k < m
    requires Buddy(b) in t && t[Buddy(b)] == Free
    ensures b.k + 1 < m
    ensures Ok(MergeUsed(t, Parent(b)), m, lo, hi)
    ensures Live(MergeUsed(t, Parent(b)), lo, hi) == Live(t, lo, hi) - {b} + {Parent(b)}
  {
    MergeIsBelowRoot(t, m, lo, hi, b);
    MergeKeepsOk(t, m, lo, hi, b);
    MergeLive(t, lo, hi, b);
  }

  lemma MergeKeepsOk(t: Tree, m: nat, lo: nat, hi: nat, b: Block)
    requires Ok(t, m, lo, hi) && b in t && t[b] == Used && b.k + 1 < m
    requires Buddy(b) in t && t[Buddy(b)] == Free && Parent(b) in t && t[Parent(b)] == Split
    requires !Reserved(lo, hi, b) && !Reserved(lo, hi, Buddy(b)) && !Reserved(lo, hi, Parent(b))
    ensures Ok(MergeUsed(t, Parent(b)), m, lo, hi)
  {
    var p := Parent(b);
    PairOf(b);
    var u := MergeUsed(t, p);
    forall c | c in u
      ensures Local(u, m, c)
    {
      MergeLocal(t, m, lo, hi, p, c);
    }
    OutsideReserved(t, u, m, lo, hi, {p, b, Buddy(b)});
  }

  /** The root holds reserved leaves, so no merge ever reaches it. */
  lemma MergeIsBelowRoot(t: Tree, m: nat, lo: nat, hi: nat, b: Block)
    requires Ok(t, m, lo, hi) && b in Live(t, lo, hi) && b.k < m
    requires Buddy(b) in t && t[Buddy(b)] == Free
    ensures Parent(b) in t && t[Parent(b)] == Split && b.k + 1 < m
    ensures !Reserved(lo, hi, Parent(b)) && !Reserved(lo, hi, Buddy(b))
  {
    var p := Parent(b);
    PairOf(b);
    InTreeInHeap(t, m, lo, hi, Buddy(b));
    assert KeepsReserved(t, lo, hi, Buddy(b));
    HalvesReserved(lo, hi, p);
    assert Local(t, m, b);
    assert Local(t, m, p);
  }

  lemma MergeLive(t: Tree, lo: nat, hi: nat, b: Block)
    requires b in Live(t, lo, hi) && Buddy(b) in t && t[Buddy(b)] == Free && !Reserved(lo, hi, Parent(b))
    ensures Live(MergeUsed(t, Parent(b)), lo, hi) == Live(t, lo, hi) - {b} + {Parent(b)}
  {
    PairOf(b);
  }

  /** A change away from the reserved blocks leaves them as they were. */
  lemma OutsideReserved(t: Tree, u: Tree, m: nat, lo: nat, hi: nat, changed: set<Block>)
    requires Ok(t, m, lo, hi)
    requires forall c :: c in changed ==> !Reserved(lo, hi, c)
    requires forall c :: c !in changed && c in t ==> c in u && u[c] == t[c]
    ensures forall c {:trigger KeepsReserved(u, lo, hi, c)} :: InHeap(m, c) ==> KeepsReserved(u, lo, hi, c)
  {
    forall c | InHeap(m, c)
      ensures KeepsReserved(u, lo, hi, c)
    {
      assert KeepsReserved(t, lo, hi, c);
    }
  }

  lemma PairOf(b: Block)
    ensures || (Left(Parent(b)) == b && Right(Parent(b)) == Buddy(b))
            || (Left(Parent(b)) == Buddy(b) && Right(Parent(b)) == b)
    ensures Buddy(Buddy(b)) == b && Parent(Buddy(b)) == Parent(b)
  {
  }

  lemma MergeLocal(t: Tree, m: nat, lo: nat, hi: nat, p: Block, c: Block)
    requires Ok(t, m, lo, hi) && 0 < p.k < m && p in t && t[p] == Split
    requires Left(p) in t && t[Left(p)] != Split && Right(p) in t && t[Right(p)] != Split
    requires c in MergeUsed(t, p)
    ensures Local(MergeUsed(t, p), m, c)
  {
    hide KeepsReserved, Reserved, InHeap;
    assert Local(t, m, c);
    if c != p && t[c] == Split {
      assert Parent(Left(c)) == c && Parent(Right(c)) == c;
      assert Parent(Left(p)) == p && Parent(Right(p)) == p;
    }
  }

  /** Merging undoes splitting. */
  lemma MergeUndoesSplit(t: Tree, m: nat, lo: nat, hi: nat, b: Block)
    requires Ok(t, m, lo, hi) && b in t && t[b] == Used && b.k > 0
    ensures MergeUsed(SplitUsed(t, b), b) == t
  {
    HalvesAbsent(t, m, lo, hi, b);
  }
}
