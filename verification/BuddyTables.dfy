/** How the allocator's tables stand for a buddy tree: split bits, one xor bit per pair of buddies,
    and the free lists. The lemmas say what one bit change and one list change do to that reading. */
module BuddyTables {
  import opened Arith
  import opened BuddyTree
  import Lists

  type Rows = seq<seq<bool>>

  const LEAF_SIZE: nat := 16

  function BlkSize(k: nat): (r: nat)
    ensures r > 0
  {
    LEAF_SIZE * Pow2(k)
  }

  /** The address of block `b` in a heap that starts at `base`. */
  function Addr(base: nat, b: Block): (p: nat)
    ensures base <= p
  {
    base + b.i * BlkSize(b.k)
  }

  /** The index of the level-`k` block that holds address `p`. */
  function BlkIndex(base: nat, k: nat, p: nat): nat
    requires base <= p
  {
    Div(p - base, BlkSize(k))
  }

  /** The first level-`k` block that starts at or after address `p`. */
  function BlkIndexNext(base: nat, k: nat, p: nat): nat
    requires base <= p
  {
    Div(p - base, BlkSize(k)) + if Mod(p - base, BlkSize(k)) != 0 then 1 else 0
  }

  /** Block `b` counts as taken: handed out, or split. */
  predicate InUse(t: Tree, b: Block) {
    b in t && t[b] != Free
  }

  predicate SplitTied(split: Rows, t: Tree, b: Block) {
    && b.k < |split| && b.i < |split[b.k]|
    && (split[b.k][b.i] <==> b in t && t[b] == Split)
  }

  /** The one bit kept for the two halves of `p`: exactly one of them is in use. */
  predicate PairTied(alloc: Rows, t: Tree, p: Block)
    requires p.k > 0
  {
    && p.k <= |alloc| && p.i < |alloc[p.k - 1]|
    && (alloc[p.k - 1][p.i] <==> InUse(t, Left(p)) != InUse(t, Right(p)))
  }

  predicate ListTied(lists: seq<seq<nat>>, base: nat, t: Tree, b: Block) {
    && b.k < |lists|
    && (Addr(base, b) in lists[b.k] <==> b in t && t[b] == Free)
  }

  ghost predicate BitsTied(alloc: Rows, split: Rows, t: Tree, m: nat) {
    && (forall b {:trigger SplitTied(split, t, b)} :: InHeap(m, b) && b.k > 0 ==> SplitTied(split, t, b))
    && (forall p {:trigger PairTied(alloc, t, p)} :: InHeap(m, p) && p.k > 0 ==> PairTied(alloc, t, p))
  }

  ghost predicate ListsTied(lists: seq<seq<nat>>, base: nat, t: Tree, m: nat) {
    && |lists| == m + 1
    && (forall b {:trigger ListTied(lists, base, t, b)} :: InHeap(m, b) ==> ListTied(lists, base, t, b))
    && (forall k, x {:trigger lists[k][x]} :: 0 <= k <= m && 0 <= x < |lists[k]| ==> IsBlockOf(base, m, k, lists[k][x]))
  }

  /** `p` is the address of some level-`k` block of the heap. */
  predicate IsBlockOf(base: nat, m: nat, k: nat, p: nat) {
    && base <= p
    && InHeap(m, Block(k, BlkIndex(base, k, p)))
    && p == Addr(base, Block(k, BlkIndex(base, k, p)))
  }

  // ----- Addresses -----

  /** A block's address is 16 bytes for each leaf before it. */
  lemma AddrOfLeaf(base: nat, b: Block)
    ensures Addr(base, b) == base + LEAF_SIZE * Shl(b.i, b.k)
  {
    ShlPow2(b.i, b.k);
    assert b.i * (LEAF_SIZE * Pow2(b.k)) == LEAF_SIZE * (b.i * Pow2(b.k));
  }

  /** Division of a leaf-aligned offset by a block size. */
  lemma BlkIndexOfLeaf(base: nat, k: nat, x: nat)
    ensures BlkIndex(base, k, base + LEAF_SIZE * x) == Shr(x, k)
    ensures BlkIndexNext(base, k, base + LEAF_SIZE * x) == CeilShr(x, k)
  {
    ShrIsDiv(x, k);
    CeilShrIsDiv(x, k);
    ScaleDiv(LEAF_SIZE, x, Pow2(k));
  }

  /** The level-`k` block that holds the start of `b`, below, at or above b's own level. */
  lemma BlkIndexOfBlock(base: nat, k: nat, b: Block)
    ensures Addr(base, b) >= base
    ensures BlkIndex(base, k, Addr(base, b)) == Shr(Shl(b.i, b.k), k)
  {
    AddrOfLeaf(base, b);
    BlkIndexOfLeaf(base, k, Shl(b.i, b.k));
  }

  lemma BlkIndexHere(base: nat, b: Block)
    ensures BlkIndex(base, b.k, Addr(base, b)) == b.i
    ensures BlkIndex(base, b.k + 1, Addr(base, b)) == b.i / 2
    ensures b.k > 0 ==> BlkIndex(base, b.k - 1, Addr(base, b)) == 2 * b.i
  {
    ShrShl(b.i, b.k);
    BlkIndexOfBlock(base, b.k, b);
    BlkIndexOfBlock(base, b.k + 1, b);
    if b.k > 0 {
      BlkIndexOfBlock(base, b.k - 1, b);
      ShlDouble(b.i, b.k - 1);
      ShrShl(2 * b.i, b.k - 1);
    }
  }

  lemma AddrHalves(base: nat, b: Block)
    requires b.k > 0
    ensures Addr(base, Left(b)) == Addr(base, b)
    ensures Addr(base, Right(b)) == Addr(base, b) + BlkSize(b.k - 1)
  {
    var s := BlkSize(b.k - 1);
    assert BlkSize(b.k) == 2 * s;
    assert b.i * (2 * s) == 2 * b.i * s;
    assert (2 * b.i + 1) * s == 2 * b.i * s + s;
  }

  lemma IndexBound(m: nat, b: Block)
    requires b.k <= m
    ensures InHeap(m, b) <==> b.i < Pow2(m - b.k)
  {
    ShrIsDiv(b.i, m - b.k);
    DivZero(b.i, Pow2(m - b.k));
  }

  /** In bytes: leaf `x` is one of block b's leaves exactly when its address lies in b's range. */
  lemma LeafBytes(base: nat, b: Block, x: nat)
    ensures Over(x, b.k) == b <==> Addr(base, b) <= base + LEAF_SIZE * x < Addr(base, b) + BlkSize(b.k)
  {
    var p, q, r := Pow2(b.k), x / Pow2(b.k), x % Pow2(b.k);
    ShrIsDiv(x, b.k);
    assert x == q * p + r;
    assert b.i * BlkSize(b.k) == LEAF_SIZE * (b.i * p);
    if q < b.i {
      MulGap(b.i, q, p);
    } else if q > b.i {
      MulGap(q, b.i, p);
    }
  }

  /** Lists that stand for the same tree hold the same blocks. */
  lemma SameBlocksOnLists(lists: seq<seq<nat>>, lists': seq<seq<nat>>, base: nat, t: Tree, m: nat, k: nat, p: nat)
    requires ListsTied(lists, base, t, m) && ListsTied(lists', base, t, m) && k <= m
    ensures p in lists[k] ==> p in lists'[k]
  {
    if p in lists[k] {
      var x :| 0 <= x < |lists[k]| && lists[k][x] == p;
      assert IsBlockOf(base, m, k, lists[k][x]);
      var b := Block(k, BlkIndex(base, k, p));
      assert ListTied(lists, base, t, b) && ListTied(lists', base, t, b);
    }
  }

  lemma HalvesInHeap(m: nat, b: Block)
    requires InHeap(m, b) && b.k > 0
    ensures InHeap(m, Left(b)) && InHeap(m, Right(b))
  {
    ShrHalf(2 * b.i, m - b.k);
    ShrHalf(2 * b.i + 1, m - b.k);
  }

  lemma ParentInHeap(m: nat, b: Block)
    requires InHeap(m, b) && b.k < m
    ensures InHeap(m, Parent(b)) && InHeap(m, Buddy(b))
  {
    ShrHalf(b.i, m - b.k - 1);
    ShrHalf(Buddy(b).i, m - b.k - 1);
  }

  // ----- What each step of bd_malloc and bd_free does to the reading -----

  function Flip(rows: Rows, k: nat, i: nat): Rows
    requires k < |rows| && i < |rows[k]|
  {
    rows[k := rows[k][i := !rows[k][i]]]
  }

  function Put(rows: Rows, k: nat, i: nat, v: bool): Rows
    requires k < |rows| && i < |rows[k]|
  {
    rows[k := rows[k][i := v]]
  }

  /** Popping a free block, or pushing a used one: the pair's bit flips and nothing else. */
  lemma RestatusBits(alloc: Rows, split: Rows, t: Tree, m: nat, b: Block, s: Status)
    requires BitsTied(alloc, split, t, m) && InHeap(m, b) && b.k < m
    requires b in t && t[b] != Split && s != Split && s != t[b]
    ensures PairTied(alloc, t, Parent(b)) && BitsTied(Flip(alloc, b.k, b.i / 2), split, t[b := s], m)
  {
    var u := t[b := s];
    ParentInHeap(m, b);
    PairOf(b);
    assert PairTied(alloc, t, Parent(b));
    var a := Flip(alloc, b.k, b.i / 2);
    forall c | InHeap(m, c) && c.k > 0
      ensures SplitTied(split, u, c) && PairTied(a, u, c)
    {
      assert SplitTied(split, t, c) && PairTied(alloc, t, c);
      assert Parent(Left(c)) == c && Parent(Right(c)) == c;
    }
  }

  lemma SplitBits(alloc: Rows, split: Rows, t: Tree, m: nat, b: Block)
    requires BitsTied(alloc, split, t, m) && InHeap(m, b) && b.k > 0
    requires b in t && t[b] == Used && Left(b) !in t && Right(b) !in t
    ensures SplitTied(split, t, b) && PairTied(alloc, t, b)
    ensures BitsTied(Flip(alloc, b.k - 1, b.i), Put(split, b.k, b.i, true), SplitUsed(t, b), m)
  {
    var u := SplitUsed(t, b);
    assert SplitTied(split, t, b) && PairTied(alloc, t, b);
    var a, s := Flip(alloc, b.k - 1, b.i), Put(split, b.k, b.i, true);
    forall c | InHeap(m, c) && c.k > 0
      ensures SplitTied(s, u, c) && PairTied(a, u, c)
    {
      assert SplitTied(split, t, c) && PairTied(alloc, t, c);
      assert Parent(Left(c)) == c && Parent(Right(c)) == c;
      assert Parent(Left(b)) == b && Parent(Right(b)) == b;
    }
  }

  lemma MergeBits(alloc: Rows, split: Rows, t: Tree, m: nat, p: Block)
    requires BitsTied(alloc, split, t, m) && InHeap(m, p) && p.k > 0
    requires p in t && t[p] == Split && Left(p) in t && Right(p) in t
    requires {t[Left(p)], t[Right(p)]} == {Used, Free}
    ensures SplitTied(split, t, p) && PairTied(alloc, t, p)
    ensures BitsTied(Flip(alloc, p.k - 1, p.i), Put(split, p.k, p.i, false), MergeUsed(t, p), m)
  {
    var u := MergeUsed(t, p);
    assert SplitTied(split, t, p) && PairTied(alloc, t, p);
    assert t[Left(p)] != Split && t[Right(p)] != Split by {
      assert Split !in {Used, Free};
      assert t[Left(p)] in {Used, Free} && t[Right(p)] in {Used, Free};
    }
    var a, s := Flip(alloc, p.k - 1, p.i), Put(split, p.k, p.i, false);
    forall c | InHeap(m, c) && c.k > 0
      ensures SplitTied(s, u, c) && PairTied(a, u, c)
    {
      assert SplitTied(split, t, c) && PairTied(alloc, t, c);
      assert Parent(Left(c)) == c && Parent(Right(c)) == c;
      assert Parent(Left(p)) == p && Parent(Right(p)) == p;
    }
  }

  /** The free list of level b.k loses block `b` while the tree stops calling it free, or gains it. */
  lemma ListChange(lists: seq<seq<nat>>, lists': seq<seq<nat>>, base: nat, t: Tree, u: Tree, m: nat, b: Block)
    requires ListsTied(lists, base, t, m) && InHeap(m, b) && |lists'| == m + 1
    requires forall k :: 0 <= k <= m && k != b.k ==> lists'[k] == lists[k]
    requires forall p :: p != Addr(base, b) ==> (p in lists'[b.k] <==> p in lists[b.k])
    requires Addr(base, b) in lists'[b.k] <==> b in u && u[b] == Free
    requires forall c :: c != b ==> ((c in u && u[c] == Free) <==> (c in t && t[c] == Free))
    ensures ListsTied(lists', base, u, m)
  {
    forall c | InHeap(m, c)
      ensures ListTied(lists', base, u, c)
    {
      assert ListTied(lists, base, t, c);
      if c.k == b.k && c != b {
        BlkIndexHere(base, b);
        BlkIndexHere(base, c);
      }
    }
    forall k, x | 0 <= k <= m && 0 <= x < |lists'[k]|
      ensures IsBlockOf(base, m, k, lists'[k][x])
    {
      var p := lists'[k][x];
      assert p in lists'[k];
      if k == b.k && p == Addr(base, b) {
        BlkIndexHere(base, b);
      } else {
        assert p in lists[k];
        var y :| 0 <= y < |lists[k]| && lists[k][y] == p;
        assert IsBlockOf(base, m, k, lists[k][y]);
      }
    }
  }

  // ----- The steps as a whole -----

  /** The tables, read together, stand for the tree `t`. */
  ghost predicate Stands(alloc: Rows, split: Rows, lists: seq<seq<nat>>, base: nat, t: Tree, m: nat, lo: nat, hi: nat) {
    Ok(t, m, lo, hi) && BitsTied(alloc, split, t, m) && ListsTied(lists, base, t, m)
  }

  /** The block at the head of a list is free and lies below the root. */
  lemma HeadIsFree(lists: seq<seq<nat>>, base: nat, t: Tree, m: nat, lo: nat, hi: nat, k: nat) returns (b: Block)
    requires Ok(t, m, lo, hi) && ListsTied(lists, base, t, m) && k <= m && lists[k] != []
    ensures b.k == k < m && InHeap(m, b) && b in t && t[b] == Free && lists[k][0] == Addr(base, b)
  {
    var p := lists[k][0];
    assert IsBlockOf(base, m, k, p);
    b := Block(k, BlkIndex(base, k, p));
    assert ListTied(lists, base, t, b);
    assert KeepsReserved(t, lo, hi, Block(m, 0));
    assert Local(t, m, b);
  }

  lemma PopStep(alloc: Rows, split: Rows, lists: seq<seq<nat>>, base: nat, t: Tree, m: nat, lo: nat, hi: nat, b: Block)
    requires Stands(alloc, split, lists, base, t, m, lo, hi) && Lists.Distinct(lists)
    requires b.k < m && InHeap(m, b) && b in t && t[b] == Free && lists[b.k] != [] && lists[b.k][0] == Addr(base, b)
    ensures b.k < |alloc| && b.i / 2 < |alloc[b.k]|
    ensures Stands(Flip(alloc, b.k, b.i / 2), split, lists[b.k := Lists.Without(lists[b.k], 0)], base,
                   t[b := Used], m, lo, hi)
    ensures Live(t[b := Used], lo, hi) == Live(t, lo, hi) + {b} && b !in Live(t, lo, hi)
  {
    TakeOk(t, m, lo, hi, b);
    RestatusBits(alloc, split, t, m, b, Used);
    WithoutMembers(lists, b.k, 0);
    ListChange(lists, lists[b.k := Lists.Without(lists[b.k], 0)], base, t, t[b := Used], m, b);
  }

  lemma WithoutMembers(lists: seq<seq<nat>>, k: nat, x: nat)
    requires Lists.Distinct(lists) && k < |lists| && x < |lists[k]|
    ensures forall p :: p in Lists.Without(lists[k], x) <==> p in lists[k] && p != lists[k][x]
  {
    var s := lists[k];
    var r := Lists.Without(s, x);
    forall p | p in s && p != s[x]
      ensures p in r
    {
      var y :| 0 <= y < |s| && s[y] == p;
      assert r[if y < x then y else y - 1] == p;
    }
    forall p | p in r
      ensures p in s && p != s[x]
    {
      var y :| 0 <= y < |r| && r[y] == p;
      assert lists[k][if y < x then y else y + 1] == p;
    }
  }

  lemma SplitStep(alloc: Rows, split: Rows, lists: seq<seq<nat>>, base: nat, t: Tree, m: nat, lo: nat, hi: nat,
                  b: Block)
    requires Stands(alloc, split, lists, base, t, m, lo, hi) && b in Live(t, lo, hi) && b.k > 0
    ensures b.k < |split| && b.i < |split[b.k]| && b.k <= |alloc| && b.i < |alloc[b.k - 1]|
    ensures forall k :: 0 <= k <= m ==> Addr(base, Right(b)) !in lists[k]
    ensures b.k <= m
    ensures Stands(Flip(alloc, b.k - 1, b.i), Put(split, b.k, b.i, true),
                   lists[b.k - 1 := [Addr(base, Right(b))] + lists[b.k - 1]], base, SplitUsed(t, b), m, lo, hi)
    ensures Live(SplitUsed(t, b), lo, hi) == Live(t, lo, hi) - {b} + {Left(b)}
    ensures Left(b) !in Live(t, lo, hi)
  {
    InTreeInHeap(t, m, lo, hi, b);
    SplitOk(t, m, lo, hi, b);
    SplitBits(alloc, split, t, m, b);
    var u, r := SplitUsed(t, b), Right(b);
    HalvesInHeap(m, b);
    FreshOnNoList(lists, base, t, u, m, lo, hi, r);
    var lists' := lists[b.k - 1 := [Addr(base, r)] + lists[b.k - 1]];
    assert forall c :: c != r ==> ((c in u && u[c] == Free) <==> (c in t && t[c] == Free));
    ListChange(lists, lists', base, t, u, m, r);
  }

  /** A block about to become free is on no list yet. */
  lemma FreshOnNoList(lists: seq<seq<nat>>, base: nat, t: Tree, u: Tree, m: nat, lo: nat, hi: nat, r: Block)
    requires Ok(u, m, lo, hi) && ListsTied(lists, base, t, m)
    requires r in u && u[r] == Free && !(r in t && t[r] == Free)
    requires forall c :: c in t && t[c] == Free ==> c in u && u[c] == Free
    ensures forall k :: 0 <= k <= m ==> Addr(base, r) !in lists[k]
  {
    forall k | 0 <= k <= m
      ensures Addr(base, r) !in lists[k]
    {
      var p := Addr(base, r);
      if p in lists[k] {
        var x :| 0 <= x < |lists[k]| && lists[k][x] == p;
        assert IsBlockOf(base, m, k, lists[k][x]);
        var c := Block(k, BlkIndex(base, k, p));
        assert ListTied(lists, base, t, c);
        AddrOfLeaf(base, r);
        AddrOfLeaf(base, c);
        TerminalsStartApart(u, m, lo, hi, r, c);
      }
    }
  }

  /** The test of bd_free: before the flip, the pair's bit is set exactly when the buddy of a live
      block is a whole free block, which then is on the free list of its level. */
  lemma PairBitMeansBuddyFree(alloc: Rows, split: Rows, lists: seq<seq<nat>>, base: nat, t: Tree, m: nat, lo: nat,
                              hi: nat, b: Block)
    requires Stands(alloc, split, lists, base, t, m, lo, hi) && b in Live(t, lo, hi)
    ensures b.k < m && InHeap(m, Buddy(b)) && Buddy(b) in t
    ensures b.k < |alloc| && b.i / 2 < |alloc[b.k]|
    ensures alloc[b.k][b.i / 2] <==> t[Buddy(b)] == Free
    ensures alloc[b.k][b.i / 2] <==> Addr(base, Buddy(b)) in lists[b.k]
  {
    InTreeInHeap(t, m, lo, hi, b);
    assert KeepsReserved(t, lo, hi, Block(m, 0));
    assert Local(t, m, b);
    ParentInHeap(m, b);
    PairOf(b);
    SplitParent(t, m, lo, hi, Buddy(b));
    assert PairTied(alloc, t, Parent(b));
    assert ListTied(lists, base, t, Buddy(b));
  }

  lemma GiveStep(alloc: Rows, split: Rows, lists: seq<seq<nat>>, base: nat, t: Tree, m: nat, lo: nat, hi: nat, b: Block)
    requires Stands(alloc, split, lists, base, t, m, lo, hi) && b in Live(t, lo, hi)
    requires b.k < |alloc| && b.i / 2 < |alloc[b.k]| && !alloc[b.k][b.i / 2]
    ensures b.k < m && forall k :: 0 <= k <= m ==> Addr(base, b) !in lists[k]
    ensures Stands(Flip(alloc, b.k, b.i / 2), split, lists[b.k := [Addr(base, b)] + lists[b.k]], base,
                   t[b := Free], m, lo, hi)
    ensures Live(t[b := Free], lo, hi) == Live(t, lo, hi) - {b}
  {
    PairBitMeansBuddyFree(alloc, split, lists, base, t, m, lo, hi, b);
    InTreeInHeap(t, m, lo, hi, b);
    GiveOk(t, m, lo, hi, b);
    RestatusBits(alloc, split, t, m, b, Free);
    FreshOnNoList(lists, base, t, t[b := Free], m, lo, hi, b);
    ListChange(lists, lists[b.k := [Addr(base, b)] + lists[b.k]], base, t, t[b := Free], m, b);
  }

  lemma MergeStep(alloc: Rows, split: Rows, lists: seq<seq<nat>>, base: nat, t: Tree, m: nat, lo: nat, hi: nat,
                  b: Block, x: nat)
    requires Stands(alloc, split, lists, base, t, m, lo, hi) && b in Live(t, lo, hi) && Lists.Distinct(lists)
    requires b.k < |alloc| && b.i / 2 < |alloc[b.k]| && alloc[b.k][b.i / 2]
    requires b.k < |lists| && x < |lists[b.k]| && lists[b.k][x] == Addr(base, Buddy(b))
    ensures b.k + 1 < m && b.k + 1 < |split| && b.i / 2 < |split[b.k + 1]|
    ensures Stands(Flip(alloc, b.k, b.i / 2), Put(split, b.k + 1, b.i / 2, false),
                   lists[b.k := Lists.Without(lists[b.k], x)], base, MergeUsed(t, Parent(b)), m, lo, hi)
    ensures Live(MergeUsed(t, Parent(b)), lo, hi) == Live(t, lo, hi) - {b} + {Parent(b)}
    ensures Parent(b) !in Live(t, lo, hi)
  {
    PairBitMeansBuddyFree(alloc, split, lists, base, t, m, lo, hi, b);
    InTreeInHeap(t, m, lo, hi, b);
    MergeIsBelowRoot(t, m, lo, hi, b);
    MergeOk(t, m, lo, hi, b);
    PairOf(b);
    ParentInHeap(m, b);
    MergeBits(alloc, split, t, m, Parent(b));
    WithoutMembers(lists, b.k, x);
    var u := MergeUsed(t, Parent(b));
    assert forall c :: c != Buddy(b) ==> ((c in u && u[c] == Free) <==> (c in t && t[c] == Free));
    ListChange(lists, lists[b.k := Lists.Without(lists[b.k], x)], base, t, u, m, Buddy(b));
  }

  /** When every list from level `k` up is empty, no block of level `k` is entirely free. */
  lemma EmptyListsMeanNoSpace(lists: seq<seq<nat>>, base: nat, t: Tree, m: nat, lo: nat, hi: nat, b: Block)
    requires Ok(t, m, lo, hi) && ListsTied(lists, base, t, m) && InHeap(m, b)
    requires forall j :: b.k <= j <= m ==> lists[j] == []
    ensures !BlockFree(Live(t, lo, hi), lo, hi, b)
  {
    forall c | c in t && c.k >= b.k
      ensures t[c] != Free
    {
      InTreeInHeap(t, m, lo, hi, c);
      assert ListTied(lists, base, t, c);
    }
    NoFreeNodeMeansBusy(t, m, lo, hi, b);
  }

  /** Inside a live block no smaller block is split, and the block itself is not: the first split
      block met on the way up is its parent. */
  lemma FirstSplitIsParent(split: Rows, t: Tree, m: nat, lo: nat, hi: nat, alloc: Rows, b: Block, base: nat, k: nat)
    requires Ok(t, m, lo, hi) && BitsTied(alloc, split, t, m) && b in Live(t, lo, hi) && k <= b.k
    ensures b.k < m
    ensures k + 1 < |split| && BlkIndex(base, k + 1, Addr(base, b)) < |split[k + 1]|
    ensures split[k + 1][BlkIndex(base, k + 1, Addr(base, b))] <==> k == b.k
  {
    var x := Shl(b.i, b.k);
    BlkIndexOfBlock(base, k + 1, b);
    var c := Over(x, k + 1);
    ShrShl(b.i, b.k);
    assert Over(x, b.k) == b;
    InTreeInHeap(t, m, lo, hi, b);
    assert KeepsReserved(t, lo, hi, Block(m, 0));
    assert Local(t, m, b);
    ShrAdd(x, b.k, m - b.k);
    ShrAdd(x, k + 1, m - (k + 1));
    assert InHeap(m, c);
    assert SplitTied(split, t, c);
    if k < b.k {
      if c in t { NothingBelow(t, m, lo, hi, x, k + 1, b.k); }
    }
  }
}
