/** The free list of user/umalloc.c as a sequence of blocks in address order, starting with the empty
    block `base`. Addresses and sizes are in units of one header. */
module UmallocModel {

  /** A block: `n` units from address `a` on. */
  datatype Blk = Blk(a: nat, n: nat)

  datatype Header = Header(ptr: nat, size: nat)

  type Mem = map<nat, Header>

  /** Address order, no block reaching into a later one. */
  ghost predicate Ordered(bs: seq<Blk>) {
    && (forall i {:trigger bs[i]} :: 0 < i < |bs| ==> bs[i].n > 0)
    && (forall i, j {:trigger bs[i], bs[j]} :: 0 <= i < j < |bs| ==> bs[i].a + bs[i].n <= bs[j].a && bs[i].a < bs[j].a)
  }

  ghost predicate GapAt(bs: seq<Blk>, i: nat) {
    i + 1 < |bs| ==> bs[i].a + bs[i].n < bs[i + 1].a
  }

  /** Fully coalesced: no block ends where the next begins. */
  ghost predicate Coalesced(bs: seq<Blk>) {
    forall i: nat {:trigger GapAt(bs, i)} :: GapAt(bs, i)
  }

  /** Between any two blocks of a coalesced list there is a unit in neither. */
  lemma GapBetween(bs: seq<Blk>, i: nat, j: nat)
    requires Ordered(bs) && Coalesced(bs) && i < j < |bs|
    ensures bs[i].a + bs[i].n < bs[j].a && !Within(bs[i], bs[j].a - 1) && !Within(bs[j], bs[j].a - 1)
  {
    assert GapAt(bs, j - 1);
  }

  predicate Within(b: Blk, x: nat) {
    b.a <= x < b.a + b.n
  }

  /** Unit `x` belongs to one of the blocks. */
  ghost predicate Covers(bs: seq<Blk>, x: nat) {
    exists i :: 0 <= i < |bs| && Within(bs[i], x)
  }

  // ----- Joining neighbours -----

  /** Blocks k and k+1 made one if they touch. */
  function JoinAt(bs: seq<Blk>, k: nat): (r: seq<Blk>) {
    if k + 1 < |bs| && bs[k].a + bs[k].n == bs[k + 1].a then
      bs[..k] + [Blk(bs[k].a, bs[k].n + bs[k + 1].n)] + bs[k + 2..]
    else bs
  }

  lemma JoinShape(bs: seq<Blk>, k: nat)
    requires k + 1 < |bs| && bs[k].a + bs[k].n == bs[k + 1].a
    ensures |JoinAt(bs, k)| == |bs| - 1
    ensures forall i {:trigger JoinAt(bs, k)[i]} :: 0 <= i < |bs| - 1 ==>
              JoinAt(bs, k)[i] == if i < k then bs[i] else if i == k then Blk(bs[k].a, bs[k].n + bs[k + 1].n)
                  else bs[i + 1]
  {
  }

  lemma JoinOrdered(bs: seq<Blk>, k: nat)
    requires Ordered(bs)
    ensures Ordered(JoinAt(bs, k))
  {
    if k + 1 < |bs| && bs[k].a + bs[k].n == bs[k + 1].a {
      JoinShape(bs, k);
      hide JoinAt;
    }
  }

  /** Joining neither adds nor loses a unit. */
  lemma JoinCovers(bs: seq<Blk>, k: nat, x: nat)
    ensures Covers(JoinAt(bs, k), x) <==> Covers(bs, x)
  {
    if k + 1 < |bs| && bs[k].a + bs[k].n == bs[k + 1].a {
      var r := JoinAt(bs, k);
      JoinShape(bs, k);
      hide JoinAt;
      if i :| 0 <= i < |bs| && Within(bs[i], x) {
        assert Within(r[if i <= k then i else i - 1], x);
      }
      if i :| 0 <= i < |r| && Within(r[i], x) {
        assert Within(bs[if i < k then i else i + 1], x) || Within(bs[k], x);
      }
    }
  }

  // ----- free -----

  /** The number of blocks below address `b`. */
  function CountBelow(bs: seq<Blk>, b: nat): (k: nat)
    ensures k <= |bs|
  {
    if bs == [] then 0 else if bs[|bs| - 1].a < b then |bs| else CountBelow(bs[..|bs| - 1], b)
  }

  lemma {:induction false} CountBelowIs(bs: seq<Blk>, b: nat)
    requires Ordered(bs)
    ensures forall i {:trigger bs[i]} :: 0 <= i < |bs| ==> (bs[i].a < b <==> i < CountBelow(bs, b))
  {
    if bs != [] && bs[|bs| - 1].a >= b {
      CountBelowIs(bs[..|bs| - 1], b);
    }
  }

  function InsertAt(bs: seq<Blk>, k: nat, b: Blk): (r: seq<Blk>)
    requires k <= |bs|
    ensures |r| == |bs| + 1
    ensures forall i {:trigger r[i]} :: 0 <= i < |r| ==>
              r[i] == if i < k then bs[i] else if i == k then b else bs[i - 1]
  {
    bs[..k] + [b] + bs[k..]
  }

  /** What free makes of the list: the block goes in by address and is joined with both neighbours. */
  function Freed(bs: seq<Blk>, b: Blk): seq<Blk>
    requires CountBelow(bs, b.a) > 0
  {
    var k := CountBelow(bs, b.a);
    JoinAt(JoinAt(InsertAt(bs, k, b), k), k - 1)
  }

  /** No unit of `b` is in any block. */
  ghost predicate ApartFrom(bs: seq<Blk>, b: Blk) {
    forall i {:trigger bs[i]} :: 0 <= i < |bs| ==> bs[i].a + bs[i].n <= b.a || b.a + b.n <= bs[i].a
  }

  lemma InsertOrdered(bs: seq<Blk>, b: Blk)
    requires Ordered(bs) && bs != [] && bs[0].a < b.a && b.n > 0 && ApartFrom(bs, b)
    ensures CountBelow(bs, b.a) > 0 && Ordered(InsertAt(bs, CountBelow(bs, b.a), b))
  {
    CountBelowIs(bs, b.a);
    hide InsertAt, CountBelow;
    var k := CountBelow(bs, b.a);
    var r := InsertAt(bs, k, b);
    forall i, j | 0 <= i < j < |r|
      ensures r[i].a + r[i].n <= r[j].a && r[i].a < r[j].a
    {
      if i < k { assert r[i] == bs[i]; }
      if j > k { assert r[j] == bs[j - 1]; }
      if i > k { assert r[i] == bs[i - 1]; }
      if j < k { assert r[j] == bs[j]; }
    }
  }

  lemma FreedOrdered(bs: seq<Blk>, b: Blk)
    requires Ordered(bs) && bs != [] && bs[0].a < b.a && b.n > 0 && ApartFrom(bs, b)
    ensures CountBelow(bs, b.a) > 0 && Ordered(Freed(bs, b))
  {
    var k := CountBelow(bs, b.a);
    InsertOrdered(bs, b);
    JoinOrdered(InsertAt(bs, k, b), k);
    JoinOrdered(JoinAt(InsertAt(bs, k, b), k), k - 1);
  }

  lemma {:induction false} FreedCovers(bs: seq<Blk>, b: Blk, x: nat)
    requires CountBelow(bs, b.a) > 0
    ensures Covers(Freed(bs, b), x) <==> Covers(bs, x) || Within(b, x)
  {
    var k := CountBelow(bs, b.a);
    var r := InsertAt(bs, k, b);
    JoinCovers(JoinAt(r, k), k - 1, x);
    JoinCovers(r, k, x);
    hide JoinAt, InsertAt, CountBelow;
    if i :| 0 <= i < |bs| && Within(bs[i], x) {
      assert Within(r[if i < k then i else i + 1], x);
    }
    if Within(b, x) { assert Within(r[k], x); }
    if i :| 0 <= i < |r| && Within(r[i], x) && i != k {
      assert Within(bs[if i < k then i else i - 1], x);
    }
  }

  /** Joining at k closes the gap there and opens none; `e` is a place before k that stays in doubt. */
  lemma JoinGaps(bs: seq<Blk>, k: nat, e: int)
    requires Ordered(bs) && e < k
    requires forall i: nat {:trigger GapAt(bs, i)} :: i != k && i != e ==> GapAt(bs, i)
    ensures forall i: nat {:trigger GapAt(JoinAt(bs, k), i)} :: i != e ==> GapAt(JoinAt(bs, k), i)
  {
    var r := JoinAt(bs, k);
    if k + 1 < |bs| && bs[k].a + bs[k].n == bs[k + 1].a {
      JoinShape(bs, k);
      hide JoinAt;
      forall i: nat | i != e
        ensures GapAt(r, i)
      {
        assert GapAt(bs, if i < k then i else i + 1);
      }
    } else {
      forall i: nat | i != e ensures GapAt(r, i) { if i != k { assert GapAt(bs, i); } }
    }
  }

  lemma InsertGaps(bs: seq<Blk>, k: nat, b: Blk)
    requires Coalesced(bs) && 0 < k <= |bs|
    ensures forall i: nat {:trigger GapAt(InsertAt(bs, k, b), i)} :: i != k && i != k - 1 ==>
              GapAt(InsertAt(bs, k, b), i)
  {
    hide InsertAt;
    forall i: nat | i != k && i != k - 1
      ensures GapAt(InsertAt(bs, k, b), i)
    {
      assert GapAt(bs, if i < k then i else i - 1);
    }
  }

  lemma FreedCoalesced(bs: seq<Blk>, b: Blk)
    requires Ordered(bs) && Coalesced(bs) && bs != [] && bs[0].a < b.a && b.n > 0 && ApartFrom(bs, b)
    ensures CountBelow(bs, b.a) > 0 && Coalesced(Freed(bs, b))
  {
    hide CountBelow, InsertAt, JoinAt, Ordered, GapAt;
    InsertOrdered(bs, b);
    var k := CountBelow(bs, b.a);
    InsertGaps(bs, k, b);
    JoinGaps(InsertAt(bs, k, b), k, k - 1);
    JoinOrdered(InsertAt(bs, k, b), k);
    JoinGaps(JoinAt(InsertAt(bs, k, b), k), k - 1, -1);
  }

  // ----- The list in memory -----

  /** Address of the block after block `i`, in a circle. */
  function NextA(bs: seq<Blk>, i: nat): nat
    requires i < |bs|
  {
    if i + 1 < |bs| then bs[i + 1].a else bs[0].a
  }

  predicate LinkOk(mem: Mem, bs: seq<Blk>, i: nat) {
    i < |bs| ==> bs[i].a in mem && mem[bs[i].a] == Header(NextA(bs, i), bs[i].n)
  }

  /** The headers in memory are those of the blocks, linked in a circle. */
  ghost predicate Links(mem: Mem, bs: seq<Blk>) {
    forall i: nat {:trigger LinkOk(mem, bs, i)} :: LinkOk(mem, bs, i)
  }

  /** free's second statement: the header of the freed block, joined with the block at `q` if they touch. */
  function HeaderFor(mem: Mem, b: Blk, q: nat): Header {
    if b.a + b.n == q && q in mem then Header(mem[q].ptr, b.n + mem[q].size) else Header(q, b.n)
  }

  lemma FreeRight(mem: Mem, bs: seq<Blk>, b: Blk)
    requires Ordered(bs) && Links(mem, bs) && bs != [] && bs[0].a < b.a && b.n > 0 && ApartFrom(bs, b)
    requires CountBelow(bs, b.a) > 0
    ensures var k := CountBelow(bs, b.a);
      var mem', r := mem[b.a := HeaderFor(mem, b, NextA(bs, k - 1))], JoinAt(InsertAt(bs, k, b), k);
      && k < |r| && r[k].a == b.a && r[k - 1] == bs[k - 1]
      && forall i: nat {:trigger LinkOk(mem', r, i)} :: i != k - 1 ==> LinkOk(mem', r, i)
  {
    CountBelowIs(bs, b.a);
    hide CountBelow, InsertAt;
    var k := CountBelow(bs, b.a);
    var r0 := InsertAt(bs, k, b);
    var r := JoinAt(r0, k);
    var q := NextA(bs, k - 1);
    var mem' := mem[b.a := HeaderFor(mem, b, q)];
    if k < |bs| { assert LinkOk(mem, bs, k) && r0[k + 1] == bs[k]; } else { assert q == bs[0].a; }
    if k < |bs| && b.a + b.n == q { JoinShape(r0, k); }
    assert r0[k] == b && r0[k - 1] == bs[k - 1] && r0[0] == bs[0];
    hide JoinAt;
    forall i: nat | i != k - 1
      ensures LinkOk(mem', r, i)
    {
      FreeRightLink(mem, bs, b, k, i);
    }
  }

  lemma FreeRightLink(mem: Mem, bs: seq<Blk>, b: Blk, k: nat, i: nat)
    requires Ordered(bs) && Links(mem, bs) && 0 < k <= |bs| && bs[0].a < b.a && b.n > 0 && ApartFrom(bs, b)
    requires i != k - 1
    requires forall j {:trigger bs[j]} :: 0 <= j < |bs| ==> (bs[j].a < b.a <==> j < k)
    ensures LinkOk(mem[b.a := HeaderFor(mem, b, NextA(bs, k - 1))], JoinAt(InsertAt(bs, k, b), k), i)
  {
    hide InsertAt;
    var r0 := InsertAt(bs, k, b);
    var q := NextA(bs, k - 1);
    assert r0[k] == b && r0[0] == bs[0];
    assert k < |bs| ==> r0[k + 1] == bs[k] && q == bs[k].a;
    if k < |bs| && b.a + b.n == q {
      JoinShape(r0, k);
      hide JoinAt;
      assert LinkOk(mem, bs, i);
      assert LinkOk(mem, bs, k);
    } else {
      assert LinkOk(mem, bs, if i < k then i else if i == k then 0 else i - 1);
      assert i < |r0| ==> b.a != r0[i].a || i == k;
    }
  }

  /** free's third statement: the header of the block before, joined with the freed one if they touch. */
  function HeaderBefore(mem: Mem, p: nat, bp: nat): Header
    requires p in mem && bp in mem
  {
    if p + mem[p].size == bp then Header(mem[bp].ptr, mem[p].size + mem[bp].size) else Header(bp, mem[p].size)
  }

  lemma FreeLeft(mem: Mem, r: seq<Blk>, j: nat)
    requires Ordered(r) && j + 1 < |r| && r[j].a in mem && mem[r[j].a].size == r[j].n
    requires forall i: nat {:trigger LinkOk(mem, r, i)} :: i != j ==> LinkOk(mem, r, i)
    ensures r[j + 1].a in mem && Links(mem[r[j].a := HeaderBefore(mem, r[j].a, r[j + 1].a)], JoinAt(r, j))
  {
    hide JoinAt;
    assert LinkOk(mem, r, j + 1);
    var mem' := mem[r[j].a := HeaderBefore(mem, r[j].a, r[j + 1].a)];
    if r[j].a + r[j].n == r[j + 1].a {
      forall i: nat ensures LinkOk(mem', JoinAt(r, j), i) {
        if i < j { assert LinkOk(mem, r, i); }
        assert LinkOk(mem, r, j + 1);
        if i > j { assert LinkOk(mem, r, i + 1); }
        JoinedLink(mem, r, j, i);
      }
    } else {
      JoinNothing(r, j);
      forall i: nat ensures LinkOk(mem', r, i) {
        if i != j { assert LinkOk(mem, r, i); }
      }
    }
  }

  lemma JoinNothing(r: seq<Blk>, j: nat)
    requires j + 1 < |r| && r[j].a + r[j].n != r[j + 1].a
    ensures JoinAt(r, j) == r
  {
  }

  lemma JoinedLink(mem: Mem, r: seq<Blk>, j: nat, i: nat)
    requires Ordered(r) && j + 1 < |r| && r[j].a in mem && mem[r[j].a].size == r[j].n && r[j + 1].a in mem
    requires r[j].a + r[j].n == r[j + 1].a && LinkOk(mem, r, j + 1)
    requires i < j ==> LinkOk(mem, r, i)
    requires i > j ==> LinkOk(mem, r, i + 1)
    ensures LinkOk(mem[r[j].a := HeaderBefore(mem, r[j].a, r[j + 1].a)], JoinAt(r, j), i)
  {
    JoinShape(r, j);
    hide JoinAt;
  }

  // ----- malloc -----

  /** Block m of the list gives up its last `n` units. */
  function Carved(bs: seq<Blk>, m: nat, n: nat): (r: seq<Blk>)
    requires m < |bs| && bs[m].n >= n
  {
    if bs[m].n == n then bs[..m] + bs[m + 1..] else bs[m := Blk(bs[m].a, bs[m].n - n)]
  }

  /** The units given up. */
  function Carving(bs: seq<Blk>, m: nat, n: nat): Blk
    requires m < |bs| && bs[m].n >= n
  {
    Blk(bs[m].a + (bs[m].n - n), n)
  }

  lemma CarvedShape(bs: seq<Blk>, m: nat, n: nat)
    requires m < |bs| && bs[m].n >= n
    ensures bs[m].n == n ==> |Carved(bs, m, n)| == |bs| - 1
    ensures bs[m].n == n ==> forall i {:trigger Carved(bs, m, n)[i]} :: 0 <= i < |bs| - 1 ==>
              Carved(bs, m, n)[i] == bs[if i < m then i else i + 1]
    ensures bs[m].n != n ==> |Carved(bs, m, n)| == |bs|
    ensures bs[m].n != n ==> forall i {:trigger Carved(bs, m, n)[i]} :: 0 <= i < |bs| ==>
              Carved(bs, m, n)[i] == if i == m then Blk(bs[m].a, bs[m].n - n) else bs[i]
  {
  }

  lemma CarvedOrdered(bs: seq<Blk>, m: nat, n: nat)
    requires Ordered(bs) && Coalesced(bs) && 0 < m < |bs| && bs[m].n >= n > 0
    ensures Ordered(Carved(bs, m, n)) && Coalesced(Carved(bs, m, n)) && Carved(bs, m, n)[0] == bs[0]
  {
    CarvedShape(bs, m, n);
    var r := Carved(bs, m, n);
    hide Carved;
    forall i: nat ensures GapAt(r, i) {
      assert GapAt(bs, i) && GapAt(bs, i + 1);
    }
  }

  /** Carving splits the units of the list in two. */
  lemma CarvedCovers(bs: seq<Blk>, m: nat, n: nat, x: nat)
    requires Ordered(bs) && 0 < m < |bs| && bs[m].n >= n > 0
    ensures Covers(bs, x) <==> Covers(Carved(bs, m, n), x) || Within(Carving(bs, m, n), x)
    ensures !(Covers(Carved(bs, m, n), x) && Within(Carving(bs, m, n), x))
  {
    CarvedShape(bs, m, n);
    var r := Carved(bs, m, n);
    hide Carved;
    if i :| 0 <= i < |bs| && Within(bs[i], x) {
      if i != m { assert Within(r[if i < m || bs[m].n != n then i else i - 1], x); }
      if i == m && bs[m].n != n { assert r[m].a <= x < r[m].a + r[m].n ==> Within(r[m], x); }
    }
    if i :| 0 <= i < |r| && Within(r[i], x) {
      assert Within(bs[if i < m || bs[m].n != n then i else i + 1], x);
    }
    assert Within(Carving(bs, m, n), x) ==> Within(bs[m], x);
  }

  lemma CarvedLinks(mem: Mem, bs: seq<Blk>, m: nat, n: nat, mem': Mem, g: nat)
    requires Ordered(bs) && Links(mem, bs) && 0 < m < |bs| && bs[m].n >= n > 0 && bs[m - 1].a in mem && bs[m].a in mem
    requires if bs[m].n == n then mem' == mem[bs[m - 1].a := Header(mem[bs[m].a].ptr, mem[bs[m - 1].a].size)]
             else mem' == mem[bs[m].a := Header(mem[bs[m].a].ptr, bs[m].n - n)][bs[m].a + (bs[m].n - n) := Header(g, n)]
    ensures Links(mem', Carved(bs, m, n))
  {
    CarvedShape(bs, m, n);
    var r := Carved(bs, m, n);
    hide Carved;
    assert LinkOk(mem, bs, m) && LinkOk(mem, bs, m - 1);
    forall i: nat ensures LinkOk(mem', r, i) {
      assert LinkOk(mem, bs, i) && LinkOk(mem, bs, i + 1);
    }
  }

  /** Some block has at least `n` units. */
  ghost predicate Fits(bs: seq<Blk>, n: nat) {
    exists i :: 0 <= i < |bs| && bs[i].n >= n
  }

  lemma FitsLess(bs: seq<Blk>, n: nat, m: nat)
    requires Fits(bs, n) && m <= n
    ensures Fits(bs, m)
  {
    var i :| 0 <= i < |bs| && bs[i].n >= n;
    assert bs[i].n >= m;
  }

  lemma JoinFits(bs: seq<Blk>, k: nat, n: nat)
    requires Fits(bs, n)
    ensures Fits(JoinAt(bs, k), n)
  {
    if k + 1 < |bs| && bs[k].a + bs[k].n == bs[k + 1].a {
      JoinShape(bs, k);
      hide JoinAt;
      var i :| 0 <= i < |bs| && bs[i].n >= n;
      assert JoinAt(bs, k)[if i <= k then i else i - 1].n >= n;
    }
  }

  lemma FreedFits(bs: seq<Blk>, b: Blk)
    requires CountBelow(bs, b.a) > 0
    ensures Fits(Freed(bs, b), b.n)
  {
    var k := CountBelow(bs, b.a);
    assert InsertAt(bs, k, b)[k].n >= b.n;
    JoinFits(InsertAt(bs, k, b), k, b.n);
    JoinFits(JoinAt(InsertAt(bs, k, b), k), k - 1, b.n);
  }

  /** The block before the freed one keeps its place and address; base stays as it is. */
  lemma FreedFirst(bs: seq<Blk>, b: Blk)
    requires Ordered(bs) && bs != [] && bs[0].n == 0 && bs[0].a < b.a && b.n > 0 && ApartFrom(bs, b)
    ensures CountBelow(bs, b.a) > 0 && |Freed(bs, b)| >= CountBelow(bs, b.a)
    ensures Freed(bs, b)[0] == bs[0] && Freed(bs, b)[CountBelow(bs, b.a) - 1].a == bs[CountBelow(bs, b.a) - 1].a
  {
    hide CountBelow, InsertAt, JoinAt;
    InsertOrdered(bs, b);
    var k := CountBelow(bs, b.a);
    var r0 := InsertAt(bs, k, b);
    assert r0[k - 1] == bs[k - 1] && r0[0] == bs[0];
    JoinKeeps(r0, k);
    JoinOrdered(r0, k);
    JoinKeeps(JoinAt(r0, k), k - 1);
    if k == 1 { JoinNothing(JoinAt(r0, k), 0); }
  }

  lemma JoinKeeps(bs: seq<Blk>, k: nat)
    requires k < |bs|
    ensures k < |JoinAt(bs, k)| && JoinAt(bs, k)[k].a == bs[k].a && forall i :: 0 <= i < k ==> JoinAt(bs, k)[i] == bs[i]
  {
  }

  lemma JoinApart(bs: seq<Blk>, k: nat, c: Blk)
    requires ApartFrom(bs, c) && c.n > 0
    ensures ApartFrom(JoinAt(bs, k), c)
  {
    if k + 1 < |bs| && bs[k].a + bs[k].n == bs[k + 1].a {
      JoinShape(bs, k);
      hide JoinAt;
    }
  }

  lemma FreedApart(bs: seq<Blk>, b: Blk, c: Blk)
    requires CountBelow(bs, b.a) > 0 && ApartFrom(bs, c) && c.n > 0 && (b.a + b.n <= c.a || c.a + c.n <= b.a)
    ensures ApartFrom(Freed(bs, b), c)
  {
    hide JoinAt, InsertAt, CountBelow;
    var k := CountBelow(bs, b.a);
    JoinApart(InsertAt(bs, k, b), k, c);
    JoinApart(JoinAt(InsertAt(bs, k, b), k), k - 1, c);
  }

  // ----- Going round the circle -----

  /** Steps from place k to place f in a circle of n. */
  function Dist(n: nat, k: nat, f: nat): nat
    requires k < n && f < n
  {
    if k <= f then f - k else f + n - k
  }

  function Succ(n: nat, k: nat): nat
    requires k < n
  {
    if k + 1 < n then k + 1 else 0
  }

  /** Going round from `start`, no block before block m has n units. */
  ghost predicate NoFitBefore(bs: seq<Blk>, start: nat, m: nat, n: nat)
    requires start < |bs| && m < |bs|
  {
    forall i {:trigger bs[i]} :: 0 <= i < |bs| && Dist(|bs|, start, i) < Dist(|bs|, start, m) ==> bs[i].n < n
  }

  lemma NoFitStart(bs: seq<Blk>, start: nat, n: nat)
    requires start < |bs|
    ensures NoFitBefore(bs, start, start, n)
  {
  }

  /** One block further, or all the way round. */
  lemma NoFitStep(bs: seq<Blk>, f: nat, m: nat, n: nat)
    requires f < |bs| && m < |bs| && NoFitBefore(bs, Succ(|bs|, f), m, n) && bs[m].n < n
    ensures if m == f then !Fits(bs, n)
            else NoFitBefore(bs, Succ(|bs|, f), Succ(|bs|, m), n) && Dist(|bs|, Succ(|bs|, m), f) < Dist(|bs|, m, f)
  {
  }

  lemma SamePlaces(bs: seq<Blk>, i: nat, j: nat)
    requires Ordered(bs) && i < |bs| && j < |bs|
    ensures bs[i].a == bs[j].a <==> i == j
  {
  }

  lemma LinkHere(mem: Mem, bs: seq<Blk>, i: nat)
    requires Links(mem, bs) && i < |bs|
    ensures bs[i].a in mem && mem[bs[i].a] == Header(bs[Succ(|bs|, i)].a, bs[i].n)
  {
    assert LinkOk(mem, bs, i);
  }
}
