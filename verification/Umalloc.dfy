/** malloc, free and morecore of user/umalloc.c. Addresses are in units of one header, 16 bytes, and a
    pointer handed out is one unit behind the header of its block. */
module Umalloc {
  import opened UmallocModel
  import opened Wrappers

  /** nunits for a request of `nbytes`: one for the header, and as few as hold the bytes. */
  function UnitsFor(nbytes: nat): (n: nat)
    ensures n > 0 && 16 * (n - 2) < nbytes <= 16 * (n - 1)
  {
    (nbytes + 15) / 16 + 1
  }

  /** What morecore asks of sbrk: the units wanted, but at least 4096. */
  function Chunk(n: nat): (c: nat)
    ensures c >= n && c >= 4096 && (c == n || c == 4096)
  {
    if n < 4096 then 4096 else n
  }

  /** A 64-bit value passed where an int is expected: the int that differs by a multiple of 2^32. */
  function ToInt(x: nat): (r: int)
    ensures -0x8000_0000 <= r < 0x8000_0000 && (x - r) % 0x1_0000_0000 == 0
  {
    var w := x % 0x1_0000_0000;
    if w < 0x8000_0000 then w else w - 0x1_0000_0000
  }

  /** The argument of sbrk, in bytes, when morecore wants `n` units. */
  function SbrkArg(n: nat): int {
    ToInt(16 * n)
  }

  /** sbrk is asked for the bytes that the header will claim exactly when they fit in an int. */
  lemma SbrkArgExactly(n: nat)
    ensures SbrkArg(n) == 16 * n <==> 16 * n < 0x8000_0000
    ensures SbrkArg(n) <= 16 * n && SbrkArg(n) % 16 == 0
  {
    var q := 16 * n / 0x1_0000_0000;
    assert 16 * n == q * 0x1_0000_0000 + 16 * n % 0x1_0000_0000;
    assert 16 * n % 0x1_0000_0000 == 16 * (n - q * 0x1000_0000);
  }

  /** The largest request: it claims 0x10000001 units, and sbrk is asked for one. */
  lemma LargestRequest()
    ensures UnitsFor(0xFFFF_FFFF) == 0x1000_0001 && SbrkArg(Chunk(UnitsFor(0xFFFF_FFFF))) == 16
  {
  }

  /** The units a process has after sbrk(bytes) with its memory ending at `brk`. */
  function Obtained(heap: set<nat>, brk: nat, bytes: int): set<nat> {
    if bytes > 0 then heap + Range(brk, bytes / 16)
    else if bytes < 0 && brk + bytes / 16 >= 0 then set x | x in heap && x < brk + bytes / 16
    else heap
  }

  /** The end of memory moves by `bytes` and nothing else changes; an end below address 0 leaves all as it
      was. */
  lemma ObtainedUpTo(heap: set<nat>, brk: nat, bytes: int, x: nat)
    requires bytes % 16 == 0 && forall y :: y in heap ==> y < brk
    ensures 16 * brk + bytes >= 0 ==>
              (x in Obtained(heap, brk, bytes) <==> (x in heap || brk <= x) && 16 * x < 16 * brk + bytes)
    ensures 16 * brk + bytes < 0 ==> Obtained(heap, brk, bytes) == heap
  {
    assert bytes == 16 * (bytes / 16);
  }

  predicate Apart(a: nat, n: nat, b: nat, m: nat) {
    a + n <= b || b + m <= a
  }

  ghost predicate UsedAt(live: map<nat, nat>, x: nat) {
    exists a :: a in live && a <= x < a + live[a]
  }

  predicate LiveAt(mem: Mem, base: nat, live: map<nat, nat>, a: nat)
    requires a in live
  {
    a in mem && mem[a].size == live[a] && live[a] > 0 && base < a
  }

  /** The blocks handed out: their headers are intact, and they share no unit with one another or with
      the free list. */
  ghost predicate LiveOk(mem: Mem, base: nat, bs: seq<Blk>, live: map<nat, nat>) {
    && (forall a {:trigger LiveAt(mem, base, live, a)} :: a in live ==> LiveAt(mem, base, live, a))
    && (forall a {:trigger ApartFrom(bs, Blk(a, live[a]))} :: a in live ==> ApartFrom(bs, Blk(a, live[a])))
    && (forall a, b {:trigger Apart(a, live[a], b, live[b])} :: a in live && b in live && a != b ==>
        Apart(a, live[a], b, live[b]))
  }

  /** The units of `claimed` are exactly those in the free list and in blocks handed out. */
  ghost predicate Tiles(bs: seq<Blk>, live: map<nat, nat>, claimed: set<nat>) {
    forall x: nat {:trigger Covers(bs, x)} :: x in claimed <==> Covers(bs, x) || UsedAt(live, x)
  }

  ghost predicate ListOk(mem: Mem, base: nat, bs: seq<Blk>) {
    bs != [] && bs[0] == Blk(base, 0) && Ordered(bs) && Coalesced(bs) && Links(mem, bs)
  }

  class Heap {
    const base: nat
    const limit: nat
    var mem: Mem
    var freep: nat
    var brk: nat
    ghost var bs: seq<Blk>
    ghost var fi: nat
    ghost var live: map<nat, nat>
    ghost var claimed: set<nat>   // the units that the headers account for
    ghost var heap: set<nat>      // the units obtained from sbrk

    /** The list and the blocks handed out are in order. */
    ghost predicate Listed()
      reads this
    {
      && 0 < base && LiveOk(mem, base, bs, live) && Tiles(bs, live, claimed)
      && if freep == 0 then bs == [] && live == map[] else ListOk(mem, base, bs) && fi < |bs| && bs[fi].a == freep
    }

    /** And what they account for is what has been obtained. */
    ghost predicate Valid()
      reads this
    {
      Listed() && base < brk && claimed == heap && forall x :: x in heap ==> x < brk
    }

    /** The static variables before the first call; the heap will be above `base`. */
    constructor (base: nat, brk: nat, limit: nat)
      requires 0 < base < brk
      ensures Valid() && live == map[] && heap == {} && freep == 0 && this.brk == brk && this.limit == limit
    {
      this.base, this.brk, this.limit := base, brk, limit;
      mem, freep, bs, fi, live, claimed, heap := map[], 0, [], 0, map[], {}, {};
      NothingTiles();
    }

    /** The first loop of free: ends at the block before `bp`, wherever it starts. */
    method FindPlace(bp: nat) returns (p: nat)
      requires ListOk(mem, base, bs) && fi < |bs| && bs[fi].a == freep && base < bp
      requires forall i {:trigger bs[i]} :: 0 <= i < |bs| ==> bs[i].a != bp
      ensures 0 < CountBelow(bs, bp) <= |bs| && p == bs[CountBelow(bs, bp) - 1].a
    {
      CountBelowIs(bs, bp);
      hide CountBelow, Coalesced;
      p := freep;
      ghost var k: nat, t: int := fi, CountBelow(bs, bp) - 1;
      assert LinkOk(mem, bs, k);
      while !(bp > p && bp < mem[p].ptr)
        invariant k < |bs| && bs[k].a == p && LinkOk(mem, bs, k)
        decreases Dist(|bs|, k, t)
      {
        if p >= mem[p].ptr && (bp > p || bp < mem[p].ptr) { break; }
        p := mem[p].ptr;
        k := Succ(|bs|, k);
        assert LinkOk(mem, bs, k);
      }
    }

    /** free, given the header of a block handed out. */
    method Free(bp: nat)
      requires Listed() && bp in live
      modifies this`mem, this`freep, this`bs, this`fi, this`live
      ensures Listed() && live == old(live) - {bp} && freep != 0
      ensures CountBelow(old(bs), bp) > 0 && bs == Freed(old(bs), Blk(bp, old(live)[bp]))
    {
      hide LiveOk, Ordered, Coalesced, Links, ApartFrom, CountBelow, Freed, Tiles;
      ghost var b := Blk(bp, live[bp]);
      LiveBlock(mem, base, bs, live, bp);
      FreedTiles(bs, live, claimed, bp);
      var p := FindPlace(bp);
      FreedList(mem, base, bs, b);
      FreedLive(mem, base, bs, live, bp, p);
      FreeHeaders(mem, bs, bp);
      ghost var mem0 := mem;
      var q := mem[p].ptr;
      if bp + mem[bp].size == q {
        mem := mem[bp := Header(mem[q].ptr, mem[bp].size + mem[q].size)];
      } else {
        mem := mem[bp := Header(q, mem[bp].size)];
      }
      if p + mem[p].size == bp {
        mem := mem[p := Header(mem[bp].ptr, mem[p].size + mem[bp].size)];
      } else {
        mem := mem[p := Header(bp, mem[p].size)];
      }
      assert mem == AfterFree(mem0, b, p, q);
      freep := p;
      fi := CountBelow(bs, bp) - 1;
      live := live - {bp};
      bs := Freed(bs, b);
    }

    /** sbrk; it returns the old end of memory. A negative argument takes memory away. */
    method Sbrk(bytes: int) returns (r: Option<nat>)
      requires bytes % 16 == 0
      modifies this`brk, this`heap
      ensures r.None? <==> bytes > 0 && old(brk) + bytes / 16 > limit
      ensures if r.Some? then r.value == old(brk) && heap == Obtained(old(heap), old(brk), bytes) else heap == old(heap)
      ensures brk == if r.Some? && old(brk) + bytes / 16 >= 0 then old(brk) + bytes / 16 else old(brk)
    {
      if bytes > 0 && brk + bytes / 16 > limit { return None; }
      r := Some(brk);
      heap := Obtained(heap, brk, bytes);
      if brk + bytes / 16 >= 0 { brk := brk + bytes / 16; }
    }

    /** morecore: the list gains at least `nu` units in one block, or sbrk has refused. Whether the units
        gained have been obtained depends on the conversion of sbrk's argument. */
    method Morecore(nu: nat) returns (ok: bool)
      requires Valid() && freep != 0
      modifies this`mem, this`freep, this`brk, this`bs, this`fi, this`live, this`claimed, this`heap
      ensures Listed() && freep != 0 && live == old(live)
      ensures !ok <==> SbrkArg(Chunk(nu)) > 0 && old(brk) + SbrkArg(Chunk(nu)) / 16 > limit
      ensures !ok ==> Valid() && bs == old(bs) && heap == old(heap) && brk == old(brk)
      ensures ok ==> Fits(bs, nu) && claimed == old(heap) + Range(old(brk), Chunk(nu))
      ensures ok ==> heap == Obtained(old(heap), old(brk), SbrkArg(Chunk(nu)))
      ensures ok && 16 * Chunk(nu) < 0x8000_0000 ==> Valid() && brk == old(brk) + Chunk(nu)
    {
      hide LiveOk, Tiles, ListOk, Freed, CountBelow, Fits, SbrkArg;
      var n := Chunk(nu);
      SbrkArgExactly(n);
      var hp := Sbrk(SbrkArg(n));
      if hp.None? { return false; }
      GrownOk(mem, base, bs, live, claimed, hp.value, Header(0, n));
      mem := mem[hp.value := Header(0, n)];
      ghost var bs0, live0 := bs, live;
      live := live[hp.value := n];
      claimed := claimed + Range(hp.value, n);
      Free(hp.value);
      assert live0[hp.value := n] - {hp.value} == live0;
      FreedFits(bs0, Blk(hp.value, n));
      FitsLess(bs, n, nu);
      ok := true;
    }

    /** One round of malloc's search: the first block after `freep` that fits, with the one before it. */
    method Search(n: nat) returns (r: Option<(nat, nat)>, ghost m: nat)
      requires ListOk(mem, base, bs) && fi < |bs| && bs[fi].a == freep && n > 0
      ensures r.None? <==> !Fits(bs, n)
      ensures r.Some? ==> 0 < m < |bs| && bs[m].n >= n && r.value == (bs[m - 1].a, bs[m].a)
      ensures r.Some? ==> NoFitBefore(bs, Succ(|bs|, fi), m, n)
    {
      hide Coalesced, Ordered, Links, NoFitBefore, Dist;
      var prevp := freep;
      LinkHere(mem, bs, fi);
      var p := mem[prevp].ptr;
      ghost var start := Succ(|bs|, fi);
      m := start;
      NoFitStart(bs, start, n);
      while true
        invariant m < |bs| && bs[m].a == p && (m > 0 ==> prevp == bs[m - 1].a) && NoFitBefore(bs, start, m, n)
        decreases Dist(|bs|, m, fi)
      {
        LinkHere(mem, bs, m);
        if mem[p].size >= n {
          assert bs[m].n >= n;
          return Some((prevp, p)), m;
        }
        NoFitStep(bs, fi, m, n);
        SamePlaces(bs, m, fi);
        if p == freep { return None, m; }
        prevp := p;
        p := mem[p].ptr;
        m := Succ(|bs|, m);
      }
    }

    /** malloc's last step: block m of the list, at p, goes or gives up its tail. */
    method Carve(prevp: nat, p: nat, n: nat, ghost m: nat) returns (h: nat)
      requires Listed() && freep != 0 && 0 < m < |bs| && bs[m].n >= n > 0 && prevp == bs[m - 1].a && p == bs[m].a
      modifies this`mem, this`freep, this`bs, this`fi, this`live
      ensures Listed() && freep != 0 && h !in old(live) && live == old(live)[h := n]
      ensures h == Carving(old(bs), m, n).a && bs == Carved(old(bs), m, n)
    {
      hide LiveOk, Ordered, Coalesced, Links, Tiles, Carved;
      LinkHere(mem, bs, m);
      LinkHere(mem, bs, m - 1);
      ghost var mem0, h0 := mem, Carving(bs, m, n).a;
      ghost var g := if h0 in mem then mem[h0].ptr else 0;
      CarvedList(mem, base, bs, m, n, g);
      CarvedLive(mem, base, bs, live, m, n, g);
      CarvedTiles(bs, live, claimed, m, n);
      h := p;
      if mem[p].size == n {
        mem := mem[prevp := mem[prevp].(ptr := mem[p].ptr)];
      } else {
        mem := mem[p := mem[p].(size := mem[p].size - n)];
        h := p + mem[p].size;
        mem := mem[h := Header(if h in mem then mem[h].ptr else 0, n)];
      }
      assert mem == AfterCarve(mem0, bs, m, n, g);
      freep := prevp;
      fi := m - 1;
      live := live[h := n];
      bs := Carved(bs, m, n);
    }

    /** malloc, giving the header of the block: a block of the units asked for that was nobody's, from the
        list if any block there is large enough and else after one call of morecore; or None. The units
        accounted for are still those obtained exactly when morecore was not needed or its request fits
        in an int. */
    method Malloc(nbytes: nat) returns (r: Option<nat>, ghost grown: bool)
      requires Valid() && nbytes < 0x1_0000_0000
      modifies this`mem, this`freep, this`brk, this`bs, this`fi, this`live, this`claimed, this`heap
      ensures Listed()
      ensures grown <==> r.Some? && !Fits(old(bs), UnitsFor(nbytes))
      ensures r.None? <==> !Fits(old(bs), UnitsFor(nbytes)) && SbrkArg(Chunk(UnitsFor(nbytes))) > 0
                           && old(brk) + SbrkArg(Chunk(UnitsFor(nbytes))) / 16 > limit
      ensures r.Some? ==> r.value !in old(live) && live == old(live)[r.value := UnitsFor(nbytes)]
      ensures r.Some? ==> 16 * (live[r.value] - 2) < nbytes <= 16 * (live[r.value] - 1)
      ensures r.None? ==> live == old(live)
      ensures claimed == old(heap) + if grown then Range(old(brk), Chunk(UnitsFor(nbytes))) else {}
      ensures heap == if grown then Obtained(old(heap), old(brk), SbrkArg(Chunk(UnitsFor(nbytes)))) else old(heap)
      ensures claimed == heap <==> !grown || 16 * Chunk(UnitsFor(nbytes)) < 0x8000_0000
      ensures Valid() <==> !grown || 16 * Chunk(UnitsFor(nbytes)) < 0x8000_0000
    {
      hide LiveOk, Ordered, Coalesced, Links, Tiles, Carved, NoFitBefore, SbrkArg, Obtained;
      var n := UnitsFor(nbytes);
      if freep == 0 {
        FirstList(mem, base, n);
        EmptyTiles(base, live, claimed);
        NoneLive(mem, mem[base := Header(base, 0)], base, bs, [Blk(base, 0)], live);
        mem := mem[base := Header(base, 0)];
        freep := base;
        bs, fi := [Blk(base, 0)], 0;
      }
      grown := false;
      ghost var bs0 := bs;
      ClaimsExactly(old(heap), old(brk), Chunk(n));
      while true
        invariant Listed() && freep != 0 && live == old(live)
        invariant grown ==> Fits(bs, n) && !Fits(bs0, n) && claimed == old(heap) + Range(old(brk), Chunk(n))
        invariant grown ==> heap == Obtained(old(heap), old(brk), SbrkArg(Chunk(n)))
        invariant grown ==> !(SbrkArg(Chunk(n)) > 0 && old(brk) + SbrkArg(Chunk(n)) / 16 > limit)
        invariant grown && 16 * Chunk(n) < 0x8000_0000 ==> Valid()
        invariant !grown ==> Valid() && bs == bs0 && heap == old(heap) && brk == old(brk)
        decreases if grown then 0 else 1
      {
        ghost var m;
        var s;
        s, m := Search(n);
        if s.Some? {
          var h := Carve(s.value.0, s.value.1, n, m);
          return Some(h), grown;
        }
        var ok := Morecore(n);
        if !ok { return None, false; }
        grown := true;
      }
    }
  }

  /** Memory after free has put block `b` between the headers at p and q. */
  function AfterFree(mem: Mem, b: Blk, p: nat, q: nat): Mem
    requires p in mem && p != b.a
  {
    var mem' := mem[b.a := HeaderFor(mem, b, q)];
    mem'[p := HeaderBefore(mem', p, b.a)]
  }

  lemma LiveBlock(mem: Mem, base: nat, bs: seq<Blk>, live: map<nat, nat>, bp: nat)
    requires LiveOk(mem, base, bs, live) && bp in live && ListOk(mem, base, bs)
    ensures bp in mem && mem[bp].size == live[bp] > 0 && base < bp && ApartFrom(bs, Blk(bp, live[bp]))
    ensures forall i {:trigger bs[i]} :: 0 <= i < |bs| ==> bs[i].a != bp
  {
    assert LiveAt(mem, base, live, bp) && ApartFrom(bs, Blk(bp, live[bp]));
  }

  lemma FreeHeaders(mem: Mem, bs: seq<Blk>, bp: nat)
    requires Links(mem, bs) && 0 < CountBelow(bs, bp) <= |bs|
    ensures var i := CountBelow(bs, bp) - 1;
            bs[i].a in mem && mem[bs[i].a].ptr in mem && mem[bs[i].a].ptr == NextA(bs, i)
  {
    var i := CountBelow(bs, bp) - 1;
    assert LinkOk(mem, bs, i) && LinkOk(mem, bs, Succ(|bs|, i));
  }

  lemma FreedList(mem: Mem, base: nat, bs: seq<Blk>, b: Blk)
    requires ListOk(mem, base, bs) && ApartFrom(bs, b) && b.n > 0 && base < b.a
    ensures 0 < CountBelow(bs, b.a) <= |bs|
    ensures var i := CountBelow(bs, b.a) - 1;
      && bs[i].a in mem && bs[i].a != b.a && base <= bs[i].a
      && ListOk(AfterFree(mem, b, bs[i].a, NextA(bs, i)), base, Freed(bs, b))
      && i < |Freed(bs, b)| && Freed(bs, b)[i].a == bs[i].a
  {
    FreedOrdered(bs, b);
    FreedCoalesced(bs, b);
    FreedFirst(bs, b);
    FreeRight(mem, bs, b);
    CountBelowIs(bs, b.a);
    var k := CountBelow(bs, b.a);
    InsertOrdered(bs, b);
    JoinOrdered(InsertAt(bs, k, b), k);
    assert LinkOk(mem, bs, k - 1);
    FreeLeft(mem[b.a := HeaderFor(mem, b, NextA(bs, k - 1))], JoinAt(InsertAt(bs, k, b), k), k - 1);
  }

  /** The other blocks handed out are not disturbed. */
  lemma FreedLive(mem: Mem, base: nat, bs: seq<Blk>, live: map<nat, nat>, bp: nat, p: nat)
    requires LiveOk(mem, base, bs, live) && bp in live && ListOk(mem, base, bs)
    requires 0 < CountBelow(bs, bp) <= |bs| && p == bs[CountBelow(bs, bp) - 1].a && p in mem && p != bp
    ensures LiveOk(AfterFree(mem, Blk(bp, live[bp]), p, NextA(bs, CountBelow(bs, bp) - 1)), base,
                   Freed(bs, Blk(bp, live[bp])), live - {bp})
  {
    hide Freed, CountBelow, HeaderFor, HeaderBefore, Links, Coalesced;
    var b := Blk(bp, live[bp]);
    var live' := live - {bp};
    var mem' := AfterFree(mem, b, p, NextA(bs, CountBelow(bs, bp) - 1));
    forall a | a in live'
      ensures LiveAt(mem', base, live', a) && ApartFrom(Freed(bs, b), Blk(a, live'[a]))
    {
      assert LiveAt(mem, base, live, a) && Apart(a, live[a], bp, live[bp]);
      LiveBlock(mem, base, bs, live, a);
      FreedApart(bs, b, Blk(a, live[a]));
    }
    forall a, c | a in live' && c in live' && a != c ensures Apart(a, live'[a], c, live'[c]) {
      assert Apart(a, live[a], c, live[c]);
    }
  }

  lemma FreedTiles(bs: seq<Blk>, live: map<nat, nat>, heap: set<nat>, bp: nat)
    requires Tiles(bs, live, heap) && bp in live
    ensures CountBelow(bs, bp) > 0 ==> Tiles(Freed(bs, Blk(bp, live[bp])), live - {bp}, heap)
  {
    if CountBelow(bs, bp) > 0 {
      hide Freed, CountBelow, Covers;
      var b := Blk(bp, live[bp]);
      forall x: nat ensures x in heap <==> Covers(Freed(bs, b), x) || UsedAt(live - {bp}, x) {
        FreedCovers(bs, b, x);
        UsedLess(live, bp, x);
      }
    }
  }

  lemma UsedLess(live: map<nat, nat>, bp: nat, x: nat)
    requires bp in live
    ensures UsedAt(live, x) <==> UsedAt(live - {bp}, x) || Within(Blk(bp, live[bp]), x)
  {
    var live' := live - {bp};
    if a :| a in live && a <= x < a + live[a] {
      assert a != bp ==> a in live' && a <= x < a + live'[a];
    }
    if a :| a in live' && a <= x < a + live'[a] {
      assert a in live && a <= x < a + live[a];
    }
    assert Within(Blk(bp, live[bp]), x) ==> bp in live && bp <= x < bp + live[bp];
  }

  lemma UsedMore(live: map<nat, nat>, h: nat, n: nat, x: nat)
    requires h !in live
    ensures UsedAt(live[h := n], x) <==> UsedAt(live, x) || Within(Blk(h, n), x)
  {
    UsedLess(live[h := n], h, x);
    assert live[h := n] - {h} == live;
  }

  // ----- morecore -----

  /** What the header claims is what sbrk gives exactly when the request fits in an int. */
  lemma ClaimsExactly(heap: set<nat>, brk: nat, n: nat)
    requires n > 0 && forall x :: x in heap ==> x < brk
    ensures heap + Range(brk, n) == Obtained(heap, brk, SbrkArg(n)) <==> 16 * n < 0x8000_0000
  {
    hide SbrkArg;
    SbrkArgExactly(n);
    if 16 * n >= 0x8000_0000 {
      var x := brk + n - 1;
      assert x in heap + Range(brk, n) && x !in Obtained(heap, brk, SbrkArg(n));
    }
  }

  function Range(a: nat, n: nat): (r: set<nat>)
    ensures forall x :: x in r <==> a <= x < a + n
  {
    if n == 0 then {} else Range(a, n - 1) + {a + n - 1}
  }

  /** A new stretch of memory, as a block handed out. */
  lemma GrownOk(mem: Mem, base: nat, bs: seq<Blk>, live: map<nat, nat>, heap: set<nat>, brk: nat, h: Header)
    requires LiveOk(mem, base, bs, live) && Tiles(bs, live, heap) && ListOk(mem, base, bs)
    requires base < brk && h.size > 0 && forall x :: x in heap ==> x < brk
    ensures brk !in live && ListOk(mem[brk := h], base, bs)
    ensures LiveOk(mem[brk := h], base, bs, live[brk := h.size])
    ensures Tiles(bs, live[brk := h.size], heap + Range(brk, h.size))
  {
    var mem', live', n := mem[brk := h], live[brk := h.size], h.size;
    forall a | a in live
      ensures a + live[a] <= brk && LiveAt(mem, base, live, a)
    {
      assert LiveAt(mem, base, live, a);
      BelowBrk(bs, live, heap, brk, a);
    }
    forall i | 0 <= i < |bs|
      ensures bs[i].a + bs[i].n <= brk && bs[i].a < brk
    {
      if bs[i].n > 0 {
        var x := bs[i].a + bs[i].n - 1;
        assert Within(bs[i], x);
        assert Covers(bs, x);
      }
    }
    forall i: nat ensures LinkOk(mem', bs, i) { assert LinkOk(mem, bs, i); }
    assert brk !in live;
    GrownTiles(bs, live, heap, brk, n);
    GrownLive(mem, base, bs, live, brk, h);
  }

  lemma GrownTiles(bs: seq<Blk>, live: map<nat, nat>, heap: set<nat>, brk: nat, n: nat)
    requires Tiles(bs, live, heap) && brk !in live
    ensures Tiles(bs, live[brk := n], heap + Range(brk, n))
  {
    hide UsedAt;
    var more := Range(brk, n);
    forall x: nat ensures x in heap + more <==> Covers(bs, x) || UsedAt(live[brk := n], x) {
      UsedMore(live, brk, n, x);
      assert x in heap <==> Covers(bs, x) || UsedAt(live, x);
      assert x in more <==> Within(Blk(brk, n), x);
    }
  }

  lemma BelowBrk(bs: seq<Blk>, live: map<nat, nat>, heap: set<nat>, brk: nat, a: nat)
    requires Tiles(bs, live, heap) && a in live && live[a] > 0 && forall x :: x in heap ==> x < brk
    ensures a + live[a] <= brk
  {
    var x := a + live[a] - 1;
    assert a in live && a <= x < a + live[a];
    assert Covers(bs, x) || UsedAt(live, x);
  }

  lemma GrownLive(mem: Mem, base: nat, bs: seq<Blk>, live: map<nat, nat>, brk: nat, h: Header)
    requires LiveOk(mem, base, bs, live) && base < brk && h.size > 0 && brk !in live
    requires forall a :: a in live ==> a + live[a] <= brk
    requires forall i {:trigger bs[i]} :: 0 <= i < |bs| ==> bs[i].a + bs[i].n <= brk
    ensures LiveOk(mem[brk := h], base, bs, live[brk := h.size])
  {
    var mem', live' := mem[brk := h], live[brk := h.size];
    forall a | a in live'
      ensures LiveAt(mem', base, live', a) && ApartFrom(bs, Blk(a, live'[a]))
    {
      if a in live { assert LiveAt(mem, base, live, a) && ApartFrom(bs, Blk(a, live[a])); }
    }
    forall a, c | a in live' && c in live' && a != c
      ensures Apart(a, live'[a], c, live'[c])
    {
      if a in live && c in live { assert Apart(a, live[a], c, live[c]); }
    }
  }

  // ----- malloc -----

  function AfterCarve(mem: Mem, bs: seq<Blk>, m: nat, n: nat, g: nat): Mem
    requires 0 < m < |bs| && bs[m].n >= n && bs[m - 1].a in mem && bs[m].a in mem
  {
    if bs[m].n == n then mem[bs[m - 1].a := Header(mem[bs[m].a].ptr, mem[bs[m - 1].a].size)]
    else mem[bs[m].a := Header(mem[bs[m].a].ptr, bs[m].n - n)][bs[m].a + (bs[m].n - n) := Header(g, n)]
  }

  lemma CarvedList(mem: Mem, base: nat, bs: seq<Blk>, m: nat, n: nat, g: nat)
    requires ListOk(mem, base, bs) && 0 < m < |bs| && bs[m].n >= n > 0 && bs[m - 1].a in mem && bs[m].a in mem
    ensures ListOk(AfterCarve(mem, bs, m, n, g), base, Carved(bs, m, n))
    ensures m - 1 < |Carved(bs, m, n)| && Carved(bs, m, n)[m - 1] == bs[m - 1] && bs[m - 1].a > 0 <== base > 0
  {
    CarvedOrdered(bs, m, n);
    CarvedLinks(mem, bs, m, n, AfterCarve(mem, bs, m, n, g), g);
  }

  lemma CarvedLive(mem: Mem, base: nat, bs: seq<Blk>, live: map<nat, nat>, m: nat, n: nat, g: nat)
    requires LiveOk(mem, base, bs, live) && ListOk(mem, base, bs)
    requires 0 < m < |bs| && bs[m].n >= n > 0 && bs[m - 1].a in mem && bs[m].a in mem
    ensures var h := Carving(bs, m, n).a;
      h !in live && LiveOk(AfterCarve(mem, bs, m, n, g), base, Carved(bs, m, n), live[h := n])
  {
    var h, r := Carving(bs, m, n).a, Carved(bs, m, n);
    var mem', live' := AfterCarve(mem, bs, m, n, g), live[h := n];
    CarvedShape(bs, m, n);
    hide Carved, Links, Coalesced;
    forall a | a in live
      ensures a != h && LiveAt(mem', base, live, a) && Apart(a, live[a], h, n) && ApartFrom(r, Blk(a, live[a]))
    {
      LiveBlock(mem, base, bs, live, a);
      CarvedApart(bs, m, n, Blk(a, live[a]));
    }
    NewBlock(mem, base, bs, m, n, g);
    forall a | a in live'
      ensures LiveAt(mem', base, live', a) && ApartFrom(r, Blk(a, live'[a]))
    {
      if a != h { assert LiveAt(mem', base, live, a) && ApartFrom(r, Blk(a, live[a])); }
    }
    forall a, c | a in live' && c in live' && a != c
      ensures Apart(a, live'[a], c, live'[c])
    {
      if a != h && c != h { assert Apart(a, live[a], c, live[c]); }
    }
  }

  lemma CarvedApart(bs: seq<Blk>, m: nat, n: nat, c: Blk)
    requires m < |bs| && bs[m].n >= n && ApartFrom(bs, c)
    ensures ApartFrom(Carved(bs, m, n), c)
  {
    CarvedShape(bs, m, n);
    hide Carved;
  }

  lemma NewBlock(mem: Mem, base: nat, bs: seq<Blk>, m: nat, n: nat, g: nat)
    requires ListOk(mem, base, bs) && 0 < m < |bs| && bs[m].n >= n > 0 && bs[m - 1].a in mem && bs[m].a in mem
    ensures var h := Carving(bs, m, n).a;
      && base < h && h in AfterCarve(mem, bs, m, n, g) && AfterCarve(mem, bs, m, n, g)[h].size == n
      && ApartFrom(Carved(bs, m, n), Blk(h, n))
  {
    LinkHere(mem, bs, m);
    CarvedShape(bs, m, n);
    hide Carved, Links, Coalesced;
  }

  lemma CarvedTiles(bs: seq<Blk>, live: map<nat, nat>, heap: set<nat>, m: nat, n: nat)
    requires Tiles(bs, live, heap) && Ordered(bs) && 0 < m < |bs| && bs[m].n >= n > 0
    ensures var h := Carving(bs, m, n).a; h !in live ==> Tiles(Carved(bs, m, n), live[h := n], heap)
  {
    hide UsedAt, Covers, Carved;
    var h := Carving(bs, m, n).a;
    if h !in live {
      forall x: nat ensures x in heap <==> Covers(Carved(bs, m, n), x) || UsedAt(live[h := n], x) {
        CarvedCovers(bs, m, n, x);
        UsedMore(live, h, n, x);
      }
    }
  }

  lemma NothingTiles()
    ensures Tiles([], map[], {})
  {
    forall x: nat ensures !Covers([], x) && !UsedAt(map[], x) { }
  }

  /** The list that malloc starts with. */
  lemma FirstList(mem: Mem, base: nat, n: nat)
    requires n > 0
    ensures ListOk(mem[base := Header(base, 0)], base, [Blk(base, 0)]) && !Fits([Blk(base, 0)], n) && !Fits([], n)
  {
    var bs := [Blk(base, 0)];
    forall i: nat ensures GapAt(bs, i) && LinkOk(mem[base := Header(base, 0)], bs, i) { }
  }

  lemma EmptyTiles(base: nat, live: map<nat, nat>, heap: set<nat>)
    requires Tiles([], live, heap)
    ensures Tiles([Blk(base, 0)], live, heap)
  {
    forall x: nat ensures Covers([Blk(base, 0)], x) <==> Covers([], x) { }
  }

  lemma NoneLive(mem: Mem, mem': Mem, base: nat, bs: seq<Blk>, bs': seq<Blk>, live: map<nat, nat>)
    requires LiveOk(mem, base, bs, live) && live == map[]
    ensures LiveOk(mem', base, bs', live)
  {
  }
}
