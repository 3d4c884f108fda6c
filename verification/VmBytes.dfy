/** Bytes at virtual addresses: what copyout and copyin of kernel/vm.c do a page at a time, said one
    byte at a time. */
module VmBytes {
  import opened Bytes
  import opened VmModel

  type Pages = map<nat, seq<nat>>

  /** Frame and offset that virtual address `va` of `root` translates to. */
  function Loc(m: Mem, root: nat, va: nat): (nat, nat) {
    (FrameOf(Lookup(m.tables, m.at, root, va / PGSIZE)), va % PGSIZE)
  }

  ghost predicate PagesOk(p: Pages) {
    forall f :: f in p ==> |p[f]| == PGSIZE
  }

  function Poke(p: Pages, l: (nat, nat), b: nat): Pages {
    if l.0 in p && l.1 < |p[l.0]| then
      var row: seq<nat> := p[l.0][l.1 := b];
      p[l.0 := row]
    else p
  }

  function Peek(p: Pages, l: (nat, nat)): nat {
    if l.0 in p && l.1 < |p[l.0]| then p[l.0][l.1] else 0
  }

  /** The bytes `bs` stored at va, va+1, ... in this order. */
  ghost function Store(m: Mem, root: nat, p: Pages, va: nat, bs: seq<nat>): (q: Pages)
    ensures q.Keys == p.Keys && forall f :: f in p ==> |q[f]| == |p[f]|
  {
    if bs == [] then p else
      var k := |bs| - 1;
      Poke(Store(m, root, p, va, bs[..k]), Loc(m, root, va + k), bs[k])
  }

  ghost function Load(m: Mem, root: nat, p: Pages, va: nat, n: nat): (bs: seq<nat>)
    ensures |bs| == n && forall i :: 0 <= i < n ==> bs[i] == Peek(p, Loc(m, root, va + i))
  {
    if n == 0 then [] else Load(m, root, p, va, n - 1) + [Peek(p, Loc(m, root, va + n - 1))]
  }

  /** The n bytes from `va` on lie in one frame, from offset `o` on. */
  ghost predicate InOneFrame(m: Mem, root: nat, va: nat, n: nat, f: nat, o: nat) {
    o + n <= PGSIZE && forall a: nat {:trigger Loc(m, root, a)} :: va <= a < va + n ==>
        Loc(m, root, a) == (f, o + (a - va))
  }

  lemma SpliceMore(row: seq<nat>, o: nat, ch: seq<nat>, b: nat)
    requires o + |ch| < |row|
    ensures Splice(row, o, ch + [b]) == Splice(row, o, ch)[o + |ch| := b]
  {
  }

  lemma StoreOne(m: Mem, root: nat, p: Pages, va: nat, bs: seq<nat>, b: nat)
    ensures Store(m, root, p, va, bs + [b]) == Poke(Store(m, root, p, va, bs), Loc(m, root, va + |bs|), b)
  {
    hide Loc, Poke;
    assert (bs + [b])[..|bs|] == bs;
  }

  /** A memmove within one page stores its bytes one by one. */
  lemma {:induction false} StoreChunk(m: Mem, root: nat, p: Pages, va: nat, bs: seq<nat>, ch: seq<nat>, f: nat, o: nat)
    requires InOneFrame(m, root, va + |bs|, |ch|, f, o) && f in p && |p[f]| == PGSIZE
    ensures Store(m, root, p, va, bs + ch)
         == Store(m, root, p, va, bs)[f := Splice(Store(m, root, p, va, bs)[f], o, ch)]
  {
    hide Store, Loc;
    var q := Store(m, root, p, va, bs);
    if ch == [] {
      assert bs + ch == bs && Splice(q[f], o, ch) == q[f];
    } else {
      var k := |ch| - 1;
      StoreChunk(m, root, p, va, bs, ch[..k], f, o);
      assert bs + ch == bs + ch[..k] + [ch[k]] && ch == ch[..k] + [ch[k]];
      StoreOne(m, root, p, va, bs + ch[..k], ch[k]);
      assert Loc(m, root, va + |bs + ch[..k]|) == (f, o + k);
      SpliceMore(q[f], o, ch[..k], ch[k]);
    }
  }

  lemma StoreNone(m: Mem, root: nat, p: Pages, va: nat, src: seq<nat>)
    ensures Store(m, root, p, va, src[..0]) == p
  {
  }

  lemma StoreNext(m: Mem, root: nat, p: Pages, va: nat, src: seq<nat>, d: nat, n: nat, f: nat, o: nat)
    requires d + n <= |src| && InOneFrame(m, root, va + d, n, f, o) && f in p && |p[f]| == PGSIZE
    ensures Store(m, root, p, va, src[..d + n])
         == Store(m, root, p, va, src[..d])[f := Splice(Store(m, root, p, va, src[..d])[f], o, src[d..d + n])]
  {
    assert src[..d] + src[d..d + n] == src[..d + n];
    StoreChunk(m, root, p, va, src[..d], src[d..d + n], f, o);
  }

  lemma {:induction false} LoadChunk(m: Mem, root: nat, p: Pages, va: nat, n: nat, c: nat, f: nat, o: nat)
    requires InOneFrame(m, root, va + n, c, f, o) && f in p && |p[f]| == PGSIZE
    ensures Load(m, root, p, va, n + c) == Load(m, root, p, va, n) + p[f][o..o + c]
  {
    var l := Load(m, root, p, va, n + c);
    forall i | 0 <= i < n + c
      ensures l[i] == (Load(m, root, p, va, n) + p[f][o..o + c])[i]
    {
      if i >= n { assert Loc(m, root, va + i) == (f, o + (i - n)); }
    }
  }

  /** The chunk from `va` to the end of its page, or of the request, lies in one frame. */
  lemma ChunkInOneFrame(m: Mem, root: nat, va: nat, n: nat)
    requires va % PGSIZE + n <= PGSIZE
    ensures InOneFrame(m, root, va, n, Loc(m, root, va).0, va % PGSIZE)
  {
    forall a: nat | va <= a < va + n
      ensures Loc(m, root, a) == (Loc(m, root, va).0, va % PGSIZE + (a - va))
    {
      SamePage(va, a - va);
    }
  }

  lemma SamePage(va: nat, j: nat)
    requires va % PGSIZE + j < PGSIZE
    ensures (va + j) / PGSIZE == va / PGSIZE && (va + j) % PGSIZE == va % PGSIZE + j
  {
  }

  // ----- User addresses -----

  ghost predicate Readable(m: Mem, root: nat, va: nat) {
    var e := Lookup(m.tables, m.at, root, va / PGSIZE);
    va < MAXVA && HasV(e) && HasU(e)
  }

  ghost predicate Writable(m: Mem, root: nat, va: nat) {
    Readable(m, root, va) && HasW(Lookup(m.tables, m.at, root, va / PGSIZE))
  }

  /** User pages are data pages. */
  ghost predicate UserPages(m: Mem, root: nat) {
    forall v: nat {:trigger Lookup(m.tables, m.at, root, v)} ::
      HasV(Lookup(m.tables, m.at, root, v)) && HasU(Lookup(m.tables, m.at, root, v)) ==>
          FrameOf(Lookup(m.tables, m.at, root, v)) in m.pages
  }

  /** Exactly the first `done` of the n bytes from `va` on can be reached before one that cannot. */
  ghost predicate WritableFor(m: Mem, root: nat, va: nat, n: nat, done: nat) {
    && done <= n && (done < n ==> !Writable(m, root, va + done))
    && forall a: nat {:trigger Writable(m, root, a)} :: va <= a < va + done ==> Writable(m, root, a)
  }

  ghost predicate ReadableFor(m: Mem, root: nat, va: nat, n: nat, done: nat) {
    && done <= n && (done < n ==> !Readable(m, root, va + done))
    && forall a: nat {:trigger Readable(m, root, a)} :: va <= a < va + done ==> Readable(m, root, a)
  }

  lemma AddressPage(va: nat)
    ensures (va - va % PGSIZE) / PGSIZE == va / PGSIZE && (va - va % PGSIZE >= MAXVA <==> va >= MAXVA)
  {
  }

  /** Addresses on one page are alike. */
  lemma PageAlike(m: Mem, root: nat, va: nat, j: nat)
    requires va % PGSIZE + j < PGSIZE
    ensures Writable(m, root, va + j) == Writable(m, root, va) && Readable(m, root, va + j) == Readable(m, root, va)
  {
    SamePage(va, j);
    AddressPage(va);
    AddressPage(va + j);
  }

  lemma WritableOn(m: Mem, root: nat, va: nat, done: nat, k: nat)
    requires (va + done) % PGSIZE + k <= PGSIZE && Writable(m, root, va + done)
    requires forall a: nat {:trigger Writable(m, root, a)} :: va <= a < va + done ==> Writable(m, root, a)
    ensures forall a: nat {:trigger Writable(m, root, a)} :: va <= a < va + (done + k) ==> Writable(m, root, a)
  {
    forall a: nat | va <= a < va + (done + k) ensures Writable(m, root, a) {
      if a >= va + done { PageAlike(m, root, va + done, a - va - done); }
    }
  }

  lemma ReadableOn(m: Mem, root: nat, va: nat, done: nat, k: nat)
    requires (va + done) % PGSIZE + k <= PGSIZE && Readable(m, root, va + done)
    requires forall a: nat {:trigger Readable(m, root, a)} :: va <= a < va + done ==> Readable(m, root, a)
    ensures forall a: nat {:trigger Readable(m, root, a)} :: va <= a < va + (done + k) ==> Readable(m, root, a)
  {
    forall a: nat | va <= a < va + (done + k) ensures Readable(m, root, a) {
      if a >= va + done { PageAlike(m, root, va + done, a - va - done); }
    }
  }

  // ----- The round trip -----

  /** No two of the n addresses from `va` on are the same byte of memory. */
  ghost predicate Apart(m: Mem, root: nat, va: nat, n: nat) {
    forall a: nat, b: nat {:trigger Loc(m, root, a), Loc(m, root, b)} ::
      va <= a < b < va + n ==> Loc(m, root, a) != Loc(m, root, b)
  }

  ghost predicate Present(m: Mem, root: nat, p: Pages, va: nat, n: nat) {
    forall a: nat {:trigger Loc(m, root, a)} :: va <= a < va + n ==> Loc(m, root, a).0 in p
  }

  lemma PeekPoke(p: Pages, l: (nat, nat), b: nat, k: (nat, nat))
    ensures Peek(Poke(p, l, b), k) == if k == l && l.0 in p && l.1 < |p[l.0]| then b else Peek(p, k)
  {
  }

  /** A byte of memory holds the last of the bytes stored there. */
  lemma {:induction false} StoredAt(m: Mem, root: nat, p: Pages, va: nat, bs: seq<nat>, a: nat)
    requires PagesOk(p) && Present(m, root, p, va, |bs|) && va <= a < va + |bs|
    requires forall b: nat {:trigger Loc(m, root, b)} :: a < b < va + |bs| ==> Loc(m, root, b) != Loc(m, root, a)
    ensures Peek(Store(m, root, p, va, bs), Loc(m, root, a)) == bs[a - va]
  {
    hide Poke;
    var k := |bs| - 1;
    PeekPoke(Store(m, root, p, va, bs[..k]), Loc(m, root, va + k), bs[k], Loc(m, root, a));
    if a < va + k { StoredAt(m, root, p, va, bs[..k], a); }
  }

  /** A byte that no address of the range is translated to holds what it held. */
  lemma {:induction false} NotStoredAt(m: Mem, root: nat, p: Pages, va: nat, bs: seq<nat>, l: (nat, nat))
    requires forall a: nat {:trigger Loc(m, root, a)} :: va <= a < va + |bs| ==> Loc(m, root, a) != l
    ensures Peek(Store(m, root, p, va, bs), l) == Peek(p, l)
  {
    if bs != [] {
      var k := |bs| - 1;
      PeekPoke(Store(m, root, p, va, bs[..k]), Loc(m, root, va + k), bs[k], l);
      NotStoredAt(m, root, p, va, bs[..k], l);
    }
  }

  ghost predicate RoundTrip(m: Mem, root: nat, p: Pages, va: nat, bs: seq<nat>) {
    Load(m, root, Store(m, root, p, va, bs), va, |bs|) == bs
  }

  lemma ApartRoundTrip(m: Mem, root: nat, p: Pages, va: nat, bs: seq<nat>)
    requires PagesOk(p) && Present(m, root, p, va, |bs|) && Apart(m, root, va, |bs|)
    ensures RoundTrip(m, root, p, va, bs)
  {
    var q := Store(m, root, p, va, bs);
    forall i | 0 <= i < |bs|
      ensures Load(m, root, q, va, |bs|)[i] == bs[i]
    {
      StoredAt(m, root, p, va, bs, va + i);
    }
  }

  /** What is copied out can be copied back in, whatever it is, exactly when no two of the addresses
      share a byte of memory. */
  lemma RoundTripExactly(m: Mem, root: nat, p: Pages, va: nat, n: nat)
    requires PagesOk(p) && Present(m, root, p, va, n)
    ensures (forall bs: seq<nat> {:trigger RoundTrip(m, root, p, va, bs)} :: |bs| == n ==>
              RoundTrip(m, root, p, va, bs))
       <==> Apart(m, root, va, n)
  {
    hide Store, Load, Loc, Peek;
    if Apart(m, root, va, n) {
      forall bs: seq<nat> | |bs| == n ensures RoundTrip(m, root, p, va, bs) { ApartRoundTrip(m, root, p, va, bs); }
    } else {
      var a: nat, b: nat :| va <= a < b < va + n && Loc(m, root, a) == Loc(m, root, b);
      var i, j := a - va, b - va;
      var bs := Marked(n, j);
      var l := Load(m, root, Store(m, root, p, va, bs), va, n);
      assert l[i] == l[j] && bs[i] != bs[j];
      assert !RoundTrip(m, root, p, va, bs);
    }
  }

  ghost function Marked(n: nat, j: nat): (bs: seq<nat>)
    ensures |bs| == n && forall i :: 0 <= i < n ==> bs[i] == if i == j then 1 else 0
  {
    if n == 0 then [] else Marked(n - 1, j) + [if n - 1 == j then 1 else 0]
  }

  /** The pages that the n bytes from `va` on lie in have frames of their own. */
  ghost predicate OwnFrames(m: Mem, root: nat, va: nat, n: nat)
    requires n > 0
  {
    forall v: nat, w: nat {:trigger Lookup(m.tables, m.at, root, v), Lookup(m.tables, m.at, root, w)} ::
      va / PGSIZE <= v < w <= (va + n - 1) / PGSIZE
      ==> FrameOf(Lookup(m.tables, m.at, root, v)) != FrameOf(Lookup(m.tables, m.at, root, w))
  }

  /** That is enough. */
  lemma OwnFramesApart(m: Mem, root: nat, va: nat, n: nat)
    requires n > 0 && OwnFrames(m, root, va, n)
    ensures Apart(m, root, va, n)
  {
  }

  /** Storing bytes changes no translation, and takes away no page. */
  lemma StoreKeepsUserPages(m: Mem, root: nat, va: nat, bs: seq<nat>)
    requires UserPages(m, root)
    ensures UserPages(m.(pages := Store(m, root, m.pages, va, bs)), root)
  {
    hide Store;
  }

  lemma SameLoads(m: Mem, m': Mem, root: nat, p: Pages, va: nat, n: nat)
    requires m'.tables == m.tables && m'.at == m.at
    ensures Load(m', root, p, va, n) == Load(m, root, p, va, n)
  {
    hide Lookup;
    forall a: nat ensures Loc(m', root, a) == Loc(m, root, a) { }
  }

  /** A copyin gets at least as far as a copyout. */
  lemma ReachesAll(m: Mem, m': Mem, root: nat, va: nat, k: nat, n: nat)
    requires m'.tables == m.tables && m'.at == m.at
    requires WritableFor(m, root, va, k, k) && ReadableFor(m', root, va, k, n)
    ensures n == k
  {
    assert n < k ==> Writable(m, root, va + n);
  }

  lemma WritablePresent(m: Mem, root: nat, va: nat, k: nat)
    requires UserPages(m, root) && WritableFor(m, root, va, k, k)
    ensures Present(m, root, m.pages, va, k)
  {
    forall a: nat | va <= a < va + k ensures Loc(m, root, a).0 in m.pages { assert Writable(m, root, a); }
  }

  lemma OwnFramesEach(m: Mem, root: nat, va: nat, n: nat)
    requires n > 0 ==> OwnFrames(m, root, va, n)
    ensures Apart(m, root, va, n)
  {
    if n > 0 { OwnFramesApart(m, root, va, n); }
  }

  /** A copyin that follows a copyout of everything gets as far, and finds what was stored. */
  lemma CopiesBack(m: Mem, m': Mem, root: nat, va: nat, bs: seq<nat>, n: nat)
    requires m' == m.(pages := Store(m, root, m.pages, va, bs)) && PagesOk(m.pages) && UserPages(m, root)
    requires |bs| > 0 ==> OwnFrames(m, root, va, |bs|)
    requires WritableFor(m, root, va, |bs|, |bs|) && ReadableFor(m', root, va, |bs|, n)
    ensures n == |bs| && Load(m', root, m'.pages, va, n) == bs
  {
    hide Store, Load, UserPages, OwnFrames, PagesOk, Apart, Present, WritableFor, ReadableFor;
    ReachesAll(m, m', root, va, |bs|, n);
    WritablePresent(m, root, va, |bs|);
    OwnFramesEach(m, root, va, |bs|);
    ApartRoundTrip(m, root, m.pages, va, bs);
    SameLoads(m, m', root, m'.pages, va, |bs|);
  }
}
