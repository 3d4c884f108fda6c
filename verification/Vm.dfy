/** The code of kernel/vm.c over physical frames. `free` is what kalloc can still hand out; a frame
    handed out holds either a page-table page or a page of data. */
module Vm {
  import opened Bytes
  import opened VmBytes
  import opened VmHardware
  import opened VmModel
  import opened Wrappers

  type Page = seq<nat>

  class Machine {
    var free: set<nat>
    var tables: Tables
    var pages: map<nat, Page>
    ghost var at: Places

    ghost predicate Valid()
      reads this
    {
      && Ok(tables, at)
      && free !! tables.Keys && free !! pages.Keys && tables.Keys !! pages.Keys
      && 0 !in free && 0 !in pages && 0 !in tables
      && (forall f :: f in pages ==> |pages[f]| == PGSIZE)
    }

    /** Physical memory before the first page table. */
    constructor (frames: set<nat>)
      requires 0 !in frames
      ensures Valid() && free == frames && at == map[] && tables == map[] && pages == map[]
    {
      free, tables, pages, at := frames, map[], map[], map[];
    }

    /** kalloc */
    method Kalloc() returns (r: Option<nat>)
      modifies this`free
      ensures r.None? <==> old(free) == {}
      ensures if r.None? then free == old(free) else r.value in old(free) && free == old(free) - {r.value}
    {
      if free == {} {
        r := None;
      } else {
        var f :| f in free;
        free := free - {f};
        r := Some(f);
      }
    }

    /** kfree of a data page. */
    method Kfree(f: nat)
      requires f in pages && f !in free
      modifies this`free, this`pages
      ensures free == old(free) + {f} && pages == old(pages) - {f}
    {
      pages := pages - {f};
      free := free + {f};
    }

    /** walk's new table below entry `i` of the table at place `s`. */
    method NewTable(pagetable: nat, i: nat, ghost s: Slot) returns (m: Option<nat>)
      requires Valid() && s in at && !s.pos.Low? && at[s] == pagetable && i < NPTE
      requires pagetable in tables && |tables[pagetable]| == NPTE && !HasV(tables[pagetable][i])
      modifies this`free, this`tables, this`at
      ensures Valid() && SameTrans(old(tables), old(at), tables, at) && Grew(old(free), old(tables), free, tables)
      ensures m.None? ==> free == old(free) == {} && tables == old(tables) && at == old(at)
      ensures m.Some? ==> at == old(at)[Child(s, i) := m.value]
    {
      hide Ok, Lookup, SameTrans, HasV, Child;
      SameSelf(Now());
      m := Kalloc();
      if m.None? { return; }
      AddTableOk(tables, at, s, i, m.value);
      AddTableTrans(tables, at, s, i, m.value);
      tables := tables[m.value := ZeroTable()];
      tables := SetEntry(tables, pagetable, i, m.value * 1024 + PTE_V);
      at := at[Child(s, i) := m.value];
    }

    /** walk: the frame and index of the level-0 entry for `va`, making tables on the way if asked. */
    method Walk(root: nat, va: nat, alloc: bool) returns (r: Option<(nat, nat)>)
      requires Valid() && Slot(root, Top) in at && va < MAXVA
      modifies this`free, this`tables, this`at
      ensures Valid() && SameTrans(old(tables), old(at), tables, at) && Grew(old(free), old(tables), free, tables)
      ensures old(at.Keys) <= at.Keys
      ensures !alloc ==> free == old(free) && tables == old(tables) && at == old(at)
      ensures !alloc ==> (r.Some? <==> LowSlot(root, va / PGSIZE) in at)
      ensures alloc && r.None? ==> free == {}
      ensures r.Some? ==>
                LowSlot(root, va / PGSIZE) in at && r.value == (at[LowSlot(root, va / PGSIZE)], va / PGSIZE % NPTE)
      ensures r.Some? ==> r.value.0 in tables && |tables[r.value.0]| == NPTE
      ensures r.Some? ==> IfValid(tables[r.value.0][r.value.1]) == Pte(root, va / PGSIZE)
    {
      hide Ok, SlotAt, PX, Lookup, SameTrans, Grew, HasV, Child, FrameOf;
      ghost var m0 := Now();
      SameSelf(m0);
      RootHere(tables, at, root);
      var level := 2;
      var pagetable := root;
      SlotAtEnds(root, va);
      while level > 0
        invariant 0 <= level <= 2 && pages == m0.pages
        invariant Valid() && SameTrans(m0.tables, m0.at, tables, at) && Grew(m0.free, m0.tables, free, tables)
        invariant m0.at.Keys <= at.Keys
        invariant !alloc ==> free == m0.free && tables == m0.tables && at == m0.at
        invariant SlotAt(root, va, level) in at && pagetable == at[SlotAt(root, va, level)]
      {
        WalkEntry(tables, at, root, va, level);
        var pte := tables[pagetable][PX(level, va)];
        if HasV(pte) {
          pagetable := FrameOf(pte);
        } else {
          if !alloc { return None; }
          ghost var m1 := Now();
          var m := NewTable(pagetable, PX(level, va), SlotAt(root, va, level));
          if m.None? { return None; }
          pagetable := m.value;
          GrewTwice(m0, m1, Now());
          SameTwice(m0, m1, Now());
        }
        level := level - 1;
      }
      WalkEnd(tables, at, root, va);
      r := Some((pagetable, PX(0, va)));
    }

    /** What walk without alloc finds: the entry if there is one and it is valid, else 0. */
    method ValidPte(root: nat, va: nat) returns (pte: nat)
      requires Valid() && Slot(root, Top) in at && va < MAXVA
      modifies this`free, this`tables, this`at
      ensures free == old(free) && tables == old(tables) && at == old(at)
      ensures pte == Pte(root, va / PGSIZE) && (pte != 0 <==> HasV(pte))
    {
      var r := Walk(root, va, false);
      if r.None? || !HasV(tables[r.value.0][r.value.1]) { return 0; }
      pte := tables[r.value.0][r.value.1];
    }

    /** walkaddr, as a frame number; 0 if the page is not a user page. */
    method WalkAddr(root: nat, va: nat) returns (f: nat)
      requires Valid() && Slot(root, Top) in at
      modifies this`free, this`tables, this`at
      ensures free == old(free) && tables == old(tables) && at == old(at)
      ensures f == if va < MAXVA && HasV(Pte(root, va / PGSIZE)) && HasU(Pte(root, va / PGSIZE))
                   then FrameOf(Pte(root, va / PGSIZE)) else 0
    {
      if va >= MAXVA { return 0; }
      var pte := ValidPte(root, va);
      if pte == 0 { return 0; }
      if !HasU(pte) { return 0; }
      f := FrameOf(pte);
    }

    /** The valid entry for page `v`, or 0. */
    ghost function Pte(root: nat, v: nat): nat
      reads this
    {
      Lookup(tables, at, root, v)
    }

    /** One round of the loop in mappages. */
    method MapPage(root: nat, v: nat, f: nat, perm: nat) returns (ok: bool)
      requires Valid() && Slot(root, Top) in at && v < MAXVPN && perm < 1024 && Pte(root, v) == 0
      modifies this`free, this`tables, this`at
      ensures Valid() && Grew(old(free), old(tables), free, tables) && old(at.Keys) <= at.Keys
      ensures ok ==> Mapped(old(tables), old(at), tables, at, root, v, [MakePte(f, perm)])
      ensures !ok ==> SameTrans(old(tables), old(at), tables, at) && free == {}
    {
      ghost var t0, at0 := tables, at;
      var r := Walk(root, v * PGSIZE, true);
      if r.None? { return false; }
      assert Lookup(tables, at, root, v) == Lookup(t0, at0, root, v) == 0;
      assert !HasV(tables[r.value.0][r.value.1]);  // the panic "remap" is not reached
      ghost var t1 := tables;
      LeafWriteOk(tables, at, LowSlot(root, v), r.value.1, MakePte(f, perm));
      tables := SetEntry(tables, r.value.0, r.value.1, MakePte(f, perm));
      MakePteParts(f, perm);
      MappedOne(t0, at0, t1, tables, at, root, v, MakePte(f, perm));
      ok := true;
    }

    /** mappages for `n` pages from page `v0` on and frames from `f0` on. False when a table could not
        be allocated; the pages mapped by then stay mapped. */
    method MapPages(root: nat, v0: nat, n: nat, f0: nat, perm: nat) returns (ok: bool, ghost done: nat)
      requires Valid() && Slot(root, Top) in at && n > 0 && v0 + n <= MAXVPN && perm < 1024
      requires NoPages(tables, at, root, v0, n)
      modifies this`free, this`tables, this`at
      ensures Valid() && Grew(old(free), old(tables), free, tables) && old(at.Keys) <= at.Keys
      ensures done <= n && (ok ==> done == n) && (!ok ==> done < n && free == {})
      ensures Mapped(old(tables), old(at), tables, at, root, v0, Entries(f0, perm, done))
    {
      hide Valid, Lookup, Mapped, NoPages, Grew, MakePte, Entries;
      ghost var m0 := Now();
      NoneMapped(m0, root, v0);
      var a := v0 * PGSIZE;
      var last := a + n * PGSIZE - PGSIZE;
      var f := f0;
      done := 0;
      while true
        invariant Valid() && Grew(m0.free, m0.tables, free, tables)
        invariant m0.at.Keys <= at.Keys
        invariant 0 <= done < n && a == (v0 + done) * PGSIZE && f == f0 + done
        invariant Mapped(m0.tables, m0.at, tables, at, root, v0, Entries(f0, perm, done))
        decreases n - done
      {
        ghost var m1, es := Now(), Entries(f0, perm, done);
        NextIsFree(m0, m1, root, v0, es, n);
        var b := MapPage(root, a / PGSIZE, f, perm);
        GrewTwice(m0, m1, Now());
        if !b {
          MappedStill(m0, m1, Now(), root, v0, es);
          return false, done;
        }
        MappedJoin(m0, m1, Now(), root, v0, es, [MakePte(f, perm)]);
        EntriesSnoc(f0, perm, done);
        done := done + 1;
        if a == last { break; }
        a := a + PGSIZE;
        f := f + 1;
      }
      ok := true;
    }

    /** uvmunmap of `n` pages from page `v0` on. */
    method UvmUnmap(root: nat, v0: nat, n: nat, doFree: bool)
      requires Valid() && Slot(root, Top) in at && v0 + n <= MAXVPN
      requires Leaves(tables, at, root, v0, n) && (doFree ==> OwnPages(tables, at, pages, root, v0, n))
      modifies this`free, this`tables, this`at, this`pages
      ensures Valid() && at == old(at) && tables.Keys == old(tables.Keys)
      ensures Unmapped(old(tables), old(at), tables, at, root, v0, n)
      ensures !doFree ==> free == old(free) && pages == old(pages)
      ensures doFree ==> free == old(free) + FramesOf(old(tables), old(at), root, v0, n)
      ensures doFree ==> pages == old(pages) - FramesOf(old(tables), old(at), root, v0, n)
    {
      hide Ok, Lookup, FramesOf, Leaves, OwnPages, Unmapped, HasV, FrameOf;
      ghost var m0 := Now();
      NoneUnmapped(m0, root, v0);
      for k := 0 to n
        invariant Valid() && at == m0.at && tables.Keys == m0.tables.Keys
        invariant Unmapped(m0.tables, m0.at, tables, at, root, v0, k)
        invariant free == m0.free + (if doFree then FramesOf(m0.tables, m0.at, root, v0, k) else {})
        invariant pages == m0.pages - (if doFree then FramesOf(m0.tables, m0.at, root, v0, k) else {})
      {
        UnmapNext(m0.tables, m0.at, tables, m0.pages, root, v0, k, n);
        ghost var t1 := tables;
        FramesOneMore(m0.tables, m0.at, root, v0, k);
        UnmapPage(root, v0 + k, doFree);
        UnmappedOneMore(m0.tables, t1, tables, at, root, v0, k);
      }
    }

    /** One round of uvmunmap's loop. */
    method UnmapPage(root: nat, v: nat, doFree: bool)
      requires Valid() && Slot(root, Top) in at && v < MAXVPN
      requires HasV(Pte(root, v)) && (doFree ==> FrameOf(Pte(root, v)) in pages)
      modifies this`free, this`tables, this`at, this`pages
      ensures Valid() && at == old(at) && tables.Keys == old(tables.Keys)
      ensures LeafWritten(old(tables), tables, at, root, v, 0)
      ensures free == old(free) + (if doFree then {FrameOf(old(Pte(root, v)))} else {})
      ensures pages == old(pages) - (if doFree then {FrameOf(old(Pte(root, v)))} else {})
    {
      var r := Walk(root, v * PGSIZE, false);
      var pte := tables[r.value.0][r.value.1];
      if doFree {
        Kfree(FrameOf(pte));
      }
      LeafWriteOk(tables, at, LowSlot(root, v), r.value.1, 0);
      tables := SetEntry(tables, r.value.0, r.value.1, 0);
    }

    /** uvmdealloc */
    method UvmDealloc(root: nat, oldsz: nat, newsz: nat) returns (sz: nat)
      requires Valid() && Slot(root, Top) in at && PageCount(oldsz) <= MAXVPN
      requires newsz < oldsz ==> Leaves(tables, at, root, PageCount(newsz), PageCount(oldsz) - PageCount(newsz))
      requires newsz < oldsz ==>
                OwnPages(tables, at, pages, root, PageCount(newsz), PageCount(oldsz) - PageCount(newsz))
      modifies this`free, this`tables, this`at, this`pages
      ensures Valid() && at == old(at) && tables.Keys == old(tables.Keys)
      ensures sz == if newsz >= oldsz then oldsz else newsz
      ensures newsz >= oldsz ==> tables == old(tables) && free == old(free) && pages == old(pages)
      ensures newsz < oldsz ==>
                && Unmapped(old(tables), old(at), tables, at, root, PageCount(newsz),
                            PageCount(oldsz) - PageCount(newsz))
                && free == old(free) + FramesOf(old(tables), old(at), root, PageCount(newsz),
                                                PageCount(oldsz) - PageCount(newsz))
                && pages == old(pages) - FramesOf(old(tables), old(at), root, PageCount(newsz),
                                                  PageCount(oldsz) - PageCount(newsz))
    {
      if newsz >= oldsz { return oldsz; }
      if PageCount(newsz) < PageCount(oldsz) {
        UvmUnmap(root, PageCount(newsz), PageCount(oldsz) - PageCount(newsz), true);
      }
      sz := newsz;
    }

    ghost function Now(): Mem
      reads this
    {
      Mem(free, tables, at, pages)
    }

    /** One page of uvmalloc and uvmcopy: kalloc, fill, mappages; kfree if that fails. */
    method AddPage(root: nat, v: nat, content: Page, perm: nat) returns (ok: bool, ghost f: nat)
      requires Valid() && Slot(root, Top) in at && v < MAXVPN && perm < 1024 && |content| == PGSIZE
      requires Pte(root, v) == 0
      modifies this`free, this`tables, this`at, this`pages
      ensures Valid() && old(at.Keys) <= at.Keys
      ensures ok ==>
                f in old(free) && pages == old(pages)[f := content] && Grew(old(free) - {f}, old(tables), free, tables)
      ensures ok ==> Mapped(old(tables), old(at), tables, at, root, v, [MakePte(f, perm)])
      ensures !ok ==> SameMemory(old(Now()), Now()) && |free| <= 1
    {
      var mem := Kalloc();
      if mem.None? { return false, 0; }
      f := mem.value;
      pages := pages[mem.value := content];
      ghost var done;
      ok, done := MapPages(root, v, 1, mem.value, perm);
      if !ok {
        Kfree(mem.value);
      } else {
        assert Entries(f, perm, 1) == [MakePte(f, perm)];
      }
    }

    /** uvmdealloc on the way out of a failed uvmalloc. */
    method TakeBack(root: nat, a: nat, v0: nat, ghost m0: Mem, ghost es: seq<nat>, ghost fs: seq<nat>,
                    ghost cs: seq<Page>)
      requires Valid() && Slot(root, Top) in at && a == (v0 + |fs|) * PGSIZE && v0 + |fs| <= MAXVPN
      requires Added(m0, Now(), root, v0, es, fs, cs) && m0.free !! m0.pages.Keys
      requires NoPages(m0.tables, m0.at, root, v0, |fs|)
      modifies this`free, this`tables, this`at, this`pages
      ensures Valid() && SameMemory(m0, Now()) && |free| <= |old(free)| + |fs|
    {
      hide Ok, Added, Lookup, SameMemory, Leaves, OwnPages, FramesOf, NoPages, Unmapped, PageCount;
      ghost var m1 := Now();
      PageStep(v0, v0 * PGSIZE);
      PageStep(v0 + |fs|, a);
      CanUnmap(m0, m1, root, v0, es, fs, cs);
      NoneUnmapped(m1, root, v0);
      ElemsCount(free, fs);
      var _ := UvmDealloc(root, a, v0 * PGSIZE);
      assert |fs| == 0 ==> Elems(fs) == {};
      UnmapRestores(m0, m1, Now(), root, v0, es, fs, cs);
    }

    /** uvmalloc: maps fresh zeroed pages for the growth from oldsz to newsz, or fails and leaves every
        translation and every data page as it was, all frames free again that did not become tables. It
        fails only when no more frames are left than the pages asked for. */
    method UvmAlloc(root: nat, oldsz: nat, newsz: nat, xperm: nat) returns (sz: nat, ghost ok: bool, ghost fs: seq<nat>)
      requires Valid() && Slot(root, Top) in at && PageCount(newsz) <= MAXVPN
      requires xperm in {0, PTE_W, PTE_X, PTE_W + PTE_X}
      requires oldsz <= newsz ==> NoPages(tables, at, root, PageCount(oldsz), PageCount(newsz) - PageCount(oldsz))
      modifies this`free, this`tables, this`at, this`pages
      ensures Valid()
      ensures newsz < oldsz ==> sz == oldsz && Now() == old(Now())
      ensures newsz >= oldsz && ok ==>
                && sz == newsz && |fs| == PageCount(newsz) - PageCount(oldsz)
                && Added(old(Now()), Now(), root, PageCount(oldsz), PtesFor(fs, PTE_R + PTE_U + xperm), fs,
                         ZeroPages(|fs|))
                && forall va: nat :: PageCount(oldsz) * PGSIZE <= va < PageCount(newsz) * PGSIZE ==>
                     NewByte(Now(), root, va, xperm)
      ensures newsz >= oldsz && !ok ==>
                && sz == 0 && SameMemory(old(Now()), Now())
                && |free| <= PageCount(newsz) - PageCount(oldsz)
    {
      hide Ok, Added, SameMemory, Lookup, PtesFor, ZeroPages, NoPages, MakePte, Mapped, Grew, PageCount;
      fs, ok := [], true;
      if newsz < oldsz { return oldsz, true, []; }
      var v0 := PageCount(oldsz);
      ghost var n, m0 := PageCount(newsz) - v0, Now();
      PageMono(oldsz, newsz);
      NothingAdded(m0, root, v0);
      var a := v0 * PGSIZE;
      var perm := PTE_R + PTE_U + xperm;
      PageStep(v0, newsz);
      while a < newsz
        invariant Valid() && Slot(root, Top) in at
        invariant a == (v0 + |fs|) * PGSIZE && |fs| <= n && (a < newsz <==> |fs| < n)
        invariant Added(m0, Now(), root, v0, PtesFor(fs, perm), fs, ZeroPages(|fs|))
        decreases n - |fs|
      {
        ghost var m1, es, cs := Now(), PtesFor(fs, perm), ZeroPages(|fs|);
        AddedNext(m0, m1, root, v0, es, fs, cs, n);
        var done: bool;
        ghost var f: nat;
        done, f := AddPage(root, a / PGSIZE, ZeroPage(), perm);
        if !done {
          AddedStill(m0, m1, Now(), root, v0, es, fs, cs);
          FewerPages(m0, root, v0, |fs|, n);
          TakeBack(root, a, v0, m0, es, fs, cs);
          return 0, false, fs;
        }
        AddedOneMore(m0, m1, Now(), root, v0, es, fs, cs, f, perm, ZeroPage());
        ZeroPagesSnoc(|fs|);
        PtesForSnoc(fs, f, perm);
        a := a + PGSIZE;
        fs := fs + [f];
        PageStep(v0 + |fs|, newsz);
      }
      NewBytes(m0, Now(), root, v0, fs, xperm);
      sz := newsz;
    }

    /** The error exit of uvmcopy. */
    method UndoCopy(dst: nat, i: nat, ghost m0: Mem, ghost es: seq<nat>, ghost fs: seq<nat>, ghost cs: seq<Page>)
      requires Valid() && Slot(dst, Top) in at && i == |fs| * PGSIZE && |fs| <= MAXVPN
      requires Added(m0, Now(), dst, 0, es, fs, cs) && m0.free !! m0.pages.Keys
      requires NoPages(m0.tables, m0.at, dst, 0, |fs|)
      modifies this`free, this`tables, this`at, this`pages
      ensures Valid() && SameMemory(m0, Now()) && |free| <= |old(free)| + |fs|
    {
      hide Ok, Added, Lookup, SameMemory, Leaves, OwnPages, FramesOf, NoPages, Unmapped;
      ghost var m1 := Now();
      CanUnmap(m0, m1, dst, 0, es, fs, cs);
      ElemsCount(free, fs);
      UvmUnmap(dst, 0, i / PGSIZE, true);
      UnmapRestores(m0, m1, Now(), dst, 0, es, fs, cs);
    }

    /** uvmcopy: on success every page of `src` has a copy in `dst` with the same flags in a frame of its
        own; on failure every translation and data page is as it was. */
    method UvmCopy(src: nat, dst: nat, sz: nat) returns (ok: bool, ghost fs: seq<nat>)
      requires Valid() && Slot(src, Top) in at && Slot(dst, Top) in at && PageCount(sz) <= MAXVPN
      requires Leaves(tables, at, src, 0, PageCount(sz)) && OnPages(tables, at, pages, src, 0, PageCount(sz))
      requires NoPages(tables, at, dst, 0, PageCount(sz))
      modifies this`free, this`tables, this`at, this`pages
      ensures Valid()
      ensures ok ==>
                && |fs| == PageCount(sz)
                && Added(old(Now()), Now(), dst, 0, CopyPtes(old(Now()), src, fs), fs,
                         Contents(old(Now()), src, PageCount(sz)))
                && forall va: nat :: va < PageCount(sz) * PGSIZE ==> SameByte(old(Now()), src, Now(), dst, va)
      ensures !ok ==> SameMemory(old(Now()), Now()) && |free| <= PageCount(sz)
    {
      hide Ok, Added, SameMemory, Lookup, CopyPtes, Contents, Content, Leaves, OnPages, NoPages, MakePte, Mapped,
           Grew, PageCount,
           HasV, FrameOf, FlagsOf;
      fs := [];
      ghost var n, m0 := PageCount(sz), Now();
      var i := 0;
      NothingAdded(m0, dst, 0);
      PageStep(0, sz);
      while i < sz
        invariant Valid() && Slot(src, Top) in at && Slot(dst, Top) in at
        invariant i == |fs| * PGSIZE && |fs| <= n && (i < sz <==> |fs| < n)
        invariant Added(m0, Now(), dst, 0, CopyPtes(m0, src, fs), fs, Contents(m0, src, |fs|))
        decreases n - |fs|
      {
        ghost var m1, es, cs := Now(), CopyPtes(m0, src, fs), Contents(m0, src, |fs|);
        AddedNext(m0, m1, dst, 0, es, fs, cs, n);
        SourceStays(m0, m1, src, dst, es, fs, cs, n);
        var pte := ValidPte(src, i);
        var done: bool;
        ghost var f: nat;
        done, f := AddPage(dst, i / PGSIZE, pages[FrameOf(pte)], FlagsOf(pte));
        if !done {
          AddedStill(m0, m1, Now(), dst, 0, es, fs, cs);
          FewerPages(m0, dst, 0, |fs|, n);
          UndoCopy(dst, i, m0, es, fs, cs);
          return false, fs;
        }
        AddedOneMore(m0, m1, Now(), dst, 0, es, fs, cs, f, FlagsOf(pte), m1.pages[FrameOf(pte)]);
        CopyPtesSnoc(m0, src, fs, f);
        ContentsSnoc(m0, src, |fs|);
        i := i + PGSIZE;
        fs := fs + [f];
        PageStep(|fs|, sz);
      }
      SameBytes(m0, src, Now(), dst, fs);
      ok := true;
    }

    /** kfree of a page-table page. */
    method KfreeTable(f: nat)
      requires f in tables && f !in free
      modifies this`free, this`tables
      ensures free == old(free) + {f} && tables == old(tables) - {f}
    {
      tables := tables - {f};
      free := free + {f};
    }

    /** freewalk: frees the table at place `s` and every table below it, each once, and nothing else. */
    method FreeWalk(pagetable: nat, ghost s: Slot)
      requires s in at && at[s] == pagetable && Bare(tables, at, s) && free !! tables.Keys
      modifies this`free, this`tables, this`at
      ensures at == old(at) - SlotsUnder(old(at), s)
      ensures tables == old(tables) - FramesAt(old(at), SlotsUnder(old(at), s))
      ensures free == old(free) + FramesAt(old(at), SlotsUnder(old(at), s)) && free !! tables.Keys
      decreases Rank(s)
    {
      hide Bare, FreedSome, SlotsBefore, SlotsUnder, FramesAt, Under, HasV, HasR, HasW, HasX, FrameOf, Child;
      ghost var t0, at0, free0 := tables, at, free;
      FreedNone(t0, at0, s);
      for i := 0 to NPTE
        invariant FreedSome(t0, at0, tables, at, s, i) && free == free0 + FramesAt(at0, SlotsBefore(at0, s, i))
        invariant free !! tables.Keys
      {
        FreedHas(t0, at0, tables, at, s, i);
        var pte := tables[pagetable][i];
        if HasV(pte) && !HasR(pte) && !HasW(pte) && !HasX(pte) {
          ghost var t1, at1, c := tables, at, Child(s, i);
          BareChild(t0, at0, tables, at, s, i);
          FreeWalk(FrameOf(pte), c);
          FreedChild(t0, at0, t1, at1, tables, at, s, i);
          tables := SetEntry(tables, pagetable, i, 0);
        } else {
          assert !HasV(pte);  // the panic "leaf" is not reached
          FreedNoChild(t0, at0, tables, at, s, i);
        }
      }
      FreedAll(t0, at0, tables, at, s);
      KfreeTable(pagetable);
      at := at - {s};
    }

    /** uvmcreate */
    method UvmCreate() returns (r: Option<nat>)
      requires Valid()
      modifies this`free, this`tables, this`at
      ensures Valid() && SameMemory(old(Now()), Now())
      ensures r.None? <==> old(free) == {}
      ensures r.Some? ==> r.value in old(free) && free == old(free) - {r.value}
      ensures r.Some? ==> at == old(at)[Slot(r.value, Top) := r.value] && Slot(r.value, Top) !in old(at)
      ensures r.Some? ==> forall v: nat :: Pte(r.value, v) == 0
    {
      r := Kalloc();
      if r.None? { return; }
      FreshRoot(tables, at, r.value);
      tables := tables[r.value := ZeroTable()];
      at := at[Slot(r.value, Top) := r.value];
    }

    /** uvmfree: returns every data page and every table of `root`, each once, and nothing else. */
    method UvmFree(root: nat, sz: nat)
      requires Valid() && Slot(root, Top) in at && PageCount(sz) <= MAXVPN
      requires Leaves(tables, at, root, 0, PageCount(sz)) && OwnPages(tables, at, pages, root, 0, PageCount(sz))
      requires forall v: nat {:trigger Lookup(tables, at, root, v)} :: v >= PageCount(sz) ==>
                Lookup(tables, at, root, v) == 0
      modifies this`free, this`tables, this`at, this`pages
      ensures Valid()
      ensures at == old(at) - SlotsUnder(old(at), Slot(root, Top))
      ensures tables.Keys == old(tables.Keys) - FramesAt(old(at), SlotsUnder(old(at), Slot(root, Top)))
      ensures pages == old(pages) - FramesOf(old(tables), old(at), root, 0, PageCount(sz))
      ensures free == old(free) + FramesOf(old(tables), old(at), root, 0, PageCount(sz))
                      + FramesAt(old(at), SlotsUnder(old(at), Slot(root, Top)))
      ensures forall rt: nat, v: nat {:trigger Lookup(tables, at, rt, v)} ::
                rt != root ==> Lookup(tables, at, rt, v) == Lookup(old(tables), old(at), rt, v)
    {
      ghost var n, t0 := PageCount(sz), tables;
      NoneUnmapped(Now(), root, 0);
      assert n == 0 ==> FramesOf(tables, at, root, 0, n) == {};
      if sz > 0 {
        UvmUnmap(root, 0, PageCount(sz), true);
      }
      ghost var t1 := tables;
      assert Unmapped(t0, at, t1, at, root, 0, n);
      BareWhenUnmapped(t1, at, root);
      OthersStand(t1, at, root);
      assert NodeOk(t1, at, Slot(root, Top));
      hide Ok, Bare, Lookup, FramesOf, FramesAt, SlotsUnder, Unmapped;
      FreeWalk(root, Slot(root, Top));
    }

    /** copyout: stores the bytes of `src` one after the other at the addresses from `dstva` on, up to the
        first address that is not a writable user address. */
    method CopyOut(root: nat, dstva: nat, src: seq<nat>) returns (ok: bool, ghost done: nat)
      requires Valid() && Slot(root, Top) in at && UserPages(Now(), root)
      modifies this`free, this`tables, this`at, this`pages
      ensures Valid() && free == old(free) && tables == old(tables) && at == old(at)
      ensures WritableFor(old(Now()), root, dstva, |src|, done) && (ok <==> done == |src|)
      ensures pages == Store(old(Now()), root, old(pages), dstva, src[..done])
    {
      hide Ok, Lookup, HasV, HasU, HasW, FrameOf, InOneFrame, Splice, Store;
      ghost var m0 := Now();
      var va, len, p := dstva, |src|, 0;
      StoreNone(m0, root, pages, dstva, src);
      while len > 0
        invariant Valid() && free == m0.free && tables == m0.tables && at == m0.at
        invariant 0 <= p <= p + len == |src| && (len > 0 ==> va == dstva + p)
        invariant forall a: nat {:trigger Writable(m0, root, a)} :: dstva <= a < dstva + p ==> Writable(m0, root, a)
        invariant pages == Store(m0, root, m0.pages, dstva, src[..p])
      {
        var va0 := va - va % PGSIZE;
        AddressPage(va);
        if va0 >= MAXVA { return false, p; }
        var pte := ValidPte(root, va0);
        if pte == 0 || !HasU(pte) || !HasW(pte) { return false, p; }
        var f := FrameOf(pte);
        var n := PGSIZE - (va - va0);
        if n > len { n := len; }
        ChunkInOneFrame(m0, root, va, n);
        WritableOn(m0, root, dstva, p, n);
        StoreNext(m0, root, m0.pages, dstva, src, p, n, f, va % PGSIZE);
        pages := pages[f := Splice(pages[f], va - va0, src[p..p + n])];
        len := len - n;
        p := p + n;
        va := va0 + PGSIZE;
      }
      ok, done := true, p;
    }

    /** copyin: the bytes at the addresses from `srcva` on; fails if one is not a user address. */
    method CopyIn(root: nat, srcva: nat, len: nat) returns (ok: bool, dst: seq<nat>)
      requires Valid() && Slot(root, Top) in at && UserPages(Now(), root)
      modifies this`free, this`tables, this`at
      ensures free == old(free) && tables == old(tables) && at == old(at)
      ensures ReadableFor(old(Now()), root, srcva, len, |dst|) && (ok <==> |dst| == len)
      ensures dst == Load(old(Now()), root, pages, srcva, |dst|)
    {
      hide Ok, Lookup, HasV, HasU, FrameOf, InOneFrame, Load;
      ghost var m0 := Now();
      var va, left := srcva, len;
      dst := [];
      while left > 0
        invariant Valid() && free == m0.free && tables == m0.tables && at == m0.at
        invariant left >= 0 && |dst| + left == len && (left > 0 ==> va == srcva + |dst|)
        invariant forall a: nat {:trigger Readable(m0, root, a)} :: srcva <= a < srcva + |dst| ==> Readable(m0, root, a)
        invariant dst == Load(m0, root, pages, srcva, |dst|)
      {
        var va0 := va - va % PGSIZE;
        AddressPage(va);
        var f := WalkAddr(root, va0);
        if f == 0 { return false, dst; }
        var n := PGSIZE - (va - va0);
        if n > left { n := left; }
        ChunkInOneFrame(m0, root, va, n);
        ReadableOn(m0, root, srcva, |dst|, n);
        LoadChunk(m0, root, pages, srcva, |dst|, n, f, va % PGSIZE);
        dst := dst + pages[f][va - va0..va - va0 + n];
        left := left - n;
        va := va0 + PGSIZE;
      }
      ok := true;
    }

    /** copyout and then copyin of as much at the same address, in an address space whose pages have
        frames of their own: the bytes come back. */
    method CopyOutAndIn(root: nat, va: nat, src: seq<nat>) returns (ok: bool, dst: seq<nat>)
      requires Valid() && Slot(root, Top) in at && UserPages(Now(), root)
      requires src != [] ==> OwnFrames(Now(), root, va, |src|)
      modifies this`free, this`tables, this`at, this`pages
      ensures Valid() && free == old(free) && tables == old(tables) && at == old(at)
      ensures ok <==> forall a: nat :: va <= a < va + |src| ==> Writable(old(Now()), root, a)
      ensures ok ==> dst == src
    {
      hide Ok, Lookup, Load, Store, Writable, Readable, HasV, HasU;
      ghost var m0, done := Now(), 0;
      dst := [];
      ok, done := CopyOut(root, va, src);
      if !ok { return; }
      ghost var m1 := Now();
      StoreKeepsUserPages(m0, root, va, src);
      assert src[..done] == src;
      var back;
      back, dst := CopyIn(root, va, |src|);
      CopiesBack(m0, m1, root, va, src, |dst|);
    }
  }

  /** PGROUNDUP(sz) / PGSIZE */
  function PageCount(sz: nat): (n: nat)
    ensures sz <= n * PGSIZE < sz + PGSIZE
  {
    (sz + PGSIZE - 1) / PGSIZE
  }

  /** The entries that map the frames `fs` with `perm`. */
  ghost function PtesFor(fs: seq<nat>, perm: nat): (es: seq<nat>)
    requires perm < 1024
    ensures |es| == |fs| && forall i :: 0 <= i < |fs| ==> es[i] == MakePte(fs[i], perm)
  {
    if fs == [] then [] else PtesFor(fs[..|fs| - 1], perm) + [MakePte(fs[|fs| - 1], perm)]
  }

  lemma PtesForSnoc(fs: seq<nat>, f: nat, perm: nat)
    requires perm < 1024
    ensures PtesFor(fs + [f], perm) == PtesFor(fs, perm) + [MakePte(f, perm)]
  {
    assert (fs + [f])[..|fs|] == fs;
  }

  lemma ZeroPagesSnoc(n: nat)
    ensures ZeroPages(n + 1) == ZeroPages(n) + [ZeroPage()]
  {
  }

  lemma PageStep(v: nat, sz: nat)
    ensures v * PGSIZE / PGSIZE == v && PageCount(v * PGSIZE) == v && (v * PGSIZE < sz <==> v < PageCount(sz))
  {
  }

  lemma PageMono(oldsz: nat, newsz: nat)
    requires oldsz <= newsz
    ensures PageCount(oldsz) <= PageCount(newsz)
  {
  }

  function ZeroPage(): (p: Page)
    ensures |p| == PGSIZE && forall i :: 0 <= i < PGSIZE ==> p[i] == 0
  {
    seq(PGSIZE, _ => 0)
  }

  ghost function ZeroPages(n: nat): (ps: seq<Page>)
    ensures |ps| == n && forall i :: 0 <= i < n ==> ps[i] == ZeroPage()
  {
    seq(n, _ => ZeroPage())
  }

  /** The byte at `va` is zero, and the user may read it, and write it exactly if `xperm` says so. */
  ghost predicate NewByte(m: Mem, root: nat, va: nat, xperm: nat) {
    && Readable(m, root, va) && Loc(m, root, va).0 in m.pages && Peek(m.pages, Loc(m, root, va)) == 0
    && (Writable(m, root, va) <==> xperm in {PTE_W, PTE_W + PTE_X})
  }

  lemma NewBytes(m0: Mem, m: Mem, root: nat, v0: nat, fs: seq<nat>, xperm: nat)
    requires xperm in {0, PTE_W, PTE_X, PTE_W + PTE_X} && v0 + |fs| <= MAXVPN
    requires Added(m0, m, root, v0, PtesFor(fs, PTE_R + PTE_U + xperm), fs, ZeroPages(|fs|))
    ensures forall va: nat :: v0 * PGSIZE <= va < (v0 + |fs|) * PGSIZE ==> NewByte(m, root, va, xperm)
  {
    hide PtesFor, ZeroPages, ZeroPage, MakePte, HasV, HasU, HasW, FrameOf, Lookup, Added;
    forall va: nat | v0 * PGSIZE <= va < (v0 + |fs|) * PGSIZE ensures NewByte(m, root, va, xperm) {
      PageOf(va, v0, |fs|);
      var i := va / PGSIZE - v0;
      AddedAt(m0, m, root, v0, PtesFor(fs, PTE_R + PTE_U + xperm), fs, ZeroPages(|fs|), i);
      UserPte(fs[i], xperm);
      MakePteParts(fs[i], PTE_R + PTE_U + xperm);
    }
  }

  /** The byte at `va` is the same in both, in different places, and the user may do the same with it. */
  ghost predicate SameByte(m0: Mem, src: nat, m: Mem, dst: nat, va: nat) {
    && Loc(m, dst, va).0 in m.pages && Loc(m, dst, va).0 !in m0.pages
    && Peek(m.pages, Loc(m, dst, va)) == Peek(m0.pages, Loc(m0, src, va))
    && (Readable(m, dst, va) <==> Readable(m0, src, va)) && (Writable(m, dst, va) <==> Writable(m0, src, va))
  }

  lemma SameBytes(m0: Mem, src: nat, m: Mem, dst: nat, fs: seq<nat>)
    requires Added(m0, m, dst, 0, CopyPtes(m0, src, fs), fs, Contents(m0, src, |fs|)) && m0.free !! m0.pages.Keys
    requires Leaves(m0.tables, m0.at, src, 0, |fs|) && OnPages(m0.tables, m0.at, m0.pages, src, 0, |fs|)
    ensures forall va: nat :: va < |fs| * PGSIZE ==> SameByte(m0, src, m, dst, va)
  {
    hide CopyPtes, Contents, SameByte, Added, Leaves, OnPages;
    forall va: nat | va < |fs| * PGSIZE ensures SameByte(m0, src, m, dst, va) {
      SameByteOf(m0, src, m, dst, fs, va);
    }
  }

  lemma SameByteOf(m0: Mem, src: nat, m: Mem, dst: nat, fs: seq<nat>, va: nat)
    requires Added(m0, m, dst, 0, CopyPtes(m0, src, fs), fs, Contents(m0, src, |fs|)) && m0.free !! m0.pages.Keys
    requires Leaves(m0.tables, m0.at, src, 0, |fs|) && OnPages(m0.tables, m0.at, m0.pages, src, 0, |fs|)
    requires va < |fs| * PGSIZE
    ensures SameByte(m0, src, m, dst, va)
  {
    hide CopyPtes, Contents, SameByte, Added, Leaves, OnPages, Lookup, HasV, FrameOf, FlagsOf, MakePte, Content;
    PageBelow(va, |fs|);
    CopiedPage(m0, src, m, dst, fs, va / PGSIZE);
    SameByteAt(m0, src, m, dst, va, fs[va / PGSIZE]);
  }

  /** Page `i` of the copy. */
  lemma CopiedPage(m0: Mem, src: nat, m: Mem, dst: nat, fs: seq<nat>, i: nat)
    requires Added(m0, m, dst, 0, CopyPtes(m0, src, fs), fs, Contents(m0, src, |fs|)) && m0.free !! m0.pages.Keys
    requires Leaves(m0.tables, m0.at, src, 0, |fs|) && OnPages(m0.tables, m0.at, m0.pages, src, 0, |fs|) && i < |fs|
    ensures var e := Lookup(m0.tables, m0.at, src, i);
      && HasV(e) && FrameOf(e) in m0.pages && Lookup(m.tables, m.at, dst, i) == MakePte(fs[i], FlagsOf(e))
      && fs[i] in m.pages && fs[i] !in m0.pages && m.pages[fs[i]] == Content(m0, src, i)
  {
    hide CopyPtes, Contents, Content, Lookup, Added, MakePte, HasV, FrameOf, FlagsOf;
    AddedAt(m0, m, dst, 0, CopyPtes(m0, src, fs), fs, Contents(m0, src, |fs|), i);
    assert 0 + i == i;
  }

  lemma SameByteAt(m0: Mem, src: nat, m: Mem, dst: nat, va: nat, f: nat)
    requires var e := Lookup(m0.tables, m0.at, src, va / PGSIZE);
      HasV(e) && FrameOf(e) in m0.pages && Lookup(m.tables, m.at, dst, va / PGSIZE) == MakePte(f, FlagsOf(e))
    requires f in m.pages && f !in m0.pages && m.pages[f] == Content(m0, src, va / PGSIZE)
    ensures SameByte(m0, src, m, dst, va)
  {
    hide MakePte, HasV, HasU, HasW, FrameOf, FlagsOf, Lookup;
    var e := Lookup(m0.tables, m0.at, src, va / PGSIZE);
    CopiedPte(f, e);
    SameFlags(e, Lookup(m.tables, m.at, dst, va / PGSIZE));
  }

  lemma CopiedPte(f: nat, e: nat)
    requires HasV(e)
    ensures FlagsOf(MakePte(f, FlagsOf(e))) == FlagsOf(e) && FrameOf(MakePte(f, FlagsOf(e))) == f
  {
    FlagBits(e);
    MakePteParts(f, FlagsOf(e));
  }

  lemma PageBelow(va: nat, n: nat)
    requires va < n * PGSIZE
    ensures va / PGSIZE < n
  {
  }

  lemma PageOf(va: nat, v0: nat, n: nat)
    requires v0 * PGSIZE <= va < (v0 + n) * PGSIZE
    ensures v0 <= va / PGSIZE < v0 + n && (v0 + n <= MAXVPN ==> va < MAXVA)
  {
  }

  /** The entries for `n` frames from `f0` on. */
  ghost function Entries(f0: nat, perm: nat, n: nat): (es: seq<nat>)
    requires perm < 1024
    ensures |es| == n && forall i :: 0 <= i < n ==> es[i] == MakePte(f0 + i, perm)
  {
    if n == 0 then [] else Entries(f0, perm, n - 1) + [MakePte(f0 + n - 1, perm)]
  }

  lemma EntriesSnoc(f0: nat, perm: nat, n: nat)
    requires perm < 1024
    ensures Entries(f0, perm, n + 1) == Entries(f0, perm, n) + [MakePte(f0 + n, perm)]
  {
  }
}
