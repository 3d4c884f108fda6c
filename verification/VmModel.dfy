/** Sv39 page tables (RISC-V Privileged Architecture, section 4.4) as kernel/vm.c lays them out:
    three levels of 512-entry tables in physical frames.

    `at` says which frame holds the table at which place of which page table; it is what the entries
    mean, and the lemmas say how single entry writes change it. */
module VmModel {

  const PGSIZE: nat := 4096
  const NPTE: nat := 512
  const MAXVPN: nat := 0x400_0000   // MAXVA / PGSIZE

  /** A place in a page table: the root table, the table for 2^18 pages number i, or the table for
      512 pages number j. */
  datatype Pos = Top | Mid(i: nat) | Low(j: nat)

  datatype Slot = Slot(root: nat, pos: Pos)

  type Tables = map<nat, seq<nat>>
  type Places = map<Slot, nat>

  // ----- Entries: frame number times 1024 plus ten flag bits -----

  const PTE_V: nat := 1
  const PTE_R: nat := 2
  const PTE_W: nat := 4
  const PTE_X: nat := 8
  const PTE_U: nat := 16

  predicate HasV(pte: nat) { pte % 2 == 1 }
  predicate HasR(pte: nat) { pte / 2 % 2 == 1 }
  predicate HasW(pte: nat) { pte / 4 % 2 == 1 }
  predicate HasX(pte: nat) { pte / 8 % 2 == 1 }
  predicate HasU(pte: nat) { pte / 16 % 2 == 1 }

  /** PTE2PA, as a frame number. */
  function FrameOf(pte: nat): nat { pte / 1024 }

  /** PTE_FLAGS */
  function FlagsOf(pte: nat): nat { pte % 1024 }

  /** PA2PTE(pa) | perm | PTE_V for the frame at pa. */
  function MakePte(frame: nat, perm: nat): nat
    requires perm < 1024
  {
    frame * 1024 + (if perm % 2 == 1 then perm else perm + 1)
  }

  lemma PteParts(g: nat, fl: nat)
    requires fl < 1024
    ensures FrameOf(g * 1024 + fl) == g && FlagsOf(g * 1024 + fl) == fl
  {
  }

  lemma PteOdd(g: nat, fl: nat)
    requires fl % 2 == 1
    ensures HasV(g * 1024 + fl)
  {
    var h := 512 * g + fl / 2;
    assert g * 1024 + fl == 2 * h + 1;
  }

  lemma PointerValid(g: nat)
    ensures HasV(g * 1024 + PTE_V) && FrameOf(g * 1024 + PTE_V) == g && FlagsOf(g * 1024 + PTE_V) == PTE_V
  {
    PteParts(g, PTE_V);
    PteOdd(g, PTE_V);
  }

  lemma MakePteParts(frame: nat, perm: nat)
    requires perm < 1024
    ensures FrameOf(MakePte(frame, perm)) == frame && HasV(MakePte(frame, perm))
    ensures FlagsOf(MakePte(frame, perm)) == if perm % 2 == 1 then perm else perm + 1
  {
    var fl := if perm % 2 == 1 then perm else perm + 1;
    PteParts(frame, fl);
    PteOdd(frame, fl);
  }

  lemma PteEven(e: nat, q: nat)
    requires e == q * 1024
    ensures !HasV(e)
  {
    var h := q * 512;
    assert e == 2 * h;
  }

  lemma FlagsOdd(e: nat)
    requires HasV(e) && FlagsOf(e) != PTE_V
    ensures 1 < FlagsOf(e) < 1024
  {
    hide HasV;
    if FlagsOf(e) == 0 { PteEven(e, e / 1024); }
  }

  // ----- The tree -----

  function Child(s: Slot, i: nat): Slot
    requires !s.pos.Low?
  {
    Slot(s.root, match s.pos case Top => Mid(i) case Mid(k) => Low(k * NPTE + i))
  }

  function Parent(s: Slot): Slot
    requires !s.pos.Top?
  {
    Slot(s.root, match s.pos case Mid(_) => Top case Low(j) => Mid(j / NPTE))
  }

  function IndexInParent(s: Slot): nat
    requires !s.pos.Top?
  {
    match s.pos case Mid(i) => i case Low(j) => j % NPTE
  }

  lemma ChildParent(s: Slot, i: nat)
    requires !s.pos.Low? && i < NPTE
    ensures Parent(Child(s, i)) == s && IndexInParent(Child(s, i)) == i
  {
  }

  /** Entry `i` of the table at `s` is valid exactly when there is a table below it, and then points
      to that table. */
  predicate EntryOk(t: Tables, at: Places, s: Slot, i: nat)
    requires s in at && at[s] in t && |t[at[s]]| == NPTE && i < NPTE && !s.pos.Low?
  {
    var e, c := t[at[s]][i], Child(s, i);
    (c in at <==> HasV(e)) && (c in at ==> e == at[c] * 1024 + PTE_V)
  }

  /** The table at `s` exists, has a table above it, and its entries are right. */
  ghost predicate NodeOk(t: Tables, at: Places, s: Slot)
    requires s in at
  {
    && at[s] in t && |t[at[s]]| == NPTE
    && (!s.pos.Top? ==> Parent(s) in at && IndexInParent(s) < NPTE)
    && (s.pos.Top? ==> at[s] == s.root)
    && (!s.pos.Low? ==> forall i: nat {:trigger EntryOk(t, at, s, i)} :: i < NPTE ==> EntryOk(t, at, s, i))
  }

  /** No frame is the table of two places. */
  predicate Single(at: Places, s: Slot, r: Slot)
    requires s in at && r in at
  {
    at[s] == at[r] ==> s == r
  }

  ghost predicate Ok(t: Tables, at: Places) {
    && (forall s {:trigger NodeOk(t, at, s)} :: s in at ==> NodeOk(t, at, s))
    && (forall s, r {:trigger Single(at, s, r)} :: s in at && r in at ==> Single(at, s, r))
  }

  function LowSlot(root: nat, v: nat): Slot {
    Slot(root, Low(v / NPTE))
  }

  function MidSlot(root: nat, v: nat): Slot {
    Slot(root, Mid(v / NPTE / NPTE))
  }

  function IfValid(e: nat): nat {
    if HasV(e) then e else 0
  }

  /** The valid entry for virtual page `v` in the page table at `root`; 0 if there is none. */
  function Lookup(t: Tables, at: Places, root: nat, v: nat): nat {
    var s := LowSlot(root, v);
    if s in at && at[s] in t && |t[at[s]]| == NPTE then IfValid(t[at[s]][v % NPTE]) else 0
  }

  // ----- Writing one leaf entry -----

  function SetEntry(t: Tables, f: nat, i: nat, e: nat): Tables
    requires f in t && i < |t[f]|
  {
    var row: seq<nat> := t[f][i := e];
    t[f := row]
  }

  lemma LeafWriteOk(t: Tables, at: Places, s: Slot, i: nat, e: nat)
    requires Ok(t, at) && s in at && s.pos.Low? && i < NPTE && at[s] in t && |t[at[s]]| == NPTE
    ensures Ok(SetEntry(t, at[s], i, e), at)
  {
    var t' := SetEntry(t, at[s], i, e);
    forall r | r in at
      ensures NodeOk(t', at, r)
    {
      assert NodeOk(t, at, r) && Single(at, s, r);
      if !r.pos.Low? {
        forall j: nat | j < NPTE ensures EntryOk(t', at, r, j) { assert EntryOk(t, at, r, j); }
      }
    }
  }

  /** One leaf write changes the translation of one page of one page table. */
  lemma LeafWriteLookup(t: Tables, at: Places, root: nat, v: nat, e: nat, root': nat, v': nat)
    requires Ok(t, at) && LowSlot(root, v) in at
    ensures at[LowSlot(root, v)] in t && v % NPTE < |t[at[LowSlot(root, v)]]|
    ensures Lookup(SetEntry(t, at[LowSlot(root, v)], v % NPTE, e), at, root', v')
         == if root' == root && v' == v then IfValid(e) else Lookup(t, at, root', v')
  {
    var s, s' := LowSlot(root, v), LowSlot(root', v');
    assert NodeOk(t, at, s);
    if s' in at {
      assert NodeOk(t, at, s') && Single(at, s, s');
    }
  }

  // ----- Adding one table -----

  function ZeroTable(): (z: seq<nat>)
    ensures |z| == NPTE && forall i :: 0 <= i < NPTE ==> z[i] == 0
  {
    seq(NPTE, _ => 0)
  }

  /** A fresh zeroed table in frame `g` below entry `i` of the table at `s`. */
  function AddTable(t: Tables, at: Places, s: Slot, i: nat, g: nat): Tables
    requires s in at && at[s] in t && i < |t[at[s]]| && at[s] != g
  {
    SetEntry(t[g := ZeroTable()], at[s], i, g * 1024 + PTE_V)
  }

  lemma AddTableOk(t: Tables, at: Places, s: Slot, i: nat, g: nat)
    requires Ok(t, at) && s in at && !s.pos.Low? && i < NPTE && g !in t
    requires at[s] in t && |t[at[s]]| == NPTE && !HasV(t[at[s]][i])
    ensures Child(s, i) !in at && Ok(AddTable(t, at, s, i, g), at[Child(s, i) := g])
  {
    var c := Child(s, i);
    assert NodeOk(t, at, s) && EntryOk(t, at, s, i);
    ChildParent(s, i);
    var t', at' := AddTable(t, at, s, i, g), at[c := g];
    forall r | r in at'
      ensures NodeOk(t', at', r)
    {
      AddTableNode(t, at, s, i, g, r);
    }
    forall r, q | r in at' && q in at'
      ensures Single(at', r, q)
    {
      if r in at { assert NodeOk(t, at, r); }
      if q in at { assert NodeOk(t, at, q); }
      if r in at && q in at { assert Single(at, r, q); }
    }
  }

  lemma AddTableNode(t: Tables, at: Places, s: Slot, i: nat, g: nat, r: Slot)
    requires Ok(t, at) && s in at && !s.pos.Low? && i < NPTE && g !in t
    requires at[s] in t && |t[at[s]]| == NPTE && !HasV(t[at[s]][i]) && Child(s, i) !in at
    requires r in at || r == Child(s, i)
    ensures NodeOk(AddTable(t, at, s, i, g), at[Child(s, i) := g], r)
  {
    ChildParent(s, i);
    if r in at {
      OldNode(t, at, s, i, g, r);
    } else {
      NewNode(t, at, s, i, g);
    }
  }

  lemma OldNode(t: Tables, at: Places, s: Slot, i: nat, g: nat, r: Slot)
    requires Ok(t, at) && s in at && !s.pos.Low? && i < NPTE && g !in t && r in at
    requires at[s] in t && |t[at[s]]| == NPTE && !HasV(t[at[s]][i]) && Child(s, i) !in at
    ensures NodeOk(AddTable(t, at, s, i, g), at[Child(s, i) := g], r)
  {
    var t', at' := AddTable(t, at, s, i, g), at[Child(s, i) := g];
    assert NodeOk(t, at, r) && Single(at, s, r);
    hide Ok, EntryOk;
    if !r.pos.Low? {
      forall j: nat | j < NPTE
        ensures EntryOk(t', at', r, j)
      {
        assert EntryOk(t, at, r, j);
        OldEntry(t, at, s, i, g, r, j);
      }
    }
  }

  lemma OldEntry(t: Tables, at: Places, s: Slot, i: nat, g: nat, r: Slot, j: nat)
    requires s in at && !s.pos.Low? && i < NPTE && g !in t && r in at && !r.pos.Low? && j < NPTE && Single(at, s, r)
    requires at[s] in t && |t[at[s]]| == NPTE && Child(s, i) !in at
    requires at[r] in t && |t[at[r]]| == NPTE && EntryOk(t, at, r, j)
    ensures EntryOk(AddTable(t, at, s, i, g), at[Child(s, i) := g], r, j)
  {
    ChildParent(s, i);
    ChildParent(r, j);
    PointerValid(g);
    hide Child, Parent, IndexInParent, HasV;
    var t', at' := AddTable(t, at, s, i, g), at[Child(s, i) := g];
    if r == s && j == i {
      assert t'[at[s]][i] == g * 1024 + PTE_V;
    } else {
      assert Child(r, j) != Child(s, i);
      assert t'[at[r]][j] == t[at[r]][j];
    }
  }

  lemma NoOrphan(t: Tables, at: Places, r: Slot)
    requires Ok(t, at) && !r.pos.Top?
    ensures r in at ==> Parent(r) in at
  {
    if r in at { assert NodeOk(t, at, r); }
  }

  lemma NewNode(t: Tables, at: Places, s: Slot, i: nat, g: nat)
    requires Ok(t, at) && s in at && !s.pos.Low? && i < NPTE && g !in t
    requires at[s] in t && |t[at[s]]| == NPTE && !HasV(t[at[s]][i]) && Child(s, i) !in at
    ensures NodeOk(AddTable(t, at, s, i, g), at[Child(s, i) := g], Child(s, i))
  {
    var c := Child(s, i);
    var t', at' := AddTable(t, at, s, i, g), at[c := g];
    ChildParent(s, i);
    if !c.pos.Low? {
      forall j: nat | j < NPTE
        ensures EntryOk(t', at', c, j)
      {
        ChildParent(c, j);
        NoOrphan(t, at, Child(c, j));
      }
    }
  }

  /** Adding a table changes no translation. */
  lemma AddTableLookup(t: Tables, at: Places, s: Slot, i: nat, g: nat, root: nat, v: nat)
    requires Ok(t, at) && s in at && !s.pos.Low? && i < NPTE && g !in t
    requires at[s] in t && |t[at[s]]| == NPTE && !HasV(t[at[s]][i]) && Child(s, i) !in at
    ensures Lookup(AddTable(t, at, s, i, g), at[Child(s, i) := g], root, v) == Lookup(t, at, root, v)
  {
    var l := LowSlot(root, v);
    if l in at {
      assert NodeOk(t, at, l) && Single(at, s, l);
    }
    assert !HasV(0);
  }

  // ----- Virtual addresses -----

  const MAXVA: nat := MAXVPN * PGSIZE

  /** PX(level, va) */
  function PX(level: nat, va: nat): nat
    requires level <= 2
  {
    var v := va / PGSIZE;
    (if level == 2 then v / NPTE / NPTE else if level == 1 then v / NPTE else v) % NPTE
  }

  /** The table that walk has reached when `level` levels remain. */
  function SlotAt(root: nat, va: nat, level: nat): Slot
    requires level <= 2
  {
    var v := va / PGSIZE;
    if level == 2 then Slot(root, Top) else if level == 1 then MidSlot(root, v) else LowSlot(root, v)
  }

  lemma SlotAtEnds(root: nat, va: nat)
    ensures SlotAt(root, va, 2) == Slot(root, Top) && SlotAt(root, va, 0) == LowSlot(root, va / PGSIZE)
    ensures PX(0, va) == va / PGSIZE % NPTE
  {
  }

  lemma WalkStep(root: nat, va: nat, level: nat)
    requires va < MAXVA && 1 <= level <= 2
    ensures PX(level, va) < NPTE && !SlotAt(root, va, level).pos.Low?
    ensures Child(SlotAt(root, va, level), PX(level, va)) == SlotAt(root, va, level - 1)
  {
    var v := va / PGSIZE;
    assert v < MAXVPN;
    var u := v / NPTE;
    assert u < 131072;
    assert u == u / NPTE * NPTE + u % NPTE;
  }

  /** The entry that walk reads with `level` levels to go. */
  lemma WalkEntry(t: Tables, at: Places, root: nat, va: nat, level: nat)
    requires Ok(t, at) && va < MAXVA && 1 <= level <= 2 && SlotAt(root, va, level) in at
    ensures var s, c := SlotAt(root, va, level), SlotAt(root, va, level - 1);
      && !s.pos.Low? && PX(level, va) < NPTE && Child(s, PX(level, va)) == c
      && at[s] in t && |t[at[s]]| == NPTE && (HasV(t[at[s]][PX(level, va)]) <==> c in at)
      && (c in at ==> FrameOf(t[at[s]][PX(level, va)]) == at[c])
      && (c !in at ==> LowSlot(root, va / PGSIZE) !in at)
  {
    var s := SlotAt(root, va, level);
    WalkStep(root, va, level);
    assert NodeOk(t, at, s) && EntryOk(t, at, s, PX(level, va));
    if SlotAt(root, va, level - 1) in at {
      PointerValid(at[SlotAt(root, va, level - 1)]);
    } else {
      LowNeedsPath(t, at, root, va, level - 1);
    }
  }

  lemma WalkEnd(t: Tables, at: Places, root: nat, va: nat)
    requires Ok(t, at) && LowSlot(root, va / PGSIZE) in at
    ensures var f := at[LowSlot(root, va / PGSIZE)];
      f in t && |t[f]| == NPTE && IfValid(t[f][PX(0, va)]) == Lookup(t, at, root, va / PGSIZE)
  {
    assert NodeOk(t, at, LowSlot(root, va / PGSIZE));
  }

  // ----- Translations before and after -----

  /** Everything kernel/vm.c works on, at one moment. */
  datatype Mem = Mem(free: set<nat>, tables: Tables, at: Places, pages: map<nat, seq<nat>>)

  ghost predicate SameTrans(t: Tables, at: Places, t': Tables, at': Places) {
    forall rt: nat, v: nat {:trigger Lookup(t', at', rt, v)} :: Lookup(t', at', rt, v) == Lookup(t, at, rt, v)
  }

  /** The pages v0, v0+1, ... of `root` have got the entries `es`; nothing else changed. */
  ghost predicate Mapped(t: Tables, at: Places, t': Tables, at': Places, root: nat, v0: nat, es: seq<nat>) {
    forall rt: nat, v: nat {:trigger Lookup(t', at', rt, v)} ::
      Lookup(t', at', rt, v) == if rt == root && v0 <= v < v0 + |es| then es[v - v0] else Lookup(t, at, rt, v)
  }

  /** The n pages from v0 on of `root` have become unmapped; nothing else changed. */
  ghost predicate Unmapped(t: Tables, at: Places, t': Tables, at': Places, root: nat, v0: nat, n: nat) {
    forall rt: nat, v: nat {:trigger Lookup(t', at', rt, v)} ::
      Lookup(t', at', rt, v) == if rt == root && v0 <= v < v0 + n then 0 else Lookup(t, at, rt, v)
  }

  /** The frames the n pages from v0 on are mapped to. */
  function FramesOf(t: Tables, at: Places, root: nat, v0: nat, n: nat): set<nat> {
    set v: nat | v0 <= v < v0 + n :: FrameOf(Lookup(t, at, root, v))
  }

  /** Tables only came from the free frames. */
  predicate Grew(free: set<nat>, t: Tables, free': set<nat>, t': Tables) {
    free' <= free && t'.Keys == t.Keys + (free - free')
  }

  lemma AddTableTrans(t: Tables, at: Places, s: Slot, i: nat, g: nat)
    requires Ok(t, at) && s in at && !s.pos.Low? && i < NPTE && g !in t
    requires at[s] in t && |t[at[s]]| == NPTE && !HasV(t[at[s]][i]) && Child(s, i) !in at
    ensures SameTrans(t, at, AddTable(t, at, s, i, g), at[Child(s, i) := g])
  {
    forall rt: nat, v: nat
      ensures Lookup(AddTable(t, at, s, i, g), at[Child(s, i) := g], rt, v) == Lookup(t, at, rt, v)
    {
      AddTableLookup(t, at, s, i, g, rt, v);
    }
  }

  /** Where a table on the path is missing, so is the last one. */
  lemma LowNeedsPath(t: Tables, at: Places, root: nat, va: nat, level: nat)
    requires Ok(t, at) && va < MAXVA && level <= 1 && SlotAt(root, va, level) !in at
    ensures LowSlot(root, va / PGSIZE) !in at
  {
    NoOrphan(t, at, LowSlot(root, va / PGSIZE));
  }

  // ----- Frames taken and given back -----

  ghost predicate DistinctFrames(fs: seq<nat>) {
    forall i, j {:trigger fs[i], fs[j]} :: 0 <= i < j < |fs| ==> fs[i] != fs[j]
  }

  function Elems(fs: seq<nat>): set<nat> {
    set i | 0 <= i < |fs| :: fs[i]
  }

  /** Of the frames free before, `fs` now are the data pages with contents `cs`, and the others no
      longer free are tables. */
  ghost predicate Taken(free: set<nat>, t: Tables, pages: map<nat, seq<nat>>,
                        free': set<nat>, t': Tables, pages': map<nat, seq<nat>>, fs: seq<nat>, cs: seq<seq<nat>>)
    requires |cs| == |fs|
  {
    && DistinctFrames(fs) && Elems(fs) <= free && free' <= free - Elems(fs)
    && t'.Keys == t.Keys + (free - free' - Elems(fs))
    && pages'.Keys == pages.Keys + Elems(fs)
    && (forall f :: f in pages && f !in Elems(fs) ==> pages'[f] == pages[f])
    && (forall i {:trigger fs[i]} :: 0 <= i < |fs| ==> fs[i] in pages' && pages'[fs[i]] == cs[i])
  }

  lemma ElemsSnoc(fs: seq<nat>, f: nat)
    ensures Elems(fs + [f]) == Elems(fs) + {f}
  {
    var u := fs + [f];
    assert u[|fs|] == f;
    forall x | x in Elems(fs) ensures x in Elems(u) {
      var i :| 0 <= i < |fs| && fs[i] == x;
      assert u[i] == x;
    }
  }

  lemma TakenOneMore(free: set<nat>, t: Tables, pages: map<nat, seq<nat>>,
                     free1: set<nat>, t1: Tables, pages1: map<nat, seq<nat>>, fs: seq<nat>, cs: seq<seq<nat>>,
                     f: nat, c: seq<nat>, free2: set<nat>, t2: Tables)
    requires |cs| == |fs| && Taken(free, t, pages, free1, t1, pages1, fs, cs)
    requires f in free1 && Grew(free1 - {f}, t1, free2, t2) && free !! pages.Keys
    ensures Taken(free, t, pages, free2, t2, pages1[f := c], fs + [f], cs + [c])
  {
    ElemsSnoc(fs, f);
    var us, ds := fs + [f], cs + [c];
    forall i | 0 <= i < |us| ensures us[i] in pages1[f := c] && pages1[f := c][us[i]] == ds[i] {
      if i < |fs| { assert fs[i] in Elems(fs); }
    }
    forall i, j | 0 <= i < j < |us| ensures us[i] != us[j] {
      assert us[i] in Elems(fs);
    }
  }

  /** Giving all data pages back leaves only the growth of tables. */
  lemma TakenGivenBack(free: set<nat>, t: Tables, pages: map<nat, seq<nat>>,
                       free1: set<nat>, t1: Tables, pages1: map<nat, seq<nat>>, fs: seq<nat>, cs: seq<seq<nat>>)
    requires |cs| == |fs| && Taken(free, t, pages, free1, t1, pages1, fs, cs) && free !! pages.Keys
    ensures Grew(free, t, free1 + Elems(fs), t1) && pages1 - Elems(fs) == pages
  {
  }

  // ----- A range of pages mapped, and unmapped again -----

  /** The pages v0 .. v0+n-1 are mapped, as leaves. */
  ghost predicate Leaves(t: Tables, at: Places, root: nat, v0: nat, n: nat) {
    forall v: nat {:trigger Lookup(t, at, root, v)} ::
      v0 <= v < v0 + n ==> HasV(Lookup(t, at, root, v)) && FlagsOf(Lookup(t, at, root, v)) != PTE_V
  }

  /** They are mapped to data pages. */
  ghost predicate OnPages(t: Tables, at: Places, pages: map<nat, seq<nat>>, root: nat, v0: nat, n: nat) {
    forall v: nat {:trigger Lookup(t, at, root, v)} :: v0 <= v < v0 + n ==> FrameOf(Lookup(t, at, root, v)) in pages
  }

  /** They are mapped to data pages, each to its own. */
  ghost predicate OwnPages(t: Tables, at: Places, pages: map<nat, seq<nat>>, root: nat, v0: nat, n: nat) {
    && OnPages(t, at, pages, root, v0, n)
    && (forall v: nat, w: nat {:trigger Lookup(t, at, root, v), Lookup(t, at, root, w)} ::
          v0 <= v < w < v0 + n ==> FrameOf(Lookup(t, at, root, v)) != FrameOf(Lookup(t, at, root, w)))
  }

  ghost predicate NoPages(t: Tables, at: Places, root: nat, v0: nat, n: nat) {
    forall v: nat {:trigger Lookup(t, at, root, v)} :: v0 <= v < v0 + n ==> Lookup(t, at, root, v) == 0
  }

  /** The entries `es` are leaves for the frames `fs`. */
  ghost predicate LeafPtes(es: seq<nat>, fs: seq<nat>) {
    && |es| == |fs|
    && forall i {:trigger es[i]} :: 0 <= i < |es| ==> HasV(es[i]) && FrameOf(es[i]) == fs[i] && FlagsOf(es[i]) != PTE_V
  }

  lemma SameSelf(m: Mem)
    ensures SameTrans(m.tables, m.at, m.tables, m.at) && Grew(m.free, m.tables, m.free, m.tables)
  {
  }

  lemma NoneMapped(m: Mem, root: nat, v0: nat)
    ensures Mapped(m.tables, m.at, m.tables, m.at, root, v0, []) && Grew(m.free, m.tables, m.free, m.tables)
  {
  }

  lemma NextIsFree(m0: Mem, m: Mem, root: nat, v0: nat, es: seq<nat>, n: nat)
    requires Mapped(m0.tables, m0.at, m.tables, m.at, root, v0, es) && NoPages(m0.tables, m0.at, root, v0, n)
    requires |es| < n
    ensures Lookup(m.tables, m.at, root, v0 + |es|) == 0
  {
  }

  lemma GrewTwice(m0: Mem, m1: Mem, m2: Mem)
    requires Grew(m0.free, m0.tables, m1.free, m1.tables) && Grew(m1.free, m1.tables, m2.free, m2.tables)
    ensures Grew(m0.free, m0.tables, m2.free, m2.tables)
  {
  }

  lemma SameTwice(m0: Mem, m1: Mem, m2: Mem)
    requires SameTrans(m0.tables, m0.at, m1.tables, m1.at) && SameTrans(m1.tables, m1.at, m2.tables, m2.at)
    ensures SameTrans(m0.tables, m0.at, m2.tables, m2.at)
  {
    forall rt: nat, v: nat ensures Lookup(m2.tables, m2.at, rt, v) == Lookup(m0.tables, m0.at, rt, v) {
      assert Lookup(m1.tables, m1.at, rt, v) == Lookup(m2.tables, m2.at, rt, v);
    }
  }

  lemma MappedStill(m0: Mem, m1: Mem, m2: Mem, root: nat, v0: nat, es: seq<nat>)
    requires Mapped(m0.tables, m0.at, m1.tables, m1.at, root, v0, es) && SameTrans(m1.tables, m1.at, m2.tables, m2.at)
    ensures Mapped(m0.tables, m0.at, m2.tables, m2.at, root, v0, es)
  {
    forall rt: nat, v: nat
      ensures Lookup(m2.tables, m2.at, rt, v)
           == if rt == root && v0 <= v < v0 + |es| then es[v - v0] else Lookup(m0.tables, m0.at, rt, v)
    {
      assert Lookup(m1.tables, m1.at, rt, v) == Lookup(m2.tables, m2.at, rt, v);
    }
  }

  lemma MappedJoin(m0: Mem, m1: Mem, m2: Mem, root: nat, v0: nat, es: seq<nat>, ds: seq<nat>)
    requires Mapped(m0.tables, m0.at, m1.tables, m1.at, root, v0, es)
    requires Mapped(m1.tables, m1.at, m2.tables, m2.at, root, v0 + |es|, ds)
    ensures Mapped(m0.tables, m0.at, m2.tables, m2.at, root, v0, es + ds)
  {
    forall rt: nat, v: nat
      ensures Lookup(m2.tables, m2.at, rt, v)
           == if rt == root && v0 <= v < v0 + |es + ds| then (es + ds)[v - v0] else Lookup(m0.tables, m0.at, rt, v)
    {
      assert Lookup(m1.tables, m1.at, rt, v) == Lookup(m1.tables, m1.at, rt, v);
    }
  }

  /** One leaf entry has been written. */
  predicate LeafWritten(t: Tables, t': Tables, at: Places, root: nat, v: nat, e: nat) {
    var s := LowSlot(root, v);
    s in at && at[s] in t && |t[at[s]]| == NPTE && t' == SetEntry(t, at[s], v % NPTE, e)
  }

  /** One page mapped by one leaf write. */
  lemma MappedOne(t0: Tables, at0: Places, t1: Tables, t2: Tables, at: Places, root: nat, v: nat, e: nat)
    requires SameTrans(t0, at0, t1, at) && HasV(e) && Ok(t1, at) && LeafWritten(t1, t2, at, root, v, e)
    ensures Mapped(t0, at0, t2, at, root, v, [e])
  {
    forall rt: nat, w: nat
      ensures Lookup(t2, at, rt, w) == if rt == root && v <= w < v + 1 then [e][w - v] else Lookup(t0, at0, rt, w)
    {
      LeafWriteLookup(t1, at, root, v, e, rt, w);
      assert Lookup(t1, at, rt, w) == Lookup(t0, at0, rt, w);
    }
  }

  lemma NoneUnmapped(m: Mem, root: nat, v0: nat)
    ensures Unmapped(m.tables, m.at, m.tables, m.at, root, v0, 0) && FramesOf(m.tables, m.at, root, v0, 0) == {}
  {
  }

  lemma UnmapNext(t0: Tables, at: Places, t1: Tables, pages: map<nat, seq<nat>>, root: nat, v0: nat, k: nat, n: nat)
    requires Unmapped(t0, at, t1, at, root, v0, k) && Leaves(t0, at, root, v0, n) && k < n
    ensures Lookup(t1, at, root, v0 + k) == Lookup(t0, at, root, v0 + k) && HasV(Lookup(t1, at, root, v0 + k))
    ensures OwnPages(t0, at, pages, root, v0, n) ==>
              FrameOf(Lookup(t1, at, root, v0 + k)) in pages - FramesOf(t0, at, root, v0, k)
  {
    assert Lookup(t1, at, root, v0 + k) == Lookup(t0, at, root, v0 + k);
  }

  lemma FramesOneMore(t: Tables, at: Places, root: nat, v0: nat, k: nat)
    ensures FramesOf(t, at, root, v0, k + 1) == FramesOf(t, at, root, v0, k) + {FrameOf(Lookup(t, at, root, v0 + k))}
  {
    assert FrameOf(Lookup(t, at, root, v0 + k)) in FramesOf(t, at, root, v0, k + 1);
  }

  lemma UnmappedOneMore(t0: Tables, t1: Tables, t2: Tables, at: Places, root: nat, v0: nat, k: nat)
    requires Unmapped(t0, at, t1, at, root, v0, k) && Ok(t1, at) && LeafWritten(t1, t2, at, root, v0 + k, 0)
    ensures Unmapped(t0, at, t2, at, root, v0, k + 1)
  {
    forall rt: nat, v: nat
      ensures Lookup(t2, at, rt, v) == if rt == root && v0 <= v < v0 + (k + 1) then 0 else Lookup(t0, at, rt, v)
    {
      LeafWriteLookup(t1, at, root, v0 + k, 0, rt, v);
      assert Lookup(t1, at, rt, v) == if rt == root && v0 <= v < v0 + k then 0 else Lookup(t0, at, rt, v);
    }
  }

  /** Since `m0` the pages v0, v0+1, ... of `root` have been mapped with the entries `es` to frames `fs`,
      free before, holding `cs`. */
  ghost predicate Added(m0: Mem, m: Mem, root: nat, v0: nat, es: seq<nat>, fs: seq<nat>, cs: seq<seq<nat>>) {
    && Mapped(m0.tables, m0.at, m.tables, m.at, root, v0, es)
    && LeafPtes(es, fs) && |cs| == |fs|
    && Taken(m0.free, m0.tables, m0.pages, m.free, m.tables, m.pages, fs, cs)
  }

  /** The i-th of the pages added. */
  lemma AddedAt(m0: Mem, m: Mem, root: nat, v0: nat, es: seq<nat>, fs: seq<nat>, cs: seq<seq<nat>>, i: nat)
    requires Added(m0, m, root, v0, es, fs, cs) && i < |fs|
    ensures |es| == |cs| == |fs| && Lookup(m.tables, m.at, root, v0 + i) == es[i]
    ensures fs[i] in m0.free && fs[i] in m.pages && m.pages[fs[i]] == cs[i]
  {
    assert fs[i] in Elems(fs);
  }

  /** No translation and no data page differs; tables may have been added. */
  ghost predicate SameMemory(m0: Mem, m: Mem) {
    && SameTrans(m0.tables, m0.at, m.tables, m.at) && m.pages == m0.pages
    && Grew(m0.free, m0.tables, m.free, m.tables)
  }

  lemma NothingAdded(m: Mem, root: nat, v0: nat)
    ensures Added(m, m, root, v0, [], [], [])
  {
  }

  lemma AddedOneMore(m0: Mem, m1: Mem, m2: Mem, root: nat, v0: nat, es: seq<nat>, fs: seq<nat>, cs: seq<seq<nat>>,
                     f: nat, perm: nat, c: seq<nat>)
    requires Added(m0, m1, root, v0, es, fs, cs) && m0.free !! m0.pages.Keys
    requires 1 < perm < 1024 && Mapped(m1.tables, m1.at, m2.tables, m2.at, root, v0 + |es|, [MakePte(f, perm)])
    requires f in m1.free && m2.pages == m1.pages[f := c] && Grew(m1.free - {f}, m1.tables, m2.free, m2.tables)
    ensures Added(m0, m2, root, v0, es + [MakePte(f, perm)], fs + [f], cs + [c])
  {
    TakenOneMore(m0.free, m0.tables, m0.pages, m1.free, m1.tables, m1.pages, fs, cs, f, c, m2.free, m2.tables);
    MappedJoin(m0, m1, m2, root, v0, es, [MakePte(f, perm)]);
    MakePteParts(f, perm);
    hide Mapped, Taken, HasV, FrameOf, FlagsOf, MakePte;
    var ds, gs := es + [MakePte(f, perm)], fs + [f];
    forall i | 0 <= i < |ds|
      ensures HasV(ds[i]) && FrameOf(ds[i]) == gs[i] && FlagsOf(ds[i]) != PTE_V
    {
      if i < |es| { assert ds[i] == es[i]; }
    }
  }

  lemma AddedNext(m0: Mem, m: Mem, root: nat, v0: nat, es: seq<nat>, fs: seq<nat>, cs: seq<seq<nat>>, n: nat)
    requires Added(m0, m, root, v0, es, fs, cs) && NoPages(m0.tables, m0.at, root, v0, n) && |es| < n
    ensures Lookup(m.tables, m.at, root, v0 + |es|) == 0
  {
  }

  lemma FewerPages(m0: Mem, root: nat, v0: nat, k: nat, n: nat)
    requires NoPages(m0.tables, m0.at, root, v0, n) && k <= n
    ensures NoPages(m0.tables, m0.at, root, v0, k)
  {
  }

  /** A failed attempt to add one more page changes nothing about the pages added so far. */
  lemma AddedStill(m0: Mem, m1: Mem, m2: Mem, root: nat, v0: nat, es: seq<nat>, fs: seq<nat>, cs: seq<seq<nat>>)
    requires Added(m0, m1, root, v0, es, fs, cs) && SameMemory(m1, m2)
    ensures Added(m0, m2, root, v0, es, fs, cs)
  {
    MappedStill(m0, m1, m2, root, v0, es);
  }

  /** Pages just mapped to frames just taken can be unmapped and freed. */
  lemma CanUnmap(m0: Mem, m: Mem, root: nat, v0: nat, es: seq<nat>, fs: seq<nat>, cs: seq<seq<nat>>)
    requires Added(m0, m, root, v0, es, fs, cs)
    ensures Leaves(m.tables, m.at, root, v0, |fs|) && OwnPages(m.tables, m.at, m.pages, root, v0, |fs|)
    ensures FramesOf(m.tables, m.at, root, v0, |fs|) == Elems(fs)
  {
    forall v: nat | v0 <= v < v0 + |fs|
      ensures HasV(Lookup(m.tables, m.at, root, v)) && FlagsOf(Lookup(m.tables, m.at, root, v)) != PTE_V
      ensures FrameOf(Lookup(m.tables, m.at, root, v)) == fs[v - v0] && fs[v - v0] in m.pages
    {
      assert Lookup(m.tables, m.at, root, v) == es[v - v0];
    }
    forall f | f in Elems(fs)
      ensures f in FramesOf(m.tables, m.at, root, v0, |fs|)
    {
      var i: nat :| i < |fs| && fs[i] == f;
      assert FrameOf(Lookup(m.tables, m.at, root, v0 + i)) == f;
    }
  }

  /** Unmapping and freeing what was added where nothing was restores everything but the tables. */
  lemma UnmapRestores(m0: Mem, m1: Mem, m2: Mem, root: nat, v0: nat, es: seq<nat>, fs: seq<nat>, cs: seq<seq<nat>>)
    requires Added(m0, m1, root, v0, es, fs, cs) && NoPages(m0.tables, m0.at, root, v0, |fs|)
    requires m0.free !! m0.pages.Keys && m2.tables.Keys == m1.tables.Keys
    requires Unmapped(m1.tables, m1.at, m2.tables, m2.at, root, v0, |fs|)
    requires m2.free == m1.free + Elems(fs) && m2.pages == m1.pages - Elems(fs)
    ensures SameMemory(m0, m2)
  {
    TakenGivenBack(m0.free, m0.tables, m0.pages, m1.free, m1.tables, m1.pages, fs, cs);
    forall rt: nat, v: nat
      ensures Lookup(m2.tables, m2.at, rt, v) == Lookup(m0.tables, m0.at, rt, v)
    {
      assert Lookup(m1.tables, m1.at, rt, v) == Lookup(m1.tables, m1.at, rt, v);
    }
  }

  lemma ElemsCount(free: set<nat>, fs: seq<nat>)
    ensures |free + Elems(fs)| <= |free| + |fs|
  {
    if fs == [] {
      assert free + Elems(fs) == free;
    } else {
      var n := |fs| - 1;
      ElemsCount(free, fs[..n]);
      ElemsSnoc(fs[..n], fs[n]);
      assert fs == fs[..n] + [fs[n]];
      assert free + Elems(fs) == free + Elems(fs[..n]) + {fs[n]};
    }
  }

  // ----- Copying an address space -----

  /** The entries for page 0, 1, ... of `root` with the frames replaced by `fs` and the flags kept. */
  ghost function CopyPtes(m: Mem, root: nat, fs: seq<nat>): (es: seq<nat>)
    ensures |es| == |fs|
    ensures forall i :: 0 <= i < |fs| ==> es[i] == MakePte(fs[i], FlagsOf(Lookup(m.tables, m.at, root, i)))
  {
    if fs == [] then [] else
      var n := |fs| - 1;
      CopyPtes(m, root, fs[..n]) + [MakePte(fs[n], FlagsOf(Lookup(m.tables, m.at, root, n)))]
  }

  /** What page `v` of `root` holds. */
  ghost function Content(m: Mem, root: nat, v: nat): seq<nat> {
    var f := FrameOf(Lookup(m.tables, m.at, root, v));
    if f in m.pages then m.pages[f] else []
  }

  ghost function Contents(m: Mem, root: nat, n: nat): (cs: seq<seq<nat>>)
    ensures |cs| == n && forall i :: 0 <= i < n ==> cs[i] == Content(m, root, i)
  {
    if n == 0 then [] else Contents(m, root, n - 1) + [Content(m, root, n - 1)]
  }

  lemma ContentsSnoc(m: Mem, root: nat, n: nat)
    ensures Contents(m, root, n + 1) == Contents(m, root, n) + [Content(m, root, n)]
  {
  }

  lemma CopyPtesSnoc(m: Mem, root: nat, fs: seq<nat>, f: nat)
    ensures CopyPtes(m, root, fs + [f]) == CopyPtes(m, root,
                                                    fs) + [MakePte(f, FlagsOf(Lookup(m.tables, m.at, root, |fs|)))]
  {
    assert (fs + [f])[..|fs|] == fs;
  }

  /** While pages are added to `dst`, `src` translates as before, to pages that hold what they held. */
  lemma SourceStays(m0: Mem, m: Mem, src: nat, dst: nat, es: seq<nat>, fs: seq<nat>, cs: seq<seq<nat>>, n: nat)
    requires Added(m0, m, dst, 0, es, fs, cs) && |fs| < n && m0.free !! m0.pages.Keys
    requires Leaves(m0.tables, m0.at, src, 0, n) && OnPages(m0.tables, m0.at, m0.pages, src, 0, n)
    requires NoPages(m0.tables, m0.at, dst, 0, n)
    ensures HasV(Lookup(m.tables, m.at, src, |fs|))
    ensures Lookup(m.tables, m.at, src, |fs|) == Lookup(m0.tables, m0.at, src, |fs|)
    ensures 1 < FlagsOf(Lookup(m.tables, m.at, src, |fs|)) < 1024
    ensures FrameOf(Lookup(m.tables, m.at, src, |fs|)) in m.pages
    ensures m.pages[FrameOf(Lookup(m.tables, m.at, src, |fs|))] == Content(m0, src, |fs|)
  {
    var e := Lookup(m0.tables, m0.at, src, |fs|);
    FlagsOdd(e);
    hide Taken, LeafPtes;
    assert !HasV(0);
    assert Lookup(m.tables, m.at, src, |fs|) == e;
  }

  // ----- Freeing the tables of one page table -----

  /** The table at `r` is the one at `s` or lies below it. */
  predicate Under(r: Slot, s: Slot) {
    r == s || (r.root == s.root && match s.pos
                                   case Top => !r.pos.Top?
                                   case Mid(i) => r.pos.Low? && r.pos.j / NPTE == i
                                   case Low(_) => false)
  }

  /** Which child of `s` the table at `r` lies under. */
  function Branch(r: Slot, s: Slot): nat
    requires Under(r, s) && r != s
  {
    if s.pos.Mid? then r.pos.j % NPTE else if r.pos.Mid? then r.pos.i else r.pos.j / NPTE
  }

  lemma BranchIs(r: Slot, s: Slot, i: nat)
    requires i < NPTE && !s.pos.Low?
    ensures Under(r, Child(s, i)) <==> Under(r, s) && r != s && Branch(r, s) == i
  {
  }

  function SlotsUnder(at: Places, s: Slot): set<Slot> {
    set r | r in at && Under(r, s)
  }

  /** Those under one of the first `i` children. */
  function SlotsBefore(at: Places, s: Slot, i: nat): set<Slot> {
    set r | r in at && Under(r, s) && r != s && Branch(r, s) < i
  }

  function FramesAt(at: Places, rs: set<Slot>): set<nat> {
    set r | r in rs && r in at :: at[r]
  }

  /** The table at `r` is right, and holds no valid leaf. */
  ghost predicate BareNode(t: Tables, at: Places, r: Slot, s: Slot)
    requires r in at
  {
    && at[r] in t && |t[at[r]]| == NPTE
    && (r != s && !r.pos.Top? ==> Parent(r) in at && IndexInParent(r) < NPTE)
    && (!r.pos.Low? ==> forall i: nat {:trigger EntryOk(t, at, r, i)} :: i < NPTE ==> EntryOk(t, at, r, i))
    && (r.pos.Low? ==> forall i :: 0 <= i < NPTE ==> !HasV(t[at[r]][i]))
  }

  ghost predicate Bare(t: Tables, at: Places, s: Slot) {
    && (forall r {:trigger BareNode(t, at, r, s)} :: r in at && Under(r, s) ==> BareNode(t, at, r, s))
    && (forall q, r {:trigger Single(at, q, r)} :: q in at && r in at ==> Single(at, q, r))
  }

  /** Freeing the tables under the first `i` children so far, with nothing else touched but the table at `s`. */
  ghost predicate FreedSome(t0: Tables, at0: Places, t: Tables, at: Places, s: Slot, i: nat)
    requires s in at0
  {
    && at == at0 - SlotsBefore(at0, s, i)
    && at0[s] in t && t - {at0[s]} == t0 - FramesAt(at0, SlotsBefore(at0, s, i)) - {at0[s]}
    && at0[s] in t0 && |t[at0[s]]| == |t0[at0[s]]| && forall j :: i <= j < |t[at0[s]]| ==> t[at0[s]][j] == t0[at0[s]][j]
  }

  lemma UnderHasTop(t: Tables, at: Places, r: Slot, s: Slot, i: nat)
    requires Bare(t, at, s) && r in at && s in at && !s.pos.Low? && i < NPTE && Under(r, Child(s, i))
    ensures Child(s, i) in at
  {
    BranchIs(r, s, i);
    assert BareNode(t, at, r, s);
    if r != Child(s, i) {
      assert Parent(r) == Child(s, i);
    }
  }

  lemma BeforeNext(at0: Places, s: Slot, i: nat)
    requires i < NPTE && !s.pos.Low?
    ensures SlotsBefore(at0, s, i + 1) == SlotsBefore(at0, s, i) + SlotsUnder(at0, Child(s, i))
    ensures SlotsBefore(at0, s, i) !! SlotsUnder(at0, Child(s, i))
  {
    forall r: Slot ensures Under(r, Child(s, i)) <==> Under(r, s) && r != s && Branch(r, s) == i {
      BranchIs(r, s, i);
    }
  }

  /** What lies under the next child has not been touched. */
  lemma BareChild(t0: Tables, at0: Places, t: Tables, at: Places, s: Slot, i: nat)
    requires Bare(t0, at0, s) && s in at0 && !s.pos.Low? && i < NPTE && FreedSome(t0, at0, t, at, s, i)
    ensures Bare(t, at, Child(s, i))
    ensures SlotsUnder(at, Child(s, i)) == SlotsUnder(at0, Child(s, i))
  {
    var c := Child(s, i);
    BeforeNext(at0, s, i);
    forall r | r in at && Under(r, c)
      ensures BareNode(t, at, r, c)
    {
      BareBelow(t0, at0, t, at, s, i, r);
    }
    forall q, r | q in at && r in at ensures Single(at, q, r) { assert Single(at0, q, r); }
  }

  lemma BareBelow(t0: Tables, at0: Places, t: Tables, at: Places, s: Slot, i: nat, r: Slot)
    requires Bare(t0, at0, s) && s in at0 && !s.pos.Low? && i < NPTE && FreedSome(t0, at0, t, at, s, i)
    requires r in at && Under(r, Child(s, i)) && SlotsBefore(at0, s, i) !! SlotsUnder(at0, Child(s, i))
    ensures BareNode(t, at, r, Child(s, i))
  {
    var c := Child(s, i);
    BranchIs(r, s, i);
    assert BareNode(t0, at0, r, s);
    SameTable(t0, at0, t, at, s, i, r);
    if r != c {
      assert Parent(r) == c && c !in SlotsBefore(at0, s, i) by { BranchIs(c, s, i); }
    }
    if !r.pos.Low? {
      forall j: nat | j < NPTE
        ensures EntryOk(t, at, r, j)
      {
        assert EntryOk(t0, at0, r, j);
        BranchIs(Child(r, j), s, i);
        assert Under(Child(r, j), c);
      }
    }
  }

  lemma SameTable(t0: Tables, at0: Places, t: Tables, at: Places, s: Slot, i: nat, r: Slot)
    requires Bare(t0, at0, s) && s in at0 && FreedSome(t0, at0, t, at, s, i) && r in at && r != s && at0[r] in t0
    ensures at[r] == at0[r] && at[r] in t && t[at[r]] == t0[at[r]]
  {
    assert Single(at0, r, s);
    forall q | q in SlotsBefore(at0, s, i)
      ensures at0[q] != at0[r]
    {
      assert Single(at0, q, r);
    }
    var u := t - {at0[s]};
    assert at0[r] in u && u[at0[r]] == t0[at0[r]];
  }

  lemma FramesJoin(at: Places, a: set<Slot>, b: set<Slot>)
    ensures FramesAt(at, a + b) == FramesAt(at, a) + FramesAt(at, b)
  {
  }

  lemma DropBoth(t0: Tables, t1: Tables, t2: Tables, f: nat, a: set<nat>, b: set<nat>, row: seq<nat>)
    requires t1 - {f} == t0 - a - {f} && t2 == t1 - b
    ensures t2[f := row] - {f} == t0 - (a + b) - {f}
  {
    var u := t1 - {f};
    assert t2[f := row] - {f} == u - b;
    assert u - b == t0 - (a + b) - {f};
  }

  /** The tables under child `i` freed, and the entry for it cleared. */
  lemma FreedChild(t0: Tables, at0: Places, t1: Tables, at1: Places, t2: Tables, at2: Places, s: Slot, i: nat)
    requires Bare(t0, at0, s) && s in at0 && !s.pos.Low? && i < NPTE && FreedSome(t0, at0, t1, at1, s, i)
    requires i < |t0[at0[s]]|
    requires at2 == at1 - SlotsUnder(at1, Child(s, i))
    requires t2 == t1 - FramesAt(at1, SlotsUnder(at1, Child(s, i)))
    ensures at0[s] in t2 && |t2[at0[s]]| == |t0[at0[s]]|
    ensures FreedSome(t0, at0, SetEntry(t2, at0[s], i, 0), at2, s, i + 1)
    ensures FramesAt(at0, SlotsBefore(at0, s, i + 1))
            == FramesAt(at0, SlotsBefore(at0, s, i)) + FramesAt(at1, SlotsUnder(at1, Child(s, i)))
  {
    var c := Child(s, i);
    BareChild(t0, at0, t1, at1, s, i);
    BeforeNext(at0, s, i);
    var us := SlotsUnder(at0, c);
    FramesJoin(at0, SlotsBefore(at0, s, i), us);
    assert FramesAt(at1, us) == FramesAt(at0, us) by {
      forall r | r in us ensures r in at1 && at1[r] == at0[r] { }
    }
    forall q | q in us
      ensures at0[q] != at0[s]
    {
      BranchIs(q, s, i);
      assert Single(at0, q, s);
    }
    DropBoth(t0, t1, t2, at0[s], FramesAt(at0, SlotsBefore(at0, s, i)), FramesAt(at0, us), t2[at0[s]][i := 0]);
  }

  lemma FreedNoChild(t0: Tables, at0: Places, t1: Tables, at1: Places, s: Slot, i: nat)
    requires Bare(t0, at0, s) && s in at0 && i < NPTE && FreedSome(t0, at0, t1, at1, s, i)
    requires s.pos.Low? || Child(s, i) !in at0
    ensures FreedSome(t0, at0, t1, at1, s, i + 1)
    ensures SlotsBefore(at0, s, i + 1) == SlotsBefore(at0, s, i)
  {
    if !s.pos.Low? {
      BeforeNext(at0, s, i);
      forall r | r in at0 ensures !Under(r, Child(s, i)) {
        if Under(r, Child(s, i)) { UnderHasTop(t0, at0, r, s, i); }
      }
    }
  }

  lemma AllBefore(t: Tables, at: Places, s: Slot)
    requires Bare(t, at, s) && s in at
    ensures SlotsUnder(at, s) == SlotsBefore(at, s, NPTE) + {s}
    ensures FramesAt(at, SlotsUnder(at, s)) == FramesAt(at, SlotsBefore(at, s, NPTE)) + {at[s]}
  {
    forall r | r in at && Under(r, s) && r != s
      ensures Branch(r, s) < NPTE
    {
      assert BareNode(t, at, r, s);
      if s.pos.Top? && r.pos.Low? { assert BareNode(t, at, Parent(r), s); }
    }
    FramesJoin(at, SlotsBefore(at, s, NPTE), {s});
  }

  lemma FreedNone(t: Tables, at: Places, s: Slot)
    requires Bare(t, at, s) && s in at
    ensures FreedSome(t, at, t, at, s, 0) && FramesAt(at, SlotsBefore(at, s, 0)) == {}
  {
    assert BareNode(t, at, s, s);
    assert SlotsBefore(at, s, 0) == {};
  }

  lemma FreedAll(t0: Tables, at0: Places, t: Tables, at: Places, s: Slot)
    requires Bare(t0, at0, s) && s in at0 && FreedSome(t0, at0, t, at, s, NPTE)
    ensures at - {s} == at0 - SlotsUnder(at0, s) && at0[s] in t
    ensures t - {at0[s]} == t0 - FramesAt(at0, SlotsUnder(at0, s))
    ensures FramesAt(at0, SlotsUnder(at0, s)) == FramesAt(at0, SlotsBefore(at0, s, NPTE)) + {at0[s]}
  {
    AllBefore(t0, at0, s);
  }

  /** Entry `i` of the table at `s` when its turn comes: a pointer if there is a table below, else not valid. */
  lemma FreedHas(t0: Tables, at0: Places, t: Tables, at: Places, s: Slot, i: nat)
    requires Bare(t0, at0, s) && s in at0 && i < NPTE && FreedSome(t0, at0, t, at, s, i)
    ensures at0[s] in t0 && at0[s] in t && |t0[at0[s]]| == |t[at0[s]]| == NPTE
    ensures s.pos.Low? || Child(s, i) !in at0 ==> !HasV(t[at0[s]][i])
    ensures !s.pos.Low? && Child(s, i) in at0 ==>
              var c, e := Child(s, i), t[at0[s]][i];
              c in at && at[c] == FrameOf(e) && HasV(e) && !HasR(e) && !HasW(e) && !HasX(e) && Rank(c) < Rank(s)
  {
    assert BareNode(t0, at0, s, s);
    if !s.pos.Low? {
      assert EntryOk(t0, at0, s, i);
      if Child(s, i) in at0 {
        BranchIs(Child(s, i), s, i);
        PointerValid(at0[Child(s, i)]);
        PointerNoLeaf(at0[Child(s, i)]);
      }
    }
  }

  lemma PointerNoLeaf(g: nat)
    ensures !HasR(g * 1024 + PTE_V) && !HasW(g * 1024 + PTE_V) && !HasX(g * 1024 + PTE_V)
  {
    assert (g * 1024 + 1) / 2 == 2 * (g * 256);
    assert (g * 1024 + 1) / 4 == 2 * (g * 128);
    assert (g * 1024 + 1) / 8 == 2 * (g * 64);
  }

  function Rank(s: Slot): nat {
    if s.pos.Top? then 2 else if s.pos.Mid? then 1 else 0
  }

  lemma BareWhenUnmapped(t: Tables, at: Places, root: nat)
    requires Ok(t, at) && forall v: nat {:trigger Lookup(t, at, root, v)} :: Lookup(t, at, root, v) == 0
    ensures Bare(t, at, Slot(root, Top)) && FramesAt(at, SlotsUnder(at, Slot(root, Top))) <= t.Keys
  {
    var s := Slot(root, Top);
    forall r | r in at && Under(r, s)
      ensures BareNode(t, at, r, s)
    {
      assert NodeOk(t, at, r);
      if r.pos.Low? {
        forall i | 0 <= i < NPTE
          ensures !HasV(t[at[r]][i])
        {
          assert Lookup(t, at, root, r.pos.j * NPTE + i) == IfValid(t[at[r]][i]);
          assert !HasV(0);
        }
      }
    }
  }

  /** Without the tables of `root` the other page tables stand, and translate as before. */
  lemma OthersStand(t: Tables, at: Places, root: nat)
    requires Ok(t, at)
    ensures var us := SlotsUnder(at, Slot(root, Top)); Ok(t - FramesAt(at, us), at - us)
    ensures var us := SlotsUnder(at, Slot(root, Top));
      forall rt: nat, v: nat :: rt != root ==> Lookup(t - FramesAt(at, us), at - us, rt, v) == Lookup(t, at, rt, v)
  {
    var us := SlotsUnder(at, Slot(root, Top));
    var t', at' := t - FramesAt(at, us), at - us;
    forall r | r in at'
      ensures NodeOk(t', at', r) && t'[at'[r]] == t[at[r]]
    {
      OtherStands(t, at, root, r);
    }
    forall q, r | q in at' && r in at' ensures Single(at', q, r) { assert Single(at, q, r); }
  }

  lemma OtherStands(t: Tables, at: Places, root: nat, r: Slot)
    requires Ok(t, at) && r in at && !Under(r, Slot(root, Top))
    ensures var us := SlotsUnder(at, Slot(root, Top));
      NodeOk(t - FramesAt(at, us), at - us, r) && (t - FramesAt(at, us))[at[r]] == t[at[r]]
  {
    var us := SlotsUnder(at, Slot(root, Top));
    var t', at' := t - FramesAt(at, us), at - us;
    assert NodeOk(t, at, r);
    forall q | q in us ensures at[q] != at[r] { assert Single(at, q, r); }
    if !r.pos.Low? {
      forall j: nat | j < NPTE ensures EntryOk(t', at', r, j) { assert EntryOk(t, at, r, j); }
    }
  }

  /** A fresh empty page table. */
  lemma FreshRoot(t: Tables, at: Places, g: nat)
    requires Ok(t, at) && g !in t
    ensures Slot(g, Top) !in at
    ensures Ok(t[g := ZeroTable()], at[Slot(g, Top) := g])
    ensures SameTrans(t, at, t[g := ZeroTable()], at[Slot(g, Top) := g])
    ensures forall v: nat :: Lookup(t, at, g, v) == 0
  {
    var s := Slot(g, Top);
    if s in at { assert NodeOk(t, at, s); }
    var t', at' := t[g := ZeroTable()], at[s := g];
    forall r | r in at ensures at[r] != g { assert NodeOk(t, at, r); }
    forall r | r in at && !r.pos.Top? ensures r.root != g { RootThere(t, at, r); }
    forall r | r in at'
      ensures NodeOk(t', at', r)
    {
      if r in at { assert NodeOk(t, at, r); }
      if !r.pos.Low? {
        forall j: nat | j < NPTE ensures EntryOk(t', at', r, j) {
          if r in at { assert EntryOk(t, at, r, j); }
        }
      }
    }
    forall q, r | q in at' && r in at' ensures Single(at', q, r) {
      if q in at && r in at { assert Single(at, q, r); }
    }
  }

  lemma RootHere(t: Tables, at: Places, root: nat)
    requires Ok(t, at) && Slot(root, Top) in at
    ensures at[Slot(root, Top)] == root
  {
    assert NodeOk(t, at, Slot(root, Top));
  }

  lemma RootThere(t: Tables, at: Places, r: Slot)
    requires Ok(t, at) && r in at
    ensures Slot(r.root, Top) in at
  {
    NoOrphanTop(t, at, r);
    if r.pos.Low? { NoOrphanTop(t, at, Parent(r)); }
  }

  lemma NoOrphanTop(t: Tables, at: Places, r: Slot)
    requires Ok(t, at) && r in at
    ensures !r.pos.Top? ==> Parent(r) in at
  {
    assert NodeOk(t, at, r);
  }
}
