/** What the hardware makes of the tables: Sv39 address translation (RISC-V Privileged Architecture, section
    4.4), which knows nothing of places, only frames. */
module VmHardware {
  import opened VmModel

  /** Entry `i` of the table in frame `f`. */
  function Fetch(t: Tables, f: nat, i: nat): nat {
    if f in t && i < |t[f]| then t[f][i] else 0
  }

  /** The three fetches of a translation: bits 30 to 38, 21 to 29 and 12 to 20 of the address are the indices,
      bit 0 of an entry says that it is valid, and its bits from 10 on are the next frame. The last entry, or
      0 if one on the way is not valid. */
  function Translate(t: Tables, root: nat, va: nat): nat {
    var top := Fetch(t, root, va / 0x4000_0000 % 0x200);
    if top % 2 == 0 then 0
    else
      var mid := Fetch(t, top / 0x400, va / 0x20_0000 % 0x200);
      if mid % 2 == 0 then 0
      else
        var low := Fetch(t, mid / 0x400, va / 0x1000 % 0x200);
        if low % 2 == 0 then 0 else low
  }

  /** PX takes those bits of the address. */
  lemma IndexBits(va: nat)
    ensures PX(2, va) == va / 0x4000_0000 % 0x200
    ensures PX(1, va) == va / 0x20_0000 % 0x200
    ensures PX(0, va) == va / 0x1000 % 0x200
  {
    var v := va / 0x1000;
    assert va / 0x20_0000 == v / 0x200;
    assert va / 0x4000_0000 == va / 0x20_0000 / 0x200;
  }

  /** The hardware finds the entry that Lookup says. */
  lemma HardwareAgrees(t: Tables, at: Places, root: nat, va: nat)
    requires Ok(t, at) && Slot(root, Top) in at && va < MAXVA
    ensures Translate(t, root, va) == Lookup(t, at, root, va / PGSIZE)
  {
    hide Ok, Lookup, SlotAt, PX, Child;
    IndexBits(va);
    SlotAtEnds(root, va);
    RootHere(t, at, root);
    WalkEntry(t, at, root, va, 2);
    if SlotAt(root, va, 1) in at {
      WalkEntry(t, at, root, va, 1);
      if SlotAt(root, va, 0) in at { WalkEnd(t, at, root, va); }
    }
    if LowSlot(root, va / PGSIZE) !in at { NotThere(t, at, root, va / PGSIZE); }
  }

  lemma NotThere(t: Tables, at: Places, root: nat, v: nat)
    requires LowSlot(root, v) !in at
    ensures Lookup(t, at, root, v) == 0
  {
  }

  /** The permissions of an entry are in its flags. */
  lemma SameFlags(e: nat, e': nat)
    requires FlagsOf(e) == FlagsOf(e')
    ensures HasV(e) == HasV(e') && HasR(e) == HasR(e') && HasW(e) == HasW(e') && HasX(e) == HasX(e')
    ensures HasU(e) == HasU(e')
  {
    FlagBits(e);
    FlagBits(e');
  }

  lemma FlagBits(e: nat)
    ensures var fl := FlagsOf(e);
      && e % 2 == fl % 2 && e / 2 % 2 == fl / 2 % 2 && e / 4 % 2 == fl / 4 % 2 && e / 8 % 2 == fl / 8 % 2
      && e / 16 % 2 == fl / 16 % 2
  {
    LowBits(e, e / 1024, e % 1024);
    HighBits(e, e / 1024, e % 1024);
  }

  lemma LowBits(e: nat, q: nat, fl: nat)
    requires e == 1024 * q + fl
    ensures e % 2 == fl % 2 && e / 2 % 2 == fl / 2 % 2 && e / 4 % 2 == fl / 4 % 2
  {
    assert e / 2 == 512 * q + fl / 2;
    assert e / 4 == 256 * q + fl / 4;
  }

  lemma HighBits(e: nat, q: nat, fl: nat)
    requires e == 1024 * q + fl
    ensures e / 8 % 2 == fl / 8 % 2 && e / 16 % 2 == fl / 16 % 2
  {
    assert e / 8 == 128 * q + fl / 8;
    assert e / 16 == 64 * q + fl / 16;
  }

  lemma EvenPerm(f: nat, perm: nat)
    requires perm < 1024 && perm % 2 == 0
    ensures MakePte(f, perm) == 1024 * f + perm + 1
  {
  }

  /** The permissions of an entry that uvmalloc makes, as the hardware reads them: bit 0 valid, 1 read,
      2 write, 3 execute, 4 user. */
  lemma UserPte(f: nat, xperm: nat)
    requires xperm in {0, PTE_W, PTE_X, PTE_W + PTE_X}
    ensures var e := MakePte(f, PTE_R + PTE_U + xperm);
      && e / 0x400 == f && e % 2 == 1 && e / 2 % 2 == 1 && e / 16 % 2 == 1
      && (e / 4 % 2 == 1 <==> xperm in {PTE_W, PTE_W + PTE_X})
      && (e / 8 % 2 == 1 <==> xperm in {PTE_X, PTE_W + PTE_X})
      && HasV(e) && HasR(e) && HasU(e)
      && (HasW(e) <==> xperm in {PTE_W, PTE_W + PTE_X})
      && (HasX(e) <==> xperm in {PTE_X, PTE_W + PTE_X})
  {
    hide MakePte;
    var e, p := MakePte(f, PTE_R + PTE_U + xperm), PTE_R + PTE_U + xperm + 1;
    MakePteParts(f, PTE_R + PTE_U + xperm);
    EvenPerm(f, p - 1);
    LowBits(e, f, p);
    HighBits(e, f, p);
    assert p == 19 || p == 23 || p == 27 || p == 31;
  }
}
