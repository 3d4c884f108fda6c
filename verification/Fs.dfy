/** The block allocator, block maps and file reads and writes of kernel/fs.c, and the chunking of
    kernel/file.c. `logged` holds the blocks given to log_write in the current transaction. */
module Fs {
  import opened Bytes
  import opened FsLogged
  import opened FsModel

  const MAXOPBLOCKS: nat := 10

  class FileSystem {
    const dataStart: nat
    const bmapStart: nat
    const inodeStart: nat
    var used: seq<bool>
    var blocks: seq<Block>
    var inodes: map<nat, Inode>
    ghost var owner: Owners
    ghost var logged: set<nat>

    ghost function D(): Disk
      reads this
    {
      Disk(used, blocks, inodes)
    }

    /** Where the parts of the file system lie. */
    ghost function G(): Area {
      Area(dataStart, bmapStart, inodeStart)
    }

    ghost predicate Valid()
      reads this
    {
      Inv(D(), owner, dataStart, {}, {}) && AllFilled(D())
    }

    /** BBLOCK */
    function BBlock(b: nat): nat {
      b / BPB + bmapStart
    }

    /** IBLOCK */
    function IBlock(inum: nat): nat {
      inum / IPB + inodeStart
    }

    ghost predicate Full()
      reads this
    {
      forall b :: 0 <= b < |used| ==> used[b]
    }

    /** A file system whose inodes are all empty. */
    constructor (size: nat, dataStart: nat, bmapStart: nat, inodeStart: nat, inums: set<nat>)
      requires 0 < dataStart <= size <= WORD
      ensures Valid() && |used| == size && owner == map[] && logged == {}
      ensures inodes.Keys == inums && forall i :: i in inums ==> Content(D(), i) == []
      ensures forall b :: 0 <= b < size ==> (used[b] <==> b < dataStart)
    {
      this.dataStart, this.bmapStart, this.inodeStart := dataStart, bmapStart, inodeStart;
      used := seq(size, b => b < dataStart);
      blocks := seq(size, _ => ZeroBlock());
      inodes := map i | i in inums :: Empty();
      owner, logged := map[], {};
      new;
      EmptyDisk(D(), dataStart);
    }

    /** balloc: marks and zeroes the first block that was free; 0 when there is none. */
    method Balloc() returns (r: nat)
      requires Inv(D(), owner, dataStart, {}, {})
      modifies this`used, this`blocks, this`logged
      ensures r == 0 <==> old(Full())
      ensures r == 0 ==> D() == old(D()) && logged == old(logged)
      ensures r != 0 ==> r < |old(used)| == |old(blocks)| && !old(used)[r] && D() == Taken(old(D()), r)
      ensures r != 0 ==> forall b :: 0 <= b < r ==> old(used)[b]
      ensures r != 0 ==> logged == old(logged) + {BBlock(r), r}
    {
      assert BitOk(D(), owner, dataStart, {}, 0);
      var b := 0;
      while b < |used|
        invariant b % BPB == 0 && D() == old(D()) && logged == old(logged)
        invariant forall c :: 0 <= c < b && c < |used| ==> used[c]
        decreases |used| + BPB - b
      {
        var bi := 0;
        while bi < BPB && b + bi < |used|
          invariant 0 <= bi <= BPB && D() == old(D()) && logged == old(logged)
          invariant forall c :: 0 <= c < b + bi && c < |used| ==> used[c]
        {
          if !used[b + bi] {
            used := used[b + bi := true];
            LogWrite(BBlock(b));
            assert BBlock(b + bi) == BBlock(b);
            blocks := blocks[b + bi := ZeroBlock()];
            LogWrite(b + bi);
            return b + bi;
          }
          bi := bi + 1;
        }
        b := b + BPB;
      }
      r := 0;
    }

    /** log_write, as far as the size of the transaction goes. */
    method LogWrite(b: nat)
      modifies this`logged
      ensures logged == old(logged) + {b}
    {
      logged := logged + {b};
    }

    /** bfree; the panic "freeing free block" is ruled out. */
    method Bfree(b: nat)
      requires b < |used| && used[b]
      modifies this`used, this`logged
      ensures D() == Unmarked(old(D()), b) && logged == old(logged) + {BBlock(b)}
    {
      used := used[b := false];
      LogWrite(BBlock(b));
    }

    /** The indirect block and the free-map block that marks it. */
    ghost function IndLog(d: Disk, inum: nat): (l: set<nat>)
      ensures |l| <= 2
    {
      var ind := IndBlock(d, inum);
      if ind == 0 then {} else {ind, BBlock(ind)}
    }

    /** Gives slot `ix` of the inode a new block, if there is one. */
    method GrowAddr(inum: nat, ix: nat) returns (addr: nat)
      requires Inv(D(), owner, dataStart, {}, {}) && inum in inodes && ix <= NDIRECT
      requires SlotVal(D(), Slot(inum, ix)) == 0
      modifies this`used, this`blocks, this`inodes, this`owner, this`logged
      ensures Inv(D(), owner, dataStart, {}, {}) && Grows(old(D()), D())
      ensures addr == 0 <==> old(Full())
      ensures addr == 0 ==> D() == old(D()) && owner == old(owner) && logged == old(logged)
      ensures addr != 0 ==>
                addr < |blocks| && SlotVal(D(), Slot(inum, ix)) == addr && logged == old(logged) + {addr, BBlock(addr)}
      ensures addr != 0 ==> forall s {:trigger SlotVal(D(), s)} :: s != Slot(inum, ix) ==>
                SlotVal(D(), s) == SlotVal(old(D()), s)
      ensures Covered(G(), old(D()), D(), old(logged), logged, {inum})
    {
      hide Covered;
      ghost var d0, l0 := D(), logged;
      CoveredSelf(G(), d0, l0, {inum});
      addr := Balloc();
      if addr == 0 { return; }
      CoveredTaken(G(), d0, owner, addr, l0, {inum});
      CoveredAddr(G(), D(), inum, ix, addr, logged, {inum});
      ghost var d1 := D();
      TakenInv(d0, owner, dataStart, addr);
      TakenGrows(d0, owner, dataStart, addr);
      TakenSlots(d0, owner, dataStart, addr, Slot(inum, ix));
      SetAddrPuts(d1, inum, ix, addr);
      PutAddrGrows(d1, inum, ix, addr);
      PutInv(d1, SetAddr(d1, inum, ix, addr), owner, dataStart, Slot(inum, ix), addr);
      var addrs := inodes[inum].addrs[ix := addr];
      inodes := inodes[inum := inodes[inum].(addrs := addrs)];
      owner := owner[addr := Slot(inum, ix)];
      GrowsTwice(d0, d1, D());
      CoveredTwice(G(), d0, d1, D(), l0, logged, logged, {inum});
      forall s | s != Slot(inum, ix) ensures SlotVal(D(), s) == SlotVal(d0, s) {
        TakenSlots(d0, old(owner), dataStart, addr, s);
      }
    }

    /** Gives entry `j` of the indirect block a new block, if there is one. */
    method GrowEntry(inum: nat, j: nat) returns (addr: nat)
      requires Inv(D(), owner, dataStart, {}, {}) && inum in inodes && j < NINDIRECT && IndBlock(D(), inum) != 0
      requires SlotVal(D(), Slot(inum, NDIRECT + 1 + j)) == 0
      modifies this`used, this`blocks, this`owner, this`logged
      ensures Inv(D(), owner, dataStart, {}, {}) && Grows(old(D()), D())
      ensures addr == 0 <==> old(Full())
      ensures addr == 0 ==> D() == old(D()) && owner == old(owner) && logged == old(logged)
      ensures addr != 0 ==> addr < |blocks| && SlotVal(D(), Slot(inum, NDIRECT + 1 + j)) == addr
      ensures addr != 0 ==> logged == old(logged) + {addr, BBlock(addr), IndBlock(old(D()), inum)}
      ensures addr != 0 ==> forall s {:trigger SlotVal(D(), s)} ::
                s != Slot(inum, NDIRECT + 1 + j) ==> SlotVal(D(), s) == SlotVal(old(D()), s)
      ensures Covered(G(), old(D()), D(), old(logged), logged, {inum})
    {
      hide Inv, Uint, SetUint, Grows, SlotVal, Covered;
      ghost var d0, s, l0 := D(), Slot(inum, NDIRECT + 1 + j), logged;
      IndThere(d0, owner, dataStart, {}, inum);
      SlotInData(d0, owner, dataStart, {}, {}, Slot(inum, NDIRECT));
      CoveredSelf(G(), d0, l0, {inum});
      addr := Balloc();
      if addr == 0 {
        GrowsSelf(d0);
        return;
      }
      ghost var d1, l1 := D(), logged;
      CoveredTaken(G(), d0, owner, addr, l0, {inum});
      TakenInv(d0, owner, dataStart, addr);
      TakenGrows(d0, owner, dataStart, addr);
      TakenSlots(d0, owner, dataStart, addr, s);
      TakenSlots(d0, owner, dataStart, addr, Slot(inum, NDIRECT));
      SetEntryPuts(d1, owner, dataStart, {addr}, inum, j, addr);
      PutEntryGrows(d1, owner, dataStart, {addr}, inum, j, addr);
      PutInv(d1, SetEntry(d1, inum, j, addr), owner, dataStart, s, addr);
      var ind := inodes[inum].addrs[NDIRECT];
      CoveredWrote(G(), d1, ind, SetUint(blocks[ind], j, addr), l1, {inum});
      blocks := blocks[ind := SetUint(blocks[ind], j, addr)];
      owner := owner[addr := s];
      LogWrite(ind);
      GrowsTwice(d0, d1, D());
      CoveredTwice(G(), d0, d1, D(), l0, l1, logged, {inum});
      forall r | r != s ensures SlotVal(D(), r) == SlotVal(d0, r) { TakenSlots(d0, old(owner), dataStart, addr, r); }
    }

    /** bmap: the block for block number `bn` of the file, allocated if it was not there; 0 when the disk
        is full. Nothing else of any file changes. */
    method Bmap(inum: nat, bn: nat) returns (addr: nat)
      requires Inv(D(), owner, dataStart, {}, {}) && inum in inodes && bn < MAXFILE
      modifies this`used, this`blocks, this`inodes, this`owner, this`logged
      ensures Inv(D(), owner, dataStart, {}, {}) && Grows(old(D()), D())
      ensures addr == DataBlock(D(), inum, bn) && addr < |blocks| && (addr == 0 ==> Full())
      ensures DataBlock(old(D()), inum, bn) != 0 ==> D() == old(D()) && owner == old(owner) && logged == old(logged)
      ensures forall s {:trigger SlotVal(D(), s)} :: SlotVal(D(), s) != SlotVal(old(D()), s) ==>
                s == Slot(inum, DataIx(bn)) || (s == Slot(inum, NDIRECT) && bn >= NDIRECT)
      ensures logged <= old(logged) + IndLog(D(), inum)
                        + (if DataBlock(old(D()), inum, bn) == 0 && addr != 0 then {addr, BBlock(addr)} else {})
      ensures Covered(G(), old(D()), D(), old(logged), logged, {inum})
    {
      hide Inv, Grows, Uint, Covered;
      ghost var d0, l0 := D(), logged;
      GrowsSelf(d0);
      CoveredSelf(G(), d0, l0, {inum});
      ShapeOf(d0, owner, dataStart);
      if bn < NDIRECT {
        addr := inodes[inum].addrs[bn];
        if addr == 0 {
          addr := GrowAddr(inum, bn);
        } else {
          SlotsApart(d0, owner, dataStart, {}, Slot(inum, bn), Slot(inum, NDIRECT));
        }
        return;
      }
      var j := bn - NDIRECT;
      var ind := inodes[inum].addrs[NDIRECT];
      if ind == 0 {
        ind := GrowAddr(inum, NDIRECT);
        if ind == 0 { return 0; }
      }
      ghost var d1, l1 := D(), logged;
      IndThere(d1, owner, dataStart, {}, inum);
      addr := Uint(blocks[ind], j);
      assert addr == DataBlock(d1, inum, bn);
      if addr == 0 {
        addr := GrowEntry(inum, j);
        GrowsTwice(d0, d1, D());
        CoveredTwice(G(), d0, d1, D(), l0, l1, logged, {inum});
      } else {
        SlotsApart(d1, owner, dataStart, {}, Slot(inum, DataIx(bn)), Slot(inum, NDIRECT));
      }
    }

    /** if (ip->addrs[ix]) { bfree(ip->addrs[ix]); ip->addrs[ix] = 0; } for a direct block. */
    method FreeAddr(inum: nat, ix: nat, ghost o0: Owners)
      requires Inv(D(), owner, dataStart, {}, {}) && inum in inodes && ix < NDIRECT && OthersOwn(o0, owner, inum)
      modifies this`used, this`inodes, this`owner, this`logged
      ensures Inv(D(), owner, dataStart, {}, {}) && |used| == |old(used)| && OthersOwn(o0, owner, inum)
      ensures |old(inodes)[inum].addrs| == NDIRECT + 1
      ensures inodes == old(inodes)[inum := old(inodes)[inum].(addrs := old(inodes)[inum].addrs[ix := 0])]
      ensures Covered(G(), old(D()), D(), old(logged), logged, {inum})
    {
      hide Inv, OthersOwn, Covered;
      ghost var d0, s, l0 := D(), Slot(inum, ix), logged;
      CoveredSelf(G(), d0, l0, {inum});
      ShapeOf(d0, owner, dataStart);
      var addrs := inodes[inum].addrs;
      if addrs[ix] != 0 {
        FreeInv(d0, owner, dataStart, {}, s);
        ghost var none: set<Slot> := {};
        assert none + {s} == {s};
        CoveredUnmarked(G(), d0, addrs[ix], l0, {inum});
        Bfree(addrs[ix]);
        ghost var d1 := D();
        CoveredAddr(G(), d1, inum, ix, 0, logged, {inum});
        CoveredTwice(G(), d0, d1, SetAddr(d1, inum, ix, 0), l0, logged, logged, {inum});
        ClearAddr(D(), inum, ix);
        EmptiedInv(D(), SetAddr(D(), inum, ix, 0), owner - {addrs[ix]}, dataStart, {s}, {s});
        OthersOwnLess(o0, owner, inum, addrs[ix]);
        owner := owner - {addrs[ix]};
        inodes := inodes[inum := inodes[inum].(addrs := addrs[ix := 0])];
      } else {
        assert addrs[ix := 0] == addrs;
      }
    }

    /** The loop of itrunc over the entries of the indirect block. */
    method FreeEntries(inum: nat, ind: nat, ghost o0: Owners)
      requires Inv(D(), owner, dataStart, {}, {}) && IndBlock(D(), inum) == ind != 0 && OthersOwn(o0, owner, inum)
      modifies this`used, this`owner, this`logged
      ensures Inv(D(), owner, dataStart, {}, EntrySlots(inum, NINDIRECT)) && |used| == |old(used)|
      ensures OthersOwn(o0, owner, inum)
      ensures Covered(G(), old(D()), D(), old(logged), logged, {inum})
    {
      hide Inv, OthersOwn, Uint, Covered;
      CoveredSelf(G(), D(), logged, {inum});
      IndThere(D(), owner, dataStart, {}, inum);
      assert EntrySlots(inum, 0) == {};
      for j := 0 to NINDIRECT
        invariant Inv(D(), owner, dataStart, {}, EntrySlots(inum, j)) && |used| == |old(used)|
        invariant OthersOwn(o0, owner, inum)
        invariant Covered(G(), old(D()), D(), old(logged), logged, {inum})
      {
        ghost var d1, s, l1 := D(), Slot(inum, NDIRECT + 1 + j), logged;
        assert EntrySlots(inum, j + 1) == EntrySlots(inum, j) + {s};
        var a := Uint(blocks[ind], j);
        assert a == SlotVal(d1, s);
        if a != 0 {
          FreeInv(d1, owner, dataStart, EntrySlots(inum, j), s);
          CoveredUnmarked(G(), d1, a, l1, {inum});
          Bfree(a);
          CoveredTwice(G(), old(D()), d1, D(), old(logged), l1, logged, {inum});
          OthersOwnLess(o0, owner, inum, a);
          owner := owner - {a};
        } else {
          LooseInv(d1, owner, dataStart, EntrySlots(inum, j), s);
        }
      }
    }

    method FreeIndirect(inum: nat, ind: nat, ghost o0: Owners)
      requires Inv(D(), owner, dataStart, {}, EntrySlots(inum, NINDIRECT)) && OthersOwn(o0, owner, inum)
      requires IndBlock(D(), inum) == ind != 0
      modifies this`used, this`inodes, this`owner, this`logged
      ensures Inv(D(), owner, dataStart, {}, {}) && |used| == |old(used)| && OthersOwn(o0, owner, inum)
      ensures inum in old(inodes) && |old(inodes)[inum].addrs| == NDIRECT + 1
      ensures inodes == old(inodes)[inum := old(inodes)[inum].(addrs := old(inodes)[inum].addrs[NDIRECT := 0])]
      ensures Covered(G(), old(D()), D(), old(logged), logged, {inum})
    {
      hide Covered;
      ghost var s, d0, l0 := Slot(inum, NDIRECT), D(), logged;
      assert IndSlots(inum) == EntrySlots(inum, NINDIRECT) + {s};
      FreeInv(D(), owner, dataStart, EntrySlots(inum, NINDIRECT), s);
      CoveredUnmarked(G(), d0, ind, l0, {inum});
      Bfree(ind);
      ghost var d1 := D();
      CoveredAddr(G(), d1, inum, NDIRECT, 0, logged, {inum});
      CoveredTwice(G(), d0, d1, SetAddr(d1, inum, NDIRECT, 0), l0, logged, logged, {inum});
      ClearIndirect(D(), inum);
      EmptiedInv(D(), SetAddr(D(), inum, NDIRECT, 0), owner - {ind}, dataStart, IndSlots(inum), IndSlots(inum));
      OthersOwnLess(o0, owner, inum, ind);
      owner := owner - {ind};
      var addrs := inodes[inum].addrs[NDIRECT := 0];
      inodes := inodes[inum := inodes[inum].(addrs := addrs)];
    }

    /** The indirect block with everything it lists. */
    method FreeIndirectBlock(inum: nat, ind: nat, ghost o0: Owners, ghost d0: Disk, ghost l0: set<nat>)
      requires Inv(D(), owner, dataStart, {}, {}) && IndBlock(D(), inum) == ind != 0 && OthersOwn(o0, owner, inum)
      requires Covered(G(), d0, D(), l0, logged, {inum})
      modifies this`used, this`inodes, this`owner, this`logged
      ensures Inv(D(), owner, dataStart, {}, {}) && |used| == |old(used)| && OthersOwn(o0, owner, inum)
      ensures inum in old(inodes) && |old(inodes)[inum].addrs| == NDIRECT + 1
      ensures inodes == old(inodes)[inum := old(inodes)[inum].(addrs := old(inodes)[inum].addrs[NDIRECT := 0])]
      ensures Covered(G(), d0, D(), l0, logged, {inum})
    {
      hide Inv, OthersOwn, Uint, Covered;
      ghost var d1, l1 := D(), logged;
      FreeEntries(inum, ind, o0);
      ghost var d2, l2 := D(), logged;
      CoveredTwice(G(), d0, d1, d2, l0, l1, l2, {inum});
      FreeIndirect(inum, ind, o0);
      CoveredTwice(G(), d0, d2, D(), l0, l2, logged, {inum});
    }

    /** The first loop of itrunc. */
    method FreeDirect(inum: nat)
      requires Inv(D(), owner, dataStart, {}, {}) && inum in inodes
      modifies this`used, this`inodes, this`owner, this`logged
      ensures Inv(D(), owner, dataStart, {}, {}) && |used| == |old(used)| && OthersOwn(old(owner), owner, inum)
      ensures inum in inodes && |inodes[inum].addrs| == NDIRECT + 1
      ensures inodes == old(inodes)[inum := old(inodes)[inum].(addrs := inodes[inum].addrs)]
      ensures forall k :: 0 <= k < NDIRECT ==> inodes[inum].addrs[k] == 0
      ensures Covered(G(), old(D()), D(), old(logged), logged, {inum})
    {
      hide Inv, Covered;
      ghost var d0, l0 := D(), logged;
      CoveredSelf(G(), d0, l0, {inum});
      ShapeOf(d0, owner, dataStart);
      for i := 0 to NDIRECT
        invariant Inv(D(), owner, dataStart, {}, {}) && |used| == |d0.used| && OthersOwn(old(owner), owner, inum)
        invariant inum in inodes && inodes == d0.inodes[inum := d0.inodes[inum].(addrs := inodes[inum].addrs)]
        invariant |inodes[inum].addrs| == NDIRECT + 1 && forall k :: 0 <= k < i ==> inodes[inum].addrs[k] == 0
        invariant Covered(G(), d0, D(), l0, logged, {inum})
      {
        ghost var d1, l1 := D(), logged;
        FreeAddr(inum, i, old(owner));
        CoveredTwice(G(), d0, d1, D(), l0, l1, logged, {inum});
      }
    }

    /** itrunc: frees exactly the blocks of the inode; every other file is as it was. Every block changed
        has been logged. */
    method Itrunc(inum: nat)
      requires Valid() && inum in inodes
      modifies this`used, this`inodes, this`owner, this`logged
      ensures Valid() && inodes == old(inodes)[inum := Empty()] && OthersOwn(old(owner), owner, inum)
      ensures |used| == |old(used)|
      ensures forall b: nat :: b < |used| ==>
                (used[b] <==> old(used)[b] && !(b in old(owner) && old(owner)[b].inum == inum))
      ensures forall i :: i in inodes && i != inum ==> Content(D(), i) == Content(old(D()), i)
      ensures Covered(G(), old(D()), D(), old(logged), logged, {})
    {
      hide Inv, Uint, Filled, AllFilled, Covered, OthersOwn, Prefix;
      ghost var d0, o0, l0 := D(), owner, logged;
      FreeDirect(inum);
      var ind := inodes[inum].addrs[NDIRECT];
      if ind != 0 {
        FreeIndirectBlock(inum, ind, o0, d0, l0);
      }
      ghost var d1 := D();
      ResizedInv(d1, owner, dataStart, inum, 0);
      CoveredResized(G(), d1, inum, 0, logged, {inum});
      CoveredTwice(G(), d0, d1, Resized(d1, inum, 0), l0, logged, logged, {inum});
      inodes := inodes[inum := inodes[inum].(size := 0)];
      CoveredUpdate(G(), d0, D(), l0, logged, inum);
      LogWrite(IBlock(inum));
      assert inodes[inum].addrs == Empty().addrs;
      EmptyFiles(d0, D(), inum);
      ExactlyFreed(d0, o0, D(), owner, dataStart, inum);
    }

    /** One round of readi's loop. The block is there, so bmap allocates nothing and does not fail. */
    method ReadBlock(inum: nat, at: nat, m: nat) returns (part: seq<Byte>)
      requires Valid() && inum in inodes && at < at + m <= |Content(D(), inum)| && at % BSIZE + m <= BSIZE
      modifies this`used, this`blocks, this`inodes, this`owner, this`logged
      ensures D() == old(D()) && owner == old(owner) && logged == old(logged)
      ensures part == Content(D(), inum)[at..at + m]
    {
      hide Inv, ByteAt, DataBlock, Grows, Prefix;
      FilledHere(D(), owner, dataStart, inum, at);
      ReadChunk(D(), owner, dataStart, inum, at, m);
      var addr := Bmap(inum, at / BSIZE);
      assert addr != 0;
      part := blocks[addr][at % BSIZE..at % BSIZE + m];
    }

    /** readi into the kernel: exactly the bytes of the file from `off` on; nothing changes. */
    method Readi(inum: nat, off: nat, n: nat) returns (dst: seq<Byte>)
      requires Valid() && inum in inodes && off < WORD && n < WORD
      modifies this`used, this`blocks, this`inodes, this`owner, this`logged
      ensures D() == old(D()) && owner == old(owner) && logged == old(logged)
      ensures dst == if off > |Content(D(), inum)| || off + n >= WORD then []
                     else Content(D(), inum)[off..Min(off + n, |Content(D(), inum)|)]
    {
      hide Inv, ByteAt, DataBlock, Grows, Prefix;
      dst := [];
      if off > inodes[inum].size || (off + n) % WORD < off { return; }
      var n' := if off + n > inodes[inum].size then inodes[inum].size - off else n;
      var tot, at := 0, off;
      ghost var d0 := D();
      while tot < n'
        invariant D() == d0 && owner == old(owner) && logged == old(logged)
        invariant 0 <= tot <= n' && at == off + tot && dst == Content(d0, inum)[off..at]
      {
        var m := Min(n' - tot, BSIZE - at % BSIZE);
        var part := ReadBlock(inum, at, m);
        SliceJoin(Content(d0, inum), off, at, at + m);
        dst := dst + part;
        tot, at := tot + m, at + m;
      }
    }

    /** One round of writei's loop: `ch` goes into one block of the file, if there is or can be one. */
    method WriteBlock(inum: nat, at: nat, ch: seq<Byte>) returns (addr: nat)
      requires Inv(D(), owner, dataStart, {}, {}) && inum in inodes && at / BSIZE < MAXFILE
      requires at % BSIZE + |ch| <= BSIZE
      modifies this`used, this`blocks, this`inodes, this`owner, this`logged
      ensures Inv(D(), owner, dataStart, {}, {})
      ensures addr == 0 ==> Grows(old(D()), D()) && Full()
      ensures addr != 0 ==> Written(old(D()), D(), inum, at, ch) && DataBlock(D(), inum, at / BSIZE) == addr
      ensures logged <= old(logged) + IndLog(D(), inum) + (if addr != 0 then {addr} else {})
                        + (if addr != 0 && DataBlock(old(D()), inum, at / BSIZE) == 0 then {BBlock(addr)} else {})
      ensures IndLog(old(D()), inum) <= IndLog(D(), inum) && inodes.Keys == old(inodes.Keys)
      ensures Covered(G(), old(D()), D(), old(logged), logged, {inum})
    {
      hide Inv, ByteAt, SlotVal, Written, Covered;
      ghost var d0, l0 := D(), logged;
      addr := Bmap(inum, at / BSIZE);
      ghost var d1, l1 := D(), logged;
      assert SlotVal(d0, Slot(inum, NDIRECT)) != 0 ==>
          SlotVal(d1, Slot(inum, NDIRECT)) == SlotVal(d0, Slot(inum, NDIRECT));
      if addr == 0 { return; }
      WriteChunk(d1, owner, dataStart, inum, at, ch);
      WrittenSlots(d1, owner, dataStart, inum, at, ch, Slot(inum, NDIRECT));
      WrittenSlots(d1, owner, dataStart, inum, at, ch, Slot(inum, DataIx(at / BSIZE)));
      GrewThenWritten(d0, d1, Wrote(d1, addr, Splice(d1.blocks[addr], at % BSIZE, ch)), inum, at, ch);
      SlotInData(d1, owner, dataStart, {}, {}, Slot(inum, DataIx(at / BSIZE)));
      CoveredWrote(G(), d1, addr, Splice(d1.blocks[addr], at % BSIZE, ch), l1, {inum});
      blocks := blocks[addr := Splice(blocks[addr], at % BSIZE, ch)];
      LogWrite(addr);
      CoveredTwice(G(), d0, d1, D(), l0, l1, logged, {inum});
    }

    /** writei's loop. */
    method WriteBlocks(inum: nat, off: nat, src: seq<Byte>) returns (tot: nat, ghost w: set<nat>)
      requires Valid() && inum in inodes && off <= inodes[inum].size && off + |src| <= MAXFILE * BSIZE
      modifies this`used, this`blocks, this`inodes, this`owner, this`logged
      ensures Inv(D(), owner, dataStart, {}, {}) && tot <= |src| && (tot < |src| ==> Full())
      ensures Written(old(D()), D(), inum, off, src[..tot])
      ensures inum in old(inodes) && FilledTo(D(), inum, Max(old(inodes)[inum].size, off + tot))
      ensures logged <= old(logged) + w && |w| < MaxLogged(off, |src|)
      ensures Covered(G(), old(D()), D(), old(logged), logged, {inum})
    {
      hide Inv, ByteAt, DataBlock, SlotVal, Written, FilledTo, Filled, AllFilled, IndLog, OnTheWay, NewBlocks,
           Touched, Covered,
           Grows, MaxLogged;
      ghost var d0, l0 := D(), logged;
      CoveredSelf(G(), d0, l0, {inum});
      WriteStarts(d0, owner, dataStart, inum, off);
      tot := 0;
      var at := off;
      ghost var data, maps, count: nat := {}, {}, 0;
      OnTheWayStart(off, |src|);
      while tot < |src|
        invariant tot <= |src| && at == off + tot && inodes.Keys == d0.inodes.Keys
        invariant Inv(D(), owner, dataStart, {}, {}) && Written(d0, D(), inum, off, src[..tot])
        invariant FilledTo(D(), inum, Max(d0.inodes[inum].size, at))
        invariant logged <= l0 + data + maps + IndLog(D(), inum) && |data| <= count && |maps| <= NewBlocks(off, count)
        invariant OnTheWay(off, |src|, tot, count)
        invariant Covered(G(), d0, D(), l0, logged, {inum})
      {
        ghost var d1, l1 := D(), logged;
        InRange(at, |src| - tot);
        var m := Min(|src| - tot, BSIZE - at % BSIZE);
        var addr := WriteBlock(inum, at, src[tot..tot + m]);
        CoveredTwice(G(), d0, d1, D(), l0, l1, logged, {inum});
        if addr == 0 {
          WrittenGrows(d0, d1, D(), inum, off, src[..tot]);
          FilledStays(d1, D(), inum, Max(d0.inodes[inum].size, at));
          break;
        }
        assert src[..tot + m] == src[..tot] + src[tot..tot + m];
        WrittenMore(d0, d1, D(), inum, off, src[..tot], src[tot..tot + m]);
        FilledMore(d1, D(), inum, Max(d0.inodes[inum].size, at), at, src[tot..tot + m]);
        NotNew(d1, inum, d0.inodes[inum].size, off, |src|, tot, count);
        data := data + {addr};
        if DataBlock(d1, inum, at / BSIZE) == 0 { maps := maps + {BBlock(addr)}; }
        OnTheWayStep(off, |src|, tot, count);
        count := count + 1;
        tot, at := tot + m, at + m;
      }
      w := data + maps + IndLog(D(), inum);
      CountLogged(off, |src|, tot, count, data, maps, IndLog(D(), inum));
    }

    /** writei from the kernel: puts the first r bytes of `src` into the file at `off`, all of them unless
        the disk is full; every other file is as it was. At most MaxLogged blocks are logged. */
    method Writei(inum: nat, off: nat, src: seq<Byte>) returns (r: int, ghost w: set<nat>)
      requires Valid() && inum in inodes && off < WORD && |src| < WORD
      modifies this`used, this`blocks, this`inodes, this`owner, this`logged
      ensures Valid() && inodes.Keys == old(inodes.Keys)
      ensures r == -1 <==> off > |Content(old(D()), inum)| || off + |src| > MAXFILE * BSIZE
      ensures r == -1 ==> D() == old(D()) && owner == old(owner) && logged == old(logged)
      ensures r != -1 ==> 0 <= r <= |src| && (r < |src| ==> Full())
      ensures r != -1 ==> Content(D(), inum) == Overwrite(Content(old(D()), inum), off, src[..r])
      ensures forall i :: i in inodes && i != inum ==> Content(D(), i) == Content(old(D()), i)
      ensures logged <= old(logged) + w && |w| <= MaxLogged(off, |src|)
      ensures Covered(G(), old(D()), D(), old(logged), logged, {})
    {
      hide Inv, ByteAt, Written, FilledTo, Filled, Prefix, MaxLogged, Overwrite, Covered;
      ghost var d0, l0 := D(), logged;
      CoveredSelf(G(), d0, l0, {});
      if off > inodes[inum].size || (off + |src|) % WORD < off { return -1, {}; }
      if off + |src| > MAXFILE * BSIZE { return -1, {}; }
      WriteStarts(d0, owner, dataStart, inum, off);
      var tot;
      tot, w := WriteBlocks(inum, off, src);
      WriteDone(d0, D(), owner, dataStart, inum, off, src[..tot]);
      SizesOf(d0, D(), inum, off, src[..tot]);
      ghost var d1 := D();
      CoveredResized(G(), d1, inum, Max(d1.inodes[inum].size, off + tot), logged, {inum});
      CoveredTwice(G(), d0, d1, Resized(d1, inum, Max(d1.inodes[inum].size, off + tot)), l0, logged, logged, {inum});
      if off + tot > inodes[inum].size {
        inodes := inodes[inum := inodes[inum].(size := off + tot)];
      }
      CoveredUpdate(G(), d0, D(), l0, logged, inum);
      LogWrite(IBlock(inum));
      SetSum(w, {IBlock(inum)});
      w := w + {IBlock(inum)};
      r := tot;
    }

    /** writei and then readi of as much at the same offset: the bytes written come back. */
    method WriteThenRead(inum: nat, off: nat, src: seq<Byte>) returns (r: int, dst: seq<Byte>)
      requires Valid() && inum in inodes && off < WORD && |src| < WORD
      modifies this`used, this`blocks, this`inodes, this`owner, this`logged
      ensures Valid()
      ensures r == -1 <==> off > |Content(old(D()), inum)| || off + |src| > MAXFILE * BSIZE
      ensures r != -1 ==> 0 <= r <= |src| && dst == src[..r]
    {
      hide Inv, AllFilled, Prefix, Overwrite, MaxLogged;
      ghost var w;
      r, w := Writei(inum, off, src);
      dst := [];
      if r != -1 {
        ReadBack(Content(old(D()), inum), off, src[..r]);
        dst := Readi(inum, off, r);
      }
    }

    /** One transaction of filewrite. */
    method WriteInOp(inum: nat, off: nat, ch: seq<Byte>) returns (r: int)
      requires Valid() && inum in inodes && off < WORD && |ch| <= 3 * BSIZE
      modifies this`used, this`blocks, this`inodes, this`owner, this`logged
      ensures Valid() && inodes.Keys == old(inodes.Keys) && |logged| <= MAXOPBLOCKS
      ensures r == -1 <==> off > |Content(old(D()), inum)| || off + |ch| > MAXFILE * BSIZE
      ensures r == -1 ==> D() == old(D())
      ensures r != -1 ==> 0 <= r <= |ch| && (r < |ch| ==> Full())
      ensures r != -1 ==> Content(D(), inum) == Overwrite(Content(old(D()), inum), off, ch[..r])
      ensures forall i :: i in inodes && i != inum ==> Content(D(), i) == Content(old(D()), i)
      ensures Covered(G(), old(D()), D(), {}, logged, {})
    {
      hide Inv, AllFilled, Prefix, Overwrite, MaxLogged, Covered;
      logged := {};
      ChunkFits(off, |ch|);
      ghost var w;
      r, w := Writei(inum, off, ch);
      SubsetCount(logged, w);
    }

    /** filewrite to a file open at `off`, by one process alone: the transactions `txs` each fit in the
        log, and together put the first `done` bytes into the file, all of them unless the disk is full
        or the file would become too large. */
    method FileWrite(inum: nat, off: nat,
                     src: seq<Byte>) returns (ret: int, off': nat, ghost done: nat, ghost txs: seq<set<nat>>)
      requires Valid() && inum in inodes && off < WORD && |src| < WORD / 2
      modifies this`used, this`blocks, this`inodes, this`owner, this`logged
      ensures Valid() && inodes.Keys == old(inodes.Keys)
      ensures forall k :: 0 <= k < |txs| ==> |txs[k]| <= MAXOPBLOCKS
      ensures done <= |src| && off' == off + done && ret == if done == |src| then |src| else -1
      ensures done < |src| ==> Full() || off > |Content(old(D()), inum)| || off + |src| > MAXFILE * BSIZE
      ensures done > 0 ==> off <= |Content(old(D()), inum)|
      ensures done > 0 ==> Content(D(), inum) == Overwrite(Content(old(D()), inum), off, src[..done])
      ensures done == 0 ==> Content(D(), inum) == Content(old(D()), inum)
      ensures forall i :: i in inodes && i != inum ==> Content(D(), i) == Content(old(D()), i)
    {
      hide Inv, AllFilled, Prefix, Overwrite, MaxLogged, Covered;
      var max := (MAXOPBLOCKS - 1 - 1 - 2) / 2 * BSIZE;
      ghost var c0 := Content(D(), inum);
      var i := 0;
      off', done, txs := off, 0, [];
      while i < |src|
        invariant 0 <= i == done <= |src| && off' == off + i && Valid() && inodes.Keys == old(inodes.Keys)
        invariant off' < WORD && forall k :: 0 <= k < |txs| ==> |txs[k]| <= MAXOPBLOCKS
        invariant if done == 0 then Content(D(), inum) == c0
                  else off <= |c0| && Content(D(), inum) == Overwrite(c0, off, src[..done])
        invariant forall j :: j in inodes && j != inum ==> Content(D(), j) == Content(old(D()), j)
      {
        var n1 := |src| - i;
        if n1 > max { n1 := max; }
        ghost var c1 := Content(D(), inum);
        var r := WriteInOp(inum, off', src[i..i + n1]);
        if r != -1 { Overwrites(c0, off, src, i, n1, r, c1); }
        if i > 0 { OverwriteSize(c0, off, src[..i]); }
        txs := txs + [logged];
        if r > 0 { off' := off' + r; }
        done := done + if r > 0 then r else 0;
        if r != n1 { break; }
        i := i + r;
      }
      ret := if i == |src| then |src| else -1;
    }
  }

  /** How many blocks a write of n bytes at `off` touches. */
  function Touched(off: nat, n: nat): nat {
    (off % BSIZE + n + BSIZE - 1) / BSIZE
  }

  /** Of the first `count` of these, how many may be new: not the first if the write starts inside it. */
  function NewBlocks(off: nat, count: nat): nat {
    if off % BSIZE != 0 && count > 0 then count - 1 else count
  }

  /** Data blocks, a free-map block for each new one, the indirect block with its free-map block, and the
      inode. */
  function MaxLogged(off: nat, n: nat): nat {
    Touched(off, n) + NewBlocks(off, Touched(off, n)) + 3
  }

  /** After `count` rounds, `tot` of n bytes are written. */
  predicate OnTheWay(off: nat, n: nat, tot: nat, count: nat) {
    && tot <= n && (tot == 0 <==> count == 0)
    && (count > 0 && tot < n ==> off % BSIZE + tot == count * BSIZE)
    && (count > 0 ==> (count - 1) * BSIZE < off % BSIZE + tot)
  }

  lemma OnTheWayStart(off: nat, n: nat)
    ensures OnTheWay(off, n, 0, 0) && NewBlocks(off, 0) == 0
  {
  }

  lemma OnTheWayStep(off: nat, n: nat, tot: nat, count: nat)
    requires OnTheWay(off, n, tot, count) && tot < n
    ensures var m := Min(n - tot, BSIZE - (off + tot) % BSIZE); m > 0 && OnTheWay(off, n, tot + m, count + 1)
  {
    if count > 0 {
      assert off + tot == (off / BSIZE + count) * BSIZE;
      assert (off + tot) % BSIZE == 0;
    }
  }

  lemma InRange(at: nat, n: nat)
    requires n > 0 && at + n <= MAXFILE * BSIZE
    ensures at / BSIZE < MAXFILE && Min(n, BSIZE - at % BSIZE) > 0
  {
  }

  /** A write that starts inside a block finds that block there. */
  lemma NotNew(d: Disk, inum: nat, size: nat, off: nat, n: nat, tot: nat, count: nat)
    requires FilledTo(d, inum, Max(size, off + tot)) && OnTheWay(off, n, tot, count) && off <= size
    ensures count == 0 && off % BSIZE != 0 ==> DataBlock(d, inum, (off + tot) / BSIZE) != 0
    ensures NewBlocks(off, count + 1) == NewBlocks(off, count) + (if count == 0 && off % BSIZE != 0 then 0 else 1)
  {
    if count == 0 && off % BSIZE != 0 {
      assert off / BSIZE * BSIZE < off;
    }
  }

  lemma CountLogged(off: nat, n: nat, tot: nat, count: nat, data: set<nat>, maps: set<nat>, ind: set<nat>)
    requires OnTheWay(off, n, tot, count) && |data| <= count && |maps| <= NewBlocks(off, count) && |ind| <= 2
    ensures |data + maps + ind| < MaxLogged(off, n)
  {
    assert count <= Touched(off, n);
    SetSum(data, maps);
    SetSum(data + maps, ind);
  }

  lemma SetSum(a: set<nat>, b: set<nat>)
    ensures |a + b| <= |a| + |b|
  {
    assert a + b == a + (b - a) && |b - a| <= |b| by { assert b == (b - a) + (b * a); }
  }

  /** A chunk of filewrite fits in a transaction, wherever it starts. */
  lemma ChunkFits(off: nat, n: nat)
    requires n <= 3 * BSIZE
    ensures MaxLogged(off, n) <= MAXOPBLOCKS
  {
  }

  lemma SliceJoin(c: seq<Byte>, a: nat, b: nat, e: nat)
    requires a <= b <= e <= |c|
    ensures c[a..b] + c[b..e] == c[a..e]
  {
  }

  lemma SubsetCount(a: set<nat>, b: set<nat>)
    requires a <= b
    ensures |a| <= |b|
  {
    assert b == a + (b - a);
  }

  /** Byte `i` of an overwritten file. */
  lemma OverwriteAt(c: seq<Byte>, off: nat, ch: seq<Byte>, i: nat)
    requires off <= |c| && i < Max(|c|, off + |ch|)
    ensures |Overwrite(c, off, ch)| == Max(|c|, off + |ch|)
    ensures Overwrite(c, off, ch)[i] == if off <= i < off + |ch| then ch[i - off] else c[i]
  {
  }

  lemma OverwriteSize(c: seq<Byte>, off: nat, ch: seq<Byte>)
    requires off <= |c|
    ensures |Overwrite(c, off, ch)| == Max(|c|, off + |ch|)
  {
  }

  /** Writing on where the last write ended is one write. */
  lemma Overwrites(c0: seq<Byte>, off: nat, src: seq<Byte>, i: nat, n: nat, r: nat, c: seq<Byte>)
    requires r <= n && i + n <= |src| && off + i <= |c|
    requires if i == 0 then c == c0 else off <= |c0| && c == Overwrite(c0, off, src[..i])
    ensures off <= |c0| && Overwrite(c, off + i, src[i..i + n][..r]) == Overwrite(c0, off, src[..i + r])
    ensures r == 0 ==> Overwrite(c, off + i, src[i..i + n][..r]) == c
  {
    var ch := src[i..i + n][..r];
    assert src[..i + r] == src[..i] + ch;
    if i > 0 { OverwriteSize(c0, off, src[..i]); }
  }

  lemma ReadBack(c: seq<Byte>, off: nat, ch: seq<Byte>)
    requires off <= |c|
    ensures off + |ch| <= |Overwrite(c, off, ch)| && Overwrite(c, off, ch)[off..off + |ch|] == ch
  {
    OverwriteSize(c, off, ch);
  }

  function Min(a: nat, b: nat): nat {
    if a < b then a else b
  }
}
