/** The on-disk structure behind kernel/fs.c: which block belongs to which slot of which inode, and the
    bytes a file is made of. */
module FsModel {
  import opened Bytes

  const BSIZE: nat := 1024
  const NDIRECT: nat := 12
  const NINDIRECT: nat := 256
  const MAXFILE: nat := NDIRECT + NINDIRECT
  const NSLOTS: nat := NDIRECT + 1 + NINDIRECT
  const WORD: nat := 0x1_0000_0000   // a uint is less than 2^32

  type Block = seq<Byte>

  datatype Inode = Inode(size: nat, addrs: seq<nat>)

  /** The free map, the blocks and the inodes. */
  datatype Disk = Disk(used: seq<bool>, blocks: seq<Block>, inodes: map<nat, Inode>)

  /** A place for a block number: ix < 12 direct, 12 the indirect block, 13 + j entry j of the indirect
      block. */
  datatype Slot = Slot(inum: nat, ix: nat)

  type Owners = map<nat, Slot>

  // ----- Blocks read as bytes and as numbers -----

  function ZeroBlock(): (z: Block)
    ensures |z| == BSIZE && forall i :: 0 <= i < BSIZE ==> z[i] == 0
  {
    seq(BSIZE, _ => 0)
  }

  function FromBytes(b0: nat, b1: nat, b2: nat, b3: nat): nat {
    b0 + 0x100 * b1 + 0x1_0000 * b2 + 0x100_0000 * b3
  }

  /** The little-endian 32-bit number at index i. */
  function Uint(b: Block, i: nat): (v: nat)
    ensures v < WORD
  {
    if 4 * i + 3 < |b| then FromBytes(b[4 * i], b[4 * i + 1], b[4 * i + 2], b[4 * i + 3]) else 0
  }

  function SetUint(b: Block, i: nat, v: nat): (c: Block)
    requires 4 * i + 3 < |b| && v < WORD
    ensures |c| == |b|
  {
    var b0: Block := b[4 * i := v % 0x100];
    var b1: Block := b0[4 * i + 1 := v / 0x100 % 0x100];
    var b2: Block := b1[4 * i + 2 := v / 0x1_0000 % 0x100];
    var b3: Block := b2[4 * i + 3 := v / 0x100_0000];
    b3
  }

  /** A number has its least significant byte first. */
  lemma LeastFirst(b: Block, i: nat)
    requires 4 * i + 3 < |b|
    ensures Uint(b, i) % 0x100 == b[4 * i] && Uint(b, i) / 0x100 % 0x100 == b[4 * i + 1]
    ensures Uint(b, i) / 0x1_0000 % 0x100 == b[4 * i + 2] && Uint(b, i) / 0x100_0000 == b[4 * i + 3]
  {
    var v, b0, b1, b2, b3 := Uint(b, i), b[4 * i] as int, b[4 * i + 1] as int, b[4 * i + 2] as int, b[4 * i + 3] as int;
    assert v == b0 + 0x100 * (b1 + 0x100 * (b2 + 0x100 * b3));
    assert v / 0x100 == b1 + 0x100 * (b2 + 0x100 * b3);
    assert v / 0x1_0000 == b2 + 0x100 * b3;
  }

  lemma UintSet(b: Block, i: nat, v: nat, j: nat)
    requires 4 * i + 3 < |b| && v < WORD
    ensures Uint(SetUint(b, i, v), j) == if j == i then v else Uint(b, j)
  {
    Bytes4(v);
  }

  lemma Bytes4(v: nat)
    ensures v % 0x100 + 0x100 * (v / 0x100 % 0x100) + 0x1_0000 * (v / 0x1_0000 % 0x100) + 0x100_0000 * (v / 0x100_0000)
              == v
  {
    var v1 := v / 0x100;
    var v2 := v1 / 0x100;
    assert v2 == v / 0x1_0000;
    assert v2 / 0x100 == v / 0x100_0000;
  }

  // ----- Slots -----

  /** What slot `s` holds; 0 if nothing. */
  function SlotVal(d: Disk, s: Slot): nat {
    if s.inum in d.inodes && |d.inodes[s.inum].addrs| == NDIRECT + 1 then
      var addrs := d.inodes[s.inum].addrs;
      if s.ix <= NDIRECT then addrs[s.ix]
      else if s.ix < NSLOTS && 0 < addrs[NDIRECT] < |d.blocks| then Uint(d.blocks[addrs[NDIRECT]], s.ix - NDIRECT - 1)
      else 0
    else 0
  }

  /** The slot for block `bn` of a file. */
  function DataIx(bn: nat): nat {
    if bn < NDIRECT then bn else bn + 1
  }

  function DataBlock(d: Disk, inum: nat, bn: nat): nat {
    SlotVal(d, Slot(inum, DataIx(bn)))
  }

  ghost predicate Shape(d: Disk) {
    && |d.used| == |d.blocks| <= WORD
    && (forall b :: 0 <= b < |d.blocks| ==> |d.blocks[b]| == BSIZE)
    && (forall i :: i in d.inodes ==> |d.inodes[i].addrs| == NDIRECT + 1 && d.inodes[i].size <= MAXFILE * BSIZE)
  }

  /** A block is marked in use exactly when it is metadata, owned, or on its way. */
  predicate BitOk(d: Disk, o: Owners, ds: nat, extra: set<nat>, b: nat)
    requires b < |d.used|
  {
    d.used[b] <==> b < ds || b in o || b in extra
  }

  predicate OwnerOk(d: Disk, o: Owners, ds: nat, loose: set<Slot>, b: nat)
    requires b in o
  {
    ds <= b < |d.used| && o[b].inum in d.inodes && o[b].ix < NSLOTS && o[b] !in loose && SlotVal(d, o[b]) == b
  }

  predicate SlotOk(d: Disk, o: Owners, s: Slot) {
    SlotVal(d, s) != 0 ==> SlotVal(d, s) in o && o[SlotVal(d, s)] == s
  }

  /** Every block is owned by one slot at most and marked exactly when owned. `extra` are blocks allocated
      but not yet put in a slot, `loose` slots whose block has been freed already. */
  ghost predicate Inv(d: Disk, o: Owners, ds: nat, extra: set<nat>, loose: set<Slot>) {
    && Shape(d) && 0 < ds <= |d.used|
    && (forall b: nat {:trigger BitOk(d, o, ds, extra, b)} :: b < |d.used| ==> BitOk(d, o, ds, extra, b))
    && (forall b {:trigger OwnerOk(d, o, ds, loose, b)} :: b in o ==> OwnerOk(d, o, ds, loose, b))
    && (forall s {:trigger SlotOk(d, o, s)} :: s !in loose ==> SlotOk(d, o, s))
    && (forall b :: b in extra ==> b !in o && ds <= b < |d.used|)
  }

  /** All blocks below the size of a file are there. */
  ghost predicate Filled(d: Disk, inum: nat)
    requires inum in d.inodes
  {
    forall bn: nat {:trigger DataBlock(d, inum, bn)} :: bn * BSIZE < d.inodes[inum].size ==> DataBlock(d, inum, bn) != 0
  }

  ghost predicate AllFilled(d: Disk) {
    forall i {:trigger Filled(d, i)} :: i in d.inodes ==> Filled(d, i)
  }

  // ----- balloc -----

  function Taken(d: Disk, b: nat): Disk
    requires b < |d.used| && b < |d.blocks|
  {
    d.(used := d.used[b := true], blocks := d.blocks[b := ZeroBlock()])
  }

  lemma NotASlot(d: Disk, o: Owners, ds: nat, b: nat, s: Slot)
    requires Inv(d, o, ds, {}, {}) && b < |d.used| && !d.used[b]
    ensures b != 0 && SlotVal(d, s) != b
  {
    assert BitOk(d, o, ds, {}, 0) && BitOk(d, o, ds, {}, b);
    assert SlotOk(d, o, s);
  }

  lemma TakenSlots(d: Disk, o: Owners, ds: nat, b: nat, s: Slot)
    requires Inv(d, o, ds, {}, {}) && b < |d.used| && !d.used[b]
    ensures SlotVal(Taken(d, b), s) == SlotVal(d, s) != b
  {
    NotASlot(d, o, ds, b, s);
    NotASlot(d, o, ds, b, Slot(s.inum, NDIRECT));
  }

  /** Marking and zeroing a free block. */
  lemma TakenInv(d: Disk, o: Owners, ds: nat, b: nat)
    requires Inv(d, o, ds, {}, {}) && b < |d.used| && !d.used[b]
    ensures Inv(Taken(d, b), o, ds, {b}, {}) && 0 < b < WORD
  {
    var d' := Taken(d, b);
    NotASlot(d, o, ds, b, Slot(0, 0));
    hide SlotVal, Uint;
    assert BitOk(d, o, ds, {}, b);
    forall c: nat | c < |d'.used| ensures BitOk(d', o, ds, {b}, c) { assert BitOk(d, o, ds, {}, c); }
    forall c | c in o ensures OwnerOk(d', o, ds, {}, c) {
      assert OwnerOk(d, o, ds, {}, c);
      TakenSlots(d, o, ds, b, o[c]);
    }
    forall s ensures SlotOk(d', o, s) {
      assert SlotOk(d, o, s);
      TakenSlots(d, o, ds, b, s);
    }
  }

  // ----- Putting a block in a slot -----

  /** Slot `s`, empty before, has got block `b`; no other slot has changed. */
  ghost predicate Put(d: Disk, d': Disk, s: Slot, b: nat) {
    && d'.used == d.used && d'.inodes.Keys == d.inodes.Keys && Shape(d') && SlotVal(d, s) == 0
    && s.inum in d.inodes && s.ix < NSLOTS
    && forall r {:trigger SlotVal(d', r)} :: SlotVal(d', r) == if r == s then b else SlotVal(d, r)
  }

  lemma PutInv(d: Disk, d': Disk, o: Owners, ds: nat, s: Slot, b: nat)
    requires Inv(d, o, ds, {b}, {}) && Put(d, d', s, b)
    ensures b !in o && Inv(d', o[b := s], ds, {}, {})
  {
    hide SlotVal;
    var o' := o[b := s];
    forall c: nat | c < |d'.used| ensures BitOk(d', o', ds, {}, c) { assert BitOk(d, o, ds, {b}, c); }
    forall c | c in o' ensures OwnerOk(d', o', ds, {}, c) {
      if c in o { assert OwnerOk(d, o, ds, {}, c); }
    }
    forall r ensures SlotOk(d', o', r) { assert SlotOk(d, o, r); }
  }

  /** ip->addrs[ix] = b */
  function SetAddr(d: Disk, inum: nat, ix: nat, b: nat): Disk
    requires inum in d.inodes && ix < |d.inodes[inum].addrs|
  {
    var addrs: seq<nat> := d.inodes[inum].addrs[ix := b];
    d.(inodes := d.inodes[inum := d.inodes[inum].(addrs := addrs)])
  }

  lemma SetAddrPuts(d: Disk, inum: nat, ix: nat, b: nat)
    requires Shape(d) && inum in d.inodes && ix <= NDIRECT && SlotVal(d, Slot(inum, ix)) == 0
    requires 0 < b < |d.blocks| && d.blocks[b] == ZeroBlock()
    ensures Put(d, SetAddr(d, inum, ix, b), Slot(inum, ix), b)
  {
    hide Uint;
    var d' := SetAddr(d, inum, ix, b);
    forall r
      ensures SlotVal(d', r) == if r == Slot(inum, ix) then b else SlotVal(d, r)
    {
      if NDIRECT < r.ix < NSLOTS { ZeroUint(r.ix - NDIRECT - 1); }
    }
  }

  lemma ZeroUint(j: nat)
    ensures Uint(ZeroBlock(), j) == 0
  {
  }

  /** The indirect block of a file; 0 if it has none. */
  function IndBlock(d: Disk, inum: nat): nat {
    SlotVal(d, Slot(inum, NDIRECT))
  }

  /** a[j] = b in the indirect block. */
  function SetEntry(d: Disk, inum: nat, j: nat, b: nat): Disk
    requires IndBlock(d, inum) < |d.blocks| && 4 * j + 3 < |d.blocks[IndBlock(d, inum)]| && b < WORD
  {
    d.(blocks := d.blocks[IndBlock(d, inum) := SetUint(d.blocks[IndBlock(d, inum)], j, b)])
  }

  /** No two slots hold the same block. */
  lemma SlotsApart(d: Disk, o: Owners, ds: nat, extra: set<nat>, r: Slot, s: Slot)
    requires Inv(d, o, ds, extra, {}) && SlotVal(d, r) != 0 && r != s
    ensures SlotVal(d, r) != SlotVal(d, s) && SlotVal(d, r) < |d.blocks|
  {
    assert SlotOk(d, o, r) && SlotOk(d, o, s);
    assert OwnerOk(d, o, ds, {}, SlotVal(d, r));
  }

  lemma SetEntryPuts(d: Disk, o: Owners, ds: nat, extra: set<nat>, inum: nat, j: nat, b: nat)
    requires Inv(d, o, ds, extra, {}) && inum in d.inodes && j < NINDIRECT && IndBlock(d, inum) != 0
    requires SlotVal(d, Slot(inum, NDIRECT + 1 + j)) == 0 && b < WORD
    ensures IndBlock(d, inum) < |d.blocks| && |d.blocks[IndBlock(d, inum)]| == BSIZE
    ensures Put(d, SetEntry(d, inum, j, b), Slot(inum, NDIRECT + 1 + j), b)
  {
    var a := IndBlock(d, inum);
    SlotsApart(d, o, ds, extra, Slot(inum, NDIRECT), Slot(inum, 0));
    var d' := SetEntry(d, inum, j, b);
    forall r
      ensures SlotVal(d', r) == if r == Slot(inum, NDIRECT + 1 + j) then b else SlotVal(d, r)
    {
      EntrySlot(d, o, ds, extra, inum, j, b, r);
    }
  }

  lemma EntrySlot(d: Disk, o: Owners, ds: nat, extra: set<nat>, inum: nat, j: nat, b: nat, r: Slot)
    requires Inv(d, o, ds, extra, {}) && inum in d.inodes && j < NINDIRECT && 0 < IndBlock(d, inum) < |d.blocks|
    requires b < WORD
    ensures SlotVal(SetEntry(d, inum, j, b), r) == if r == Slot(inum, NDIRECT + 1 + j) then b else SlotVal(d, r)
  {
    hide Uint, SetUint;
    var i := Slot(r.inum, NDIRECT);
    if r.inum != inum {
      if SlotVal(d, i) != 0 { SlotsApart(d, o, ds, extra, i, Slot(inum, NDIRECT)); }
    } else if NDIRECT < r.ix < NSLOTS {
      UintSet(d.blocks[IndBlock(d, inum)], j, b, r.ix - NDIRECT - 1);
    }
  }

  // ----- Bytes of files -----

  /** Byte `k` of a file; 0 where there is no block. */
  function ByteAt(d: Disk, inum: nat, k: nat): Byte {
    BlockByte(d, DataBlock(d, inum, k / BSIZE), k % BSIZE)
  }

  function BlockByte(d: Disk, a: nat, i: nat): Byte {
    if 0 < a < |d.blocks| && i < |d.blocks[a]| then d.blocks[a][i] else 0
  }

  ghost function Prefix(d: Disk, inum: nat, n: nat): (c: seq<Byte>)
    ensures |c| == n && forall k :: 0 <= k < n ==> c[k] == ByteAt(d, inum, k)
  {
    if n == 0 then [] else Prefix(d, inum, n - 1) + [ByteAt(d, inum, n - 1)]
  }

  /** The bytes of a file. */
  ghost function Content(d: Disk, inum: nat): seq<Byte>
    requires inum in d.inodes
  {
    Prefix(d, inum, d.inodes[inum].size)
  }

  ghost predicate SameBytes(d: Disk, d': Disk) {
    forall i: nat, k: nat {:trigger ByteAt(d', i, k)} :: ByteAt(d', i, k) == ByteAt(d, i, k)
  }

  ghost predicate SameSizes(d: Disk, d': Disk) {
    d'.inodes.Keys == d.inodes.Keys && forall i :: i in d.inodes ==> d'.inodes[i].size == d.inodes[i].size
  }

  ghost predicate SlotsStay(d: Disk, d': Disk) {
    forall s {:trigger SlotVal(d', s)} :: SlotVal(d, s) != 0 ==> SlotVal(d', s) == SlotVal(d, s)
  }

  /** Slots may have got blocks, all zeros; else nothing of a file has changed. */
  ghost predicate Grows(d: Disk, d': Disk) {
    SameSizes(d, d') && SlotsStay(d, d') && SameBytes(d, d')
  }

  lemma GrowsSelf(d: Disk)
    ensures Grows(d, d)
  {
  }

  lemma ShapeOf(d: Disk, o: Owners, ds: nat)
    requires Inv(d, o, ds, {}, {})
    ensures Shape(d) && |d.used| > 0
  {
  }

  lemma IndThere(d: Disk, o: Owners, ds: nat, extra: set<nat>, inum: nat)
    requires Inv(d, o, ds, extra, {}) && IndBlock(d, inum) != 0
    ensures IndBlock(d, inum) < |d.blocks| && |d.blocks[IndBlock(d, inum)]| == BSIZE
    ensures inum in d.inodes && |d.inodes[inum].addrs| == NDIRECT + 1
    ensures d.inodes[inum].addrs[NDIRECT] == IndBlock(d, inum)
  {
    SlotsApart(d, o, ds, extra, Slot(inum, NDIRECT), Slot(inum, 0));
  }

  lemma GrowsTwice(d0: Disk, d1: Disk, d2: Disk)
    requires Grows(d0, d1) && Grows(d1, d2)
    ensures Grows(d0, d2)
  {
    hide SlotVal, ByteAt;
    forall s ensures SlotVal(d0, s) != 0 ==> SlotVal(d2, s) == SlotVal(d0, s) {
      assert SlotVal(d0, s) != 0 ==> SlotVal(d1, s) == SlotVal(d0, s);
    }
    forall i: nat, k: nat ensures ByteAt(d2, i, k) == ByteAt(d0, i, k) {
      assert ByteAt(d1, i, k) == ByteAt(d0, i, k);
    }
  }

  lemma TakenGrows(d: Disk, o: Owners, ds: nat, b: nat)
    requires Inv(d, o, ds, {}, {}) && b < |d.used| && !d.used[b]
    ensures Grows(d, Taken(d, b))
  {
    hide SlotVal;
    forall s ensures SlotVal(Taken(d, b), s) == SlotVal(d, s) != b { TakenSlots(d, o, ds, b, s); }
    forall i: nat, k: nat ensures ByteAt(Taken(d, b), i, k) == ByteAt(d, i, k) {
      assert DataBlock(Taken(d, b), i, k / BSIZE) == DataBlock(d, i, k / BSIZE) != b;
    }
  }

  lemma PutAddrGrows(d: Disk, inum: nat, ix: nat, b: nat)
    requires inum in d.inodes && ix <= NDIRECT && ix < |d.inodes[inum].addrs|
    requires Put(d, SetAddr(d, inum, ix, b), Slot(inum, ix), b)
    requires b < |d.blocks| && d.blocks[b] == ZeroBlock()
    ensures Grows(d, SetAddr(d, inum, ix, b))
  {
    hide SlotVal;
    var d' := SetAddr(d, inum, ix, b);
    forall i: nat, k: nat ensures ByteAt(d', i, k) == ByteAt(d, i, k) {
      assert DataBlock(d', i, k / BSIZE) == if Slot(i, DataIx(k / BSIZE)) == Slot(inum, ix) then b
          else DataBlock(d, i, k / BSIZE);
    }
  }

  lemma PutEntryGrows(d: Disk, o: Owners, ds: nat, extra: set<nat>, inum: nat, j: nat, b: nat)
    requires Inv(d, o, ds, extra, {}) && 0 < IndBlock(d, inum) < |d.blocks|
    requires 4 * j + 3 < |d.blocks[IndBlock(d, inum)]| && b < WORD
    requires Put(d, SetEntry(d, inum, j, b), Slot(inum, NDIRECT + 1 + j), b)
    requires b < |d.blocks| && d.blocks[b] == ZeroBlock() && b != IndBlock(d, inum)
    ensures Grows(d, SetEntry(d, inum, j, b))
  {
    hide SlotVal, Uint, SetUint;
    var d' := SetEntry(d, inum, j, b);
    forall i: nat, k: nat ensures ByteAt(d', i, k) == ByteAt(d, i, k) {
      var s := Slot(i, DataIx(k / BSIZE));
      assert SlotVal(d', s) == if s == Slot(inum, NDIRECT + 1 + j) then b else SlotVal(d, s);
      if SlotVal(d, s) != 0 { SlotsApart(d, o, ds, extra, s, Slot(inum, NDIRECT)); }
    }
  }

  /** What grows keeps its contents and stays filled. */
  lemma GrowsContents(d: Disk, d': Disk, i: nat)
    requires Grows(d, d') && i in d.inodes
    ensures Content(d', i) == Content(d, i) && (Filled(d, i) ==> Filled(d', i))
  {
    hide ByteAt, SlotVal;
    forall k: nat | k < d.inodes[i].size ensures Content(d', i)[k] == Content(d, i)[k] {
      assert ByteAt(d', i, k) == ByteAt(d, i, k);
    }
    if Filled(d, i) {
      forall bn: nat | bn * BSIZE < d'.inodes[i].size ensures DataBlock(d', i, bn) != 0 {
        assert DataBlock(d, i, bn) != 0;
      }
    }
  }

  // ----- Writing into a block of data -----

  function Wrote(d: Disk, a: nat, blk: Block): Disk
    requires a < |d.blocks|
  {
    d.(blocks := d.blocks[a := blk])
  }

  lemma WroteSlots(d: Disk, o: Owners, ds: nat, s: Slot, blk: Block, r: Slot)
    requires Inv(d, o, ds, {}, {}) && s.ix != NDIRECT && 0 < SlotVal(d, s) < |d.blocks|
    ensures SlotVal(Wrote(d, SlotVal(d, s), blk), r) == SlotVal(d, r)
  {
    hide Uint;
    SlotsApart(d, o, ds, {}, s, Slot(r.inum, NDIRECT));
  }

  lemma WroteInv(d: Disk, o: Owners, ds: nat, s: Slot, blk: Block)
    requires Inv(d, o, ds, {}, {}) && s.ix != NDIRECT && 0 < SlotVal(d, s) < |d.blocks| && |blk| == BSIZE
    ensures Inv(Wrote(d, SlotVal(d, s), blk), o, ds, {}, {}) && SlotsStay(d, Wrote(d, SlotVal(d, s), blk))
  {
    hide SlotVal;
    var d' := Wrote(d, SlotVal(d, s), blk);
    forall r ensures SlotVal(d', r) == SlotVal(d, r) { WroteSlots(d, o, ds, s, blk, r); }
    forall c: nat | c < |d'.used| ensures BitOk(d', o, ds, {}, c) { assert BitOk(d, o, ds, {}, c); }
    forall c | c in o ensures OwnerOk(d', o, ds, {}, c) { assert OwnerOk(d, o, ds, {}, c); }
    forall r ensures SlotOk(d', o, r) { assert SlotOk(d, o, r); }
  }

  /** Writing `ch` at offset `off` of a file, within one block, changes those bytes of that file only. */
  lemma WroteBytes(d: Disk, o: Owners, ds: nat, inum: nat, off: nat, ch: seq<Byte>, i: nat, k: nat)
    requires Inv(d, o, ds, {}, {}) && off % BSIZE + |ch| <= BSIZE
    requires 0 < DataBlock(d, inum, off / BSIZE) < |d.blocks|
    ensures |d.blocks[DataBlock(d, inum, off / BSIZE)]| == BSIZE
    ensures var a := DataBlock(d, inum, off / BSIZE);
      ByteAt(Wrote(d, a, Splice(d.blocks[a], off % BSIZE, ch)), i, k)
      == if i == inum && off <= k < off + |ch| then ch[k - off] else ByteAt(d, i, k)
  {
    hide SlotVal, Uint;
    var s, r := Slot(inum, DataIx(off / BSIZE)), Slot(i, DataIx(k / BSIZE));
    var a := SlotVal(d, s);
    WroteSlots(d, o, ds, s, Splice(d.blocks[a], off % BSIZE, ch), r);
    SamePlace(off, k, |ch|);
    if s != r { SlotsApart(d, o, ds, {}, s, r); }
  }

  lemma SamePlace(off: nat, k: nat, n: nat)
    requires off % BSIZE + n <= BSIZE
    ensures off <= k < off + n <==> k / BSIZE == off / BSIZE && off % BSIZE <= k % BSIZE < off % BSIZE + n
    ensures off <= k < off + n ==> k - off == k % BSIZE - off % BSIZE
  {
  }

  // ----- itrunc -----

  function Unmarked(d: Disk, b: nat): Disk
    requires b < |d.used|
  {
    d.(used := d.used[b := false])
  }

  lemma UnmarkedSlots(d: Disk, b: nat, s: Slot)
    requires b < |d.used|
    ensures SlotVal(Unmarked(d, b), s) == SlotVal(d, s)
  {
  }

  /** Freeing the block of a slot: it is marked in use. */
  lemma FreeInv(d: Disk, o: Owners, ds: nat, loose: set<Slot>, s: Slot)
    requires Inv(d, o, ds, {}, loose) && s !in loose && SlotVal(d, s) != 0
    ensures SlotVal(d, s) in o && o[SlotVal(d, s)] == s && SlotVal(d, s) < |d.used| && d.used[SlotVal(d, s)]
    ensures Inv(Unmarked(d, SlotVal(d, s)), o - {SlotVal(d, s)}, ds, {}, loose + {s})
  {
    hide SlotVal;
    var b := SlotVal(d, s);
    assert SlotOk(d, o, s) && OwnerOk(d, o, ds, loose, b) && BitOk(d, o, ds, {}, b);
    var d', o', loose' := Unmarked(d, b), o - {b}, loose + {s};
    forall c: nat | c < |d'.used| ensures BitOk(d', o', ds, {}, c) { assert BitOk(d, o, ds, {}, c); }
    forall c | c in o' ensures OwnerOk(d', o', ds, loose', c) {
      assert OwnerOk(d, o, ds, loose, c);
      UnmarkedSlots(d, b, o[c]);
    }
    forall r | r !in loose' ensures SlotOk(d', o', r) {
      assert SlotOk(d, o, r);
      UnmarkedSlots(d, b, r);
    }
  }

  /** An empty slot may count as loose. */
  lemma LooseInv(d: Disk, o: Owners, ds: nat, loose: set<Slot>, s: Slot)
    requires Inv(d, o, ds, {}, loose) && SlotVal(d, s) == 0
    ensures Inv(d, o, ds, {}, loose + {s})
  {
    hide SlotVal;
    forall c | c in o ensures OwnerOk(d, o, ds, loose + {s}, c) { assert OwnerOk(d, o, ds, loose, c); }
  }

  /** The slots `gone` have been emptied, the others not touched. */
  ghost predicate Emptied(d: Disk, d': Disk, gone: set<Slot>) {
    && d'.used == d.used && d'.inodes.Keys == d.inodes.Keys && Shape(d')
    && forall r {:trigger SlotVal(d', r)} :: SlotVal(d', r) == if r in gone then 0 else SlotVal(d, r)
  }

  lemma EmptiedInv(d: Disk, d': Disk, o: Owners, ds: nat, loose: set<Slot>, gone: set<Slot>)
    requires Inv(d, o, ds, {}, loose) && Emptied(d, d', gone) && loose <= gone
    requires forall s {:trigger SlotVal(d, s)} :: s in gone - loose ==> SlotVal(d, s) == 0
    ensures Inv(d', o, ds, {}, {})
  {
    hide SlotVal;
    forall c: nat | c < |d'.used| ensures BitOk(d', o, ds, {}, c) { assert BitOk(d, o, ds, {}, c); }
    forall c | c in o ensures OwnerOk(d', o, ds, {}, c) {
      assert OwnerOk(d, o, ds, loose, c);
    }
    forall r ensures SlotOk(d', o, r) {
      if r !in loose { assert SlotOk(d, o, r); }
    }
  }

  /** addrs[ix] = 0 for a direct block. */
  lemma ClearAddr(d: Disk, inum: nat, ix: nat)
    requires Shape(d) && inum in d.inodes && ix < NDIRECT
    ensures Emptied(d, SetAddr(d, inum, ix, 0), {Slot(inum, ix)})
  {
  }

  /** The slots of the first `j` entries of the indirect block. */
  function EntrySlots(inum: nat, j: nat): (ss: set<Slot>)
    ensures forall s :: s in ss <==> s.inum == inum && NDIRECT < s.ix < NDIRECT + 1 + j
  {
    set ix | NDIRECT < ix < NDIRECT + 1 + j :: Slot(inum, ix)
  }

  function IndSlots(inum: nat): (ss: set<Slot>)
    ensures forall s :: s in ss <==> s.inum == inum && NDIRECT <= s.ix < NSLOTS
  {
    set ix | NDIRECT <= ix < NSLOTS :: Slot(inum, ix)
  }

  /** addrs[NDIRECT] = 0 empties all slots of the indirect block too. */
  lemma ClearIndirect(d: Disk, inum: nat)
    requires Shape(d) && inum in d.inodes
    ensures Emptied(d, SetAddr(d, inum, NDIRECT, 0), IndSlots(inum))
  {
  }

  /** The owners left when the blocks of one inode have gone. */
  ghost predicate OthersOwn(o: Owners, o': Owners, inum: nat) {
    && (forall b :: b in o' ==> b in o && o'[b] == o[b])
    && (forall b :: b in o && o[b].inum != inum ==> b in o')
  }

  lemma OthersOwnLess(o: Owners, o': Owners, inum: nat, b: nat)
    requires OthersOwn(o, o', inum) && b in o' && o'[b].inum == inum
    ensures OthersOwn(o, o' - {b}, inum)
  {
  }

  /** Once its slots are empty, exactly the blocks of the inode have been freed. */
  lemma ExactlyFreed(d0: Disk, o0: Owners, d: Disk, o: Owners, ds: nat, inum: nat)
    requires Inv(d0, o0, ds, {}, {}) && Inv(d, o, ds, {}, {}) && OthersOwn(o0, o, inum) && |d.used| == |d0.used|
    requires forall ix: nat {:trigger Slot(inum, ix)} :: ix < NSLOTS ==> SlotVal(d, Slot(inum, ix)) == 0
    ensures forall b: nat :: b < |d.used| ==> (d.used[b] <==> d0.used[b] && !(b in o0 && o0[b].inum == inum))
  {
    forall b: nat | b < |d.used|
      ensures d.used[b] <==> d0.used[b] && !(b in o0 && o0[b].inum == inum)
    {
      assert BitOk(d0, o0, ds, {}, b) && BitOk(d, o, ds, {}, b);
      if b in o0 { assert OwnerOk(d0, o0, ds, {}, b); }
      if b in o { assert OwnerOk(d, o, ds, {}, b) && o[b] == Slot(o[b].inum, o[b].ix); }
    }
  }

  function Empty(): Inode {
    Inode(0, seq(NDIRECT + 1, _ => 0))
  }

  /** Other files do not see that one inode and the free map have changed. */
  lemma OthersSame(d: Disk, d': Disk, inum: nat, ino: Inode, i: nat)
    requires d'.blocks == d.blocks && inum in d.inodes && d'.inodes == d.inodes[inum := ino] && i in d.inodes
    requires i != inum
    ensures Content(d', i) == Content(d, i) && (Filled(d, i) ==> Filled(d', i))
  {
    hide Uint;
    forall k: nat ensures ByteAt(d', i, k) == ByteAt(d, i, k) { }
    if Filled(d, i) {
      forall bn: nat | bn * BSIZE < d'.inodes[i].size ensures DataBlock(d', i, bn) != 0 {
        assert DataBlock(d, i, bn) != 0;
      }
    }
  }

  function Resized(d: Disk, inum: nat, n: nat): Disk
    requires inum in d.inodes
  {
    d.(inodes := d.inodes[inum := d.inodes[inum].(size := n)])
  }

  lemma ResizedInv(d: Disk, o: Owners, ds: nat, inum: nat, n: nat)
    requires Inv(d, o, ds, {}, {}) && inum in d.inodes && n <= MAXFILE * BSIZE
    ensures Inv(Resized(d, inum, n), o, ds, {}, {}) && SlotsStay(d, Resized(d, inum, n))
    ensures SameBytes(d, Resized(d, inum, n))
  {
    hide Uint;
    var d' := Resized(d, inum, n);
    forall r ensures SlotVal(d', r) == SlotVal(d, r) { }
    hide SlotVal;
    forall c: nat | c < |d'.used| ensures BitOk(d', o, ds, {}, c) { assert BitOk(d, o, ds, {}, c); }
    forall c | c in o ensures OwnerOk(d', o, ds, {}, c) { assert OwnerOk(d, o, ds, {}, c); }
    forall r ensures SlotOk(d', o, r) { assert SlotOk(d, o, r); }
  }

  lemma EmptyFiles(d: Disk, d': Disk, inum: nat)
    requires d'.blocks == d.blocks && inum in d.inodes && d'.inodes == d.inodes[inum := Empty()] && AllFilled(d)
    ensures AllFilled(d') && forall i :: i in d.inodes && i != inum ==> Content(d', i) == Content(d, i)
    ensures forall ix: nat {:trigger Slot(inum, ix)} :: ix < NSLOTS ==> SlotVal(d', Slot(inum, ix)) == 0
  {
    forall i | i in d.inodes && i != inum
      ensures Content(d', i) == Content(d, i) && Filled(d', i)
    {
      assert Filled(d, i);
      OthersSame(d, d', inum, Empty(), i);
    }
    assert Filled(d', inum);
  }

  // ----- Reading and writing files -----

  lemma FilledHere(d: Disk, o: Owners, ds: nat, inum: nat, k: nat)
    requires Inv(d, o, ds, {}, {}) && AllFilled(d) && inum in d.inodes && k < d.inodes[inum].size
    ensures 0 < DataBlock(d, inum, k / BSIZE) < |d.blocks| && k / BSIZE < MAXFILE
    ensures |d.blocks[DataBlock(d, inum, k / BSIZE)]| == BSIZE
  {
    hide SlotVal;
    var bn := k / BSIZE;
    assert bn * BSIZE <= k;
    assert Filled(d, inum) && DataBlock(d, inum, bn) != 0;
    SlotsApart(d, o, ds, {}, Slot(inum, DataIx(bn)), Slot(inum, NDIRECT));
  }

  lemma ReadChunk(d: Disk, o: Owners, ds: nat, inum: nat, off: nat, m: nat)
    requires Inv(d, o, ds, {}, {}) && AllFilled(d) && inum in d.inodes
    requires off < off + m <= d.inodes[inum].size && off % BSIZE + m <= BSIZE
    ensures 0 < DataBlock(d, inum, off / BSIZE) < |d.blocks| && |d.blocks[DataBlock(d, inum, off / BSIZE)]| == BSIZE
    ensures d.blocks[DataBlock(d, inum, off / BSIZE)][off % BSIZE..off % BSIZE + m] == Content(d, inum)[off..off + m]
  {
    hide Inv, DataBlock, AllFilled;
    FilledHere(d, o, ds, inum, off);
    var blk := d.blocks[DataBlock(d, inum, off / BSIZE)];
    var part, whole := blk[off % BSIZE..off % BSIZE + m], Content(d, inum)[off..off + m];
    forall j | 0 <= j < m
      ensures part[j] == whole[j]
    {
      SamePlace(off, off + j, m);
    }
  }

  /** Since `d0` the bytes `ch` have been written at `off` of file `inum`, and no other byte of any file
      has changed. */
  ghost predicate Written(d0: Disk, d: Disk, inum: nat, off: nat, ch: seq<Byte>) {
    && SameSizes(d0, d) && SlotsStay(d0, d)
    && forall i: nat, k: nat {:trigger ByteAt(d, i, k)} ::
         ByteAt(d, i, k) == if i == inum && off <= k < off + |ch| then ch[k - off] else ByteAt(d0, i, k)
  }

  lemma WrittenNone(d: Disk, inum: nat, off: nat)
    ensures Written(d, d, inum, off, [])
  {
  }

  lemma WrittenGrows(d0: Disk, d1: Disk, d2: Disk, inum: nat, off: nat, ch: seq<Byte>)
    requires Written(d0, d1, inum, off, ch) && Grows(d1, d2)
    ensures Written(d0, d2, inum, off, ch)
  {
    hide SlotVal, ByteAt;
    forall s ensures SlotVal(d0, s) != 0 ==> SlotVal(d2, s) == SlotVal(d0, s) {
      assert SlotVal(d0, s) != 0 ==> SlotVal(d1, s) == SlotVal(d0, s);
    }
    forall i: nat, k: nat ensures ByteAt(d2, i, k) == ByteAt(d1, i, k) { }
  }

  lemma WrittenMore(d0: Disk, d1: Disk, d2: Disk, inum: nat, off: nat, ch: seq<Byte>, more: seq<Byte>)
    requires Written(d0, d1, inum, off, ch) && Written(d1, d2, inum, off + |ch|, more)
    ensures Written(d0, d2, inum, off, ch + more)
  {
    hide SlotVal, ByteAt;
    forall s ensures SlotVal(d0, s) != 0 ==> SlotVal(d2, s) == SlotVal(d0, s) {
      assert SlotVal(d0, s) != 0 ==> SlotVal(d1, s) == SlotVal(d0, s);
    }
    forall i: nat, k: nat
      ensures ByteAt(d2, i, k) == if i == inum && off <= k < off + |ch + more| then (ch + more)[k - off]
                else ByteAt(d0, i, k)
    {
      assert ByteAt(d1, i, k) == if i == inum && off <= k < off + |ch| then ch[k - off] else ByteAt(d0, i, k);
    }
  }

  /** One block's worth of a write. */
  lemma WriteChunk(d: Disk, o: Owners, ds: nat, inum: nat, off: nat, ch: seq<Byte>)
    requires Inv(d, o, ds, {}, {}) && off % BSIZE + |ch| <= BSIZE && 0 < DataBlock(d, inum, off / BSIZE) < |d.blocks|
    ensures var a := DataBlock(d, inum, off / BSIZE);
      |d.blocks[a]| == BSIZE
      && Inv(Wrote(d, a, Splice(d.blocks[a], off % BSIZE, ch)), o, ds, {}, {})
      && Written(d, Wrote(d, a, Splice(d.blocks[a], off % BSIZE, ch)), inum, off, ch)
  {
    hide SlotVal, ByteAt;
    var a := DataBlock(d, inum, off / BSIZE);
    var d' := Wrote(d, a, Splice(d.blocks[a], off % BSIZE, ch));
    WroteInv(d, o, ds, Slot(inum, DataIx(off / BSIZE)), Splice(d.blocks[a], off % BSIZE, ch));
    forall i: nat, k: nat
      ensures ByteAt(d', i, k) == if i == inum && off <= k < off + |ch| then ch[k - off] else ByteAt(d, i, k)
    {
      WroteBytes(d, o, ds, inum, off, ch, i, k);
    }
  }

  /** The blocks of the first `n` bytes of a file are there. */
  ghost predicate FilledTo(d: Disk, inum: nat, n: nat) {
    forall bn: nat {:trigger DataBlock(d, inum, bn)} :: bn * BSIZE < n ==> DataBlock(d, inum, bn) != 0
  }

  lemma FilledMore(d: Disk, d': Disk, inum: nat, n: nat, off: nat, ch: seq<Byte>)
    requires FilledTo(d, inum, n) && Written(d, d', inum, off, ch) && off <= n && off % BSIZE + |ch| <= BSIZE
    requires DataBlock(d', inum, off / BSIZE) != 0
    ensures FilledTo(d', inum, n) && FilledTo(d', inum, off + |ch|)
  {
    hide SlotVal, ByteAt;
    forall bn: nat | bn * BSIZE < n || bn * BSIZE < off + |ch|
      ensures DataBlock(d', inum, bn) != 0
    {
      BlocksBelow(off, |ch|, bn);
      if bn * BSIZE < n { assert DataBlock(d, inum, bn) != 0; }
    }
  }

  lemma BlocksBelow(off: nat, m: nat, bn: nat)
    requires off % BSIZE + m <= BSIZE
    ensures bn * BSIZE < off + m ==> bn * BSIZE < off || bn == off / BSIZE
  {
  }

  function Max(a: nat, b: nat): nat {
    if a < b then b else a
  }

  /** `c` with `ch` put in at `off`, beyond its end if need be. */
  function Overwrite(c: seq<Byte>, off: nat, ch: seq<Byte>): seq<Byte>
    requires off <= |c|
  {
    c[..off] + ch + (if off + |ch| <= |c| then c[off + |ch|..] else [])
  }

  /** The end of a write: the size is put up, and the files are the byte sequences they should be. */
  lemma WriteDone(d0: Disk, d: Disk, o: Owners, ds: nat, inum: nat, off: nat, ch: seq<Byte>)
    requires Inv(d, o, ds, {}, {}) && AllFilled(d0) && inum in d0.inodes && Written(d0, d, inum, off, ch)
    requires off <= d0.inodes[inum].size && off + |ch| <= MAXFILE * BSIZE && d0.inodes[inum].size <= MAXFILE * BSIZE
    requires FilledTo(d, inum, Max(d0.inodes[inum].size, off + |ch|))
    ensures var d' := Resized(d, inum, Max(d0.inodes[inum].size, off + |ch|));
      && Inv(d', o, ds, {}, {}) && AllFilled(d')
      && Content(d', inum) == Overwrite(Content(d0, inum), off, ch)
      && forall i :: i in d0.inodes && i != inum ==> Content(d', i) == Content(d0, i)
  {
    hide SlotVal, ByteAt, Inv;
    var n := Max(d0.inodes[inum].size, off + |ch|);
    var d' := Resized(d, inum, n);
    ResizedInv(d, o, ds, inum, n);
    forall i | i in d0.inodes
      ensures Filled(d', i)
      ensures Content(d', i) == if i == inum then Overwrite(Content(d0, i), off, ch) else Content(d0, i)
    {
      DoneFilled(d0, d, d', inum, off, ch, i);
      DoneContent(d0, d, d', inum, off, ch, i);
    }
  }

  lemma DoneFilled(d0: Disk, d: Disk, d': Disk, inum: nat, off: nat, ch: seq<Byte>, i: nat)
    requires AllFilled(d0) && inum in d0.inodes && i in d0.inodes && Written(d0, d, inum, off, ch)
    requires d' == Resized(d, inum, Max(d0.inodes[inum].size, off + |ch|)) && SlotsStay(d, d')
    requires FilledTo(d, inum, Max(d0.inodes[inum].size, off + |ch|))
    ensures Filled(d', i)
  {
    hide SlotVal, ByteAt;
    assert Filled(d0, i);
    forall bn: nat | bn * BSIZE < d'.inodes[i].size
      ensures DataBlock(d', i, bn) != 0
    {
      if i != inum { assert DataBlock(d0, i, bn) != 0; }
      assert DataBlock(d, i, bn) != 0;
    }
  }

  lemma DoneContent(d0: Disk, d: Disk, d': Disk, inum: nat, off: nat, ch: seq<Byte>, i: nat)
    requires inum in d0.inodes && i in d0.inodes && Written(d0, d, inum, off, ch) && off <= d0.inodes[inum].size
    requires d' == Resized(d, inum, Max(d0.inodes[inum].size, off + |ch|)) && SameBytes(d, d')
    ensures Content(d', i) == if i == inum then Overwrite(Content(d0, i), off, ch) else Content(d0, i)
  {
    hide SlotVal, ByteAt;
    forall k: nat | k < |Content(d', i)|
      ensures Content(d', i)[k] == if i == inum && off <= k < off + |ch| then ch[k - off] else ByteAt(d0, i, k)
    {
      assert ByteAt(d', i, k) == ByteAt(d, i, k);
    }
  }

  lemma WriteStarts(d: Disk, o: Owners, ds: nat, inum: nat, off: nat)
    requires Inv(d, o, ds, {}, {}) && AllFilled(d) && inum in d.inodes && off <= d.inodes[inum].size
    ensures Written(d, d, inum, off, []) && FilledTo(d, inum, Max(d.inodes[inum].size, off))
    ensures d.inodes[inum].size <= MAXFILE * BSIZE
  {
    assert Filled(d, inum);
  }

  lemma FilledStays(d: Disk, d': Disk, inum: nat, n: nat)
    requires FilledTo(d, inum, n) && Grows(d, d')
    ensures FilledTo(d', inum, n)
  {
    hide SlotVal;
    forall bn: nat | bn * BSIZE < n ensures DataBlock(d', inum, bn) != 0 { assert DataBlock(d, inum, bn) != 0; }
  }

  lemma WrittenSlots(d: Disk, o: Owners, ds: nat, inum: nat, off: nat, ch: seq<Byte>, r: Slot)
    requires Inv(d, o, ds, {}, {}) && off % BSIZE + |ch| <= BSIZE && 0 < DataBlock(d, inum, off / BSIZE) < |d.blocks|
    requires |d.blocks[DataBlock(d, inum, off / BSIZE)]| == BSIZE
    ensures var a := DataBlock(d, inum, off / BSIZE);
      SlotVal(Wrote(d, a, Splice(d.blocks[a], off % BSIZE, ch)), r) == SlotVal(d, r)
  {
    var a := DataBlock(d, inum, off / BSIZE);
    WroteSlots(d, o, ds, Slot(inum, DataIx(off / BSIZE)), Splice(d.blocks[a], off % BSIZE, ch), r);
  }

  lemma GrewThenWritten(d0: Disk, d1: Disk, d2: Disk, inum: nat, off: nat, ch: seq<Byte>)
    requires Grows(d0, d1) && Written(d1, d2, inum, off, ch)
    ensures Written(d0, d2, inum, off, ch)
  {
    hide SlotVal, ByteAt;
    WrittenNone(d0, inum, off);
    WrittenGrows(d0, d0, d1, inum, off, []);
    WrittenMore(d0, d1, d2, inum, off, [], ch);
    assert [] + ch == ch;
  }

  lemma SizesOf(d0: Disk, d: Disk, inum: nat, off: nat, ch: seq<Byte>)
    requires Written(d0, d, inum, off, ch) && inum in d0.inodes
    ensures d.inodes.Keys == d0.inodes.Keys && d.inodes[inum].size == d0.inodes[inum].size
    ensures Resized(d, inum, d.inodes[inum].size) == d
  {
    assert d.inodes[inum := d.inodes[inum]] == d.inodes;
  }

  lemma EmptyDisk(d: Disk, ds: nat)
    requires Shape(d) && 0 < ds <= |d.used| && forall b :: 0 <= b < |d.used| ==> (d.used[b] <==> b < ds)
    requires forall i :: i in d.inodes ==> d.inodes[i] == Empty()
    ensures Inv(d, map[], ds, {}, {}) && AllFilled(d)
  {
    forall s ensures SlotVal(d, s) == 0 { }
    hide SlotVal;
    forall b: nat | b < |d.used| ensures BitOk(d, map[], ds, {}, b) { }
    forall s ensures SlotOk(d, map[], s) { }
    forall i | i in d.inodes ensures Filled(d, i) { }
  }
}
