/** What a file-system call has to give to log_write: every block that its changes end up in. */
module FsLogged {
  import opened Bytes
  import opened FsModel

  const BPB: nat := 8 * BSIZE
  const IPB: nat := 16

  /** Where the free map, the inodes and the data blocks start. */
  datatype Area = Area(dataStart: nat, bmapStart: nat, inodeStart: nat)

  /** BBLOCK */
  function MapBlock(g: Area, b: nat): nat {
    b / BPB + g.bmapStart
  }

  /** IBLOCK */
  function InodeBlock(g: Area, i: nat): nat {
    i / IPB + g.inodeStart
  }

  /** Block `b` holds data, or part of the free map, or inodes. */
  ghost predicate InArea(g: Area, d: Disk, b: nat) {
    || g.dataStart <= b < |d.used|
    || (exists c: nat :: c < |d.used| && b == MapBlock(g, c))
    || (exists i :: i in d.inodes && b == InodeBlock(g, i))
  }

  predicate SameSize(d: Disk, d': Disk) {
    |d'.used| == |d.used| && |d'.blocks| == |d.blocks| && d'.inodes.Keys == d.inodes.Keys
  }

  /** All changes from d to d' are in blocks of `l'`, but for those of the inodes in `but`; what has been
      logged on top of `l` are blocks of the file system. */
  ghost predicate Covered(g: Area, d: Disk, d': Disk, l: set<nat>, l': set<nat>, but: set<nat>) {
    && SameSize(d, d') && l <= l'
    && (forall b :: b in l' && b !in l ==> InArea(g, d, b))
    && (forall b :: 0 <= b < |d.used| && d'.used[b] != d.used[b] ==> MapBlock(g, b) in l')
    && (forall b :: 0 <= b < |d.blocks| && d'.blocks[b] != d.blocks[b] ==> b in l')
    && (forall i :: i in d.inodes && i !in but && d'.inodes[i] != d.inodes[i] ==> InodeBlock(g, i) in l')
  }

  lemma CoveredSelf(g: Area, d: Disk, l: set<nat>, but: set<nat>)
    ensures Covered(g, d, d, l, l, but)
  {
  }

  lemma InAreaSame(g: Area, d: Disk, d': Disk, b: nat)
    requires SameSize(d, d') && InArea(g, d', b)
    ensures InArea(g, d, b)
  {
    if i :| i in d'.inodes && b == InodeBlock(g, i) { assert i in d.inodes; }
  }

  lemma CoveredTwice(g: Area, d0: Disk, d1: Disk, d2: Disk, l0: set<nat>, l1: set<nat>, l2: set<nat>, but: set<nat>)
    requires Covered(g, d0, d1, l0, l1, but) && Covered(g, d1, d2, l1, l2, but)
    ensures Covered(g, d0, d2, l0, l2, but)
  {
    hide InArea, MapBlock, InodeBlock;
    forall b | b in l2 && b !in l0 ensures InArea(g, d0, b) {
      if b !in l1 { InAreaSame(g, d0, d1, b); }
    }
  }

  /** balloc */
  lemma CoveredTaken(g: Area, d: Disk, o: Owners, b: nat, l: set<nat>, but: set<nat>)
    requires Inv(d, o, g.dataStart, {}, {}) && b < |d.used| && !d.used[b]
    ensures Covered(g, d, Taken(d, b), l, l + {MapBlock(g, b), b}, but)
  {
    assert BitOk(d, o, g.dataStart, {}, b);
  }

  /** ip->addrs[ix] = b, with the inode still to be written back. */
  lemma CoveredAddr(g: Area, d: Disk, inum: nat, ix: nat, b: nat, l: set<nat>, but: set<nat>)
    requires inum in d.inodes && ix < |d.inodes[inum].addrs| && inum in but
    ensures Covered(g, d, SetAddr(d, inum, ix, b), l, l, but)
  {
  }

  /** One block of data or numbers written. */
  lemma CoveredWrote(g: Area, d: Disk, a: nat, blk: Block, l: set<nat>, but: set<nat>)
    requires g.dataStart <= a < |d.blocks| == |d.used|
    ensures Covered(g, d, Wrote(d, a, blk), l, l + {a}, but)
  {
  }

  /** bfree */
  lemma CoveredUnmarked(g: Area, d: Disk, b: nat, l: set<nat>, but: set<nat>)
    requires b < |d.used|
    ensures Covered(g, d, Unmarked(d, b), l, l + {MapBlock(g, b)}, but)
  {
  }

  /** ip->size = n, with the inode still to be written back. */
  lemma CoveredResized(g: Area, d: Disk, inum: nat, n: nat, l: set<nat>, but: set<nat>)
    requires inum in d.inodes && inum in but
    ensures Covered(g, d, Resized(d, inum, n), l, l, but)
  {
  }

  /** iupdate */
  lemma CoveredUpdate(g: Area, d: Disk, d': Disk, l: set<nat>, l': set<nat>, inum: nat)
    requires Covered(g, d, d', l, l', {inum}) && inum in d.inodes
    ensures Covered(g, d, d', l, l' + {InodeBlock(g, inum)}, {})
  {
  }

  /** A slot's block is a block of data. */
  lemma SlotInData(d: Disk, o: Owners, ds: nat, extra: set<nat>, loose: set<Slot>, s: Slot)
    requires Inv(d, o, ds, extra, loose) && SlotVal(d, s) != 0 && s !in loose
    ensures ds <= SlotVal(d, s) < |d.blocks| == |d.used|
  {
    assert SlotOk(d, o, s);
    assert OwnerOk(d, o, ds, loose, SlotVal(d, s));
  }
}
