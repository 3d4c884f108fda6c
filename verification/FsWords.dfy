/** How the file system lies in disk blocks of 256 words: the free map as bits, sixteen inodes to a
    block, data blocks as they are. */
module FsWords {
  import opened Arith
  import opened Bytes
  import opened FsLogged
  import opened FsModel

  const BWORDS: nat := 256
  const BITS: nat := 32       // in a word

  type Words = seq<int>

  // ----- Words and bits -----

  function WordBit(v: nat, k: nat): bool {
    if k == 0 then v % 2 == 1 else WordBit(v / 2, k - 1)
  }

  function WordOf(f: seq<bool>): nat {
    if f == [] then 0 else (if f[0] then 1 else 0) + 2 * WordOf(f[1..])
  }

  lemma LowBit(c: nat, h: nat)
    requires c < 2
    ensures (c + 2 * h) % 2 == c && (c + 2 * h) / 2 == h
  {
  }

  lemma {:induction false} WordBitOf(f: seq<bool>, k: nat)
    requires k < |f|
    ensures WordBit(WordOf(f), k) == f[k]
  {
    LowBit(if f[0] then 1 else 0, WordOf(f[1..]));
    if k > 0 { WordBitOf(f[1..], k - 1); }
  }

  /** Bit `n` of a block. */
  function Bit(w: Words, n: nat): bool
    requires |w| == BWORDS && n < BPB
  {
    w[n / BITS] >= 0 && WordBit(w[n / BITS], n % BITS)
  }

  lemma {:induction false} BitsJoined(b: nat, r: nat, m: nat, k: nat)
    requires b < Pow2(m)
    ensures WordBit(b + Pow2(m) * r, k) == if k < m then WordBit(b, k) else WordBit(r, k - m)
    decreases m
  {
    if m > 0 {
      var h := Pow2(m - 1) * r;
      assert b + Pow2(m) * r == b % 2 + 2 * (b / 2 + h);
      LowBit(b % 2, b / 2 + h);
      if k > 0 { BitsJoined(b / 2, r, m - 1, k - 1); }
    }
  }

  function WordsIn(bl: Block): (w: Words)
    ensures |w| == BWORDS
  {
    seq(BWORDS, k requires 0 <= k < BWORDS => Uint(bl, k))
  }

  /** Bit `k` of a number is the bit of its lowest byte, or one of the rest. */
  lemma BitOfLow(b: Byte, r: nat, k: nat)
    ensures WordBit(b + 0x100 * r, k) == if k < 8 then WordBit(b, k) else WordBit(r, k - 8)
  {
    hide WordBit, Pow2;
    Pow8();
    BitsJoined(b, r, 8, k);
  }

  lemma BitOfFour(b0: Byte, b1: Byte, b2: Byte, b3: Byte, k: nat)
    requires k < BITS
    ensures WordBit(FromBytes(b0, b1, b2, b3), k) == WordBit([b0, b1, b2, b3][k / 8], k % 8)
  {
    hide WordBit;
    assert FromBytes(b0, b1, b2, b3) == b0 + 0x100 * (b1 + 0x100 * (b2 + 0x100 * b3));
    BitOfLow(b0, b1 + 0x100 * (b2 + 0x100 * b3), k);
    if k >= 8 { BitOfLow(b1, b2 + 0x100 * b3, k - 8); }
    if k >= 16 { BitOfLow(b2, b3, k - 16); }
  }

  /** Bit `n` of a block is bit n % 8 of its byte n / 8, the one balloc and bfree look at. */
  lemma BitOfByte(bl: Block, n: nat)
    requires |bl| == BSIZE && n < BPB
    ensures Bit(WordsIn(bl), n) == WordBit(bl[n / 8], n % 8)
  {
    hide WordBit;
    var i, k := n / BITS, n % BITS;
    BitOfFour(bl[4 * i], bl[4 * i + 1], bl[4 * i + 2], bl[4 * i + 3], k);
    assert n / 8 == 4 * i + k / 8 && n % 8 == k % 8;
  }

  lemma Pow8()
    ensures Pow2(8) == 0x100
  {
    assert Pow2(4) == 16;
  }

  // ----- Reading a disk -----

  predicate Sized(raw: seq<Words>, b: nat) {
    b < |raw| && |raw[b]| == BWORDS
  }

  predicate BitStored(g: Area, raw: seq<Words>, d: Disk, b: nat)
    requires b < |d.used|
  {
    Sized(raw, MapBlock(g, b)) && d.used[b] == Bit(raw[MapBlock(g, b)], b % BPB)
  }

  predicate DataStored(raw: seq<Words>, d: Disk, b: nat)
    requires b < |d.blocks|
  {
    Sized(raw, b) && forall k :: 0 <= k < BWORDS ==> raw[b][k] == Uint(d.blocks[b], k)
  }

  /** Word `f` of the sixteen that a dinode has: type and links, the size, the block numbers. */
  predicate InodeField(w: Words, j: nat, ino: Inode, f: nat)
    requires |w| == BWORDS && j < IPB && 2 <= f < 16 && |ino.addrs| == NDIRECT + 1
  {
    w[16 * j + f] == if f == 2 then ino.size else ino.addrs[f - 3]
  }

  ghost predicate InodeStored(g: Area, raw: seq<Words>, d: Disk, i: nat)
    requires i in d.inodes
  {
    && Sized(raw, InodeBlock(g, i)) && |d.inodes[i].addrs| == NDIRECT + 1
    && forall f: nat {:trigger InodeField(raw[InodeBlock(g, i)], i % IPB, d.inodes[i], f)} ::
         2 <= f < 16 ==> InodeField(raw[InodeBlock(g, i)], i % IPB, d.inodes[i], f)
  }

  /** The blocks `raw` hold the file system `d`. */
  ghost predicate Stores(g: Area, raw: seq<Words>, d: Disk) {
    && (forall b: nat {:trigger BitStored(g, raw, d, b)} :: b < |d.used| ==> BitStored(g, raw, d, b))
    && (forall b: nat {:trigger DataStored(raw, d, b)} :: g.dataStart <= b < |d.blocks| ==> DataStored(raw, d, b))
    && (forall i {:trigger InodeStored(g, raw, d, i)} :: i in d.inodes ==> InodeStored(g, raw, d, i))
  }

  /** Free map, inodes and data do not overlap, and inodes come first. */
  ghost predicate AreaOk(g: Area, d: Disk) {
    && Shape(d) && g.inodeStart <= g.bmapStart <= g.dataStart <= |d.used|
    && (forall i :: i in d.inodes ==> g.inodeStart <= InodeBlock(g, i) < g.bmapStart)
    && (forall b: nat {:trigger MapBlock(g, b)} :: b < |d.used| ==> g.bmapStart <= MapBlock(g, b) < g.dataStart)
  }

  /** Blocks outside the file system do not matter. */
  lemma StoresSame(g: Area, raw: seq<Words>, raw': seq<Words>, d: Disk)
    requires Stores(g, raw, d) && |raw'| == |raw| && |d.blocks| == |d.used|
    requires forall b: nat :: b < |raw| && InArea(g, d, b) ==> raw'[b] == raw[b]
    ensures Stores(g, raw', d)
  {
    forall b: nat | b < |d.used| ensures BitStored(g, raw', d, b) {
      assert BitStored(g, raw, d, b);
      assert InArea(g, d, MapBlock(g, b));
    }
    forall b: nat | g.dataStart <= b < |d.blocks| ensures DataStored(raw', d, b) {
      assert DataStored(raw, d, b);
      assert InArea(g, d, b);
    }
    forall i | i in d.inodes ensures InodeStored(g, raw', d, i) {
      assert InodeStored(g, raw, d, i);
      assert InArea(g, d, InodeBlock(g, i));
    }
  }

  // ----- Writing a block back -----

  /** Bits 32k .. 32k+31 of free-map block `b`; those past the end of the disk stay as they are. */
  function MapBits(g: Area, d: Disk, w: Words, b: nat, k: nat): (f: seq<bool>)
    requires |w| == BWORDS && k < BWORDS && g.bmapStart <= b
    ensures |f| == BITS
  {
    seq(BITS, t requires 0 <= t < BITS =>
      var n := (b - g.bmapStart) * BPB + BITS * k + t;
      if n < |d.used| then d.used[n] else Bit(w, BITS * k + t))
  }

  /** Word `k` of block `b` once it holds what `d` says; it was w[k]. */
  function NewWord(g: Area, d: Disk, w: Words, b: nat, k: nat): int
    requires |w| == BWORDS && k < BWORDS && Shape(d)
  {
    if g.dataStart <= b then (if b < |d.blocks| then Uint(d.blocks[b], k) else w[k])
    else if g.bmapStart <= b then WordOf(MapBits(g, d, w, b, k))
    else if g.inodeStart <= b then
      var i, f := (b - g.inodeStart) * IPB + k / 16, k % 16;
      if i in d.inodes && f >= 2 then (if f == 2 then d.inodes[i].size else d.inodes[i].addrs[f - 3]) else w[k]
    else w[k]
  }

  ghost function NewWords(g: Area, d: Disk, w: Words, b: nat): (r: Words)
    requires |w| == BWORDS && Shape(d)
    ensures |r| == BWORDS && forall k :: 0 <= k < BWORDS ==> r[k] == NewWord(g, d, w, b, k)
  {
    seq(BWORDS, k requires 0 <= k < BWORDS => NewWord(g, d, w, b, k))
  }

  lemma NewBit(g: Area, d: Disk, w: Words, c: nat)
    requires |w| == BWORDS && AreaOk(g, d) && c < |d.used|
    ensures Bit(NewWords(g, d, w, MapBlock(g, c)), c % BPB) == d.used[c]
  {
    var b, n := MapBlock(g, c), c % BPB;
    var k, t := n / BITS, n % BITS;
    var f := MapBits(g, d, w, b, k);
    BitPlace(c);
    assert f[t] == d.used[c];
    WordBitOf(f, t);
    assert NewWords(g, d, w, b)[k] == WordOf(f);
  }

  lemma BitPlace(c: nat)
    ensures var n := c % BPB;
      n / BITS < BWORDS && c / BPB * BPB + BITS * (n / BITS) + n % BITS == c
  {
  }

  lemma NewInodeField(g: Area, d: Disk, w: Words, i: nat, f: nat)
    requires |w| == BWORDS && AreaOk(g, d) && i in d.inodes && 2 <= f < 16
    ensures InodeField(NewWords(g, d, w, InodeBlock(g, i)), i % IPB, d.inodes[i], f)
  {
    var b, k := InodeBlock(g, i), 16 * (i % IPB) + f;
    InodePlace(i, f);
    assert NewWords(g, d, w, b)[k] == NewWord(g, d, w, b, k);
  }

  lemma InodePlace(i: nat, f: nat)
    requires f < 16
    ensures var k := 16 * (i % IPB) + f;
      k < BWORDS && i / IPB * IPB + k / 16 == i && k % 16 == f
  {
  }

  /** Writing back the logged blocks is enough: if they cover the changes from d to d', the disk then
      holds d'. */
  lemma LoggedIsEnough(g: Area, raw: seq<Words>, d: Disk, raw': seq<Words>, d': Disk, l: set<nat>)
    requires Stores(g, raw, d) && AreaOk(g, d) && Shape(d') && Covered(g, d, d', {}, l, {}) && |raw'| == |raw|
    requires forall b: nat {:trigger Sized(raw, b)} :: Sized(raw, b) ==>
               raw'[b] == if b in l then NewWords(g, d', raw[b], b) else raw[b]
    ensures Stores(g, raw', d') && AreaOk(g, d')
  {
    hide NewWords, Bit;
    forall b: nat | b < |d'.used| ensures BitStored(g, raw', d', b) {
      assert BitStored(g, raw, d, b) && Sized(raw, MapBlock(g, b));
      NewBit(g, d', raw[MapBlock(g, b)], b);
    }
    forall b: nat | g.dataStart <= b < |d'.blocks| ensures DataStored(raw', d', b) {
      assert DataStored(raw, d, b) && Sized(raw, b);
    }
    forall i | i in d'.inodes ensures InodeStored(g, raw', d', i) {
      var b := InodeBlock(g, i);
      assert InodeStored(g, raw, d, i) && Sized(raw, b);
      forall f: nat | 2 <= f < 16 ensures InodeField(raw'[b], i % IPB, d'.inodes[i], f) {
        assert InodeField(raw[b], i % IPB, d.inodes[i], f);
        NewInodeField(g, d', raw[b], i, f);
      }
    }
  }

  // ----- The disk determines the files -----

  lemma DigitOnce(a: nat, q: nat, b: nat, r: nat)
    requires a < 0x100 && b < 0x100 && a + 0x100 * q == b + 0x100 * r
    ensures a == b && q == r
  {
  }

  lemma FromBytesOnce(a0: nat, a1: nat, a2: nat, a3: nat, b0: nat, b1: nat, b2: nat, b3: nat)
    requires a0 < 0x100 && a1 < 0x100 && a2 < 0x100 && b0 < 0x100 && b1 < 0x100 && b2 < 0x100
    requires FromBytes(a0, a1, a2, a3) == FromBytes(b0, b1, b2, b3)
    ensures a0 == b0 && a1 == b1 && a2 == b2 && a3 == b3
  {
    DigitOnce(a0, a1 + 0x100 * (a2 + 0x100 * a3), b0, b1 + 0x100 * (b2 + 0x100 * b3));
    DigitOnce(a1, a2 + 0x100 * a3, b1, b2 + 0x100 * b3);
    DigitOnce(a2, a3, b2, b3);
  }

  lemma SameBytesOf(a: Block, b: Block)
    requires |a| == |b| == BSIZE && forall k :: 0 <= k < BWORDS ==> Uint(a, k) == Uint(b, k)
    ensures a == b
  {
    forall n | 0 <= n < BSIZE ensures a[n] == b[n] {
      var k := n / 4;
      assert Uint(a, k) == Uint(b, k);
      FromBytesOnce(a[4 * k], a[4 * k + 1], a[4 * k + 2], a[4 * k + 3],
                    b[4 * k], b[4 * k + 1], b[4 * k + 2], b[4 * k + 3]);
    }
  }

  lemma SameDataOf(g: Area, raw: seq<Words>, d: Disk, e: Disk, b: nat)
    requires Stores(g, raw, d) && Stores(g, raw, e) && Shape(d) && Shape(e) && |d.blocks| == |e.blocks|
    requires g.dataStart <= b < |d.blocks|
    ensures d.blocks[b] == e.blocks[b]
  {
    assert DataStored(raw, d, b) && DataStored(raw, e, b);
    SameBytesOf(d.blocks[b], e.blocks[b]);
  }

  lemma SameInodeOf(g: Area, raw: seq<Words>, d: Disk, e: Disk, i: nat)
    requires Stores(g, raw, d) && Stores(g, raw, e) && i in d.inodes && i in e.inodes
    ensures d.inodes[i] == e.inodes[i]
  {
    assert InodeStored(g, raw, d, i) && InodeStored(g, raw, e, i);
    var w := raw[InodeBlock(g, i)];
    forall f: nat | 2 <= f < 16
      ensures InodeField(w, i % IPB, d.inodes[i], f) && InodeField(w, i % IPB, e.inodes[i], f)
    { }
    forall a | 0 <= a < NDIRECT + 1 ensures d.inodes[i].addrs[a] == e.inodes[i].addrs[a] {
      assert InodeField(w, i % IPB, d.inodes[i], a + 3) && InodeField(w, i % IPB, e.inodes[i], a + 3);
    }
    assert InodeField(w, i % IPB, d.inodes[i], 2) && InodeField(w, i % IPB, e.inodes[i], 2);
  }

  /** Two file systems on the same disk have the same files. */
  lemma DiskDetermines(g: Area, raw: seq<Words>, d: Disk, o: Owners, e: Disk, p: Owners, i: nat)
    requires Stores(g, raw, d) && Stores(g, raw, e) && |d.blocks| == |e.blocks| && i in d.inodes && i in e.inodes
    requires Inv(d, o, g.dataStart, {}, {}) && Inv(e, p, g.dataStart, {}, {})
    ensures Content(d, i) == Content(e, i)
  {
    SameInodeOf(g, raw, d, e, i);
    forall k: nat ensures ByteAt(d, i, k) == ByteAt(e, i, k) {
      var s := Slot(i, DataIx(k / BSIZE));
      SameSlot(g, raw, d, o, e, p, s);
      if SlotVal(d, s) != 0 {
        SlotInData(d, o, g.dataStart, {}, {}, s);
        SameDataOf(g, raw, d, e, SlotVal(d, s));
      }
    }
  }

  lemma SameSlot(g: Area, raw: seq<Words>, d: Disk, o: Owners, e: Disk, p: Owners, s: Slot)
    requires Stores(g, raw, d) && Stores(g, raw, e) && |d.blocks| == |e.blocks| && s.inum in d.inodes
    requires s.inum in e.inodes
    requires Inv(d, o, g.dataStart, {}, {}) && Inv(e, p, g.dataStart, {}, {})
    ensures SlotVal(d, s) == SlotVal(e, s)
  {
    hide Uint, Stores;
    SameInodeOf(g, raw, d, e, s.inum);
    var a := IndBlock(d, s.inum);
    if a != 0 {
      SlotInData(d, o, g.dataStart, {}, {}, Slot(s.inum, NDIRECT));
      SameDataOf(g, raw, d, e, a);
    }
  }
}
