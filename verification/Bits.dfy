/** The bit vectors of kernel/buddy.c: eight flags to a byte, changed in place by mask operations.
    Each operation changes exactly the one flag it names. */
module Bits {

  type Byte = bv8

  /** `1 << i` */
  function Mask(i: nat): Byte
    requires i < 8
  {
    match i
    case 0 => 1
    case 1 => 2
    case 2 => 4
    case 3 => 8
    case 4 => 16
    case 5 => 32
    case 6 => 64
    case _ => 128
  }

  predicate Flag(b: Byte, i: nat)
    requires i < 8
  {
    b & Mask(i) == Mask(i)
  }

  /** Flag `i` is bit `i`, counted from the least significant. */
  lemma FlagIsBit(b: Byte, i: nat)
    requires i < 8
    ensures Flag(b, i) <==> (b >> i) & 1 == 1
  {
    if i < 4 {
      assert i == 0 || i == 1 || i == 2 || i == 3;
    } else {
      assert i == 4 || i == 5 || i == 6 || i == 7;
    }
  }

  /** The flags a byte array stands for. */
  function Flags(bytes: seq<Byte>): (f: seq<bool>)
    ensures |f| == 8 * |bytes|
  {
    seq(8 * |bytes|, x requires 0 <= x < 8 * |bytes| => Flag(bytes[x / 8], x % 8))
  }

  lemma FlagSet(b: Byte, i: nat, j: nat)
    requires i < 8 && j < 8
    ensures Flag(b | Mask(i), j) == if j == i then true else Flag(b, j)
  {
    if i != j { assert Mask(i) & Mask(j) == 0; }
  }

  lemma FlagCleared(b: Byte, i: nat, j: nat)
    requires i < 8 && j < 8
    ensures Flag(b & !Mask(i), j) == if j == i then false else Flag(b, j)
  {
    if i != j { assert Mask(i) & Mask(j) == 0; }
  }

  lemma FlagInverted(b: Byte, i: nat, j: nat)
    requires i < 8 && j < 8
    ensures Flag(b ^ Mask(i), j) == if j == i then !Flag(b, i) else Flag(b, j)
  {
    if i != j { assert Mask(i) & Mask(j) == 0; }
  }

  /** Writing byte x/8 so that only its flag x%8 changes to `v` changes flag x alone. */
  lemma ByteWritten(bytes: seq<Byte>, x: nat, b: Byte, v: bool)
    requires x / 8 < |bytes|
    requires forall j :: 0 <= j < 8 ==> Flag(b, j) == if j == x % 8 then v else Flag(bytes[x / 8], j)
    ensures Flags(bytes[x / 8 := b]) == Flags(bytes)[x := v]
  {
    var f, g := Flags(bytes[x / 8 := b]), Flags(bytes)[x := v];
    forall y | 0 <= y < |g|
      ensures f[y] == g[y]
    {
      assert y / 8 == x / 8 && y % 8 == x % 8 ==> y == x;
    }
  }

  method BitIsSet(a: array<Byte>, index: nat) returns (r: bool)
    requires index / 8 < a.Length
    ensures r == Flags(a[..])[index]
  {
    var b := a[index / 8];
    var m := Mask(index % 8);
    r := b & m == m;
  }

  method BitSet(a: array<Byte>, index: nat)
    requires index / 8 < a.Length
    modifies a
    ensures Flags(a[..]) == old(Flags(a[..]))[index := true]
  {
    ghost var was := a[..];
    var b := a[index / 8];
    var m := Mask(index % 8);
    forall j | 0 <= j < 8 { FlagSet(b, index % 8, j); }
    ByteWritten(was, index, b | m, true);
    a[index / 8] := b | m;
    assert a[..] == was[index / 8 := b | m];
  }

  method BitClear(a: array<Byte>, index: nat)
    requires index / 8 < a.Length
    modifies a
    ensures Flags(a[..]) == old(Flags(a[..]))[index := false]
  {
    ghost var was := a[..];
    var b := a[index / 8];
    var m := Mask(index % 8);
    forall j | 0 <= j < 8 { FlagCleared(b, index % 8, j); }
    ByteWritten(was, index, b & !m, false);
    a[index / 8] := b & !m;
    assert a[..] == was[index / 8 := b & !m];
  }

  method BitInvert(a: array<Byte>, index: nat)
    requires index / 8 < a.Length
    modifies a
    ensures Flags(a[..]) == old(Flags(a[..]))[index := !old(Flags(a[..]))[index]]
  {
    ghost var was := a[..];
    var b := a[index / 8];
    var m := Mask(index % 8);
    forall j | 0 <= j < 8 { FlagInverted(b, index % 8, j); }
    ByteWritten(was, index, b ^ m, !Flags(was)[index]);
    a[index / 8] := b ^ m;
    assert a[..] == was[index / 8 := b ^ m];
  }

  /** One bit vector per block size, as in the `alloc` and `split` arrays of bd_sizes. */
  class BitRows {
    const rows: seq<array<Byte>>
    ghost var bits: seq<seq<bool>>

    ghost predicate Valid()
      reads this, rows
    {
      && |bits| == |rows|
      && (forall j, k :: 0 <= j < k < |rows| ==> rows[j] != rows[k])
      && (forall k :: 0 <= k < |rows| ==> bits[k] == Flags(rows[k][..]))
    }

    /** All vectors zeroed; vector `k` takes lens[k] bytes. */
    constructor (lens: seq<nat>)
      ensures Valid() && |bits| == |lens| && fresh(rows)
      ensures forall k :: 0 <= k < |lens| ==> |bits[k]| == 8 * lens[k]
      ensures forall k, i :: 0 <= k < |lens| && 0 <= i < |bits[k]| ==> !bits[k][i]
    {
      var rs: seq<array<Byte>> := [];
      for k := 0 to |lens|
        invariant |rs| == k && fresh(rs)
        invariant forall i, j :: 0 <= i < j < k ==> rs[i] != rs[j]
        invariant forall j :: 0 <= j < k ==> rs[j].Length == lens[j] && forall x :: 0 <= x < lens[j] ==> rs[j][x] == 0
      {
        var a := new Byte[lens[k]](_ => 0);
        rs := rs + [a];
      }
      rows := rs;
      bits := seq(|rs|, k requires 0 <= k < |rs| reads rs => Flags(rs[k][..]));
      new;
      forall k, i | 0 <= k < |lens| && 0 <= i < |bits[k]|
        ensures !bits[k][i]
      {
        ZeroFlag(i % 8);
      }
    }

    method IsSet(k: nat, i: nat) returns (r: bool)
      requires Valid() && k < |bits| && i < |bits[k]|
      ensures r == bits[k][i]
    {
      r := BitIsSet(rows[k], i);
    }

    method Set(k: nat, i: nat)
      requires Valid() && k < |bits| && i < |bits[k]|
      modifies this, rows[k]
      ensures Valid() && bits == old(bits)[k := old(bits)[k][i := true]]
    {
      BitSet(rows[k], i);
      bits := bits[k := bits[k][i := true]];
    }

    method Clear(k: nat, i: nat)
      requires Valid() && k < |bits| && i < |bits[k]|
      modifies this, rows[k]
      ensures Valid() && bits == old(bits)[k := old(bits)[k][i := false]]
    {
      BitClear(rows[k], i);
      bits := bits[k := bits[k][i := false]];
    }

    method Invert(k: nat, i: nat)
      requires Valid() && k < |bits| && i < |bits[k]|
      modifies this, rows[k]
      ensures Valid() && bits == old(bits)[k := old(bits)[k][i := !old(bits)[k][i]]]
    {
      BitInvert(rows[k], i);
      bits := bits[k := bits[k][i := !bits[k][i]]];
    }
  }

  lemma ZeroFlag(i: nat)
    requires i < 8
    ensures !Flag(0, i)
  {
  }
}
