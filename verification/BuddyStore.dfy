/** The allocator's memory: the bit vectors and list nodes behind bd_sizes, as bytes and links. */
module BuddyStore {
  import opened Arith
  import opened BuddyTables
  import opened BuddyInit
  import BuddyFull
  import Bits
  import Lists

  /** No vector is in both. */
  ghost predicate Apart(a: seq<array<Bits.Byte>>, b: seq<array<Bits.Byte>>) {
    forall j, k :: 0 <= j < |a| && 0 <= k < |b| ==> a[j] != b[k]
  }

  ghost predicate AllIn(a: seq<array<Bits.Byte>>, s: set<object>) {
    forall k :: 0 <= k < |a| ==> a[k] in s
  }

  /** All the parts of a store. */
  ghost function Parts(a: seq<array<Bits.Byte>>, b: seq<array<Bits.Byte>>, others: set<object>): (s: set<object>)
    ensures AllIn(a, s) && AllIn(b, s) && others <= s
    ensures forall o :: o in s ==> o in others || o in a || o in b
  {
    others + (set r | r in a) + (set r | r in b)
  }

  lemma ClearedRows(bits: Rows)
    requires forall k, i :: 0 <= k < |bits| && 0 <= i < |bits[k]| ==> !bits[k][i]
    ensures forall k :: 0 <= k < |bits| ==> Cleared(bits[k])
  {
  }

  lemma NewRowsApart(a: seq<array<Bits.Byte>>, b: seq<array<Bits.Byte>>)
    requires forall r :: r in a ==> r !in b
    ensures Apart(a, b)
  {
    forall j, k | 0 <= j < |a| && 0 <= k < |b| ensures a[j] != b[k] {
      assert a[j] in a && b[k] in b;
    }
  }

  lemma MoreIn(a: seq<array<Bits.Byte>>, s: set<object>, s': set<object>)
    requires AllIn(a, s) && s <= s'
    ensures AllIn(a, s')
  {
  }

  class Store {
    const alloc: Bits.BitRows
    const split: Bits.BitRows
    const free: Lists.FreeLists
    ghost const Repr: set<object>
    ghost var pairs: Rows            // the xor bits
    ghost var splits: Rows           // the split bits
    ghost var lists: seq<seq<nat>>   // the free lists

    /** The vectors are in order, and every list has a head; the lists need not be rings. */
    ghost predicate Rooted()
      reads this, Repr
    {
      && this in Repr && alloc in Repr && split in Repr && free in Repr
      && AllIn(alloc.rows, Repr) && AllIn(split.rows, Repr)
      && alloc.Valid() && split.Valid() && free.Heads()
      && alloc != split && Apart(alloc.rows, split.rows)
      && pairs == alloc.bits && splits == split.bits && lists == free.lists
    }

    ghost predicate Valid()
      reads this, Repr
    {
      Rooted() && free.Valid()
    }

    /** Cleared bit vectors of the given lengths in bytes, and empty lists. */
    constructor (allocLens: seq<nat>, splitLens: seq<nat>)
      ensures Valid() && fresh(Repr)
      ensures |pairs| == |allocLens| && |splits| == |splitLens| && |lists| == |allocLens|
      ensures forall k :: 0 <= k < |allocLens| ==> |pairs[k]| == 8 * allocLens[k] && Cleared(pairs[k])
      ensures forall k :: 0 <= k < |splitLens| ==> |splits[k]| == 8 * splitLens[k] && Cleared(splits[k])
      ensures forall k :: 0 <= k < |allocLens| ==> lists[k] == []
    {
      hide Bits.BitRows.Valid, Lists.FreeLists.Valid, Lists.FreeLists.Heads, Parts, Cleared, Apart, AllIn;
      var a := new Bits.BitRows(allocLens);
      ClearedRows(a.bits);
      var s := new Bits.BitRows(splitLens);
      ClearedRows(s.bits);
      NewRowsApart(a.rows, s.rows);
      var f := new Lists.FreeLists(|allocLens|);
      alloc, split, free := a, s, f;
      pairs, splits, lists := a.bits, s.bits, f.lists;
      ghost var parts := Parts(a.rows, s.rows, {a, s, f});
      Repr := {this} + parts;
      new;
      MoreIn(a.rows, parts, Repr);
      MoreIn(s.rows, parts, Repr);
    }

    method IsPair(k: nat, i: nat) returns (r: bool)
      requires Rooted() && k < |pairs| && i < |pairs[k]|
      ensures r == pairs[k][i]
    {
      r := alloc.IsSet(k, i);
    }

    /** bit_isset of an index that may lie past the end of vector `k`: the vectors are adjacent. */
    method IsPairFrom(k: nat, i: nat) returns (r: bool)
      requires Rooted() && BuddyFull.InRows(pairs, k, i)
      ensures r == BuddyFull.Flat(pairs, k, i)
    {
      var j: nat, x: nat := k, i;
      while x >= 8 * alloc.rows[j].Length
        invariant BuddyFull.InRows(pairs, j, x) && BuddyFull.Flat(pairs, j, x) == BuddyFull.Flat(pairs, k, i)
        decreases |pairs| - j
      {
        x := x - 8 * alloc.rows[j].Length;
        j := j + 1;
      }
      r := IsPair(j, x);
    }

    method InvertPair(k: nat, i: nat)
      requires Valid() && k < |pairs| && i < |pairs[k]|
      modifies Repr
      ensures Valid() && pairs == Flip(old(pairs), k, i) && splits == old(splits) && lists == old(lists)
    {
      alloc.Invert(k, i);
      pairs := alloc.bits;
    }

    method IsSplit(k: nat, i: nat) returns (r: bool)
      requires Valid() && k < |splits| && i < |splits[k]|
      ensures r == splits[k][i]
    {
      r := split.IsSet(k, i);
    }

    method SetSplit(k: nat, i: nat)
      requires Valid() && k < |splits| && i < |splits[k]|
      modifies Repr
      ensures Valid() && splits == Put(old(splits), k, i, true) && pairs == old(pairs) && lists == old(lists)
    {
      split.Set(k, i);
      splits := split.bits;
    }

    method ClearSplit(k: nat, i: nat)
      requires Valid() && k < |splits| && i < |splits[k]|
      modifies Repr
      ensures Valid() && splits == Put(old(splits), k, i, false) && pairs == old(pairs) && lists == old(lists)
    {
      split.Clear(k, i);
      splits := split.bits;
    }

    method Empty(k: nat) returns (r: bool)
      requires Valid() && k < |lists|
      ensures r <==> lists[k] == []
    {
      r := free.Empty(k);
    }

    method Push(k: nat, p: nat)
      requires Rooted() && k < |lists|
      modifies Repr
      ensures Rooted() && lists == old(lists)[k := [p] + old(lists)[k]] && pairs == old(pairs) && splits == old(splits)
      ensures old(Valid()) && (forall j :: 0 <= j < |lists| ==> p !in old(lists)[j]) ==> Valid()
    {
      free.Push(k, p);
      lists := free.lists;
    }

    method Pop(k: nat) returns (p: nat)
      requires Valid() && k < |lists| && lists[k] != []
      modifies Repr
      ensures Valid() && lists == old(lists)[k := Lists.Without(old(lists)[k], 0)] && p == old(lists)[k][0]
      ensures pairs == old(pairs) && splits == old(splits)
    {
      p := free.Pop(k);
      free.RingsHaveHeads();
      lists := free.lists;
    }

    method Remove(p: nat, ghost k: nat, ghost x: nat)
      requires Valid() && k < |lists| && x < |lists[k]| && lists[k][x] == p
      modifies Repr
      ensures Valid() && lists == old(lists)[k := Lists.Without(old(lists)[k], x)]
      ensures pairs == old(pairs) && splits == old(splits)
    {
      free.Remove(p, k, x);
      free.RingsHaveHeads();
      lists := free.lists;
    }

    lemma ValidIsRooted()
      requires Valid()
      ensures Rooted()
    {
    }

    lemma DistinctLists()
      requires Valid()
      ensures Lists.Distinct(lists)
    {
    }
  }
}
