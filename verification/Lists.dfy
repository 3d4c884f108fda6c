/** The circular doubly linked lists of kernel/list.c, threaded through the free blocks.

    A node is either the list head in `bd_sizes[k].free` or the first two words of a free block.
    All nodes live in one memory, given by the two maps `next` and `prev`, so relinking one list
    could in principle damage another. */
module Lists {

  datatype Node = Head(k: nat) | At(p: nat)

  /** Position `i` of the ring that starts at head `h` and goes through `s`; it closes at its head. */
  function Cell(h: Node, s: seq<nat>, i: nat): Node {
    if 0 < i <= |s| then At(s[i - 1]) else h
  }

  /** Nodes `a` and `b` are linked to each other, forward and backward. */
  predicate Linked(next: map<Node, Node>, prev: map<Node, Node>, a: Node, b: Node) {
    a in next && next[a] == b && b in prev && prev[b] == a
  }

  ghost predicate LinkAt(next: map<Node, Node>, prev: map<Node, Node>, h: Node, s: seq<nat>, i: nat) {
    Linked(next, prev, Cell(h, s, i), Cell(h, s, i + 1))
  }

  /** `s`, in order, is the ring that starts and ends at `h`. */
  ghost predicate Ring(next: map<Node, Node>, prev: map<Node, Node>, h: Node, s: seq<nat>) {
    forall i: nat {:trigger LinkAt(next, prev, h, s, i)} :: i <= |s| ==> LinkAt(next, prev, h, s, i)
  }

  /** All nodes of all lists are different. */
  ghost predicate Distinct(lists: seq<seq<nat>>) {
    forall k, i, k', i' {:trigger lists[k][i], lists[k'][i']} ::
      (0 <= k < |lists| && 0 <= i < |lists[k]| && 0 <= k' < |lists| && 0 <= i' < |lists[k']|
       && lists[k][i] == lists[k'][i']) ==> k == k' && i == i'
  }

  ghost predicate Rings(next: map<Node, Node>, prev: map<Node, Node>, lists: seq<seq<nat>>) {
    forall k :: 0 <= k < |lists| ==> Ring(next, prev, Head(k), lists[k])
  }

  function Without(s: seq<nat>, i: nat): (r: seq<nat>)
    requires i < |s|
    ensures |r| == |s| - 1
    ensures forall j :: 0 <= j < |r| ==> r[j] == s[if j < i then j else j + 1]
  {
    s[..i] + s[i + 1..]
  }

  /** A ring none of whose nodes was written is still that ring. */
  lemma RingFrame(next: map<Node, Node>, prev: map<Node, Node>, h: Node, s: seq<nat>,
                  next': map<Node, Node>, prev': map<Node, Node>, written: set<Node>)
    requires Ring(next, prev, h, s)
    requires h !in written && forall i :: 0 <= i < |s| ==> At(s[i]) !in written
    requires forall n :: n !in written && n in next ==> n in next' && next'[n] == next[n]
    requires forall n :: n !in written && n in prev ==> n in prev' && prev'[n] == prev[n]
    ensures Ring(next', prev', h, s)
  {
    forall i: nat | i <= |s|
      ensures LinkAt(next', prev', h, s, i)
    {
      assert LinkAt(next, prev, h, s, i);
    }
  }

  lemma PushRing(next: map<Node, Node>, prev: map<Node, Node>, h: Node, s: seq<nat>, p: nat)
    requires Ring(next, prev, h, s) && h.Head? && p !in s && h in next
    ensures Ring(next[At(p) := next[h]][h := At(p)], prev[At(p) := h][next[h] := At(p)], h, [p] + s)
  {
    var n', p' := next[At(p) := next[h]][h := At(p)], prev[At(p) := h][next[h] := At(p)];
    assert LinkAt(next, prev, h, s, 0);
    forall i: nat | i <= |s| + 1
      ensures LinkAt(n', p', h, [p] + s, i)
    {
      if i >= 2 {
        assert LinkAt(next, prev, h, s, i - 1);
        assert LinkAt(next, prev, h, s, i - 2);
      }
    }
  }

  lemma PushOthers(next: map<Node, Node>, prev: map<Node, Node>, lists: seq<seq<nat>>, k: nat, p: nat, j: nat)
    requires Distinct(lists) && Rings(next, prev, lists) && k < |lists| && j < |lists| && j != k
    requires p !in lists[j] && Head(k) in next
    ensures Ring(next[At(p) := next[Head(k)]][Head(k) := At(p)],
                 prev[At(p) := Head(k)][next[Head(k)] := At(p)], Head(j), lists[j])
  {
    var h := Head(k);
    assert Ring(next, prev, h, lists[k]);
    assert LinkAt(next, prev, h, lists[k], 0);
    RingFrame(next, prev, Head(j), lists[j], next[At(p) := next[h]][h := At(p)],
              prev[At(p) := h][next[h] := At(p)], {h, At(p), next[h]});
  }

  lemma PushDistinct(lists: seq<seq<nat>>, k: nat, p: nat)
    requires Distinct(lists) && k < |lists|
    requires forall j :: 0 <= j < |lists| ==> p !in lists[j]
    ensures Distinct(lists[k := [p] + lists[k]])
  {
    var l := lists[k := [p] + lists[k]];
    forall a, i, b, j | 0 <= a < |l| && 0 <= i < |l[a]| && 0 <= b < |l| && 0 <= j < |l[b]| && l[a][i] == l[b][j]
      ensures a == b && i == j
    {
      var i', j' := if a == k then i - 1 else i, if b == k then j - 1 else j;
      if i' >= 0 { assert l[a][i] == lists[a][i']; }
      if j' >= 0 { assert l[b][j] == lists[b][j']; }
    }
  }

  lemma RemoveRing(next: map<Node, Node>, prev: map<Node, Node>, h: Node, s: seq<nat>, i: nat)
    requires Ring(next, prev, h, s) && h.Head? && i < |s| && At(s[i]) in next && At(s[i]) in prev
    requires forall a, b :: 0 <= a < |s| && 0 <= b < |s| && s[a] == s[b] ==> a == b
    ensures Ring(next[prev[At(s[i])] := next[At(s[i])]], prev[next[At(s[i])] := prev[At(s[i])]], h, Without(s, i))
  {
    var e := At(s[i]);
    var n', p' := next[prev[e] := next[e]], prev[next[e] := prev[e]];
    assert LinkAt(next, prev, h, s, i) && LinkAt(next, prev, h, s, i + 1);
    forall j: nat | j <= |s| - 1
      ensures LinkAt(n', p', h, Without(s, i), j)
    {
      RemoveLink(next, prev, h, s, i, j);
    }
  }

  lemma RemoveLink(next: map<Node, Node>, prev: map<Node, Node>, h: Node, s: seq<nat>, i: nat, j: nat)
    requires Ring(next, prev, h, s) && h.Head? && i < |s| && j <= |s| - 1
    requires forall a, b :: 0 <= a < |s| && 0 <= b < |s| && s[a] == s[b] ==> a == b
    ensures LinkAt(next[Cell(h, s, i) := Cell(h, s, i + 2)], prev[Cell(h, s, i + 2) := Cell(h, s, i)],
                   h, Without(s, i), j)
  {
    var s' := Without(s, i);
    var j' := if j <= i then j else j + 1;
    assert Cell(h, s', j) == Cell(h, s, j');
    if j == i {
      assert Cell(h, s', j + 1) == Cell(h, s, i + 2);
    } else {
      assert Cell(h, s', j + 1) == Cell(h, s, j' + 1);
      assert LinkAt(next, prev, h, s, j');
      assert Cell(h, s, j') != Cell(h, s, i);
      assert Cell(h, s, j' + 1) != Cell(h, s, i + 2);
    }
  }

  lemma RemoveOthers(next: map<Node, Node>, prev: map<Node, Node>, lists: seq<seq<nat>>, k: nat, i: nat, j: nat,
                     e: Node)
    requires Distinct(lists) && Rings(next, prev, lists) && k < |lists| && i < |lists[k]| && j < |lists| && j != k
    requires e == At(lists[k][i]) && e in next && e in prev
    ensures Ring(next[prev[e] := next[e]], prev[next[e] := prev[e]], Head(j), lists[j])
  {
    var h, s := Head(k), lists[k];
    assert Ring(next, prev, h, s);
    assert LinkAt(next, prev, h, s, i) && LinkAt(next, prev, h, s, i + 1);
    RingFrame(next, prev, Head(j), lists[j], next[prev[e] := next[e]], prev[next[e] := prev[e]], {next[e], prev[e]});
  }

  lemma RemoveDistinct(lists: seq<seq<nat>>, k: nat, i: nat)
    requires Distinct(lists) && k < |lists| && i < |lists[k]|
    ensures Distinct(lists[k := Without(lists[k], i)])
  {
    var l := lists[k := Without(lists[k], i)];
    forall a, x, b, y | 0 <= a < |l| && 0 <= x < |l[a]| && 0 <= b < |l| && 0 <= y < |l[b]| && l[a][x] == l[b][y]
      ensures a == b && x == y
    {
      var x', y' := if a == k && x >= i then x + 1 else x, if b == k && y >= i then y + 1 else y;
      assert l[a][x] == lists[a][x'];
      assert l[b][y] == lists[b][y'];
    }
  }

  class FreeLists {
    var next: map<Node, Node>
    var prev: map<Node, Node>
    ghost var lists: seq<seq<nat>>

    ghost predicate Valid()
      reads this
    {
      Distinct(lists) && Rings(next, prev, lists)
    }

    /** Each list has a head to push behind. */
    ghost predicate Heads()
      reads this
    {
      forall k :: 0 <= k < |lists| ==> Head(k) in next
    }

    lemma RingsHaveHeads()
      requires Valid()
      ensures Heads()
    {
      forall k | 0 <= k < |lists| ensures Head(k) in next {
        assert Ring(next, prev, Head(k), lists[k]);
        assert LinkAt(next, prev, Head(k), lists[k], 0);
      }
    }

    /** lst_init for each of `n` sizes. */
    constructor (n: nat)
      ensures Valid() && Heads() && |lists| == n
      ensures forall k :: 0 <= k < n ==> lists[k] == []
    {
      next := map k: nat | k < n :: Head(k) := Head(k);
      prev := map k: nat | k < n :: Head(k) := Head(k);
      lists := seq(n, _ => []);
    }

    /** lst_empty */
    method Empty(k: nat) returns (r: bool)
      requires Valid() && k < |lists|
      ensures r <==> lists[k] == []
    {
      assert Ring(next, prev, Head(k), lists[k]);
      assert LinkAt(next, prev, Head(k), lists[k], 0);
      r := next[Head(k)] == Head(k);
    }

    /** lst_push: the node goes right behind the head. A node that is on no list yet keeps all rings; one
        that is may break them, and `lists` only says what has been pushed. */
    method Push(k: nat, p: nat)
      requires Heads() && k < |lists|
      modifies this
      ensures Heads() && lists == old(lists)[k := [p] + old(lists)[k]]
      ensures old(Valid()) && (forall j :: 0 <= j < |lists| ==> p !in old(lists)[j]) ==> Valid()
    {
      var lst, e := Head(k), At(p);
      if Valid() && forall j :: 0 <= j < |lists| ==> p !in lists[j] {
        PushRing(next, prev, lst, lists[k], p);
        forall j | 0 <= j < |lists| && j != k { PushOthers(next, prev, lists, k, p, j); }
        PushDistinct(lists, k, p);
      }
      next := next[e := next[lst]];
      prev := prev[e := lst];
      prev := prev[next[lst] := e];
      next := next[lst := e];
      lists := lists[k := [p] + lists[k]];
    }

    /** lst_remove: no list is named, only the node; the list that loses it is the one it is on. */
    method Remove(p: nat, ghost k: nat, ghost i: nat)
      requires Valid() && k < |lists| && i < |lists[k]| && lists[k][i] == p
      modifies this
      ensures Valid() && lists == old(lists)[k := Without(old(lists)[k], i)]
    {
      var e := At(p);
      assert Ring(next, prev, Head(k), lists[k]);
      assert LinkAt(next, prev, Head(k), lists[k], i) && LinkAt(next, prev, Head(k), lists[k], i + 1);
      RemoveRing(next, prev, Head(k), lists[k], i);
      forall j | 0 <= j < |lists| && j != k { RemoveOthers(next, prev, lists, k, i, j, e); }
      RemoveDistinct(lists, k, i);
      next := next[prev[e] := next[e]];
      prev := prev[next[e] := prev[e]];
      lists := lists[k := Without(lists[k], i)];
    }

    /** lst_pop: the node right behind the head. */
    method Pop(k: nat) returns (p: nat)
      requires Valid() && k < |lists| && lists[k] != []
      modifies this
      ensures Valid() && p == old(lists)[k][0] && lists == old(lists)[k := Without(old(lists)[k], 0)]
    {
      assert Ring(next, prev, Head(k), lists[k]);
      assert LinkAt(next, prev, Head(k), lists[k], 0);
      p := next[Head(k)].p;
      Remove(p, k, 0);
    }
  }
}
