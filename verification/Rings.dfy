// Circular doubly linked lists (kernel/include/list.h). A list is its ring of nodes,
// the head among them; a ring is written down from some node on.
module Rings {
  class Node {
    var next: Node
    var prev: Node
    /** The identifier in the record around the node. */
    var id: nat

    /** init_list. */
    constructor (id: nat)
      ensures Ring([this]) && this.id == id
    {
      next := this;
      prev := this;
      this.id := id;
    }
  }

  /** One on, around the end. */
  function After(n: nat, i: nat): (r: nat)
    requires i < n
    ensures r < n
  {
    if i + 1 == n then 0 else i + 1
  }

  ghost predicate Linked(a: Node, b: Node)
    reads a, b
  {
    a.next == b && b.prev == a
  }

  ghost predicate Distinct(s: seq<Node>) {
    forall i, j :: 0 <= i < |s| && 0 <= j < |s| && s[i] == s[j] ==> i == j
  }

  /** s is a whole ring, in order of next. */
  ghost predicate Ring(s: seq<Node>)
    reads s
  {
    |s| > 0 && Distinct(s) && forall i :: 0 <= i < |s| ==> Linked(s[i], s[After(|s|, i)])
  }

  /** list_empty. */
  method ListEmpty(head: Node, ghost s: seq<Node>) returns (r: bool)
    requires Ring(s) && s[0] == head
    ensures r <==> s == [head]
  {
    r := head.next == head;
    assert Linked(s[0], s[After(|s|, 0)]);
  }

  /** list_insert between two neighbours. */
  method ListInsert(newl: Node, prev: Node, next: Node, ghost s: seq<Node>, ghost i: nat)
    requires Ring(s) && i < |s| && newl !in s && prev == s[i] && next == s[After(|s|, i)]
    modifies newl`next, newl`prev, prev`next, next`prev
    ensures Ring(s[..i + 1] + [newl] + s[i + 1..])
  {
    prev.next := newl;
    newl.prev := prev;
    next.prev := newl;
    newl.next := next;
    ghost var t := s[..i + 1] + [newl] + s[i + 1..];
    forall k | 0 <= k < |t|
      ensures Linked(t[k], t[After(|t|, k)])
    {
      if k != i && k != i + 1 {
        ghost var j := if k < i then k else k - 1;
        assert old(Linked(s[j], s[After(|s|, j)]));
        assert t[k] == s[j] && t[After(|t|, k)] == s[After(|s|, j)];
      }
    }
  }

  /** list_add_head: right behind the head. */
  method ListAddHead(newl: Node, head: Node, ghost s: seq<Node>)
    requires Ring(s) && newl !in s && s[0] == head
    modifies newl`next, newl`prev, head`next, head.next`prev
    ensures Ring([head, newl] + s[1..])
  {
    assert Linked(s[0], s[After(|s|, 0)]);
    ListInsert(newl, head, head.next, s, 0);
    assert s[..1] + [newl] + s[1..] == [head, newl] + s[1..];
  }

  /** list_add_tail: right before the head. */
  method ListAddTail(newl: Node, head: Node, ghost s: seq<Node>)
    requires Ring(s) && newl !in s && s[0] == head
    modifies newl`next, newl`prev, head`prev, head.prev`next
    ensures Ring(s + [newl])
  {
    ghost var n := |s| - 1;
    assert Linked(s[n], s[After(|s|, n)]);
    ListInsert(newl, head.prev, head, s, n);
    assert s[..n + 1] + [newl] + s[n + 1..] == s + [newl];
  }

  /** list_concat: the nodes of src, but not src, go behind those of dest. */
  method ListConcat(dest: Node, src: Node, ghost s: seq<Node>, ghost t: seq<Node>)
    requires Ring(s) && Ring(t) && s[0] == dest && t[0] == src
    requires forall a, b :: 0 <= a < |s| && 0 <= b < |t| ==> s[a] != t[b]
    modifies dest.prev`next, src.next`prev, dest`prev, src.prev`next
    ensures Ring(s + t[1..])
  {
    ghost var m, n, u := |s| - 1, |t| - 1, s + t[1..];
    assert Linked(s[m], s[After(|s|, m)]) && Linked(t[n], t[After(|t|, n)]) && Linked(t[0], t[After(|t|, 0)]);
    dest.prev.next := src.next;
    src.next.prev := dest.prev;
    dest.prev := src.prev;
    src.prev.next := dest;
    assert forall k :: 0 <= k < |u| ==> u[k] == if k <= m then s[k] else t[k - m];
    forall k | 0 <= k < |u|
      ensures Linked(u[k], u[After(|u|, k)])
    {
      if k < m {
        assert old(Linked(s[k], s[After(|s|, k)]));
      } else if m < k < |u| - 1 {
        assert old(Linked(t[k - m], t[After(|t|, k - m)]));
      } else if k == |u| - 1 && n > 0 {
        assert u[k] == t[n];
      }
    }
  }

  /** list_slice: the run from left to right becomes a ring of its own. */
  method ListSlice(left: Node, right: Node, ghost s: seq<Node>, ghost i: nat, ghost j: nat)
    requires Ring(s) && i <= j < |s| && left == s[i] && right == s[j]
    modifies left.prev`next, right.next`prev, left`prev, right`next
    ensures Ring(s[i..j + 1])
    ensures j + 1 - i < |s| ==> Ring(s[..i] + s[j + 1..])
  {
    hide Ring;
    ghost var b := if i == 0 then |s| - 1 else i - 1;
    RingParts(s, b);
    CutOut(left, right, s, i, j);
    Close(left, right, s[i..j + 1]);
  }

  lemma RingParts(s: seq<Node>, b: nat)
    requires Ring(s) && b < |s|
    ensures s[b].next == s[After(|s|, b)] && s[After(|s|, b)].prev == s[b] && Distinct(s)
  {
    assert Linked(s[b], s[After(|s|, b)]);
  }

  /** Nodes linked one to the next, the ends hanging loose. */
  ghost predicate Path(s: seq<Node>)
    reads s
  {
    |s| > 0 && Distinct(s) && forall i :: 0 <= i < |s| - 1 ==> Linked(s[i], s[i + 1])
  }

  /** The second half of list_slice: the ends of the run are tied together. */
  method Close(left: Node, right: Node, ghost t: seq<Node>)
    requires Path(t) && left == t[0] && right == t[|t| - 1]
    modifies left`prev, right`next
    ensures Ring(t)
  {
    left.prev := right;
    right.next := left;
    forall k | 0 <= k < |t|
      ensures Linked(t[k], t[After(|t|, k)])
    {
      if k < |t| - 1 { assert old(Linked(t[k], t[k + 1])); }
    }
  }

  /** A ring s in which the run from i to j has been passed over: only the nodes around
      it have other links. */
  ghost predicate PassedOver(s: seq<Node>, i: nat, j: nat)
    reads s
  {
    && i <= j < |s| && Distinct(s)
    && s[Before(|s|, i)].next == s[After(|s|, j)] && s[After(|s|, j)].prev == s[Before(|s|, i)]
    && (forall k :: 0 <= k < |s| && k != Before(|s|, i) ==> s[k].next == s[After(|s|, k)])
    && forall k :: 0 <= k < |s| && k != j ==> s[After(|s|, k)].prev == s[k]
  }

  function Before(n: nat, i: nat): (r: nat)
    requires i < n
    ensures r < n
  {
    if i == 0 then n - 1 else i - 1
  }

  lemma AfterDistinct(n: nat, i: nat, j: nat, k: nat)
    requires i < n && j < n && k < n
    ensures After(n, Before(n, i)) == i && (k != j ==> After(n, k) != After(n, j))
  {
  }

  /** The first half: the nodes around the run are tied together. */
  method PassOver(left: Node, right: Node, ghost s: seq<Node>, ghost i: nat, ghost j: nat)
    requires Ring(s) && i <= j < |s| && left == s[i] && right == s[j]
    modifies left.prev`next, right.next`prev
    ensures PassedOver(s, i, j)
  {
    hide After, Before;
    ghost var n := |s|;
    AfterDistinct(n, i, j, i);
    assert Linked(s[Before(n, i)], s[After(n, Before(n, i))]) && Linked(s[j], s[After(n, j)]);
    left.prev.next := right.next;
    right.next.prev := left.prev;
    forall k | 0 <= k < n
      ensures (k != Before(n, i) ==> s[k].next == s[After(n, k)]) && (k != j ==> s[After(n, k)].prev == s[k])
    {
      AfterDistinct(n, i, j, k);
      assert old(Linked(s[k], s[After(n, k)]));
    }
  }

  method CutOut(left: Node, right: Node, ghost s: seq<Node>, ghost i: nat, ghost j: nat)
    requires Ring(s) && i <= j < |s| && left == s[i] && right == s[j]
    modifies left.prev`next, right.next`prev
    ensures Path(s[i..j + 1])
    ensures j + 1 - i < |s| ==> Ring(s[..i] + s[j + 1..])
  {
    PassOver(left, right, s, i, j);
    RunIsPath(s, i, j);
    if j + 1 - i < |s| { RestIsRing(s, i, j); }
  }

  lemma RunIsPath(s: seq<Node>, i: nat, j: nat)
    requires PassedOver(s, i, j)
    ensures Path(s[i..j + 1])
  {
    var t := s[i..j + 1];
    forall k | 0 <= k < |t| - 1
      ensures Linked(t[k], t[k + 1])
    {
      assert s[i + k].next == s[After(|s|, i + k)];
      assert s[After(|s|, i + k)].prev == s[i + k];
    }
  }

  lemma RestIsRing(s: seq<Node>, i: nat, j: nat)
    requires PassedOver(s, i, j) && j + 1 - i < |s|
    ensures Ring(s[..i] + s[j + 1..])
  {
    hide After, Before, From;
    var n, u := |s|, s[..i] + s[j + 1..];
    forall k | 0 <= k < |u|
      ensures Linked(u[k], u[After(|u|, k)])
    {
      Around(n, i, j, k);
      RestAt(s, i, j, k);
      RestAt(s, i, j, After(|u|, k));
      var l := From(i, j, k);
      assert l != Before(n, i) ==> s[l].next == s[After(n, l)] && s[After(n, l)].prev == s[l];
    }
    forall k, l | 0 <= k < |u| && 0 <= l < |u| && u[k] == u[l]
      ensures k == l
    {
      RestAt(s, i, j, k);
      RestAt(s, i, j, l);
      FromInjective(i, j, k, l);
    }
  }

  lemma RestAt(s: seq<Node>, i: nat, j: nat, k: nat)
    requires i <= j < |s| && k < |s| - (j + 1 - i)
    ensures From(i, j, k) < |s| && (s[..i] + s[j + 1..])[k] == s[From(i, j, k)]
  {
  }

  lemma FromInjective(i: nat, j: nat, k: nat, l: nat)
    requires i <= j && From(i, j, k) == From(i, j, l)
    ensures k == l
  {
  }

  /** Where in the ring element k of what is left of it came from. */
  function From(i: nat, j: nat, k: nat): nat
    requires i <= j
  {
    if k < i then k else k + (j + 1 - i)
  }

  lemma Around(n: nat, i: nat, j: nat, k: nat)
    requires i <= j < n && k < n - (j + 1 - i)
    ensures var m, l := n - (j + 1 - i), From(i, j, k);
            l < n && l != j && From(i, j, After(m, k)) == if l == Before(n, i) then After(n, j) else After(n, l)
  {
  }

  /** list_hide passes over a run of one node, which itself keeps its links. */
  method ListHide(entry: Node, ghost s: seq<Node>, ghost i: nat)
    requires Ring(s) && |s| > 1 && i < |s| && entry == s[i]
    modifies entry.prev`next, entry.next`prev
    ensures Ring(s[..i] + s[i + 1..])
    ensures entry.next == old(entry.next) && entry.prev == old(entry.prev)
  {
    Neighbours(s, i);
    PassOver(entry, entry, s, i, i);
    RestIsRing(s, i, i);
  }

  lemma Neighbours(s: seq<Node>, i: nat)
    requires Ring(s) && |s| > 1 && i < |s|
    ensures s[i].prev != s[i] && s[i].next != s[i]
  {
    assert Linked(s[Before(|s|, i)], s[After(|s|, Before(|s|, i))]) && Linked(s[i], s[After(|s|, i)]);
  }

  // ------------------------------------------- lists sorted by identifier

  /** Behind the head the identifiers rise, from first at the least. */
  ghost predicate Sorted(s: seq<Node>, first: nat)
    reads s
  {
    forall i, j :: 1 <= i <= j < |s| ==> first <= s[i].id && (i < j ==> s[i].id < s[j].id)
  }

  ghost predicate Used(s: seq<Node>, id: nat)
    reads s
  {
    exists k :: 1 <= k < |s| && s[k].id == id
  }

  ghost predicate LeastUnused(s: seq<Node>, first: nat, id: nat)
    reads s
  {
    !Used(s, id) && first <= id && forall x :: first <= x < id ==> Used(s, x)
  }

  /** Where an identifier goes: all between first and it are in use before node k, all
      from there on are greater. */
  ghost predicate LeastAt(s: seq<Node>, first: nat, id: nat, k: nat)
    reads s
  {
    && 1 <= k <= |s| && id == first + k - 1
    && (forall i :: 1 <= i < k ==> s[i].id == first + i - 1)
    && forall i :: k <= i < |s| ==> s[i].id > id
  }

  /** The scan of newProcess, where first is 1, and of createThread, where it is 0. */
  method ScanLeast(head: Node, first: nat, ghost s: seq<Node>) returns (entry: Node, id: nat, ghost k: nat)
    requires Ring(s) && s[0] == head && Sorted(s, first)
    ensures LeastAt(s, first, id, k) && entry == s[After(|s|, k - 1)]
  {
    entry := head.next;
    id, k := first, 1;
    assert Linked(s[0], s[After(|s|, 0)]);
    while entry != head && entry.id == id
      invariant 1 <= k <= |s| && id == first + k - 1 && entry == s[After(|s|, k - 1)]
      invariant forall i :: 1 <= i < k ==> s[i].id == first + i - 1
      decreases |s| - k
    {
      assert Linked(s[k], s[After(|s|, k)]);
      id := id + 1;
      entry := entry.next;
      k := k + 1;
    }
    forall i | k <= i < |s|
      ensures s[i].id > id
    {
      LowerBound(s, first, k);
    }
  }

  lemma LeastMeans(s: seq<Node>, first: nat, id: nat, k: nat)
    requires LeastAt(s, first, id, k)
    ensures LeastUnused(s, first, id)
  {
    forall x | first <= x < id
      ensures Used(s, x)
    {
      assert s[x - first + 1].id == x;
    }
  }

  /** The new node gets the least identifier not in use, and the list stays sorted. */
  method InsertLeast(newl: Node, head: Node, first: nat, ghost s: seq<Node>) returns (id: nat, ghost k: nat)
    requires Ring(s) && s[0] == head && newl !in s && Sorted(s, first)
    modifies newl, s
    ensures old(LeastUnused(s, first, id))
    ensures 1 <= k <= |s| && newl.id == id && Ring(s[..k] + [newl] + s[k..]) && Sorted(s[..k] + [newl] + s[k..], first)
  {
    var entry;
    entry, id, k := ScanLeast(head, first, s);
    LeastMeans(s, first, id, k);
    assert Linked(s[k - 1], s[After(|s|, k - 1)]) && entry.prev == s[k - 1];
    hide Ring, LeastUnused, Sorted, LeastAt, Linked, After;
    newl.id := id;
    SortedWith(newl, first, s, id, k);
    Place(newl, entry, first, s, k);
  }

  lemma SortedWith(newl: Node, first: nat, s: seq<Node>, id: nat, k: nat)
    requires newl !in s && Sorted(s, first) && LeastAt(s, first, id, k) && newl.id == id
    ensures Sorted(s[..k] + [newl] + s[k..], first)
  {
  }

  /** list_add_tail before node k. */
  method Place(newl: Node, entry: Node, first: nat, ghost s: seq<Node>, ghost k: nat)
    requires Ring(s) && newl !in s && 1 <= k <= |s| && entry == s[After(|s|, k - 1)] && entry.prev == s[k - 1]
    requires Sorted(s[..k] + [newl] + s[k..], first)
    modifies newl`next, newl`prev, entry`prev, entry.prev`next
    ensures Ring(s[..k] + [newl] + s[k..]) && Sorted(s[..k] + [newl] + s[k..], first)
  {
    hide Ring, Linked, After, Distinct;
    ListInsert(newl, entry.prev, entry, s, k - 1);
  }

  /** Rising identifiers rise at least one at a time. */
  lemma {:induction false} LowerBound(s: seq<Node>, first: nat, k: nat)
    requires Sorted(s, first) && 1 <= k < |s|
    ensures first + k - 1 <= s[k].id
  {
    if k > 1 {
      LowerBound(s, first, k - 1);
    }
  }

  /** getProcessById. */
  method FindId(head: Node, id: nat, ghost s: seq<Node>) returns (found: bool, entry: Node)
    requires Ring(s) && s[0] == head
    ensures found <==> Used(s, id)
    ensures found ==> entry in s[1..] && entry.id == id
  {
    entry := head.next;
    found := false;
    ghost var k := 1;
    assert Linked(s[0], s[After(|s|, 0)]);
    while entry != head
      invariant 1 <= k <= |s| && entry == s[After(|s|, k - 1)]
      invariant forall i :: 1 <= i < k ==> s[i].id != id
      decreases |s| - k
    {
      if entry.id == id {
        found := true;
        return;
      }
      assert Linked(s[k], s[After(|s|, k)]);
      entry := entry.next;
      k := k + 1;
    }
  }
}
