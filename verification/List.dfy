/** lib/kernel/list.c: the intrusive doubly linked list with two sentinels. */
module Lists {

  class Elem {
    var prev: Elem?
    var next: Elem?

    constructor ()
    {
      prev, next := null, null;
    }
  }

  /** The elements of s are different. */
  ghost predicate NoRepeats<T>(s: seq<T>) {
    forall i, j :: 0 <= i < j < |s| ==> s[i] != s[j]
  }

  /** Taking out position k of a sequence, and putting e in at position k. */
  function Without<T>(s: seq<T>, k: nat): (r: seq<T>)
    requires k < |s|
    ensures |r| == |s| - 1 && forall i :: 0 <= i < |r| ==> r[i] == if i < k then s[i] else s[i + 1]
  {
    s[..k] + s[k + 1..]
  }

  function With<T>(s: seq<T>, k: nat, e: T): (r: seq<T>)
    requires k <= |s|
    ensures |r| == |s| + 1
    ensures forall i :: 0 <= i < |r| ==> r[i] == if i < k then s[i] else if i == k then e else s[i - 1]
  {
    s[..k] + [e] + s[k..]
  }

  lemma MiddleWithout<T>(n: seq<T>, k: nat)
    requires 0 < k < |n| - 1
    ensures Without(n, k)[1..|n| - 2] == Without(n[1..|n| - 1], k - 1)
  {}

  class List {
    const head: Elem
    const tail: Elem
    /** The sentinels and the elements between them. */
    ghost var nodes: seq<Elem>

    ghost function Elems(): seq<Elem>
      requires |nodes| >= 2
      reads this
    {
      nodes[1..|nodes| - 1]
    }

    /** The links spell `nodes` in both directions, and no node occurs twice. */
    ghost predicate Valid()
      reads this, nodes
    {
      && |nodes| >= 2 && nodes[0] == head && nodes[|nodes| - 1] == tail && NoRepeats(nodes)
      && head.prev == null && tail.next == null
      && forall i, j {:trigger nodes[i], nodes[j]} :: 0 <= i && j == i + 1 < |nodes| ==>
           nodes[i].next == nodes[j] && nodes[j].prev == nodes[i]
    }

    /** list_init, on fresh sentinels. */
    constructor ()
      ensures Valid() && Elems() == [] && fresh(nodes)
    {
      var h := new Elem();
      var t := new Elem();
      head, tail, nodes := h, t, [h, t];
      new;
      head.prev, head.next := null, tail;
      tail.next, tail.prev := null, head;
    }

    /** list_insert_before: the new element goes in front of the node at position k. */
    method InsertBefore(before: Elem, elem: Elem, ghost k: nat)
      requires Valid() && 0 < k < |nodes| && before == nodes[k] && elem !in nodes
      modifies this`nodes, elem, nodes
      ensures Valid() && nodes == With(old(nodes), k, elem)
    {
      ghost var n := nodes;
      ghost var p := n[k - 1];
      assert forall i :: 0 <= i < |n| ==> n[i] != elem;
      before.prev.next := elem;
      elem.prev := before.prev;
      elem.next := before;
      before.prev := elem;
      nodes := With(n, k, elem);
      forall i, j | 0 <= i && j == i + 1 < |nodes|
        ensures nodes[i].next == nodes[j] && nodes[j].prev == nodes[i]
      {
        if j < k {
          assert nodes[i] == n[i] && nodes[j] == n[j];
        } else if k < i {
          assert nodes[i] == n[i - 1] && nodes[j] == n[i];
        }
      }
    }

    /** list_push. */
    method Push(elem: Elem)
      requires Valid() && elem !in nodes
      modifies this`nodes, elem, nodes
      ensures Valid() && nodes == With(old(nodes), 1, elem) && Elems() == [elem] + old(Elems())
    {
      ghost var first := nodes[1];
      InsertBefore(head.next, elem, 1);
    }

    /** list_append. */
    method Append(elem: Elem)
      requires Valid() && elem !in nodes
      modifies this`nodes, elem, nodes
      ensures Valid() && nodes == With(old(nodes), |old(nodes)| - 1, elem) && Elems() == old(Elems()) + [elem]
    {
      ghost var last := nodes[|nodes| - 1];
      InsertBefore(tail, elem, |nodes| - 1);
    }

    /** list_remove: the element's neighbours are linked to each other. */
    method Remove(elem: Elem, ghost k: nat)
      requires Valid() && 0 < k < |nodes| - 1 && elem == nodes[k]
      modifies this`nodes, nodes
      ensures Valid() && nodes == Without(old(nodes), k) && Elems() == Without(old(Elems()), k - 1)
    {
      assert elem.prev == nodes[k - 1] && elem.next == nodes[k + 1];
      ghost var n := nodes;
      MiddleWithout(n, k);
      elem.prev.next := elem.next;
      elem.next.prev := elem.prev;
      nodes := Without(n, k);
      forall i, j | 0 <= i && j == i + 1 < |nodes|
        ensures nodes[i].next == nodes[j] && nodes[j].prev == nodes[i]
      {
        if j < k {
          assert nodes[i] == n[i] && nodes[j] == n[j];
        } else if k <= i {
          assert nodes[i] == n[j] && nodes[j] == n[j + 1];
        }
      }
    }

    /** list_pop. On an empty list it would unlink the tail sentinel; its callers test first. */
    method Pop() returns (elem: Elem)
      requires Valid() && Elems() != []
      modifies this`nodes, nodes
      ensures Valid() && elem == old(Elems())[0] && Elems() == old(Elems())[1..] && nodes == Without(old(nodes), 1)
    {
      ghost var first := nodes[1];
      elem := head.next;
      assert elem == Elems()[0];
      Remove(elem, 1);
    }

    /** list_empty. */
    method Empty() returns (b: bool)
      requires Valid()
      ensures b <==> Elems() == []
    {
      assert head.next == nodes[1];
      return head.next == tail;
    }

    /** list_len. */
    method Len() returns (len: nat)
      requires Valid()
      ensures len == |Elems()|
    {
      var elem := head.next;
      len := 0;
      while elem != tail
        invariant len <= |nodes| - 2 && elem == nodes[len + 1]
        decreases |nodes| - len
      {
        len := len + 1;
        elem := elem.next;
      }
    }

    /** elem_find. */
    method Find(obj: Elem) returns (found: bool)
      requires Valid() && obj != head && obj != tail
      ensures found <==> obj in Elems()
    {
      var elem := head.next;
      ghost var k := 1;
      while elem != tail
        invariant 1 <= k < |nodes| && elem == nodes[k] && obj !in nodes[1..k]
        decreases |nodes| - k
      {
        if elem == obj {
          assert nodes[k] == Elems()[k - 1];
          return true;
        }
        elem := elem.next;
        k := k + 1;
      }
      found := false;
    }
  }

  /** Two lists on different nodes do not disturb each other: what is popped from one can be
      appended to the other, and nothing is lost or doubled. */
  method Transfer(a: List, b: List)
    requires a.Valid() && b.Valid() && a != b && a.Elems() != []
    requires forall i, j :: 0 <= i < |a.nodes| && 0 <= j < |b.nodes| ==> a.nodes[i] != b.nodes[j]
    modifies a`nodes, b`nodes, a.nodes, b.nodes
    ensures a.Valid() && b.Valid() && a.Elems() == old(a.Elems())[1..]
    ensures b.Elems() == old(b.Elems()) + [old(a.Elems())[0]]
    ensures forall i, j :: 0 <= i < |a.nodes| && 0 <= j < |b.nodes| ==> a.nodes[i] != b.nodes[j]
  {
    ghost var n := a.nodes;
    assert n[1] == a.Elems()[0];
    var e := a.Pop();
    assert forall i :: 0 <= i < |a.nodes| ==> a.nodes[i] != n[1];
    b.Append(e);
  }
}
