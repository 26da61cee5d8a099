/** The doubly linked list with two sentinels (code/lib/kernel/list.c) as a refinement of a sequence. */
module Lists {
  class Elem {
    var prev: Elem?
    var next: Elem?

    constructor ()
    {
      prev, next := null, null;
    }
  }

  ghost predicate AllDifferent(c: seq<Elem>)
  {
    forall i, j | 0 <= i < j < |c| :: c[i] != c[j]
  }

  /** Neighbours in the sequence point at each other. */
  ghost predicate Linked(c: seq<Elem>)
    reads c
  {
    && (forall i | 0 <= i < |c| - 1 :: c[i].next == c[i + 1])
    && (forall i | 0 < i < |c| :: c[i].prev == c[i - 1])
  }

  class List {
    const head: Elem
    const tail: Elem
    /** The elements between the sentinels. */
    ghost var elems: seq<Elem>

    ghost function Chain(): (c: seq<Elem>)
      reads this
    {
      [head] + elems + [tail]
    }

    ghost predicate Valid()
      reads this, Chain()
    {
      AllDifferent(Chain()) && Linked(Chain())
    }

    /** list_init. */
    constructor ()
      ensures Valid() && elems == [] && fresh(head) && fresh(tail)
    {
      var h := new Elem();
      var t := new Elem();
      head, tail, elems := h, t, [];
      new;
      head.next := tail;
      tail.prev := head;
    }

    /** list_insert_before: the element at place `i` of the chain gets a new neighbour in front of it. */
    method InsertBefore(before: Elem, elem: Elem, ghost i: nat)
      requires Valid() && 0 < i < |Chain()| && before == Chain()[i] && elem !in Chain()
      modifies this, Chain(), elem
      ensures Valid() && elems == old(elems)[..i - 1] + [elem] + old(elems)[i - 1..]
    {
      ghost var c := Chain();
      var p := before.prev;
      assert p == c[i - 1];
      p.next := elem;
      elem.prev := p;
      elem.next := before;
      before.prev := elem;
      assert LinkedBut(c, i - 1, i);
      elems := elems[..i - 1] + [elem] + elems[i - 1..];
      ghost var d := Chain();
      ChainWith(head, old(elems), tail, elem, i);
      InsertLinked(c, d, elem, i);
      InsertDifferent(c, elem, i);
    }

    /** list_push. */
    method Push(elem: Elem)
      requires Valid() && elem !in Chain()
      modifies this, Chain(), elem
      ensures Valid() && elems == [elem] + old(elems)
    {
      assert Chain()[0].next == Chain()[1];
      InsertBefore(head.next, elem, 1);
    }

    /** list_append. */
    method Append(elem: Elem)
      requires Valid() && elem !in Chain()
      modifies this, Chain(), elem
      ensures Valid() && elems == old(elems) + [elem]
    {
      InsertBefore(tail, elem, |Chain()| - 1);
    }

    /** list_remove of the element at place `i`. */
    method Remove(elem: Elem, ghost i: nat)
      requires Valid() && i < |elems| && elem == elems[i]
      modifies this, Chain()
      ensures Valid() && elems == old(elems)[..i] + old(elems)[i + 1..] && elem !in Chain()
    {
      ghost var c := Chain();
      assert c[i + 1] == elem;
      var p, n := elem.prev, elem.next;
      assert p == c[i] && n == c[i + 2];
      p.next := n;
      n.prev := p;
      assert LinkedBut(c, i, i + 2);
      RemoveDifferent(c, i + 1);
      hide Linked, AllDifferent, LinkedBut;
      elems := elems[..i] + elems[i + 1..];
      ghost var d := Chain();
      ChainWithout(head, old(elems), tail, i);
      RemoveLinked(c, d, i + 1);
    }

    /** list_pop. */
    method Pop() returns (elem: Elem)
      requires Valid() && elems != []
      modifies this, Chain()
      ensures Valid() && elem == old(elems)[0] && elems == old(elems)[1..] && elem !in Chain()
    {
      assert Chain()[0].next == Chain()[1] == elems[0];
      elem := head.next;
      Remove(elem, 0);
    }

    /** list_empty. */
    method Empty() returns (r: bool)
      requires Valid()
      ensures r <==> elems == []
    {
      assert Chain()[0].next == Chain()[1];
      r := head.next == tail;
      assert Chain()[|Chain()| - 1] == tail;
    }

    /** elem_find. */
    method Find(obj: Elem) returns (r: bool)
      requires Valid()
      ensures r <==> obj in elems
    {
      ghost var k := 1;
      ghost var c := Chain();
      assert c[0].next == c[1] && c[|c| - 1] == tail;
      var e := head.next;
      while e != tail
        invariant 1 <= k < |c| && e == c[k] && forall j | 1 <= j < k :: c[j] != obj
        decreases |c| - k
      {
        assert k < |c| - 1;
        assert c[k] == elems[k - 1];
        if e == obj {
          return true;
        }
        e := e.next;
        k := k + 1;
      }
      assert k == |c| - 1;
      forall j | 0 <= j < |elems| ensures elems[j] != obj {
        assert c[j + 1] == elems[j];
      }
      return false;
    }

    /** list_len. */
    method Len() returns (n: nat)
      requires Valid()
      ensures n == |elems|
    {
      ghost var c := Chain();
      assert c[0].next == c[1] && c[|c| - 1] == tail;
      var e := head.next;
      n := 0;
      while e != tail
        invariant n + 1 < |c| && e == c[n + 1]
        decreases |c| - n
      {
        assert n + 1 < |c| - 1;
        n := n + 1;
        e := e.next;
      }
      assert n + 1 == |c| - 1;
    }
  }

  /** All links of the chain are as they should be, but for next of `c[n]` and prev of `c[p]`. */
  ghost predicate LinkedBut(c: seq<Elem>, n: int, p: int)
    reads c
  {
    && (forall i | 0 <= i < |c| - 1 && i != n :: c[i].next == c[i + 1])
    && (forall i | 0 < i < |c| && i != p :: c[i].prev == c[i - 1])
  }

  lemma InsertLinked(c: seq<Elem>, d: seq<Elem>, elem: Elem, i: nat)
    requires 0 < i < |c| && d == c[..i] + [elem] + c[i..] && LinkedBut(c, i - 1, i)
    requires c[i - 1].next == elem && elem.prev == c[i - 1] && elem.next == c[i] && c[i].prev == elem
    ensures Linked(d)
  {
    assert forall k | 0 <= k < i :: d[k] == c[k];
    assert forall k | i < k < |d| :: d[k] == c[k - 1];
  }

  lemma ChainWith(head: Elem, elems: seq<Elem>, tail: Elem, elem: Elem, i: nat)
    requires 0 < i <= |elems| + 1
    ensures var c := [head] + elems + [tail];
            [head] + (elems[..i - 1] + [elem] + elems[i - 1..]) + [tail] == c[..i] + [elem] + c[i..]
  {
  }

  lemma ChainWithout(head: Elem, elems: seq<Elem>, tail: Elem, i: nat)
    requires i < |elems|
    ensures var c := [head] + elems + [tail];
            [head] + (elems[..i] + elems[i + 1..]) + [tail] == c[..i + 1] + c[i + 2..]
  {
  }

  lemma RemoveLinked(c: seq<Elem>, d: seq<Elem>, i: nat)
    requires 0 < i < |c| - 1 && d == c[..i] + c[i + 1..] && LinkedBut(c, i - 1, i + 1)
    requires c[i - 1].next == c[i + 1] && c[i + 1].prev == c[i - 1]
    ensures Linked(d)
  {
    assert forall k | 0 <= k < i :: d[k] == c[k];
    assert forall k | i <= k < |d| :: d[k] == c[k + 1];
  }

  lemma InsertDifferent(c: seq<Elem>, e: Elem, i: nat)
    requires AllDifferent(c) && e !in c && i <= |c|
    ensures AllDifferent(c[..i] + [e] + c[i..])
  {
  }

  lemma RemoveDifferent(c: seq<Elem>, i: nat)
    requires AllDifferent(c) && i < |c|
    ensures AllDifferent(c[..i] + c[i + 1..]) && c[i] !in c[..i] + c[i + 1..]
  {
  }
}
