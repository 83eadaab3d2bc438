/**
The intrusive doubly linked list of `lib/list.c`: the links live in the elements, two
sentinels bound each list, and an element is unlinked without naming its list.
*/
module IntrusiveLists {

  class ListElem {
    var prev: ListElem?
    var next: ListElem?

    constructor () { prev, next := null, null; }
  }

  /** `chain` is a list from its head sentinel to its tail sentinel. */
  ghost predicate Linked(chain: seq<ListElem>)
    reads chain
  {
    && |chain| >= 2
    && (forall i, j :: 0 <= i < j < |chain| ==> chain[i] != chain[j])
    && (forall i :: 0 <= i < |chain| - 1 ==> chain[i].next == chain[i + 1])
    && (forall i :: 0 < i < |chain| ==> chain[i].prev == chain[i - 1])
  }

  /** The elements whose links make up a list. */
  ghost function Nodes(head: ListElem, tail: ListElem, elems: seq<ListElem>): set<ListElem> {
    {head, tail} + set e | e in elems
  }

  /** `head` and `tail` are the sentinels of a list that holds `elems` in this order. */
  ghost predicate IsList(head: ListElem, tail: ListElem, elems: seq<ListElem>)
    reads Nodes(head, tail, elems)
  {
    Linked([head] + elems + [tail])
  }

  /** list_insert_before, at position `k` of a list.  Lists without these elements keep. */
  method InsertBefore(before: ListElem, elem: ListElem, ghost chain: seq<ListElem>, ghost k: nat)
    requires Linked(chain) && 0 < k < |chain| && chain[k] == before && elem !in chain
    modifies before, chain[k - 1], elem
    ensures Linked(chain[..k] + [elem] + chain[k..])
  {
    before.prev.next := elem;
    elem.prev := before.prev;
    elem.next := before;
    before.prev := elem;
  }

  /** list_push */
  method Push(head: ListElem, tail: ListElem, elem: ListElem, ghost elems: seq<ListElem>)
    requires IsList(head, tail, elems) && elem !in elems && elem != head && elem != tail
    modifies Nodes(head, tail, elems), elem
    ensures IsList(head, tail, [elem] + elems)
  {
    ghost var chain := [head] + elems + [tail];
    assert chain[0] == head && chain[0].next == chain[1];
    InsertBefore(head.next, elem, chain, 1);
    assert chain[..1] + [elem] + chain[1..] == [head] + ([elem] + elems) + [tail];
  }

  /** list_append */
  method Append(head: ListElem, tail: ListElem, elem: ListElem, ghost elems: seq<ListElem>)
    requires IsList(head, tail, elems) && elem !in elems && elem != head && elem != tail
    modifies Nodes(head, tail, elems), elem
    ensures IsList(head, tail, elems + [elem])
  {
    ghost var chain := [head] + elems + [tail];
    InsertBefore(tail, elem, chain, |chain| - 1);
    assert chain[..|chain| - 1] + [elem] + chain[|chain| - 1..] == [head] + (elems + [elem]) + [tail];
  }

  /** list_remove: the element's own links are left as they were. */
  method Remove(elem: ListElem, ghost chain: seq<ListElem>, ghost k: nat)
    requires Linked(chain) && 0 < k < |chain| - 1 && chain[k] == elem
    modifies chain[k - 1], chain[k + 1]
    ensures Linked(chain[..k] + chain[k + 1..])
  {
    elem.prev.next := elem.next;
    elem.next.prev := elem.prev;
  }

  /** list_pop on a list that is not empty */
  method Pop(head: ListElem, tail: ListElem, ghost elems: seq<ListElem>) returns (elem: ListElem)
    requires IsList(head, tail, elems) && elems != []
    modifies Nodes(head, tail, elems)
    ensures elem == elems[0] && IsList(head, tail, elems[1..])
  {
    ghost var chain := [head] + elems + [tail];
    assert chain[0] == head && chain[1] == elems[0] && chain[0].next == chain[1];
    elem := head.next;
    Remove(elem, chain, 1);
    assert chain[..1] + chain[2..] == [head] + elems[1..] + [tail];
  }

  /** list_empty */
  method IsEmpty(head: ListElem, tail: ListElem, ghost elems: seq<ListElem>) returns (r: bool)
    requires IsList(head, tail, elems)
    ensures r <==> elems == []
  {
    ghost var chain := [head] + elems + [tail];
    assert chain[0] == head && chain[|chain| - 1] == tail && chain[0].next == chain[1];
    r := head.next == tail;
  }

  /** elem_find */
  method Find(head: ListElem, tail: ListElem, obj: ListElem, ghost elems: seq<ListElem>) returns (r: bool)
    requires IsList(head, tail, elems)
    ensures r <==> obj in elems
  {
    ghost var chain := [head] + elems + [tail];
    assert chain[0] == head && chain[|chain| - 1] == tail && chain[0].next == chain[1];
    var elem := head.next;
    ghost var k := 1;
    while elem != tail
      invariant 0 < k < |chain| && elem == chain[k]
      invariant obj !in chain[1..k]
      decreases |chain| - k
    {
      assert k < |chain| - 1;
      if elem == obj {
        assert elems[k - 1] == obj;
        return true;
      }
      assert chain[1..k + 1] == chain[1..k] + [elem];
      assert chain[k].next == chain[k + 1];
      elem := elem.next;
      k := k + 1;
    }
    assert k == |chain| - 1;
    assert chain[1..k] == elems;
    return false;
  }

  /** list_len */
  method Length(head: ListElem, tail: ListElem, ghost elems: seq<ListElem>) returns (n: nat)
    requires IsList(head, tail, elems)
    ensures n == |elems|
  {
    ghost var chain := [head] + elems + [tail];
    assert chain[0] == head && chain[|chain| - 1] == tail && chain[0].next == chain[1];
    var elem := head.next;
    n := 0;
    while elem != tail
      invariant n + 1 < |chain| && elem == chain[n + 1]
      decreases |chain| - n
    {
      assert n + 1 < |chain| - 1;
      assert chain[n + 1].next == chain[n + 2];
      elem := elem.next;
      n := n + 1;
    }
    assert n + 1 == |chain| - 1;
  }

  /** The list work of sema_up with thread_unblock: the first waiter's tag leaves the
      waiters and becomes the head of the ready list.  One tag serves both lists. */
  method MoveFirst(waitHead: ListElem, waitTail: ListElem, ghost waiters: seq<ListElem>,
                   readyHead: ListElem, readyTail: ListElem, ghost ready: seq<ListElem>)
    requires IsList(waitHead, waitTail, waiters) && waiters != []
    requires IsList(readyHead, readyTail, ready)
    requires Nodes(waitHead, waitTail, waiters) !! Nodes(readyHead, readyTail, ready)
    modifies Nodes(waitHead, waitTail, waiters), Nodes(readyHead, readyTail, ready)
    ensures IsList(waitHead, waitTail, waiters[1..])
    ensures IsList(readyHead, readyTail, [waiters[0]] + ready)
  {
    ghost var w := [waitHead] + waiters + [waitTail];
    assert w[0] == waitHead && w[|w| - 1] == waitTail && forall i :: 0 <= i < |waiters| ==> w[i + 1] == waiters[i];
    assert waiters[0] in Nodes(waitHead, waitTail, waiters);
    assert Nodes(waitHead, waitTail, waiters[1..]) <= Nodes(waitHead, waitTail, waiters) - {waiters[0]};
    var tag := Pop(waitHead, waitTail, waiters);
    Push(readyHead, readyTail, tag, ready);
  }
}
