/**
  Intrusive circular doubly linked lists. A `ListHead` is a link together with the item that embeds
  it as its first member; the header of a list is a link whose item is not used.
 */
module ListHead {

  class ListHead<T(0)> {
    var next: ListHead<T>
    var prev: ListHead<T>
    var item: T

    /** list_init: a link on its own. */
    constructor (item: T)
      ensures next == this && prev == this && this.item == item
    {
      next, prev := this, this;
      this.item := item;
    }

    predicate Empty()
      reads this
    {
      next == this
    }

    function GetHead(): ListHead?<T>
      reads this
    {
      if Empty() then null else next
    }

    /** list_add_tail(entry, this), where `ring` is the list this heads. */
    method AddTail(entry: ListHead<T>, ghost ring: seq<ListHead<T>>)
      requires IsRing(ring) && ring[0] == this && entry !in ring
      modifies this`prev, prev`next, entry`next, entry`prev
      ensures IsRing(ring + [entry])
    {
      var before := prev;
      prev := entry;
      entry.next := this;
      entry.prev := before;
      before.next := entry;
    }

    /** list_del(this), where this is at `k` in `ring`. */
    method Del(ghost ring: seq<ListHead<T>>, ghost k: nat)
      requires IsRing(ring) && 0 < k < |ring| && ring[k] == this
      modifies prev`next, next`prev, this`next, this`prev
      ensures IsRing(ring[..k] + ring[k + 1..])
      ensures next == this && prev == this
    {
      prev.next := next;
      next.prev := prev;
      next, prev := this, this;
    }
  }

  /** The links of one list in order, the header first: next and prev are inverse all the way round. */
  ghost predicate IsRing<T(0)>(ring: seq<ListHead<T>>)
    reads ring
  {
    && ring != []
    && (forall i, j :: 0 <= i < j < |ring| ==> ring[i] != ring[j])
    && (forall i {:trigger ring[i].next} :: 0 <= i < |ring| - 1 ==> ring[i].next == ring[i + 1])
    && (forall i {:trigger ring[i].prev} :: 0 < i < |ring| ==> ring[i].prev == ring[i - 1])
    && ring[|ring| - 1].next == ring[0]
    && ring[0].prev == ring[|ring| - 1]
  }

  /** Following `next` and then `prev`, or the other way round, leads back from every link of a list. */
  lemma NextPrevInverse<T(0)>(ring: seq<ListHead<T>>, n: ListHead<T>)
    requires IsRing(ring) && n in ring
    ensures n.next in ring && n.prev in ring
    ensures n.next.prev == n && n.prev.next == n
  {
    var i :| 0 <= i < |ring| && ring[i] == n;
    if i + 1 < |ring| { assert ring[i + 1].prev == n; }
    if i > 0 { assert ring[i - 1].next == n; }
  }

  lemma EmptyExactly<T(0)>(ring: seq<ListHead<T>>)
    requires IsRing(ring)
    ensures ring[0].Empty() <==> |ring| == 1
    ensures |ring| > 1 ==> ring[0].GetHead() == ring[1]
  {}
}
