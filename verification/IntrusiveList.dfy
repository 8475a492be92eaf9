/** The circular doubly linked list of src/usbws_util.h, on the heap.

    A list is seen as a cycle: the head, the entries in order, and the head again.  An
    entry is the `list` member of a `struct usbws_recv_buf`; the buffer that
    `container_of` would recover from it is carried as `payload`. */
module IntrusiveList {
  import opened ByteStream

  class ListHead {
    var next: ListHead
    var prev: ListHead
    const payload: seq<byte>
    /** Set by `Free`; nothing reads through a freed entry. */
    ghost var freed: bool

    constructor (payload: seq<byte>)
      ensures this.payload == payload && !freed
    {
      this.payload := payload;
      next, prev := this, this;
      freed := false;
    }

    function Next(): ListHead
      requires !freed
      reads this
    {
      next
    }

    function Prev(): ListHead
      requires !freed
      reads this
    {
      prev
    }

    method Free()
      requires !freed
      modifies this`freed
      ensures freed
    {
      freed := true;
    }
  }

  /** The cycle, from the head at 0 to the head again behind the last entry. */
  function At(head: ListHead, nodes: seq<ListHead>, i: nat): ListHead {
    if 0 < i <= |nodes| then nodes[i - 1] else head
  }

  ghost predicate Linked(head: ListHead, nodes: seq<ListHead>, i: nat)
    reads head, nodes
  {
    At(head, nodes, i).next == At(head, nodes, i + 1) && At(head, nodes, i + 1).prev == At(head, nodes, i)
  }

  ghost predicate Distinct<T>(s: seq<T>) {
    forall i, j :: 0 <= i < j < |s| ==> s[i] != s[j]
  }

  function Remove<T>(s: seq<T>, k: nat): (r: seq<T>)
    requires k < |s|
  {
    s[..k] + s[k + 1..]
  }

  lemma DistinctAfterRemove<T>(s: seq<T>, k: nat)
    requires Distinct(s) && k < |s|
    ensures Distinct(Remove(s, k)) && s[k] !in Remove(s, k)
    ensures forall x :: x in s <==> x == s[k] || x in Remove(s, k)
  {
    var r := Remove(s, k);
    forall x | x in s ensures x == s[k] || x in r {
      var i :| 0 <= i < |s| && s[i] == x;
      assert i < k ==> r[i] == x;
      assert i > k ==> r[i - 1] == x;
    }
  }

  /** `next` and `prev` are mutually inverse around the cycle, and no entry is shared or
      freed. */
  ghost predicate Ring(head: ListHead, nodes: seq<ListHead>)
    reads head, nodes
  {
    head !in nodes && Distinct(nodes) && !head.freed && (forall e <- nodes :: !e.freed) &&
    forall i: nat :: i <= |nodes| ==> Linked(head, nodes, i)
  }

  /** INIT_LIST_HEAD */
  method InitListHead(list: ListHead)
    requires !list.freed
    modifies list`next, list`prev
    ensures Ring(list, [])
  {
    list.next := list;
    list.prev := list;
  }

  /** __list_add */
  method ListAdd(neo: ListHead, prev: ListHead, next: ListHead)
    requires !neo.freed && !prev.freed && !next.freed && neo != prev && neo != next
    modifies neo`next, neo`prev, prev`next, next`prev
    ensures prev.next == neo && neo.next == next && next.prev == neo && neo.prev == prev
  {
    next.prev := neo;
    neo.next := next;
    neo.prev := prev;
    prev.next := neo;
  }

  /** list_add_tail */
  method ListAddTail(neo: ListHead, head: ListHead, ghost nodes: seq<ListHead>)
    requires Ring(head, nodes) && !neo.freed && neo != head && neo !in nodes
    modifies neo`next, neo`prev, head`next, head`prev, nodes`next
    ensures Ring(head, nodes + [neo])
  {
    assert Linked(head, nodes, |nodes|);
    ListAdd(neo, head.Prev(), head);
    forall i: nat | i <= |nodes + [neo]| ensures Linked(head, nodes + [neo], i) {
      assert i <= |nodes| ==> old(Linked(head, nodes, i));
    }
  }

  /** __list_del */
  method ListUnlink(prev: ListHead, next: ListHead)
    requires !prev.freed && !next.freed
    modifies prev`next, next`prev
    ensures prev.next == next && next.prev == prev
  {
    next.prev := prev;
    prev.next := next;
  }

  /** list_del: the entry leaves the ring; its own two links are left as they were. */
  method ListDel(entry: ListHead, ghost head: ListHead, ghost nodes: seq<ListHead>, ghost k: nat)
    requires Ring(head, nodes) && k < |nodes| && entry == nodes[k]
    modifies head`next, head`prev, nodes`next, nodes`prev
    ensures Ring(head, Remove(nodes, k))
    ensures entry.next == old(entry.next) && entry.prev == old(entry.prev)
  {
    assert Linked(head, nodes, k) && Linked(head, nodes, k + 1);
    DistinctAfterRemove(nodes, k);
    ListUnlink(entry.Prev(), entry.Next());
    forall i: nat | i < |nodes| ensures Linked(head, Remove(nodes, k), i) {
      assert old(Linked(head, nodes, if i < k then i else i + 1));
    }
  }

  /** The entry a walk starts at: the first one, or the head of an empty list. */
  function First(head: ListHead, nodes: seq<ListHead>): ListHead {
    if nodes == [] then head else nodes[0]
  }

  lemma FirstIsNext(head: ListHead, nodes: seq<ListHead>)
    requires Ring(head, nodes)
    ensures head.next == First(head, nodes)
    ensures nodes != [] ==> nodes[0].next == First(head, nodes[1..])
  {
    assert Linked(head, nodes, 0);
    assert nodes != [] ==> Linked(head, nodes, 1);
  }

  /** list_del of the first entry, as both traversals of the receive queue use it. */
  method ListDelFirst(head: ListHead, ghost nodes: seq<ListHead>, entry: ListHead)
    requires Ring(head, nodes) && nodes != [] && entry == nodes[0]
    modifies head`next, head`prev, nodes`next, nodes`prev
    ensures Ring(head, nodes[1..]) && entry !in nodes[1..]
    ensures entry.next == old(entry.next)
  {
    DistinctAfterRemove(nodes, 0);
    assert Remove(nodes, 0) == nodes[1..];
    ListDel(entry, head, nodes, 0);
  }

  /** list_empty */
  method ListEmpty(head: ListHead, ghost nodes: seq<ListHead>) returns (empty: bool)
    requires Ring(head, nodes)
    ensures empty <==> nodes == []
  {
    FirstIsNext(head, nodes);
    empty := head.Next() == head;
  }

  /** The ring fixes the entries: walking `next` from the head gives them back in order,
      so two readings of one ring agree. */
  lemma {:induction false} RingDeterminesEntries(head: ListHead, a: seq<ListHead>, b: seq<ListHead>, k: nat)
    requires Ring(head, a) && Ring(head, b) && k <= |a|
    ensures k <= |b| && a[..k] == b[..k]
  {
    if k > 0 {
      RingDeterminesEntries(head, a, b, k - 1);
      assert Linked(head, a, k - 1) && Linked(head, b, k - 1);
      assert k > 1 ==> a[..k - 1][k - 2] == b[..k - 1][k - 2];
    }
  }
}
