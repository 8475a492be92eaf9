/** The receive side of `struct usbws_session`: the queue of frames, the offset into its
    first frame, and the code that runs under `recv_queue_lock`. */
module ReceiveQueue {
  import opened ByteStream
  import opened IntrusiveList

  function Payloads(nodes: seq<ListHead>): (q: seq<seq<byte>>)
    ensures |q| == |nodes|
  {
    seq(|nodes|, i requires 0 <= i < |nodes| => nodes[i].payload)
  }

  lemma PayloadsTail(nodes: seq<ListHead>)
    requires nodes != []
    ensures Payloads(Remove(nodes, 0)) == Payloads(nodes)[1..]
  {
  }

  lemma PayloadsSnoc(nodes: seq<ListHead>, e: ListHead)
    ensures Payloads(nodes + [e]) == Payloads(nodes) + [e.payload]
  {
  }

  lemma SplitFirst<T>(s: seq<T>, k: nat)
    requires k < |s|
    ensures s[k..][0] == s[k] && s[k..][1..] == s[k + 1..] && s[..k] + [s[k]] == s[..k + 1]
  {
  }

  /** What is left of a queue whose entries leave it from the front, in order. */
  predicate Suffix(rest: seq<ListHead>, all: seq<ListHead>)
    decreases |all|
  {
    rest == all || (all != [] && Suffix(rest, all[1..]))
  }

  lemma {:induction false} SuffixTail(rest: seq<ListHead>, all: seq<ListHead>)
    requires Suffix(rest, all) && rest != []
    ensures Suffix(rest[1..], all)
    decreases |all|
  {
    if rest != all {
      SuffixTail(rest, all[1..]);
    } else {
      assert Suffix(rest[1..], all[1..]);
    }
  }

  lemma {:induction false} SuffixMeans(rest: seq<ListHead>, all: seq<ListHead>)
    requires Suffix(rest, all)
    ensures |rest| <= |all| && rest == all[|all| - |rest|..]
    decreases |all|
  {
    if rest != all {
      SuffixMeans(rest, all[1..]);
    }
  }

  class RecvQueue {
    const head: ListHead
    var offset: nat
    /** The connection is gone and the queue was unlinked. */
    var closed: bool

    // every frame ever allocated is queued, or was freed, or was unlinked at close
    ghost var created: set<ListHead>
    ghost var queued: seq<ListHead>
    ghost var freed: set<ListHead>
    ghost var unlinked: set<ListHead>

    // every byte ever queued was taken, or is still to be read, or was dropped at close
    ghost var enqueued: seq<byte>
    ghost var taken: seq<byte>
    ghost var dropped: seq<byte>

    ghost function Frames(): seq<seq<byte>>
      reads this
    {
      Payloads(queued)
    }

    ghost function Entries(): set<ListHead>
      reads this
    {
      set e <- queued
    }

    /** Each frame ever allocated is in exactly one of the three places. */
    ghost predicate NodeLedger()
      reads this, freed, unlinked
    {
      created == Entries() + freed + unlinked &&
      head !in created && Entries() !! freed && Entries() !! unlinked && freed !! unlinked &&
      (forall e <- freed :: e.freed) && (forall e <- unlinked :: !e.freed)
    }

    /** No frame is forgotten, none comes back from where it was freed or unlinked, and new
        ones are newly allocated. */
    twostate predicate NodesKept()
      reads this
    {
      old(created) <= created && old(freed) <= freed && old(unlinked) <= unlinked &&
      fresh(created - old(created)) && fresh(Entries() - old(Entries()))
    }

    ghost predicate ByteLedger()
      reads this
    {
      if closed then
        queued == [] && enqueued == taken + dropped
      else
        (dropped == [] && Aligned(Frames(), offset) && enqueued == taken + Stream(Frames(), offset))
    }

    ghost predicate Valid()
      reads this, head, queued, freed, unlinked
    {
      Ring(head, queued) && NodeLedger() && ByteLedger()
    }

    constructor ()
      ensures Valid() && fresh(head) && !closed && offset == 0
      ensures queued == [] && created == {} && enqueued == taken == dropped == []
    {
      head := new ListHead([]);
      offset, closed := 0, false;
      created, queued, freed, unlinked := {}, [], {}, {};
      enqueued, taken, dropped := [], [], [];
      new;
      InitListHead(head);
    }

    /** A new entry joins the queue at its end. */
    method Append(e: ListHead)
      requires Ring(head, queued) && NodeLedger() && e !in created && e != head && !e.freed
      modifies `created, `queued, head, Entries(), e`next, e`prev
      ensures Ring(head, queued) && NodeLedger()
      ensures queued == old(queued) + [e] && created == old(created) + {e}
    {
      ListAddTail(e, head, queued);
      created, queued := created + {e}, queued + [e];
      assert Entries() == old(Entries()) + {e};
    }

    /** The locked part of usbws_handle_recv (src/usbws_session.c:129-140). */
    method Enqueue(payload: seq<byte>)
      requires Valid() && !closed
      modifies `created, `queued, `enqueued, head, Entries()
      ensures Valid() && enqueued == old(enqueued) + payload
      ensures Frames() == old(Frames()) + [payload]
      ensures |queued| == |old(queued)| + 1
      ensures var e := queued[|old(queued)|];
        fresh(e) && queued == old(queued) + [e] && created == old(created) + {e}
    {
      ghost var frames := Frames();
      StreamSnoc(frames, offset, payload);
      var recvBuf := new ListHead(payload);
      Append(recvBuf);
      PayloadsSnoc(old(queued), recvBuf);
      enqueued := enqueued + payload;
      assert Frames() == frames + [payload];
      assert ByteLedger();
    }

    /** The first entry `p` leaves the queue, and is freed or not. */
    method RemoveFirst(p: ListHead, free: bool)
      requires Ring(head, queued) && NodeLedger() && queued != [] && p == queued[0]
      modifies `queued, `freed, `unlinked, head, Entries()
      ensures Ring(head, queued) && NodeLedger() && queued == old(queued)[1..]
      ensures old(Entries()) == Entries() + {p}
      ensures freed == old(freed) + (if free then {p} else {})
      ensures unlinked == old(unlinked) + (if free then {} else {p})
      ensures First(head, queued) == old(p.next)
    {
      FirstIsNext(head, queued);
      ListDelFirst(head, queued, p);
      queued := queued[1..];
      if free {
        p.Free();
        freed := freed + {p};
      } else {
        unlinked := unlinked + {p};
      }
    }

    /** A traversal stands at the first entry, the taken bytes are `base` and what came
        off the queue since, and it will end in `end`. */
    ghost predicate Walking(copy: Copy, len: nat, out: seq<byte>, base: seq<byte>, end: Drained<byte>)
      reads this
    {
      base <= taken && LeadsTo(copy, Frames(), offset, len, out, taken[|base|..], end)
    }

    /** The traversal has ended in `end`. */
    ghost predicate Walked(out: seq<byte>, base: seq<byte>, end: Drained<byte>)
      reads this
    {
      Frames() == end.queue && offset == end.off && out == end.out && taken == base + end.took
    }

    /** The copy in that body (src/usbws_session.c:437-441). */
    method CopyFrom(copy: Copy, p: ListHead, len: nat, out: seq<byte>) returns (out': seq<byte>)
      requires offset < |p.payload| && |out| <= len
      modifies `offset, `taken
      ensures var rem := |p.payload| - old(offset);
        var bytes := Min(rem, if copy.Meant? then len - |out| else len);
        var src := if copy.Meant? then old(offset) else 0;
        && out' == out + p.payload[src..src + bytes] && offset == old(offset) + bytes
        && taken == old(taken) + p.payload[old(offset)..offset]
    {
      var rem := |p.payload| - offset;
      var want := if copy.Meant? then len - |out| else len;
      var bytes := if rem > want then want else rem;
      var src := if copy.Meant? then offset else 0;
      out' := out + p.payload[src..src + bytes];
      taken := taken + p.payload[offset..offset + bytes];
      offset := offset + bytes;
    }

    /** The body of the traversal in usbws_recv (src/usbws_session.c:430-448), at the
        first entry `p`; `stop` is its `break`. */
    method TakeFrom(copy: Copy, p: ListHead, len: nat, out: seq<byte>) returns (out': seq<byte>, stop: bool)
      requires Ring(head, queued) && NodeLedger() && queued != [] && p == queued[0] && |out| <= len
      modifies `offset, `queued, `freed, `unlinked, `taken, head, Entries()
      ensures Ring(head, queued) && NodeLedger()
      ensures var d := TakeFrame(copy, old(Frames()), old(offset), len, out);
        Frames() == d.queue && offset == d.off && out' == d.out && taken == old(taken) + d.took
      ensures stop <==> old(offset) < |p.payload| && |out'| >= len
      ensures !stop ==> First(head, queued) == old(p.next) && |queued| < |old(queued)|
      ensures Entries() <= old(Entries()) && freed + Entries() == old(freed) + old(Entries())
      ensures unlinked == old(unlinked) && (queued == old(queued) || queued == old(queued)[1..])
    {
      ghost var d := TakeFrame(copy, Frames(), offset, len, out);
      PayloadsTail(queued);
      assert queued[1..] == Remove(queued, 0);
      assert p.payload == Frames()[0];
      stop, out' := false, out;
      if offset < |p.payload| {
        out' := CopyFrom(copy, p, len, out);
        stop := |out'| >= len;
      }
      if offset >= |p.payload| {
        RemoveFirst(p, true);
        offset := 0;
      }
      assert Frames() == d.queue && offset == d.off && out' == d.out;
    }

    /** The same, as one step of a traversal. */
    method WalkOn(copy: Copy, p: ListHead, len: nat, out: seq<byte>, ghost base: seq<byte>, ghost end: Drained<byte>)
      returns (out': seq<byte>, stop: bool)
      requires Ring(head, queued) && NodeLedger() && queued != [] && p == queued[0]
      requires Walking(copy, len, out, base, end)
      modifies `offset, `queued, `freed, `unlinked, `taken, head, Entries()
      ensures Ring(head, queued) && NodeLedger()
      ensures if stop then Walked(out', base, end) else Walking(copy, len, out', base, end)
      ensures !stop ==> First(head, queued) == old(p.next) && |queued| < |old(queued)|
      ensures Entries() <= old(Entries()) && freed + Entries() == old(freed) + old(Entries())
      ensures unlinked == old(unlinked) && (queued == old(queued) || queued == old(queued)[1..])
    {
      ghost var t := taken;
      ghost var d := TakeFrame(copy, Frames(), offset, len, out);
      LeadsOn(copy, Frames(), offset, len, out, t[|base|..], end);
      assert Frames()[0] == p.payload;
      out', stop := TakeFrom(copy, p, len, out);
      assert (t + d.took)[|base|..] == t[|base|..] + d.took;
      assert stop ==> taken == base + (t[|base|..] + d.took);
    }

    /** The traversal of usbws_recv (src/usbws_session.c:429-449): frames that were read
        are unlinked and freed on the way, from the front and in order, and nothing is read
        through a freed one. */
    method Walk(copy: Copy, len: nat, out: seq<byte>, ghost end: Drained<byte>) returns (out': seq<byte>)
      requires Ring(head, queued) && NodeLedger()
      requires Walking(copy, len, out, taken, end)
      modifies `offset, `queued, `freed, `unlinked, `taken, head, Entries()
      ensures Ring(head, queued) && NodeLedger() && Walked(out', old(taken), end)
      ensures Entries() <= old(Entries()) && freed + Entries() == old(freed) + old(Entries())
      ensures unlinked == old(unlinked) && Suffix(queued, old(queued))
    {
      out' := out;
      FirstIsNext(head, queued);
      var p := head.Next();
      var n := p.Next();
      while p != head
        invariant Ring(head, queued) && NodeLedger()
        invariant p == First(head, queued) && n == p.next
        invariant Entries() <= old(Entries()) && freed + Entries() == old(freed) + old(Entries())
        invariant unlinked == old(unlinked) && Suffix(queued, old(queued))
        invariant Walking(copy, len, out', old(taken), end)
        decreases |queued|
      {
        var stop;
        SuffixTail(queued, old(queued));
        out', stop := WalkOn(copy, p, len, out', old(taken), end);
        if stop {
          return;
        }
        p := n;
        n := p.Next();
      }
    }

    /** The same, with the byte ledger. */
    method Traverse(copy: Copy, len: nat, out: seq<byte>) returns (out': seq<byte>)
      requires Valid() && !closed && |out| <= len
      modifies `offset, `queued, `freed, `unlinked, `taken, head, Entries()
      ensures Valid() && NodesKept() && closed == old(closed) && enqueued == old(enqueued)
      ensures var d := Drain(copy, old(Frames()), old(offset), len, out);
        Frames() == d.queue && offset == d.off && out' == d.out && taken == old(taken) + d.took
      ensures Entries() <= old(Entries()) && freed + Entries() == old(freed) + old(Entries())
      ensures unlinked == old(unlinked) && Suffix(queued, old(queued))
    {
      ghost var end := Drain(copy, Frames(), offset, len, out);
      DrainTakes(copy, Frames(), offset, len, out);
      StaysAccounted(enqueued, taken, Frames(), offset, end);
      out' := Walk(copy, len, out, end);
      assert ByteLedger();
    }

    /** The body of the traversal in usbws_session_close, when `visited` have been unlinked. */
    method UnlinkFirst(p: ListHead, ghost all: seq<ListHead>, ghost visited: seq<ListHead>)
      returns (ghost visited': seq<ListHead>)
      requires Ring(head, queued) && NodeLedger() && queued != [] && p == queued[0]
      requires |visited| <= |all| && visited == all[..|visited|] && queued == all[|visited|..]
      modifies `queued, `freed, `unlinked, head, Entries()
      ensures Ring(head, queued) && NodeLedger() && freed == old(freed)
      ensures |visited'| == |visited| + 1 <= |all| && visited' == all[..|visited'|] && queued == all[|visited'|..]
      ensures unlinked + Entries() == old(unlinked) + old(Entries()) && Entries() <= old(Entries())
      ensures First(head, queued) == old(p.next)
    {
      SplitFirst(all, |visited|);
      RemoveFirst(p, false);
      visited' := visited + [p];
    }

    /** The close part of usbws_session_close: every queued frame is unlinked, in order,
        and none is freed. */
    method UnlinkAll() returns (ghost visited: seq<ListHead>)
      requires Ring(head, queued) && NodeLedger()
      modifies `queued, `freed, `unlinked, head, Entries()
      ensures visited == old(queued) && queued == [] && freed == old(freed)
      ensures Ring(head, queued) && NodeLedger()
      ensures unlinked == old(unlinked) + old(Entries())
    {
      FirstIsNext(head, queued);
      var p := head.Next();
      var n := p.Next();
      visited := [];
      ghost var all := queued;
      while p != head
        invariant Ring(head, queued) && NodeLedger()
        invariant p == First(head, queued) && n == p.next
        invariant |visited| <= |all| && visited == all[..|visited|] && queued == all[|visited|..]
        invariant freed == old(freed)
        invariant unlinked + Entries() == old(unlinked) + old(Entries())
        invariant Entries() <= old(Entries())
        decreases |queued|
      {
        visited := UnlinkFirst(p, all, visited);
        p := n;
        n := p.Next();
      }
    }

    /** The locked part of usbws_session_close. */
    method Close()
      requires Valid() && !closed
      modifies this, head, Entries()
      ensures Valid() && closed && freed == old(freed) && offset == old(offset)
      ensures enqueued == old(enqueued) && taken == old(taken) && dropped == old(Stream(Frames(), offset))
      ensures created == old(created)
      ensures unlinked == old(unlinked) + old(Entries())
    {
      dropped := Stream(Frames(), offset);
      ghost var visited := UnlinkAll();
      closed := true;
    }
  }
}
