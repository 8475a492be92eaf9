/** Frames queued for a reader, read back as one byte stream.

    This is the value-level account of the traversal inside `usbws_recv`
    (src/usbws_session.c:429-449).  Two copies are described: the one the source
    performs, which always starts at the first byte of the frame and is bounded by the
    length of the whole request, and the one a byte stream needs, which starts at
    `recv_offset` and is bounded by what is still wanted. */
module ByteStream {

  newtype byte = x: int | 0 <= x < 256

  datatype Option<+T> = None | Some(value: T)

  /** Which `memcpy` the traversal performs. */
  datatype Copy = Literal | Meant

  /** The state a traversal leaves: the queue, the offset, the caller's buffer, and the
      bytes that were taken off the stream, whatever was copied for them. */
  datatype Drained<T> = Drained(queue: seq<seq<T>>, off: nat, out: seq<T>, took: seq<T>)

  /** The read offset lies inside the first frame, or is zero. */
  predicate Aligned<T>(q: seq<seq<T>>, off: nat) {
    off == 0 || (q != [] && off < |q[0]|)
  }

  /** What a reader has still to see: the queued payloads, less the `off` bytes of the
      first one that were already read. */
  function Stream<T>(q: seq<seq<T>>, off: nat): (s: seq<T>)
    requires Aligned(q, off)
  {
    if q == [] then [] else q[0][off..] + Stream(q[1..], 0)
  }

  lemma {:induction false} StreamSnoc<T>(q: seq<seq<T>>, off: nat, f: seq<T>)
    requires Aligned(q, off)
    ensures Aligned(q + [f], off)
    ensures Stream(q + [f], off) == Stream(q, off) + f
  {
    if q == [] {
      assert Stream(([] + [f])[1..], 0) == [];
    } else {
      assert (q + [f])[1..] == q[1..] + [f];
      StreamSnoc(q[1..], 0, f);
    }
  }

  function Min(a: nat, b: nat): nat { if a <= b then a else b }

  /** One pass of the loop body: drop an exhausted first frame, or copy from it. */
  function TakeFrame<T>(copy: Copy, q: seq<seq<T>>, off: nat, len: nat, out: seq<T>): (d: Drained<T>)
    requires q != [] && |out| <= len
    ensures |d.queue| < |q| || (off < |q[0]| && |d.out| >= len)
  {
    if off >= |q[0]| then Drained(q[1..], 0, out, [])
    else
      var rem := |q[0]| - off;
      var bytes := Min(rem, if copy.Meant? then len - |out| else len);
      var src := if copy.Meant? then off else 0;
      var out', took := out + q[0][src..src + bytes], q[0][off..off + bytes];
      if off + bytes < |q[0]| then Drained(q, off + bytes, out', took)
      else Drained(q[1..], 0, out', took)
  }

  /** One traversal of the queue on behalf of a request for `len` bytes of which `out`
      is already in the caller's buffer. */
  function Drain<T>(copy: Copy, q: seq<seq<T>>, off: nat, len: nat, out: seq<T>): Drained<T>
    requires |out| <= len
    decreases |q|
  {
    if q == [] then Drained(q, off, out, [])
    else
      var d := TakeFrame(copy, q, off, len, out);
      if off < |q[0]| && |d.out| >= len then d
      else
        var e := Drain(copy, d.queue, d.off, len, d.out);
        e.(took := d.took + e.took)
  }

  /** A traversal that has taken `took` so far and stands at `(q, off)` with `out` ends
      in `end`. */
  predicate LeadsTo<T(==)>(copy: Copy, q: seq<seq<T>>, off: nat, len: nat, out: seq<T>, took: seq<T>, end: Drained<T>) {
    |out| <= len && (var d := Drain(copy, q, off, len, out); end == d.(took := took + d.took))
  }

  lemma LeadsOn<T>(copy: Copy, q: seq<seq<T>>, off: nat, len: nat, out: seq<T>, took: seq<T>, end: Drained<T>)
    requires q != [] && LeadsTo(copy, q, off, len, out, took, end)
    ensures var d := TakeFrame(copy, q, off, len, out);
      if off < |q[0]| && |d.out| >= len then end == d.(took := took + d.took)
      else LeadsTo(copy, d.queue, d.off, len, d.out, took + d.took, end)
  {
    var d := TakeFrame(copy, q, off, len, out);
    if off >= |q[0]| || |d.out| < len {
      var e := Drain(copy, d.queue, d.off, len, d.out);
      assert took + (d.took + e.took) == took + d.took + e.took;
    }
  }

  /** The caller's buffer grows by as many bytes as were taken, and under the meant copy
      by those very bytes and not beyond `len`. */
  predicate Fills<T(==)>(copy: Copy, len: nat, out: seq<T>, d: Drained<T>) {
    out <= d.out && |d.out| == |out| + |d.took| &&
    (copy.Meant? ==> |d.out| <= len && d.out == out + d.took)
  }

  lemma FillsTwice<T>(copy: Copy, len: nat, out: seq<T>, d: Drained<T>, e: Drained<T>)
    requires Fills(copy, len, out, d) && Fills(copy, len, d.out, e)
    ensures Fills(copy, len, out, e.(took := d.took + e.took))
  {
  }

  lemma FrameFills<T>(copy: Copy, q: seq<seq<T>>, off: nat, len: nat, out: seq<T>)
    requires q != [] && |out| <= len
    ensures Fills(copy, len, out, TakeFrame(copy, q, off, len, out))
  {
  }

  /** `d` is what remains of `(q, off)` once `d.took` came off the front of its stream. */
  predicate SplitsOff<T(==)>(q: seq<seq<T>>, off: nat, d: Drained<T>) {
    Aligned(q, off) && Aligned(d.queue, d.off) && Stream(q, off) == d.took + Stream(d.queue, d.off)
  }

  lemma SplitsOffTwice<T>(q: seq<seq<T>>, off: nat, d: Drained<T>, e: Drained<T>)
    requires SplitsOff(q, off, d) && SplitsOff(d.queue, d.off, e)
    ensures SplitsOff(q, off, e.(took := d.took + e.took))
  {
  }

  /** What was taken and what is left still make up the whole. */
  lemma StaysAccounted<T>(whole: seq<T>, taken: seq<T>, q: seq<seq<T>>, off: nat, d: Drained<T>)
    requires SplitsOff(q, off, d) && whole == taken + Stream(q, off)
    ensures whole == (taken + d.took) + Stream(d.queue, d.off)
  {
  }

  lemma SplitAt<T>(s: seq<T>, i: nat, j: nat, rest: seq<T>)
    requires i <= j <= |s|
    ensures s[i..] + rest == s[i..j] + (s[j..] + rest)
  {
  }

  lemma FrameTakes<T>(copy: Copy, q: seq<seq<T>>, off: nat, len: nat, out: seq<T>)
    requires q != [] && |out| <= len && Aligned(q, off)
    ensures SplitsOff(q, off, TakeFrame(copy, q, off, len, out))
  {
    var d := TakeFrame(copy, q, off, len, out);
    if off < |q[0]| {
      var end := off + |d.took|;
      SplitAt(q[0], off, end, Stream(q[1..], 0));
      assert d.took == q[0][off..end];
      if end == |q[0]| {
        assert q[0][end..] == [];
      }
    }
  }

  /** A traversal takes exactly as many bytes as it puts into the caller's buffer. */
  lemma {:induction false} DrainFills<T>(copy: Copy, q: seq<seq<T>>, off: nat, len: nat, out: seq<T>)
    requires |out| <= len
    ensures Fills(copy, len, out, Drain(copy, q, off, len, out))
    decreases |q|
  {
    if q != [] {
      FrameFills(copy, q, off, len, out);
      var d := TakeFrame(copy, q, off, len, out);
      if off >= |q[0]| || |d.out| < len {
        DrainFills(copy, d.queue, d.off, len, d.out);
        FillsTwice(copy, len, out, d, Drain(copy, d.queue, d.off, len, d.out));
      }
    }
  }

  /** It stops only when the request is met or the queue is empty. */
  lemma {:induction false} DrainStops<T>(copy: Copy, q: seq<seq<T>>, off: nat, len: nat, out: seq<T>)
    requires |out| <= len
    ensures var d := Drain(copy, q, off, len, out); |d.out| < len ==> d.queue == []
    decreases |q|
  {
    if q != [] {
      var d := TakeFrame(copy, q, off, len, out);
      if off >= |q[0]| || |d.out| < len {
        DrainStops(copy, d.queue, d.off, len, d.out);
      }
    }
  }

  /** How far a traversal moves is right for either copy: what it takes comes off the
      front of the stream. */
  lemma {:induction false} DrainTakes<T>(copy: Copy, q: seq<seq<T>>, off: nat, len: nat, out: seq<T>)
    requires |out| <= len && Aligned(q, off)
    ensures SplitsOff(q, off, Drain(copy, q, off, len, out))
    decreases |q|
  {
    if q != [] {
      FrameTakes(copy, q, off, len, out);
      var d := TakeFrame(copy, q, off, len, out);
      if off >= |q[0]| || |d.out| < len {
        DrainTakes(copy, d.queue, d.off, len, d.out);
        SplitsOffTwice(q, off, d, Drain(copy, d.queue, d.off, len, d.out));
      }
    }
  }

  /** The meant copy refines "take up to `len` bytes off the front of the stream". */
  lemma {:induction false} DrainTakesPrefix<T>(q: seq<seq<T>>, off: nat, len: nat, out: seq<T>)
    requires |out| <= len && Aligned(q, off)
    ensures var d := Drain(Meant, q, off, len, out);
      var n := Min(len - |out|, |Stream(q, off)|);
      && Aligned(d.queue, d.off)
      && d.out == out + Stream(q, off)[..n]
      && d.took == Stream(q, off)[..n]
      && Stream(d.queue, d.off) == Stream(q, off)[n..]
  {
    DrainTakes(Meant, q, off, len, out);
    DrainFills(Meant, q, off, len, out);
    DrainStops(Meant, q, off, len, out);
  }

  // ----- exactly when the source's own copy is right

  function Shape<T>(q: seq<seq<T>>): (s: seq<nat>) {
    seq(|q|, i requires 0 <= i < |q| => |q[i]|)
  }

  /** No frame straddles the end of the caller's buffer, except one that finds the buffer
      still empty. */
  predicate FramesFit(shape: seq<nat>, len: nat, filled: nat) {
    shape == [] ||
    ((0 < filled < len ==> filled + shape[0] <= len) && FramesFit(shape[1..], len, filled + shape[0]))
  }

  /** What a caller can check beforehand from frame lengths and the read offset alone. */
  predicate CopyOk(shape: seq<nat>, off: nat, len: nat, filled: nat) {
    len == 0 || (off == 0 && FramesFit(shape, len, filled))
  }

  lemma ShapeTail<T>(q: seq<seq<T>>)
    requires q != []
    ensures Shape(q)[1..] == Shape(q[1..])
  {
  }

  lemma {:induction false} FramesFitFull(shape: seq<nat>, len: nat, filled: nat)
    requires filled >= len
    ensures FramesFit(shape, len, filled)
  {
    if shape != [] {
      FramesFitFull(shape[1..], len, filled + shape[0]);
    }
  }

  lemma {:induction false} LiteralAgrees<T>(q: seq<seq<T>>, off: nat, len: nat, out: seq<T>)
    requires |out| < len || len == |out| == 0
    requires CopyOk(Shape(q), off, len, |out|)
    ensures Drain(Literal, q, off, len, out) == Drain(Meant, q, off, len, out)
    decreases |q|
  {
    if q != [] {
      ShapeTail(q);
      var d := TakeFrame(Literal, q, off, len, out);
      assert d == TakeFrame(Meant, q, off, len, out);
      if off >= |q[0]| || |d.out| < len {
        LiteralAgrees(d.queue, d.off, len, d.out);
      }
    }
  }

  /** A traversal whose copy is right puts into the caller's buffer what it takes; any
      traversal puts as many bytes there. */
  lemma DrainDelivers<T>(copy: Copy, q: seq<seq<T>>, off: nat, len: nat, out: seq<T>)
    requires |out| < len || len == |out| == 0
    ensures var d := Drain(copy, q, off, len, out);
      && |d.out| == |out| + |d.took|
      && (copy.Meant? || CopyOk(Shape(q), off, len, |out|) ==> d.out == out + d.took && |d.out| <= len)
      && (|d.out| < len ==> d.queue == [])
  {
    DrainFills(copy, q, off, len, out);
    DrainStops(copy, q, off, len, out);
    if copy.Literal? && CopyOk(Shape(q), off, len, |out|) {
      LiteralAgrees(q, off, len, out);
      DrainFills(Meant, q, off, len, out);
    }
  }

  /** The frame lengths as this traversal will meet them. */
  function Trimmed(shape: seq<nat>, off: nat): seq<nat>
    requires off == 0 || (shape != [] && off < shape[0])
  {
    if off == 0 then shape else [shape[0] - off] + shape[1..]
  }

  /** A pass of the source's loop copies from the start of the frame, as many bytes as are left
      of it up to the length of the request; one that lets the traversal go on has read a
      whole frame. */
  lemma LiteralFrame<T>(q: seq<seq<T>>, off: nat, len: nat, out: seq<T>)
    requires q != [] && Aligned(q, off) && |out| <= len
    ensures var d, rem := TakeFrame(Literal, q, off, len, out), |q[0]| - off;
      d.out == out + q[0][..Min(rem, len)] && (rem == 0 || |d.out| < len ==> d.queue == q[1..] && d.off == 0)
  {
  }

  lemma {:induction false} OverrunsFromFrameStart<T>(q: seq<seq<T>>, len: nat, out: seq<T>)
    requires |out| < len || len == |out| == 0
    ensures |Drain(Literal, q, 0, len, out).out| > len <==> !FramesFit(Shape(q), len, |out|)
    decreases |q|
  {
    if q != [] {
      LiteralFrame(q, 0, len, out);
      ShapeTail(q);
      var d := TakeFrame(Literal, q, 0, len, out);
      var full, rest := Drain(Literal, q, 0, len, out).out, q[1..];
      var fits := FramesFit(Shape(rest), len, |out| + |q[0]|);
      assert FramesFit(Shape(q), len, |out|) <==> (0 < |out| < len ==> |out| + |q[0]| <= len) && fits;
      if |q[0]| == 0 || |d.out| < len {
        OverrunsFromFrameStart(rest, len, d.out);
        assert full == Drain(Literal, rest, 0, len, d.out).out;
      } else {
        FramesFitFull(Shape(rest), len, |out| + |q[0]|);
        assert full == d.out;
      }
    }
  }

  /** The source's copy writes beyond the caller's buffer exactly when a frame straddles
      its end. */
  lemma LiteralOverrunsExactlyWhen<T>(q: seq<seq<T>>, off: nat, len: nat, out: seq<T>)
    requires Aligned(q, off) && (|out| < len || len == |out| == 0)
    ensures |Drain(Literal, q, off, len, out).out| > len <==> !FramesFit(Trimmed(Shape(q), off), len, |out|)
  {
    if off == 0 {
      OverrunsFromFrameStart(q, len, out);
    } else {
      LiteralFrame(q, off, len, out);
      ShapeTail(q);
      var t, d := Trimmed(Shape(q), off), TakeFrame(Literal, q, off, len, out);
      assert t[1..] == Shape(q[1..]);
      if |d.out| < len {
        OverrunsFromFrameStart(q[1..], len, d.out);
      } else {
        FramesFitFull(t[1..], len, |out| + t[0]);
      }
    }
  }

  /** A queue of the given shape whose first frame has one value before `off` and another
      from there on. */
  function Marked(shape: seq<nat>, off: nat): (q: seq<seq<byte>>)
    ensures Shape(q) == shape
  {
    seq(|shape|, i requires 0 <= i < |shape| =>
      seq(shape[i], j => if j < off then 0 else 1))
  }

  /** For a queue of a given shape the source's copy delivers the stream, whatever the
      bytes are, if and only if `CopyOk` holds. */
  lemma LiteralExactlyWhen(shape: seq<nat>, off: nat, len: nat, out: seq<byte>)
    requires off == 0 || (shape != [] && off < shape[0])
    requires |out| < len || len == |out| == 0
    ensures CopyOk(shape, off, len, |out|) <==>
      forall q: seq<seq<byte>> | Shape(q) == shape ::
        Drain(Literal, q, off, len, out) == Drain(Meant, q, off, len, out)
  {
    if CopyOk(shape, off, len, |out|) {
      forall q: seq<seq<byte>> | Shape(q) == shape
        ensures Drain(Literal, q, off, len, out) == Drain(Meant, q, off, len, out)
      {
        LiteralAgrees(q, off, len, out);
      }
    } else {
      var q := Marked(shape, off);
      assert off > 0 ==> |q[0]| == shape[0];
      if off == 0 {
        LiteralOverrunsExactlyWhen(q, off, len, out);
        DrainTakesPrefix(q, off, len, out);
        assert |Drain(Meant, q, off, len, out).out| <= len;
      } else {
        var m := Drain(Meant, q, off, len, out);
        var l := Drain(Literal, q, off, len, out);
        FirstByte(Meant, q, off, len, out);
        FirstByte(Literal, q, off, len, out);
        assert l.out[|out|] == 0 && m.out[|out|] == 1;
      }
      assert Drain(Literal, q, off, len, out) != Drain(Meant, q, off, len, out);
    }
  }

  lemma FirstByte<T>(copy: Copy, q: seq<seq<T>>, off: nat, len: nat, out: seq<T>)
    requires |out| < len && q != [] && off < |q[0]|
    ensures var d := Drain(copy, q, off, len, out).out;
      |out| < |d| && d[|out|] == q[0][if copy.Meant? then off else 0]
  {
    var d := TakeFrame(copy, q, off, len, out);
    assert d.out[|out|] == q[0][if copy.Meant? then off else 0];
    if |d.out| < len {
      DrainFills(copy, d.queue, d.off, len, d.out);
    }
  }

  /** Two one-byte requests for a three-byte frame get its first byte twice, and a request
      that a second frame straddles gets more than it asked for. */
  lemma LiteralDiffers()
    ensures var q: seq<seq<byte>> := [[1, 2, 3]];
      Drain(Literal, q, 0, 1, []).out == Drain(Literal, q, 1, 1, []).out == [1] &&
      Drain(Meant, q, 1, 1, []).out == [2]
    ensures var q: seq<seq<byte>> := [[1], [2, 3, 4]];
      |Drain(Literal, q, 0, 3, []).out| == 4
  {
    var one: seq<seq<byte>> := [[1, 2, 3]];
    assert TakeFrame(Literal, one, 0, 1, []).out == [1];
    assert TakeFrame(Literal, one, 1, 1, []).out == [1];
    assert TakeFrame(Meant, one, 1, 1, []).out == [2];
    var q: seq<seq<byte>> := [[1], [2, 3, 4]];
    var d := TakeFrame(Literal, q, 0, 3, []);
    assert d.queue == [[2, 3, 4]] && d.out == [1];
    assert Drain(Literal, d.queue, 0, 3, d.out).out == [1, 2, 3, 4];
  }
}
