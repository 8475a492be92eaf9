/** Two endpoints joined by an ordered channel: what one hands to usbws_send, the other
    gets from usbws_recv.  The channel keeps the order of binary frames and may cut and
    join them as it likes (section 5.4 of RFC 6455). */
module EndToEnd {
  import opened ByteStream
  import opened SessionState
  import SendProtocol
  import Receiver

  /** What has arrived at the reader came out of the channel; the rest of the sender's wire
      is still in it. */
  datatype Pair = Pair(sender: SendProtocol.Engine, reader: Receiver.Reader)

  datatype Move =
    | Send(a: SendProtocol.Act)
    /** A binary frame of the next `n` bytes is queued. */
    | Deliver(n: nat)
    /** The reader moves by itself. */
    | Read(m: Receiver.Move)

  function Wire(p: Pair): seq<byte> {
    DataOf(p.sender.s.wire)
  }

  predicate PairInv(p: Pair) {
    SendProtocol.Inv(p.sender) && Receiver.Base(p.reader) && p.reader.arrived <= Wire(p)
  }

  /** A delivery as the reader sees it. */
  function ReaderMove(p: Pair, m: Move): Receiver.Move
    requires !m.Send? && (m.Deliver? ==> |p.reader.arrived| + m.n <= |Wire(p)|)
  {
    if m.Read? then m.m else Receiver.Arrive(Wire(p)[|p.reader.arrived|..|p.reader.arrived| + m.n])
  }

  predicate CanMove(p: Pair, m: Move) {
    match m
    case Send(a) => SendProtocol.Enabled(p.sender, a)
    case Deliver(n) => p.reader.linked && |p.reader.arrived| + n <= |Wire(p)|
    case Read(m) => !m.Arrive? && Receiver.CanMove(p.reader, m)
  }

  function Do(p: Pair, m: Move): Pair
    requires PairInv(p) && CanMove(p, m)
  {
    if m.Send? then p.(sender := SendProtocol.Step(p.sender, m.a))
    else p.(reader := Receiver.Advance(p.reader, ReaderMove(p, m)))
  }

  lemma MoveKeepsPair(p: Pair, m: Move)
    requires PairInv(p) && CanMove(p, m)
    ensures PairInv(Do(p, m))
  {
    if m.Send? {
      SendProtocol.WireGrows(p.sender, m.a);
    }
  }

  function Advance(p: Pair, m: Move): (q: Pair)
    requires PairInv(p) && CanMove(p, m)
    ensures PairInv(q)
  {
    MoveKeepsPair(p, m);
    Do(p, m)
  }

  predicate CanRun(p: Pair, moves: seq<Move>)
    requires PairInv(p)
    decreases |moves|
  {
    moves == [] || (CanMove(p, moves[0]) && CanRun(Advance(p, moves[0]), moves[1..]))
  }

  function After(p: Pair, moves: seq<Move>): (q: Pair)
    requires PairInv(p) && CanRun(p, moves)
    ensures PairInv(q)
    decreases |moves|
  {
    if moves == [] then p else After(Advance(p, moves[0]), moves[1..])
  }

  function Joined(interval: int, now: int): (p: Pair)
    ensures PairInv(p)
  {
    Pair(SendProtocol.Start(interval, now), Receiver.Fresh())
  }

  // ----- the stream

  /** Every traversal of the run copies what it takes: it is the meant copy, or the source's
      own where the frames in the queue allow it. */
  predicate CopiesRight(p: Pair, moves: seq<Move>)
    requires PairInv(p) && CanRun(p, moves)
    decreases |moves|
  {
    moves == [] ||
    ((!moves[0].Send? ==> Receiver.Right(p.reader, ReaderMove(p, moves[0]))) &&
     CopiesRight(Advance(p, moves[0]), moves[1..]))
  }

  lemma {:induction false} RightRunKeepsHanded(p: Pair, moves: seq<Move>)
    requires PairInv(p) && Receiver.Handed(p.reader) && CanRun(p, moves) && CopiesRight(p, moves)
    ensures Receiver.Handed(After(p, moves).reader)
    decreases |moves|
  {
    if moves != [] {
      if !moves[0].Send? {
        Receiver.MoveKeepsHanded(p.reader, ReaderMove(p, moves[0]));
      }
      RightRunKeepsHanded(Advance(p, moves[0]), moves[1..]);
    }
  }

  lemma DeliveredIsPrefix(p: Pair)
    requires PairInv(p) && Receiver.Handed(p.reader)
    ensures p.reader.delivered <= Wire(p)
    ensures var r := p.reader;
      r.cont && r.linked && r.call.NoCall? && r.queue == [] && |r.arrived| == |Wire(p)| ==> r.delivered == Wire(p)
  {
    Receiver.HandedIsPrefix(p.reader);
  }

  /** In every run in which the copies are right, what usbws_recv has returned is a prefix
      of what was written, and of the buffers handed to usbws_send if none was overwritten
      unsent; and when all has arrived and been read, it is all that was written. */
  lemma StreamDelivered(interval: int, now: int, moves: seq<Move>)
    requires CanRun(Joined(interval, now), moves) && CopiesRight(Joined(interval, now), moves)
    ensures var p := After(Joined(interval, now), moves);
      var r, g := p.reader, p.sender;
      && r.delivered <= Wire(p)
      && (g.lost == 0 ==> Wire(p) <= Stream(g.sends, 0) && r.delivered <= Stream(g.sends, 0))
      && (r.cont && r.linked && r.call.NoCall? && r.queue == [] && |r.arrived| == |Wire(p)| ==>
            r.delivered == Wire(p))
  {
    RightRunKeepsHanded(Joined(interval, now), moves);
    var p := After(Joined(interval, now), moves);
    DeliveredIsPrefix(p);
    if p.sender.lost == 0 {
      SendProtocol.WireIsPrefix(p.sender);
    }
  }
}
