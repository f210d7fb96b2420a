// From bytes to packets: what the parser of Link makes of a stream of whole frames.
module Framing {
  import opened Packets
  import opened Link

  // The bytes of the frame that the parser is in the middle of.
  function Pending(l: Link): (bytes: seq<bv8>)
    requires Valid(l)
    ensures |bytes| < PACKET_TOTAL_LENGTH
  {
    match l.phase
    case AwaitLength => []
    case AwaitData => [l.temp.length] + l.temp.data[..l.count]
    case AwaitCrc => [l.temp.length] + l.temp.data
  }

  // The same queue, transmissions and halt; only the parser has moved.
  predicate SameOutcome(l: Link, l': Link) {
    l'.queue == l.queue && l'.sent == l.sent && l'.last == l.last && l'.halted == l.halted
  }

  // A byte that does not complete a frame only lengthens the pending part.
  lemma PendingGrows(l: Link, b: bv8)
    requires Valid(l) && !l.halted && l.phase != AwaitCrc
    ensures Valid(FeedByte(l, b)) && SameOutcome(l, FeedByte(l, b))
    ensures Pending(FeedByte(l, b)) == Pending(l) + [b]
  {
    FeedByteValid(l, b);
  }

  // The parser with a whole frame in its packet variable.
  function Completed(l: Link, p: Packet): Link { l.(temp := p, phase := AwaitCrc, count := 0) }

  // A byte that completes the frame has it handled.
  lemma FrameCompletes(l: Link, b: bv8)
    requires Valid(l) && !l.halted && l.phase == AwaitCrc
    ensures |Pending(l)| == PACKET_TOTAL_LENGTH - 1
    ensures FeedByte(l, b) == HandlePacket(Completed(l, FromWire(Pending(l) + [b])))
  {
    var bytes := Pending(l) + [b];
    assert bytes[1..17] == l.temp.data;
  }

  lemma PhaseFromPending(l: Link)
    requires Valid(l)
    ensures l.phase == AwaitCrc <==> |Pending(l)| == PACKET_TOTAL_LENGTH - 1
  {}

  lemma {:induction false} FeedPart(l: Link, p: Packet, n: nat)
    requires Valid(l) && !l.halted && l.phase == AwaitLength && Sized(p) && n < PACKET_TOTAL_LENGTH
    ensures Pending(Feed(l, Wire(p)[..n])) == Wire(p)[..n] && SameOutcome(l, Feed(l, Wire(p)[..n]))
  {
    if n > 0 {
      var front, b := Wire(p)[..n - 1], Wire(p)[n - 1];
      FeedPart(l, p, n - 1);
      assert Wire(p)[..n] == front + [b];
      FeedSnoc(l, front, b);
      FeedInside(Feed(l, front), b);
    }
  }

  lemma FeedSnoc(l: Link, bytes: seq<bv8>, b: bv8)
    requires Valid(l)
    ensures Feed(l, bytes + [b]) == FeedByte(Feed(l, bytes), b)
  {
    assert (bytes + [b])[..|bytes|] == bytes;
  }

  lemma FeedInside(l: Link, b: bv8)
    requires Valid(l) && !l.halted && |Pending(l)| < PACKET_TOTAL_LENGTH - 1
    ensures Valid(FeedByte(l, b)) && SameOutcome(l, FeedByte(l, b))
    ensures Pending(FeedByte(l, b)) == Pending(l) + [b]
  {
    PhaseFromPending(l);
    PendingGrows(l, b);
  }

  // A whole frame, from a parser between frames.
  lemma FeedFrame(l: Link, p: Packet)
    requires Valid(l) && !l.halted && l.phase == AwaitLength && Sized(p)
    ensures Feed(l, Wire(p)) == HandlePacket(Completed(l, p))
  {
    var n := PACKET_TOTAL_LENGTH - 1;
    var l1 := Feed(l, Wire(p)[..n]);
    FeedPart(l, p, n);
    PhaseFromPending(l1);
    FrameCompletes(l1, Wire(p)[n]);
    assert Wire(p) == Wire(p)[..n] + [Wire(p)[n]];
    FromWireOfWire(p);
    assert Completed(l1, p) == Completed(l, p);
  }

  // ----- Streams of well-formed packets -----

  // The packets that are queued: all but the control packets.
  function DataPackets(ps: seq<Packet>): seq<Packet> {
    if ps == [] then []
    else
      var p := ps[|ps| - 1];
      DataPackets(ps[..|ps| - 1]) + (if IsControl(p) then [] else [p])
  }

  // The packet sent most recently after a stream, if `last` was before it.
  function LastSent(last: Packet, ps: seq<Packet>): Packet {
    if ps == [] then last
    else if IsControl(ps[|ps| - 1]) then LastSent(last, ps[..|ps| - 1])
    else Ack()
  }

  // The replies to a stream: an acknowledgement for every queued packet, the last packet again for
  // every retransmission request, nothing for an acknowledgement.
  function Replies(last: Packet, ps: seq<Packet>): seq<Packet> {
    if ps == [] then []
    else
      var p := ps[|ps| - 1];
      Replies(last, ps[..|ps| - 1]) +
      (if IsSingleByte(p, PACKET_RETX_DATA0) then [LastSent(last, ps[..|ps| - 1])]
       else if IsSingleByte(p, PACKET_ACK_DATA0) then []
       else [Ack()])
  }

  // The parser is between frames and running.
  predicate AtRest(l: Link) { Valid(l) && l.phase == AwaitLength && l.count == 0 && !l.halted }

  // What a well-formed packet does.
  predicate HandledAs(l: Link, p: Packet, l': Link) {
    && AtRest(l')
    && l'.queue == l.queue + (if IsControl(p) then [] else [p])
    && l'.last == (if IsControl(p) then l.last else Ack())
    && l'.sent == l.sent + (if IsSingleByte(p, PACKET_RETX_DATA0) then [l.last]
                            else if IsSingleByte(p, PACKET_ACK_DATA0) then [] else [Ack()])
  }

  lemma HandleWellFormed(l: Link, p: Packet)
    requires AtRest(l) && WellFormed(p) && (IsControl(p) || |l.queue| < QUEUE_CAPACITY)
    ensures HandledAs(l, p, HandlePacket(Completed(l, p)))
  {}

  // l' is l after the stream ps.
  predicate ParsedAs(l: Link, ps: seq<Packet>, l': Link) {
    && AtRest(l')
    && l'.queue == l.queue + DataPackets(ps)
    && l'.sent == l.sent + Replies(l.last, ps)
    && l'.last == LastSent(l.last, ps)
  }

  lemma StreamOneMore(last: Packet, ps: seq<Packet>, p: Packet)
    ensures DataPackets(ps + [p]) == DataPackets(ps) + (if IsControl(p) then [] else [p])
    ensures LastSent(last, ps + [p]) == (if IsControl(p) then LastSent(last, ps) else Ack())
    ensures Replies(last, ps + [p]) == Replies(last, ps) +
      (if IsSingleByte(p, PACKET_RETX_DATA0) then [LastSent(last, ps)]
       else if IsSingleByte(p, PACKET_ACK_DATA0) then [] else [Ack()])
  {
    assert (ps + [p])[..|ps|] == ps;
  }

  lemma ParsedOneMore(l: Link, ps: seq<Packet>, l1: Link, p: Packet, l2: Link)
    requires ParsedAs(l, ps, l1) && HandledAs(l1, p, l2)
    ensures ParsedAs(l, ps + [p], l2)
  {
    StreamOneMore(l.last, ps, p);
  }

  lemma FeedOneMore(l: Link, ps: seq<Packet>, p: Packet)
    requires Valid(l) && AllWellFormed(ps) && WellFormed(p) && AtRest(Feed(l, WireAll(ps)))
    ensures Feed(l, WireAll(ps + [p])) == HandlePacket(Completed(Feed(l, WireAll(ps)), p))
  {
    assert (ps + [p])[..|ps|] == ps;
    FeedOfConcat(l, WireAll(ps), Wire(p));
    FeedFrame(Feed(l, WireAll(ps)), p);
  }

  // Unless the queue overflows, the concatenation of well-formed packets is parsed into exactly its
  // data packets, in order, and leaves the parser between frames.
  lemma {:induction false} ParsesStream(l: Link, ps: seq<Packet>)
    requires AtRest(l) && AllWellFormed(ps) && |l.queue| + |DataPackets(ps)| <= QUEUE_CAPACITY
    ensures ParsedAs(l, ps, Feed(l, WireAll(ps)))
  {
    if ps != [] {
      var n := |ps| - 1;
      assert ps == ps[..n] + [ps[n]];
      var l1 := Feed(l, WireAll(ps[..n]));
      StreamOneMore(l.last, ps[..n], ps[n]);
      ParsesStream(l, ps[..n]);
      HandleWellFormed(l1, ps[n]);
      FeedOneMore(l, ps[..n], ps[n]);
      ParsedOneMore(l, ps[..n], l1, ps[n], HandlePacket(Completed(l1, ps[n])));
    }
  }
}
