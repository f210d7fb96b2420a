// The packet engine of comms.c as a value: the byte-at-a-time parser, the packet queue, the replies.
module Link {
  import opened Packets

  // One slot of the 8-slot packet ring stays free.
  const QUEUE_CAPACITY: nat := 7

  datatype Phase = AwaitLength | AwaitData | AwaitCrc

  datatype Link = Link(phase: Phase, count: nat, temp: Packet, queue: seq<Packet>,
                       sent: seq<Packet>, last: Packet, halted: bool)

  // The static variables before the first byte.
  function EmptyPacket(): Packet { Packet(0, seq(PACKET_DATA_LENGTH, _ => 0), 0) }

  function InitialLink(): Link { Link(AwaitLength, 0, EmptyPacket(), [], [], EmptyPacket(), false) }

  predicate Valid(l: Link) {
    && Sized(l.temp) && Sized(l.last) && AllSized(l.sent)
    && l.count < PACKET_DATA_LENGTH && (l.phase != AwaitData ==> l.count == 0)
    && |l.queue| <= QUEUE_CAPACITY && AllSized(l.queue)
  }

  function Send(l: Link, p: Packet): Link { l.(sent := l.sent + [p], last := p) }

  // What happens when the CRC byte completes the packet in `temp`. A full queue is a breakpoint.
  function HandlePacket(l: Link): Link {
    var p := l.temp;
    if p.crc == PacketCrc(p) then
      if IsSingleByte(p, PACKET_RETX_DATA0) then Send(l.(phase := AwaitLength), l.last)
      else if IsSingleByte(p, PACKET_ACK_DATA0) then l.(phase := AwaitLength)
      else if |l.queue| == QUEUE_CAPACITY then l.(halted := true)
      else Send(l.(phase := AwaitLength, queue := l.queue + [p]), Ack())
    else Send(l.(phase := AwaitLength), Retx())
  }

  function FeedByte(l: Link, b: bv8): Link
    requires Valid(l)
  {
    if l.halted then l
    else
      match l.phase
      case AwaitLength => l.(temp := l.temp.(length := b), phase := AwaitData)
      case AwaitData =>
        var filled := l.temp.(data := l.temp.data[l.count := b]);
        if l.count + 1 >= PACKET_DATA_LENGTH then l.(temp := filled, count := 0, phase := AwaitCrc)
        else l.(temp := filled, count := l.count + 1)
      case AwaitCrc => HandlePacket(l.(temp := l.temp.(crc := b)))
  }

  lemma FeedByteValid(l: Link, b: bv8)
    requires Valid(l)
    ensures Valid(FeedByte(l, b))
  {}

  function Feed(l: Link, bytes: seq<bv8>): (l': Link)
    requires Valid(l)
    ensures Valid(l')
  {
    if bytes == [] then l
    else
      FeedByteValid(Feed(l, bytes[..|bytes| - 1]), bytes[|bytes| - 1]);
      FeedByte(Feed(l, bytes[..|bytes| - 1]), bytes[|bytes| - 1])
  }

  lemma HandleKeepsWellFormed(l: Link)
    requires Valid(l) && AllWellFormed(l.queue)
    ensures AllWellFormed(HandlePacket(l).queue)
  {}

  // Only packets that carry their CRC are ever queued.
  lemma {:induction false} FeedKeepsWellFormed(l: Link, bytes: seq<bv8>)
    requires Valid(l) && AllWellFormed(l.queue)
    ensures AllWellFormed(Feed(l, bytes).queue)
  {
    if bytes != [] {
      var l1, b := Feed(l, bytes[..|bytes| - 1]), bytes[|bytes| - 1];
      FeedKeepsWellFormed(l, bytes[..|bytes| - 1]);
      if l1.phase == AwaitCrc {
        HandleKeepsWellFormed(l1.(temp := l1.temp.(crc := b)));
      }
    }
  }

  lemma {:induction false} FeedHalted(l: Link, bytes: seq<bv8>)
    requires Valid(l) && l.halted
    ensures Feed(l, bytes) == l
  {
    if bytes != [] {
      FeedHalted(l, bytes[..|bytes| - 1]);
    }
  }

  // ----- Framing -----

  lemma {:induction false} FeedOfConcat(l: Link, a: seq<bv8>, b: seq<bv8>)
    requires Valid(l)
    ensures Feed(l, a + b) == Feed(Feed(l, a), b)
  {
    if b == [] {
      assert a + b == a;
    } else {
      var n := |b| - 1;
      FeedOfConcat(l, a, b[..n]);
      assert (a + b)[..|a + b| - 1] == a + b[..n];
    }
  }

  // A call of comms_update for each chunk.
  function FeedChunks(l: Link, chunks: seq<seq<bv8>>): (l': Link)
    requires Valid(l)
    ensures Valid(l')
  {
    if chunks == [] then l else Feed(FeedChunks(l, chunks[..|chunks| - 1]), chunks[|chunks| - 1])
  }

  // However a byte stream is split into calls, the outcome is that of one call.
  lemma {:induction false} SplittingIsInvisible(l: Link, chunks: seq<seq<bv8>>)
    requires Valid(l)
    ensures FeedChunks(l, chunks) == Feed(l, Concat(chunks))
  {
    if chunks != [] {
      var n := |chunks| - 1;
      SplittingIsInvisible(l, chunks[..n]);
      FeedOfConcat(l, Concat(chunks[..n]), chunks[n]);
    }
  }
}
