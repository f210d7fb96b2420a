// fw-updater/index.ts: the receive handler of the serial port, and the handshake and transfer of main, where
// every await is a place at which main rests.
module Host {
  import opened Packets
  import opened LittleEndian
  import Image

  const FWINFO_DEVICE_ID_OFFSET: nat := 0x1b4

  // Where main rests. Transferring: so many bytes of the image have been sent.
  datatype Place =
    | AwaitUpdateResponse
    | AwaitDeviceIdRequest
    | AwaitLengthRequest
    | Transferring(byteWritten: nat)
    | AwaitResult
    | Succeeded
    | Failed

  datatype Host = Host(rx: seq<bv8>, packets: seq<Packet>, last: Packet, written: seq<Packet>, place: Place)

  predicate ValidHost(h: Host) { AllSized(h.packets) && AllSized(h.written) && Sized(h.last) }

  function Write(h: Host, p: Packet): Host { h.(written := h.written + [p], last := p) }

  // ----- The receive handler -----

  // What the handler does with one complete frame.
  function HandleFrame(h: Host, p: Packet): Host {
    if p.crc != PacketCrc(p) then Write(h, Retx())
    else if IsSingleByte(p, PACKET_RETX_DATA0) then Write(h, h.last)
    else if IsSingleByte(p, PACKET_ACK_DATA0) then h
    else Write(h.(packets := h.packets + [p]), Ack())
  }

  lemma HandleFrameValid(h: Host, p: Packet)
    requires ValidHost(h) && Sized(p)
    ensures ValidHost(HandleFrame(h, p)) && HandleFrame(h, p).rx == h.rx && HandleFrame(h, p).place == h.place
  {}

  // The loop over the complete frames in the buffer.
  function HandleFrames(h: Host): (h': Host)
    requires ValidHost(h)
    ensures ValidHost(h') && h'.place == h.place && |h'.rx| < PACKET_TOTAL_LENGTH
    decreases |h.rx|
  {
    if |h.rx| < PACKET_TOTAL_LENGTH then h
    else
      var p := FromWire(h.rx[..PACKET_TOTAL_LENGTH]);
      var consumed := h.(rx := h.rx[PACKET_TOTAL_LENGTH..]);
      HandleFrameValid(consumed, p);
      HandleFrames(HandleFrame(consumed, p))
  }

  // A 'data' event.
  function OnData(h: Host, data: seq<bv8>): (h': Host)
    requires ValidHost(h)
    ensures ValidHost(h') && h'.place == h.place && |h'.rx| < PACKET_TOTAL_LENGTH
  {
    HandleFrames(h.(rx := h.rx + data))
  }

  // The handler looks at the buffer only through its first complete frame.
  lemma HandleFrameIgnoresRx(h: Host, p: Packet, rx: seq<bv8>)
    ensures HandleFrame(h.(rx := rx), p) == HandleFrame(h, p).(rx := rx)
  {}

  // Bytes that come later do not change what is made of the frames that are complete already.
  lemma {:induction false} HandleFramesThenMore(h: Host, more: seq<bv8>)
    requires ValidHost(h)
    ensures HandleFrames(h.(rx := h.rx + more)) == OnData(HandleFrames(h), more)
    decreases |h.rx|
  {
    if |h.rx| >= PACKET_TOTAL_LENGTH {
      var p := FromWire(h.rx[..PACKET_TOTAL_LENGTH]);
      var rest := h.rx[PACKET_TOTAL_LENGTH..];
      HandleFrameValid(h.(rx := rest), p);
      assert (h.rx + more)[..PACKET_TOTAL_LENGTH] == h.rx[..PACKET_TOTAL_LENGTH];
      assert (h.rx + more)[PACKET_TOTAL_LENGTH..] == rest + more;
      HandleFrameIgnoresRx(h, p, rest);
      HandleFrameIgnoresRx(h, p, rest + more);
      HandleFramesThenMore(HandleFrame(h.(rx := rest), p), more);
    }
  }

  // Two 'data' events come to one.
  lemma DataEventsMerge(h: Host, a: seq<bv8>, b: seq<bv8>)
    requires ValidHost(h)
    ensures OnData(OnData(h, a), b) == OnData(h, a + b)
  {
    HandleFramesThenMore(h.(rx := h.rx + a), b);
    assert h.rx + (a + b) == (h.rx + a) + b;
  }

  // A 'data' event for each chunk.
  function OnEvents(h: Host, chunks: seq<seq<bv8>>): (h': Host)
    requires ValidHost(h)
    ensures ValidHost(h')
    ensures chunks != [] ==> |h'.rx| < PACKET_TOTAL_LENGTH
  {
    if chunks == [] then h else OnData(OnEvents(h, chunks[..|chunks| - 1]), chunks[|chunks| - 1])
  }

  // In any number of events.
  lemma {:induction false} EventsMerge(h: Host, chunks: seq<seq<bv8>>)
    requires ValidHost(h) && |h.rx| < PACKET_TOTAL_LENGTH
    ensures OnEvents(h, chunks) == OnData(h, Concat(chunks))
  {
    if chunks == [] {
      assert h.rx + [] == h.rx;
    } else {
      var n := |chunks| - 1;
      EventsMerge(h, chunks[..n]);
      DataEventsMerge(h, Concat(chunks[..n]), chunks[n]);
    }
  }

  // ----- main -----

  // fwImage[FWINFO_DEVICE_ID_OFFSET]; an undefined element becomes a zero byte.
  function DeviceIdByte(image: seq<bv8>): bv8 {
    if FWINFO_DEVICE_ID_OFFSET < |image| then image[FWINFO_DEVICE_ID_OFFSET] else 0
  }

  function DeviceIdPacket(image: seq<bv8>): (p: Packet)
    ensures WellFormed(p)
  {
    MakePacket(2, [BL_PACKET_DEVICE_ID_RES_DATA0, DeviceIdByte(image)])
  }

  function LengthPacket(image: seq<bv8>): (p: Packet)
    requires |image| < TWO_32
    ensures WellFormed(p)
  {
    MakePacket(5, [BL_PACKET_FW_LENGTH_RES_DATA0] + PackLe32(|image|))
  }

  // The size of the chunk that starts at k.
  function ChunkSizeAt(image: seq<bv8>, k: nat): (n: nat)
    requires k < |image|
    ensures 1 <= n <= PACKET_DATA_LENGTH && k + n <= |image|
  {
    Image.Min(PACKET_DATA_LENGTH, |image| - k)
  }

  function ChunkAt(image: seq<bv8>, k: nat): seq<bv8>
    requires k < |image|
  {
    image[k..k + ChunkSizeAt(image, k)]
  }

  function ChunkPacket(image: seq<bv8>, k: nat): (p: Packet)
    requires k < |image|
    ensures WellFormed(p)
  {
    MakePacket(ByteOf(ChunkSizeAt(image, k) - 1), ChunkAt(image, k))
  }

  // The head of the transfer loop.
  function LoopHead(image: seq<bv8>, byteWritten: nat): Place {
    if byteWritten < |image| then Transferring(byteWritten) else AwaitResult
  }

  function UpdateRequest(): (p: Packet)
    ensures WellFormed(p)
  {
    Single(BL_PACKET_FW_UPDATE_REQ_DATA0)
  }

  // main once it is synchronised: an empty buffer, and the update request sent.
  function Begin(h: Host): Host { Write(h.(rx := []), UpdateRequest()).(place := AwaitUpdateResponse) }

  // What waitForSingleBytePacket lets pass: it does not look at the filling.
  predicate StartsWithByte(p: Packet, byte: bv8) { Sized(p) && p.length == 1 && p.data[0] == byte }

  // main goes on with a packet, up to the next await.
  function Resumed(h: Host, image: seq<bv8>, p: Packet): Host
    requires |image| < TWO_32
    requires h.place.Transferring? ==> h.place.byteWritten < |image|
  {
    match h.place
    case AwaitUpdateResponse =>
      if StartsWithByte(p, BL_PACKET_FW_UPDATE_RES_DATA0) then h.(place := AwaitDeviceIdRequest) else h.(place := Failed)
    case AwaitDeviceIdRequest =>
      if StartsWithByte(p, BL_PACKET_DEVICE_ID_REQ_DATA0) then Write(h, DeviceIdPacket(image)).(place := AwaitLengthRequest)
      else h.(place := Failed)
    case AwaitLengthRequest =>
      if StartsWithByte(p, BL_PACKET_FW_LENGTH_REQ_DATA0) then Write(h, LengthPacket(image)).(place := LoopHead(image, 0))
      else h.(place := Failed)
    case Transferring(k) =>
      if StartsWithByte(p, BL_PACKET_READY_FOR_DATA_DATA0) then
        Write(h, ChunkPacket(image, k)).(place := LoopHead(image, k + ChunkSizeAt(image, k)))
      else h.(place := Failed)
    case AwaitResult =>
      if IsSingleByte(p, BL_PACKET_UPDATE_SUCCESSFUL_DATA0) then h.(place := Succeeded) else h.(place := Failed)
    case Succeeded => h
    case Failed => h
  }

  // main is woken with the oldest packet.
  function Advance(h: Host, image: seq<bv8>): Host
    requires |image| < TWO_32
    requires h.place.Transferring? ==> h.place.byteWritten < |image|
  {
    if h.packets == [] || h.place == Succeeded || h.place == Failed then h
    else Resumed(h.(packets := h.packets[1..]), image, h.packets[0])
  }

  // ----- What main goes on with -----

  // The places at which main waits for one particular byte, and that byte.
  predicate WaitsForByte(place: Place) {
    place == AwaitUpdateResponse || place == AwaitDeviceIdRequest || place == AwaitLengthRequest || place.Transferring?
  }

  function AwaitedByte(place: Place): bv8
    requires WaitsForByte(place)
  {
    match place
    case AwaitUpdateResponse => 0x37
    case AwaitDeviceIdRequest => 0x3c
    case AwaitLengthRequest => 0x42
    case _ => 0x48
  }

  // main gives up if and only if the packet does not have the length byte 1 and the byte awaited; it then writes
  // nothing. Otherwise it writes one packet, except after the response to its request, and goes on to the next place.
  lemma MainFailsExactlyWhen(h: Host, image: seq<bv8>)
    requires |image| < TWO_32 && (h.place.Transferring? ==> h.place.byteWritten < |image|)
    requires WaitsForByte(h.place) && h.packets != [] && Sized(h.packets[0])
    ensures var p, h' := h.packets[0], Advance(h, image);
      if p.length != 1 || p.data[0] != AwaitedByte(h.place)
      then h' == h.(packets := h.packets[1..], place := Failed)
      else
        && h'.place != Failed && h'.place != h.place && h'.packets == h.packets[1..]
        && if h.place == AwaitUpdateResponse then h'.written == h.written && h'.last == h.last
           else h'.written == h.written + [h'.last] && WellFormed(h'.last)
  {}

  // The verdict: success for UPDATE_SUCCESSFUL with its filling, failure for anything else.
  lemma MainSucceedsExactlyWhen(h: Host, image: seq<bv8>)
    requires |image| < TWO_32 && h.place == AwaitResult && h.packets != [] && Sized(h.packets[0])
    ensures var p := h.packets[0];
      Advance(h, image) == h.(packets := h.packets[1..],
                              place := if p.length == 1 && p.data == Fill([0x54]) then Succeeded else Failed)
  {
    var p := h.packets[0];
    assert IsSingleByte(p, 0x54) <==> p.length == 1 && p.data == Fill([0x54]);
  }
}
