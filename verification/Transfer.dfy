// The frames of a transfer: what the updater answers, what the bootloader asks, and which images the two
// can transfer at all.
module Transfer {
  import opened Packets
  import opened LittleEndian
  import Image
  import opened Host
  import opened UpdateMachine

  function ChunkCount(image: seq<bv8>): nat { (|image| + 15) / 16 }

  // The update request, the device id, the length, and the chunks.
  function AnswerCount(image: seq<bv8>): nat { 3 + ChunkCount(image) }

  function Answer(image: seq<bv8>, n: nat): (p: Packet)
    requires |image| < TWO_32 && n < AnswerCount(image)
    ensures WellFormed(p)
  {
    if n == 0 then UpdateRequest()
    else if n == 1 then DeviceIdPacket(image)
    else if n == 2 then LengthPacket(image)
    else ChunkPacket(image, 16 * (n - 3))
  }

  // The bytes of the image that the first n answers carry.
  function Carried(image: seq<bv8>, n: nat): (k: nat)
    ensures k <= |image|
  {
    if n <= 3 then 0 else Image.Min(16 * (n - 3), |image|)
  }

  // Where main rests when it has given answer n.
  function PlaceAfter(image: seq<bv8>, n: nat): Place {
    if n == 0 then AwaitUpdateResponse
    else if n == 1 then AwaitLengthRequest
    else LoopHead(image, Carried(image, n + 1))
  }

  // What the device says on its verdict.
  function Report(verdict: Verdict): seq<Packet> {
    match verdict
    case Genuine => [Success()]
    case Rejected => [Nack()]
    case Endless => []
  }

  // What the device says between taking answer n - 1 and waiting for answer n.
  function Questions(image: seq<bv8>, n: nat, verdict: Verdict): seq<Packet> {
    if n == 0 then []
    else if n == 1 then [Res(), IdRequest()]
    else if n == 2 then [LengthRequest()]
    else if n < AnswerCount(image) then [ReadyForData()]
    else Report(verdict)
  }

  // ----- Which images can be transferred -----

  predicate LooksLikeControl(chunk: seq<bv8>) {
    |chunk| == 2 && chunk[1] == 0xff && (chunk[0] == PACKET_ACK_DATA0 || chunk[0] == PACKET_RETX_DATA0)
  }

  // The chunk that the image ends with.
  function LastChunkStart(image: seq<bv8>): nat
    requires image != []
  {
    16 * (ChunkCount(image) - 1)
  }

  // The device id is that of this device, the length fits, and neither is the last chunk a single byte
  // nor can it be taken for ACK or RETX.
  predicate Transferable(image: seq<bv8>) {
    && 0 < |image| <= Image.MAX_FW_LENGTH
    && DeviceIdByte(image) == DEVICE_ID_BYTE
    && |image| % 16 != 1
    && !LooksLikeControl(image[LastChunkStart(image)..])
  }

  lemma MaskSmall(b: bv8)
    requires b < 0x10
    ensures b & 0x0f == b
  {}

  lemma ByteOfSmall(n: nat)
    requires n < 0x10
    ensures ByteOf(n) < 0x10 && (n > 0 ==> ByteOf(n) > 0) && (n != 1 ==> ByteOf(n) != 1)
  {}

  // The device reads the size of a chunk back from the length byte.
  lemma ChunkSizeReadBack(n: nat)
    requires 1 <= n <= 16
    ensures ChunkSize(ByteOf(n - 1)) == n
  {
    ByteOfSmall(n - 1);
    MaskSmall(ByteOf(n - 1));
  }

  lemma ChunkPacketData(image: seq<bv8>, k: nat)
    requires k < |image|
    ensures ChunkOf(ChunkPacket(image, k)) == ChunkAt(image, k)
    ensures IsChunk(ChunkPacket(image, k)) <==> ChunkSizeAt(image, k) > 1
  {
    var n := ChunkSizeAt(image, k);
    ChunkSizeReadBack(n);
    ByteOfSmall(n - 1);
  }

  lemma ControlChunk(image: seq<bv8>, k: nat)
    requires k < |image|
    ensures IsControl(ChunkPacket(image, k)) <==> LooksLikeControl(ChunkAt(image, k))
  {
    var n := ChunkSizeAt(image, k);
    var p := ChunkPacket(image, k);
    ByteOfSmall(n - 1);
    if n == 2 {
      assert p.data[0] == image[k] && p.data[1] == image[k + 1];
    } else {
      assert p.length != 1;
    }
  }

  lemma LastChunkIs(image: seq<bv8>, j: nat)
    requires j < ChunkCount(image)
    ensures 16 * j < |image|
    ensures ChunkSizeAt(image, 16 * j) == if j == ChunkCount(image) - 1 then |image| - 16 * j else 16
    ensures j == ChunkCount(image) - 1 ==> 16 * j == LastChunkStart(image) && ChunkAt(image, 16 * j) == image[LastChunkStart(image)..]
    ensures ChunkSizeAt(image, 16 * j) == 1 <==> j == ChunkCount(image) - 1 && |image| % 16 == 1
  {}

  // An image is transferable exactly when the device takes every answer for what it is.
  predicate TakenForWhatItIs(image: seq<bv8>, n: nat)
    requires |image| < TWO_32 && n < AnswerCount(image)
  {
    var p := Answer(image, n);
    && !IsControl(p)
    && (n == 0 ==> IsUpdateRequest(p))
    && (n == 1 ==> NamesThisDevice(p))
    && (n == 2 ==> AnnouncesFittingLength(p) && AnnouncedLength(p) == |image|)
    && (n >= 3 ==> IsChunk(p) && ChunkOf(p) == ChunkAt(image, 16 * (n - 3)))
  }

  lemma RequestAnswer(image: seq<bv8>)
    requires |image| < TWO_32
    ensures TakenForWhatItIs(image, 0)
  {}

  lemma DeviceIdAnswer(image: seq<bv8>)
    requires |image| < TWO_32
    ensures TakenForWhatItIs(image, 1) <==> DeviceIdByte(image) == DEVICE_ID_BYTE
    ensures !IsControl(Answer(image, 1))
  {}

  lemma LengthAnswer(image: seq<bv8>)
    requires |image| < TWO_32
    ensures TakenForWhatItIs(image, 2) <==> |image| <= Image.MAX_FW_LENGTH
    ensures !IsControl(Answer(image, 2))
    ensures IsFwLengthPacket(Answer(image, 2)) && AnnouncedLength(Answer(image, 2)) == |image|
  {}

  lemma ChunkAnswer(image: seq<bv8>, n: nat)
    requires |image| < TWO_32 && 3 <= n < AnswerCount(image)
    ensures TakenForWhatItIs(image, n) <==>
      !(n == AnswerCount(image) - 1 && (|image| % 16 == 1 || LooksLikeControl(image[LastChunkStart(image)..])))
  {
    LastChunkIs(image, n - 3);
    ChunkPacketData(image, 16 * (n - 3));
    ControlChunk(image, 16 * (n - 3));
  }

  lemma TransferableExactlyWhen(image: seq<bv8>)
    requires 0 < |image| < TWO_32
    ensures Transferable(image) <==> forall n :: 0 <= n < AnswerCount(image) ==> TakenForWhatItIs(image, n)
  {
    RequestAnswer(image);
    DeviceIdAnswer(image);
    LengthAnswer(image);
    var last := AnswerCount(image) - 1;
    ChunkAnswer(image, last);
    if Transferable(image) {
      forall n | 0 <= n < AnswerCount(image) ensures TakenForWhatItIs(image, n) {
        if n >= 3 {
          ChunkAnswer(image, n);
        }
      }
    } else {
      assert TakenForWhatItIs(image, last) ==> !(TakenForWhatItIs(image, 1) && TakenForWhatItIs(image, 2));
    }
  }

  // The same condition byte by byte.
  lemma TransferableMeans(image: seq<bv8>)
    ensures Transferable(image) <==>
      && 0x1b4 < |image| <= 0x38000 && image[0x1b4] == 0x42 && |image| % 16 != 1
      && !(|image| % 16 == 2 && image[|image| - 1] == 0xff && (image[|image| - 2] == 0x15 || image[|image| - 2] == 0x19))
  {
    if image != [] {
      LastChunkIs(image, ChunkCount(image) - 1);
    }
  }
}
