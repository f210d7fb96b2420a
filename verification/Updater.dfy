// index.ts in the form it runs: variables of the script that the receive handler and main update.
module Updater {
  import opened Crc8
  import opened Packets
  import opened LittleEndian
  import Image
  import opened Host

  // Packet.constructor without a CRC, and toBuffer.
  method NewPacket(length: bv8, payload: seq<bv8>) returns (p: Packet)
    requires |payload| <= PACKET_DATA_LENGTH
    ensures p == MakePacket(length, payload)
  {
    var data := payload + seq(PACKET_DATA_LENGTH - |payload|, _ => 0xff);
    var crc := HostCrc8([length] + data);
    ByteFromWide(crc, PacketCrc(Packet(length, data, 0)));
    p := Packet(length, data, crc as bv8);
  }

  lemma ByteFromWide(wide: bv16, byte: bv8)
    requires wide == byte as bv16
    ensures wide < 0x100 && wide as bv8 == byte
  {}

  lemma WideEqual(a: bv8, b: bv8)
    ensures a as bv16 == b as bv16 <==> a == b
  {}

  method CheckSingleBytePacket(p: Packet, byte: bv8) returns (matches: bool)
    requires Sized(p)
    ensures matches == IsSingleByte(p, byte)
  {
    if p.length != 1 {
      return false;
    }
    if p.data[0] != byte {
      return false;
    }
    for i := 1 to PACKET_DATA_LENGTH
      invariant forall j :: 1 <= j < i ==> p.data[j] == 0xff
    {
      if p.data[i] != 0xff {
        return false;
      }
    }
    matches := true;
  }

  method CrcMatches(packet: Packet) returns (matches: bool)
    requires Sized(packet)
    ensures matches == (packet.crc == PacketCrc(packet))
  {
    var computedCrc := HostCrc8([packet.length] + packet.data);
    WideEqual(packet.crc, PacketCrc(packet));
    matches := packet.crc as bv16 == computedCrc;
  }

  class Updater {
    var rxBuffer: seq<bv8>
    var packets: seq<Packet>
    var lastPacket: seq<bv8>
    var place: Place
    // Everything written to the serial port, and the latest of it.
    ghost var written: seq<Packet>
    ghost var last: Packet

    ghost function Value(): Host
      reads this
    {
      Host(rxBuffer, packets, last, written, place)
    }

    ghost predicate Ready()
      reads this
    {
      ValidHost(Value()) && lastPacket == Wire(last)
    }

    // lastPacket starts out as the acknowledgement.
    constructor ()
      ensures Ready() && Value() == Host([], [], Ack(), [], AwaitUpdateResponse)
    {
      rxBuffer := [];
      packets := [];
      place := AwaitUpdateResponse;
      written := [];
      last := Ack();
      lastPacket := Wire(Ack());
    }

    method WritePacket(packet: seq<bv8>, ghost p: Packet)
      requires Ready() && Sized(p) && packet == Wire(p)
      modifies this`written, this`last, this`lastPacket
      ensures Ready() && Value() == Write(old(Value()), p)
    {
      written := written + [p];
      lastPacket := packet;
      last := p;
    }

    // Like slice, takes the whole buffer if it is shorter.
    method ConsumeFromBuffer(n: nat) returns (consumed: seq<bv8>)
      modifies this`rxBuffer
      ensures consumed + rxBuffer == old(rxBuffer) && |consumed| == Image.Min(n, |old(rxBuffer)|)
    {
      var end := Image.Min(n, |rxBuffer|);
      consumed := rxBuffer[..end];
      rxBuffer := rxBuffer[end..];
    }

    method HandlePacket(packet: Packet)
      requires Ready() && Sized(packet)
      modifies this`packets, this`written, this`last, this`lastPacket
      ensures Ready() && Value() == HandleFrame(old(Value()), packet)
    {
      HandleFrameValid(Value(), packet);
      var intact := CrcMatches(packet);
      if !intact {
        WritePacket(Wire(Retx()), Retx());
        return;
      }
      var isRetx := CheckSingleBytePacket(packet, PACKET_RETX_DATA0);
      if isRetx {
        WritePacket(lastPacket, last);
        return;
      }
      var isAck := CheckSingleBytePacket(packet, PACKET_ACK_DATA0);
      if isAck {
        return;
      }
      packets := packets + [packet];
      WritePacket(Wire(Ack()), Ack());
    }

    // The frame at the front of the buffer, parsed and handled.
    method TakeFrame()
      requires Ready() && |rxBuffer| >= PACKET_TOTAL_LENGTH
      modifies this
      ensures Ready() && HandleFrames(Value()) == HandleFrames(old(Value()))
      ensures rxBuffer == old(rxBuffer)[PACKET_TOTAL_LENGTH..] && place == old(place)
    {
      var raw := ConsumeFromBuffer(PACKET_TOTAL_LENGTH);
      var packet := Packet(raw[0], raw[1..17], raw[17]);
      assert raw == old(rxBuffer)[..PACKET_TOTAL_LENGTH];
      FromWireOfWire(packet);
      assert Wire(packet) == raw;
      HandlePacket(packet);
    }

    // uart.on('data')
    method ReceiveData(data: seq<bv8>)
      requires Ready()
      modifies this
      ensures Ready() && Value() == OnData(old(Value()), data)
    {
      ghost var outcome := OnData(Value(), data);
      rxBuffer := rxBuffer + data;
      while |rxBuffer| >= PACKET_TOTAL_LENGTH
        invariant Ready() && HandleFrames(Value()) == outcome
        decreases |rxBuffer|
      {
        TakeFrame();
      }
    }

    method StartUpdate()
      requires Ready()
      modifies this
      ensures Ready() && Value() == Begin(old(Value()))
    {
      rxBuffer := [];
      var request := NewPacket(1, [BL_PACKET_FW_UPDATE_REQ_DATA0]);
      WritePacket(Wire(request), request);
      place := AwaitUpdateResponse;
    }

    // One turn of the transfer loop, after READY_FOR_DATA.
    method SendChunk(image: seq<bv8>, byteWritten: nat)
      requires Ready() && byteWritten < |image|
      modifies this
      ensures Ready()
      ensures Value() == Write(old(Value()), ChunkPacket(image, byteWritten)).(
                           place := LoopHead(image, byteWritten + ChunkSizeAt(image, byteWritten)))
    {
      var chunkSize := Image.Min(PACKET_DATA_LENGTH, |image| - byteWritten);
      var dataChunk := image[byteWritten..byteWritten + chunkSize];
      var dataPacket := NewPacket(ByteOf(chunkSize - 1), dataChunk);
      WritePacket(Wire(dataPacket), dataPacket);
      place := if byteWritten + chunkSize < |image| then Transferring(byteWritten + chunkSize) else AwaitResult;
    }

    // Packets that main waits for.
    method MatchesFirstByte(packet: Packet, byte: bv8) returns (matches: bool)
      requires Sized(packet)
      ensures matches == StartsWithByte(packet, byte)
    {
      matches := packet.length == 1 && packet.data[0] == byte;
    }

    method SendDeviceId(image: seq<bv8>)
      requires Ready()
      modifies this
      ensures Ready() && Value() == Write(old(Value()), DeviceIdPacket(image)).(place := AwaitLengthRequest)
    {
      var response := NewPacket(2, [BL_PACKET_DEVICE_ID_RES_DATA0, DeviceIdByte(image)]);
      WritePacket(Wire(response), response);
      place := AwaitLengthRequest;
    }

    method SendLength(image: seq<bv8>)
      requires Ready() && |image| < TWO_32
      modifies this
      ensures Ready() && Value() == Write(old(Value()), LengthPacket(image)).(place := LoopHead(image, 0))
    {
      var response := NewPacket(5, [BL_PACKET_FW_LENGTH_RES_DATA0] + PackLe32(|image|));
      WritePacket(Wire(response), response);
      place := if 0 < |image| then Transferring(0) else AwaitResult;
    }

    method Resume(image: seq<bv8>, packet: Packet)
      requires Ready() && |image| < TWO_32 && Sized(packet)
      requires place.Transferring? ==> place.byteWritten < |image|
      modifies this
      ensures Ready() && Value() == Resumed(old(Value()), image, packet)
    {
      match place
      case AwaitUpdateResponse =>
        var matches := MatchesFirstByte(packet, BL_PACKET_FW_UPDATE_RES_DATA0);
        place := if matches then AwaitDeviceIdRequest else Failed;
      case AwaitDeviceIdRequest =>
        var matches := MatchesFirstByte(packet, BL_PACKET_DEVICE_ID_REQ_DATA0);
        if matches {
          SendDeviceId(image);
        } else {
          place := Failed;
        }
      case AwaitLengthRequest =>
        var matches := MatchesFirstByte(packet, BL_PACKET_FW_LENGTH_REQ_DATA0);
        if matches {
          SendLength(image);
        } else {
          place := Failed;
        }
      case Transferring(k) =>
        var matches := MatchesFirstByte(packet, BL_PACKET_READY_FOR_DATA_DATA0);
        if matches {
          SendChunk(image, k);
        } else {
          place := Failed;
        }
      case AwaitResult =>
        var succeeded := CheckSingleBytePacket(packet, BL_PACKET_UPDATE_SUCCESSFUL_DATA0);
        place := if succeeded then Succeeded else Failed;
      case Succeeded =>
      case Failed =>
    }

    // main is woken: it takes the oldest packet, if there is one, and runs up to the next await.
    method Wake(image: seq<bv8>)
      requires Ready() && |image| < TWO_32
      requires place.Transferring? ==> place.byteWritten < |image|
      modifies this
      ensures Ready() && Value() == Advance(old(Value()), image)
    {
      if |packets| < 1 || place == Succeeded || place == Failed {
        return;
      }
      var packet := packets[0];
      packets := packets[1..];
      Resume(image, packet);
    }
  }
}
