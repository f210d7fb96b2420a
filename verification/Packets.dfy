// The 18-byte packets of comms.h and index.ts.
module Packets {
  import opened Crc8

  const PACKET_DATA_LENGTH: nat := 16
  const PACKET_TOTAL_LENGTH: nat := 18

  const PACKET_RETX_DATA0: bv8 := 0x19
  const PACKET_ACK_DATA0: bv8 := 0x15
  const BL_PACKET_SYNC_OBSERVED_DATA0: bv8 := 0x20
  const BL_PACKET_FW_UPDATE_REQ_DATA0: bv8 := 0x31
  const BL_PACKET_FW_UPDATE_RES_DATA0: bv8 := 0x37
  const BL_PACKET_DEVICE_ID_REQ_DATA0: bv8 := 0x3c
  const BL_PACKET_DEVICE_ID_RES_DATA0: bv8 := 0x3f
  const BL_PACKET_FW_LENGTH_REQ_DATA0: bv8 := 0x42
  const BL_PACKET_FW_LENGTH_RES_DATA0: bv8 := 0x45
  const BL_PACKET_READY_FOR_DATA_DATA0: bv8 := 0x48
  const BL_PACKET_UPDATE_SUCCESSFUL_DATA0: bv8 := 0x54
  const BL_PACKET_NACK_DATA0: bv8 := 0x59

  // The device id as a byte of a packet.
  const DEVICE_ID_BYTE: bv8 := 0x42

  datatype Packet = Packet(length: bv8, data: seq<bv8>, crc: bv8)

  predicate Sized(p: Packet) { |p.data| == PACKET_DATA_LENGTH }

  function PacketCrc(p: Packet): bv8 { Crc([p.length] + p.data) }

  // The packet carries the CRC of its other bytes.
  predicate WellFormed(p: Packet) { Sized(p) && p.crc == PacketCrc(p) }

  predicate IsSingleByte(p: Packet, b: bv8) {
    && p.length == 1
    && Sized(p) && p.data[0] == b
    && forall i :: 1 <= i < PACKET_DATA_LENGTH ==> p.data[i] == 0xff
  }

  function Fill(bytes: seq<bv8>): (data: seq<bv8>)
    requires |bytes| <= PACKET_DATA_LENGTH
    ensures |data| == PACKET_DATA_LENGTH
  {
    bytes + seq(PACKET_DATA_LENGTH - |bytes|, _ => 0xff)
  }

  // A packet with the given length byte and payload, filled up with 0xff.
  function MakePacket(length: bv8, bytes: seq<bv8>): (p: Packet)
    requires |bytes| <= PACKET_DATA_LENGTH
    ensures WellFormed(p)
  {
    var p := Packet(length, Fill(bytes), 0);
    p.(crc := PacketCrc(p))
  }

  function Single(b: bv8): (p: Packet)
    ensures WellFormed(p) && IsSingleByte(p, b)
  {
    MakePacket(1, [b])
  }

  function Ack(): Packet { Single(PACKET_ACK_DATA0) }
  function Retx(): Packet { Single(PACKET_RETX_DATA0) }
  function Res(): Packet { Single(BL_PACKET_FW_UPDATE_RES_DATA0) }
  function IdRequest(): Packet { Single(BL_PACKET_DEVICE_ID_REQ_DATA0) }
  function LengthRequest(): Packet { Single(BL_PACKET_FW_LENGTH_REQ_DATA0) }
  function ReadyForData(): Packet { Single(BL_PACKET_READY_FOR_DATA_DATA0) }
  function Success(): Packet { Single(BL_PACKET_UPDATE_SUCCESSFUL_DATA0) }
  function Nack(): Packet { Single(BL_PACKET_NACK_DATA0) }

  predicate IsControl(p: Packet) { IsSingleByte(p, PACKET_RETX_DATA0) || IsSingleByte(p, PACKET_ACK_DATA0) }

  // ----- The wire -----

  function Wire(p: Packet): (bytes: seq<bv8>)
    requires Sized(p)
    ensures |bytes| == PACKET_TOTAL_LENGTH
  {
    [p.length] + p.data + [p.crc]
  }

  function FromWire(bytes: seq<bv8>): (p: Packet)
    requires |bytes| == PACKET_TOTAL_LENGTH
    ensures Sized(p) && Wire(p) == bytes
  {
    var p := Packet(bytes[0], bytes[1..17], bytes[17]);
    assert Wire(p) == bytes;
    p
  }

  lemma FromWireOfWire(p: Packet)
    requires Sized(p)
    ensures FromWire(Wire(p)) == p
  {
    assert Wire(p)[1..17] == p.data;
  }

  predicate AllSized(ps: seq<Packet>) { forall i :: 0 <= i < |ps| ==> Sized(ps[i]) }

  predicate AllWellFormed(ps: seq<Packet>) { forall i :: 0 <= i < |ps| ==> WellFormed(ps[i]) }

  // A sequence of packets on the wire.
  function WireAll(ps: seq<Packet>): (bytes: seq<bv8>)
    requires AllSized(ps)
    ensures |bytes| == PACKET_TOTAL_LENGTH * |ps|
  {
    if ps == [] then [] else WireAll(ps[..|ps| - 1]) + Wire(ps[|ps| - 1])
  }

  lemma {:induction false} WireOfConcat(a: seq<Packet>, b: seq<Packet>)
    requires AllSized(a) && AllSized(b)
    ensures WireAll(a + b) == WireAll(a) + WireAll(b)
  {
    if b == [] {
      assert a + b == a;
    } else {
      var n := |b| - 1;
      WireOfConcat(a, b[..n]);
      assert (a + b)[..|a + b| - 1] == a + b[..n];
    }
  }

  // A byte stream in pieces.
  function Concat(chunks: seq<seq<bv8>>): seq<bv8> {
    if chunks == [] then [] else Concat(chunks[..|chunks| - 1]) + chunks[|chunks| - 1]
  }
}
