// Frames on the wire: which bytes the CRC of a packet covers, which packets are recognised, and what the
// receivers make of a frame that has been damaged on the way.
module FrameChecks {
  import opened GaloisField
  import opened Crc8
  import P = CrcPolynomial
  import opened CrcDetection
  import opened Packets
  import opened Link
  import opened Framing
  import Host
  import opened UpdateMachine

  // ----- The CRC of a packet -----

  // A packet is well formed exactly if the frame that it is on the wire checks, from the length byte to the CRC.
  lemma WellFormedExactlyWhen(p: Packet)
    requires Sized(p)
    ensures WellFormed(p) <==> FrameChecks(Wire(p))
    ensures WellFormed(p) <==> Crc(Wire(p)) == 0
  {
    assert Wire(p)[..|Wire(p)| - 1] == [p.length] + p.data;
    ResidueOfFrame(Wire(p));
  }

  // ----- A known frame -----

  // The first bytes of the acknowledgement: length, data, and so many bytes of filling.
  function AckStart(n: nat): seq<bv8> { [0x01, 0x15] + seq(n, _ => 0xff) }

  lemma CrcSnoc(data: seq<bv8>, b: bv8)
    ensures Crc(data + [b]) == Steps(Add(Crc(data), b), 8)
  {
    assert (data + [b])[..|data|] == data;
  }

  lemma AckNext(n: nat, r: bv8, next: bv8)
    requires Crc(AckStart(n)) == r && Steps(Add(r, 0xff), 8) == next
    ensures Crc(AckStart(n + 1)) == next
  {
    CrcSnoc(AckStart(n), 0xff);
    assert AckStart(n + 1) == AckStart(n) + [0xff];
  }

  lemma AckBegins()
    ensures Crc(AckStart(0)) == 0x7e
  {
    CrcSnoc([], 0x01);
    CrcSnoc([0x01], 0x15);
    assert [] + [0x01] == [0x01] && [0x01] + [0x15] == AckStart(0);
  }

  // What one more byte of filling makes of the register.
  lemma Filling8()
    ensures Steps(Add(0x7e, 0xff), 8) == 0x8e
    ensures Steps(Add(0x8e, 0xff), 8) == 0x50
    ensures Steps(Add(0x50, 0xff), 8) == 0x44
    ensures Steps(Add(0x44, 0xff), 8) == 0x28
    ensures Steps(Add(0x28, 0xff), 8) == 0x2b
    ensures Steps(Add(0x2b, 0xff), 8) == 0x22
    ensures Steps(Add(0x22, 0xff), 8) == 0x1d
    ensures Steps(Add(0x1d, 0xff), 8) == 0xa0
  {}

  lemma Filling15()
    ensures Steps(Add(0xa0, 0xff), 8) == 0x9a
    ensures Steps(Add(0x9a, 0xff), 8) == 0x3c
    ensures Steps(Add(0x3c, 0xff), 8) == 0x47
    ensures Steps(Add(0x47, 0xff), 8) == 0x21
    ensures Steps(Add(0x21, 0xff), 8) == 0x14
    ensures Steps(Add(0x14, 0xff), 8) == 0x9f
    ensures Steps(Add(0x9f, 0xff), 8) == 0x27
  {}

  lemma AckAfter8()
    ensures Crc(AckStart(8)) == 0xa0
  {
    AckBegins();
    Filling8();
    AckNext(0, 0x7e, 0x8e);
    AckNext(1, 0x8e, 0x50);
    AckNext(2, 0x50, 0x44);
    AckNext(3, 0x44, 0x28);
    AckNext(4, 0x28, 0x2b);
    AckNext(5, 0x2b, 0x22);
    AckNext(6, 0x22, 0x1d);
    AckNext(7, 0x1d, 0xa0);
  }

  lemma AckAfter15()
    ensures Crc(AckStart(15)) == 0x27
  {
    AckAfter8();
    Filling15();
    AckNext(8, 0xa0, 0x9a);
    AckNext(9, 0x9a, 0x3c);
    AckNext(10, 0x3c, 0x47);
    AckNext(11, 0x47, 0x21);
    AckNext(12, 0x21, 0x14);
    AckNext(13, 0x14, 0x9f);
    AckNext(14, 0x9f, 0x27);
  }

  // The acknowledgement on the wire.
  lemma AckOnTheWire()
    ensures Wire(Ack()) == [0x01, 0x15, 0xff, 0xff, 0xff, 0xff, 0xff, 0xff, 0xff, 0xff, 0xff, 0xff, 0xff, 0xff, 0xff,
                            0xff, 0xff, 0x27]
  {
    AckAfter15();
    assert [Ack().length] + Ack().data == AckStart(15);
  }

  lemma SingleStarts(b: bv8)
    ensures Wire(Single(b))[..3] == [0x01, b, 0xff]
  {}

  // The other frames of one byte, up to their filling.
  lemma FramesStart()
    ensures Wire(Ack())[..3] == [0x01, 0x15, 0xff] && Wire(Retx())[..3] == [0x01, 0x19, 0xff]
    ensures Wire(Single(BL_PACKET_SYNC_OBSERVED_DATA0))[..3] == [0x01, 0x20, 0xff]
    ensures Wire(Host.UpdateRequest())[..3] == [0x01, 0x31, 0xff] && Wire(Res())[..3] == [0x01, 0x37, 0xff]
    ensures Wire(IdRequest())[..3] == [0x01, 0x3c, 0xff] && Wire(LengthRequest())[..3] == [0x01, 0x42, 0xff]
    ensures Wire(ReadyForData())[..3] == [0x01, 0x48, 0xff] && Wire(Success())[..3] == [0x01, 0x54, 0xff]
    ensures Wire(Nack())[..3] == [0x01, 0x59, 0xff]
  {
    SingleStarts(0x15);
    SingleStarts(0x19);
    SingleStarts(0x20);
    SingleStarts(0x31);
    SingleStarts(0x37);
    SingleStarts(0x3c);
    SingleStarts(0x42);
    SingleStarts(0x48);
    SingleStarts(0x54);
    SingleStarts(0x59);
  }

  // ----- Packets that are recognised -----

  // Each check lets pass exactly the packets that the other side builds.
  lemma SingleByteExactlyWhen(p: Packet, b: bv8)
    ensures WellFormed(p) && IsSingleByte(p, b) <==> p == Single(b)
  {
    if WellFormed(p) && IsSingleByte(p, b) {
      assert p.data == Fill([b]);
    }
  }

  function DeviceIdFrame(id: bv8): (p: Packet)
    ensures WellFormed(p)
  {
    MakePacket(2, [BL_PACKET_DEVICE_ID_RES_DATA0, id])
  }

  lemma DeviceIdFrameIs(id: bv8)
    ensures IsDeviceIdPacket(DeviceIdFrame(id)) && DeviceIdFrame(id).data[1] == id
  {}

  lemma DeviceIdExactlyWhen(p: Packet)
    ensures WellFormed(p) && IsDeviceIdPacket(p) <==> exists id: bv8 :: p == DeviceIdFrame(id)
    ensures WellFormed(p) && NamesThisDevice(p) <==> p == DeviceIdFrame(0x42)
  {
    if WellFormed(p) && IsDeviceIdPacket(p) {
      assert p.data == Fill([BL_PACKET_DEVICE_ID_RES_DATA0, p.data[1]]);
      assert p == DeviceIdFrame(p.data[1]);
    }
    forall id: bv8 | p == DeviceIdFrame(id) ensures IsDeviceIdPacket(p) && p.data[1] == id {
      DeviceIdFrameIs(id);
    }
  }

  function LengthFrame(b0: bv8, b1: bv8, b2: bv8, b3: bv8): (p: Packet)
    ensures WellFormed(p)
  {
    MakePacket(5, [BL_PACKET_FW_LENGTH_RES_DATA0, b0, b1, b2, b3])
  }

  lemma LengthFrameIs(b0: bv8, b1: bv8, b2: bv8, b3: bv8)
    ensures IsFwLengthPacket(LengthFrame(b0, b1, b2, b3))
  {}

  lemma LengthExactlyWhen(p: Packet)
    ensures WellFormed(p) && IsFwLengthPacket(p) <==> exists b0, b1, b2, b3 :: p == LengthFrame(b0, b1, b2, b3)
    ensures WellFormed(p) && IsFwLengthPacket(p) ==>
      AnnouncedLength(p) == p.data[1] as int + 0x100 * (p.data[2] as int) + 0x1_0000 * (p.data[3] as int) + 0x100_0000 * (p.data[4] as int)
  {
    if WellFormed(p) && IsFwLengthPacket(p) {
      assert p.data == Fill([BL_PACKET_FW_LENGTH_RES_DATA0, p.data[1], p.data[2], p.data[3], p.data[4]]);
      assert p == LengthFrame(p.data[1], p.data[2], p.data[3], p.data[4]);
    }
    forall b0, b1, b2, b3 | p == LengthFrame(b0, b1, b2, b3) ensures IsFwLengthPacket(p) {
      LengthFrameIs(b0, b1, b2, b3);
    }
  }

  // ----- Damaged frames -----

  // The frame of p has been hit by the error e.
  predicate HitBy(p: Packet, received: seq<bv8>, e: P.Bits)
    requires Sized(p)
  {
    |received| == PACKET_TOTAL_LENGTH && |e| == 8 * PACKET_TOTAL_LENGTH && P.MessageBits(received) == Flipped(P.MessageBits(Wire(p)), e)
  }

  // What arrives is a packet with a wrong CRC, unless the error is one that CRC-8 does not see.
  lemma DamagedExactlyWhen(p: Packet, received: seq<bv8>, e: P.Bits)
    requires WellFormed(p) && HitBy(p, received, e)
    ensures WellFormed(FromWire(received)) <==> P.Register(0, e) == 0
    ensures IsDetectable(e) ==> !WellFormed(FromWire(received))
  {
    WellFormedExactlyWhen(p);
    WellFormedExactlyWhen(FromWire(received));
    UndetectedExactlyWhen(Wire(p), received, e);
    if IsDetectable(e) {
      CorruptedFrameFails(Wire(p), received, e);
    }
  }

  // The device does not queue a frame with such an error, and asks for it again.
  lemma DeviceAsksAgain(l: Link, p: Packet, received: seq<bv8>, e: P.Bits)
    requires AtRest(l) && WellFormed(p) && HitBy(p, received, e) && IsDetectable(e)
    ensures var l' := Feed(l, received); AtRest(l') && l'.queue == l.queue && l'.sent == l.sent + [Retx()]
  {
    DamagedExactlyWhen(p, received, e);
    FeedFrame(l, FromWire(received));
  }

  // Neither does the updater.
  lemma UpdaterAsksAgain(h: Host.Host, p: Packet, received: seq<bv8>, e: P.Bits)
    requires Host.ValidHost(h) && h.rx == [] && WellFormed(p) && HitBy(p, received, e) && IsDetectable(e)
    ensures Host.OnData(h, received) == h.(written := h.written + [Retx()], last := Retx())
  {
    DamagedExactlyWhen(p, received, e);
    UpdaterGetsFrame(h, received);
  }

  lemma UpdaterGetsFrame(h: Host.Host, received: seq<bv8>)
    requires Host.ValidHost(h) && h.rx == [] && |received| == PACKET_TOTAL_LENGTH
    ensures Host.OnData(h, received) == Host.HandleFrame(h, FromWire(received))
  {
    var whole := h.(rx := received);
    assert h.rx + received == received;
    assert received[..PACKET_TOTAL_LENGTH] == received && received[PACKET_TOTAL_LENGTH..] == [];
    assert whole.(rx := []) == h;
    Host.HandleFrameValid(h, FromWire(received));
    assert Host.HandleFrames(whole) == Host.HandleFrames(Host.HandleFrame(h, FromWire(received)));
  }

  // ----- The full packet ring -----

  // The device stops at its breakpoint exactly when a well-formed packet that is no control packet comes while the
  // packet ring is full; it has then neither queued nor acknowledged it.
  lemma FullRingHaltsExactlyWhen(l: Link, p: Packet)
    requires AtRest(l) && Sized(p)
    ensures var l' := Feed(l, Wire(p));
      && (l'.halted <==> WellFormed(p) && !IsControl(p) && |l.queue| == 7)
      && (l'.halted ==> l'.queue == l.queue && l'.sent == l.sent)
  {
    FeedFrame(l, p);
  }
}
