// comms.c in the form it runs: static parser variables updated byte by byte, and an 8-slot packet ring.
module Comms {
  import opened Crc8
  import opened Packets
  import opened Link
  import opened RingBuffer

  const PACKET_BUFFER_LENGTH: nat := 8

  lemma SlotsArePow2()
    ensures IsPow2(PACKET_BUFFER_LENGTH)
  {
    assert Pow2(3) == PACKET_BUFFER_LENGTH;
  }

  method IsSingleBytePacket(p: Packet, byte: bv8) returns (matches: bool)
    requires Sized(p)
    ensures matches == IsSingleByte(p, byte)
  {
    if p.length != 1 {
      return false;
    }
    if p.data[0] != byte {
      return false;
    }
    for i := 1 to PACKET_DATA_LENGTH
      invariant forall j :: 1 <= j < i ==> p.data[j] == 0xff
    {
      if p.data[i] != 0xff {
        return false;
      }
    }
    matches := true;
  }

  method CreateSingleBytePacket(byte: bv8) returns (p: Packet)
    ensures p == Single(byte)
  {
    var data := seq(PACKET_DATA_LENGTH, _ => 0xff);
    data := data[0 := byte];
    assert data == Fill([byte]);
    var crc := Crc8Compute([1] + data);
    p := Packet(1, data, crc);
  }

  lemma ValidTail(l: Link)
    requires Valid(l) && l.queue != []
    ensures Valid(l.(queue := l.queue[1..]))
  {}

  lemma ValidSnoc(l: Link, p: Packet)
    requires Valid(l) && Sized(p) && |l.queue| < QUEUE_CAPACITY
    ensures Valid(l.(queue := l.queue + [p]))
  {}

  // A packet that is neither damaged nor a control packet.
  function Accepted(l: Link): Link {
    if |l.queue| == QUEUE_CAPACITY then l.(halted := true)
    else Send(l.(phase := AwaitLength, queue := l.queue + [l.temp]), Ack())
  }

  lemma AcceptedValid(l: Link)
    requires Valid(l)
    ensures l.count == 0 ==> Valid(Accepted(l))
  {}

  lemma HandleCases(l: Link)
    requires Valid(l) && l.count == 0
    ensures Valid(HandlePacket(l))
    ensures HandlePacket(l) ==
      if l.temp.crc != PacketCrc(l.temp) then Send(l.(phase := AwaitLength), Retx())
      else if IsSingleByte(l.temp, PACKET_RETX_DATA0) then Send(l.(phase := AwaitLength), l.last)
      else if IsSingleByte(l.temp, PACKET_ACK_DATA0) then l.(phase := AwaitLength)
      else Accepted(l)
  {}

  lemma FeedCrc(l: Link, byte: bv8)
    requires Valid(l) && !l.halted && l.phase == AwaitCrc
    ensures Valid(l.(temp := l.temp.(crc := byte)))
    ensures FeedByte(l, byte) == HandlePacket(l.(temp := l.temp.(crc := byte)))
  {}

  lemma FeedFirst(l: Link, byte: bv8, rest: seq<bv8>)
    requires Valid(l) && Valid(FeedByte(l, byte))
    ensures Feed(l, [byte] + rest) == Feed(FeedByte(l, byte), rest)
  {
    FeedOfConcat(l, [byte], rest);
    assert [byte][..0] == [];
  }

  lemma FeedNothing(l: Link, bytes: seq<bv8>)
    requires Valid(l) && bytes == []
    ensures Feed(l, bytes) == l
  {}

  class Comms {
    var current_state: Phase
    var data_byte_count: nat
    var current_temp_packet: Packet
    var retx_packet: Packet
    var ack_packet: Packet
    var last_transmitted_packet: Packet
    const incoming_packet_buffer: array<Packet>
    var packet_read_index: nat
    var packet_write_index: nat
    // Stopped at a breakpoint: for a full packet ring, or for reading from an empty one.
    var halted: bool
    // The packets in the ring, oldest first.
    ghost var queue: seq<Packet>
    // Everything handed to uart_write.
    ghost var sent: seq<Packet>

    ghost predicate Ready()
      reads this, incoming_packet_buffer
    {
      && incoming_packet_buffer.Length == PACKET_BUFFER_LENGTH
      && packet_read_index < PACKET_BUFFER_LENGTH && packet_write_index < PACKET_BUFFER_LENGTH
      && queue == Between(incoming_packet_buffer[..], packet_read_index, packet_write_index)
      && retx_packet == Retx() && ack_packet == Ack()
      && Valid(Value())
    }

    // The state of the engine as a value.
    ghost function Value(): Link
      reads this
    {
      Link(current_state, data_byte_count, current_temp_packet, queue, sent, last_transmitted_packet, halted)
    }

    constructor Setup()
      ensures Ready() && Value() == InitialLink() && fresh(incoming_packet_buffer)
    {
      current_state := AwaitLength;
      data_byte_count := 0;
      current_temp_packet := EmptyPacket();
      last_transmitted_packet := EmptyPacket();
      incoming_packet_buffer := new Packet[PACKET_BUFFER_LENGTH](_ => EmptyPacket());
      packet_read_index := 0;
      packet_write_index := 0;
      halted := false;
      queue := [];
      sent := [];
      new;
      retx_packet := CreateSingleBytePacket(PACKET_RETX_DATA0);
      ack_packet := CreateSingleBytePacket(PACKET_ACK_DATA0);
    }

    method PacketAvailable() returns (available: bool)
      requires Ready()
      ensures available <==> Value().queue != []
    {
      available := packet_read_index != packet_write_index;
    }

    method SendPacket(p: Packet)
      requires Ready() && Sized(p)
      modifies this`sent, this`last_transmitted_packet
      ensures Ready() && Value() == Send(old(Value()), p)
    {
      sent := sent + [p];
      last_transmitted_packet := p;
    }

    method TakePacket() returns (p: Packet)
      requires Ready() && Value().queue != []
      modifies this`packet_read_index, this`queue
      ensures Ready()
      ensures p == old(Value()).queue[0]
      ensures Value() == old(Value()).(queue := old(Value()).queue[1..])
    {
      p := incoming_packet_buffer[packet_read_index];
      BetweenPop(incoming_packet_buffer[..], packet_read_index, packet_write_index);
      ValidTail(Value());
      SlotsArePow2();
      MaskedNext(packet_read_index, PACKET_BUFFER_LENGTH);
      packet_read_index := BitAnd(packet_read_index + 1, PACKET_BUFFER_LENGTH - 1);
      queue := queue[1..];
    }

    // Takes the oldest packet; with none in the ring, this is a breakpoint.
    method ReceivePacket() returns (p: Packet)
      requires Ready()
      modifies this`packet_read_index, this`queue, this`halted
      ensures Ready()
      ensures old(Value()).queue == [] ==> Value() == old(Value()).(halted := true)
      ensures old(Value()).queue != [] ==>
        p == old(Value()).queue[0] && Value() == old(Value()).(queue := old(Value()).queue[1..])
    {
      var available := PacketAvailable();
      if available {
        p := TakePacket();
      } else {
        halted := true;
        p := current_temp_packet;
      }
    }

    // Stores the packet in the ring, unless that would overwrite an unread one.
    method StorePacket(p: Packet) returns (stored: bool)
      requires Ready() && Sized(p)
      modifies this`packet_write_index, this`queue, incoming_packet_buffer
      ensures Ready()
      ensures stored <==> |old(Value()).queue| < QUEUE_CAPACITY
      ensures Value() == if stored then old(Value()).(queue := old(Value()).queue + [p]) else old(Value())
    {
      ghost var ring := incoming_packet_buffer[..];
      BetweenLength(ring, packet_read_index, packet_write_index);
      SlotsArePow2();
      MaskedNext(packet_write_index, PACKET_BUFFER_LENGTH);
      var next_write_index := BitAnd(packet_write_index + 1, PACKET_BUFFER_LENGTH - 1);
      if next_write_index == packet_read_index {
        return false;
      }
      BetweenAppend(ring, packet_read_index, packet_write_index, p);
      ValidSnoc(Value(), p);
      incoming_packet_buffer[packet_write_index] := p;
      assert incoming_packet_buffer[..] == ring[packet_write_index := p];
      packet_write_index := next_write_index;
      queue := queue + [p];
      stored := true;
    }

    // Queues the packet that was just completed and acknowledges it.
    method AcceptPacket()
      requires Ready() && !halted && current_state == AwaitCrc
      modifies this, incoming_packet_buffer
      ensures Ready()
      ensures Value() == Accepted(old(Value()))
    {
      var stored := StorePacket(current_temp_packet);
      if !stored {
        halted := true;
      } else {
        SendPacket(ack_packet);
        current_state := AwaitLength;
      }
      AcceptedValid(old(Value()));
    }

    // The reaction to a completed packet.
    method DispatchPacket()
      requires Ready() && !halted && current_state == AwaitCrc
      modifies this, incoming_packet_buffer
      ensures Ready() && Value() == HandlePacket(old(Value()))
    {
      HandleCases(Value());
      var computed_crc := Crc8Compute([current_temp_packet.length] + current_temp_packet.data);
      if computed_crc == current_temp_packet.crc {
        var isRetx := IsSingleBytePacket(current_temp_packet, PACKET_RETX_DATA0);
        var isAck := IsSingleBytePacket(current_temp_packet, PACKET_ACK_DATA0);
        if isRetx {
          SendPacket(last_transmitted_packet);
          current_state := AwaitLength;
        } else if isAck {
          current_state := AwaitLength;
        } else {
          AcceptPacket();
        }
      } else {
        SendPacket(retx_packet);
        current_state := AwaitLength;
      }
    }

    // The case of the length byte.
    method TakeLength(byte: bv8)
      requires Ready() && !halted && current_state == AwaitLength
      modifies this`current_temp_packet, this`current_state
      ensures Ready() && Value() == FeedByte(old(Value()), byte)
    {
      current_temp_packet := current_temp_packet.(length := byte);
      current_state := AwaitData;
      FeedByteValid(old(Value()), byte);
    }

    // The case of a data byte.
    method TakeData(byte: bv8)
      requires Ready() && !halted && current_state == AwaitData
      modifies this`current_temp_packet, this`data_byte_count, this`current_state
      ensures Ready() && Value() == FeedByte(old(Value()), byte)
    {
      current_temp_packet := current_temp_packet.(data := current_temp_packet.data[data_byte_count := byte]);
      data_byte_count := data_byte_count + 1;
      if data_byte_count >= PACKET_DATA_LENGTH {
        data_byte_count := 0;
        current_state := AwaitCrc;
      }
      FeedByteValid(old(Value()), byte);
    }

    // The case of the CRC byte, which completes the packet.
    method TakeCrc(byte: bv8)
      requires Ready() && !halted && current_state == AwaitCrc
      modifies this, incoming_packet_buffer
      ensures Ready() && Value() == FeedByte(old(Value()), byte)
    {
      current_temp_packet := current_temp_packet.(crc := byte);
      FeedCrc(old(Value()), byte);
      DispatchPacket();
    }

    method TakeByte(byte: bv8)
      requires Ready() && !halted
      modifies this, incoming_packet_buffer
      ensures Ready() && Value() == FeedByte(old(Value()), byte)
    {
      match current_state
      case AwaitLength => TakeLength(byte);
      case AwaitData => TakeData(byte);
      case AwaitCrc => TakeCrc(byte);
    }

    // The byte ring and the packet ring are different arrays.
    ghost predicate Apart(rx: Ring)
      reads rx
    {
      rx.buffer as object != incoming_packet_buffer as object
    }

    // One turn of the loop over the waiting bytes.
    method ConsumeByte(rx: Ring) returns (ghost byte: bv8)
      requires Ready() && !halted && rx.Valid() && Apart(rx) && rx.Contents() != []
      modifies this, incoming_packet_buffer, rx`read_index
      ensures Ready() && rx.Valid()
      ensures old(rx.Contents()) == [byte] + rx.Contents()
      ensures Value() == FeedByte(old(Value()), byte)
    {
      var b := UartReadByte(rx);
      TakeByte(b);
      byte := b;
    }

    // Consumes every byte that waits, unless it stops at the breakpoint.
    method Update(rx: Ring)
      requires Ready() && !halted && rx.Valid() && Apart(rx)
      modifies this, incoming_packet_buffer, rx`read_index
      ensures Ready() && rx.Valid()
      ensures Value() == Feed(old(Value()), old(rx.Contents()))
      ensures !halted ==> rx.Contents() == []
    {
      ghost var outcome := Feed(Value(), rx.Contents());
      var available := UartDataAvailable(rx);
      while available && !halted
        invariant Ready() && rx.Valid()
        invariant Feed(Value(), rx.Contents()) == outcome
        invariant available <==> rx.Contents() != []
        decreases |rx.Contents()|
      {
        ghost var before := Value();
        ghost var byte := ConsumeByte(rx);
        FeedFirst(before, byte, rx.Contents());
        available := UartDataAvailable(rx);
      }
      if halted {
        FeedHalted(Value(), rx.Contents());
      } else {
        FeedNothing(Value(), rx.Contents());
      }
    }
  }
}
