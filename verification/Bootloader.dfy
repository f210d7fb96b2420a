// main of bootloader.c in the form it runs: static variables updated by the main loop, each part proved
// against the value-level machine of UpdateMachine.
module Bootloader {
  import opened Packets
  import opened Link
  import opened Comms
  import opened RingBuffer
  import opened LittleEndian
  import opened SimpleTimer
  import opened CbcMac
  import opened Image
  import opened MacLoop
  import opened Validation
  import opened UpdateMachine
  import opened UpdateCases
  import opened UpdateRuns
  import opened Verdicts
  import BlFlash

  const UART_BUFFER_SIZE: nat := 128
  // One slot of the byte ring stays free.
  const UART_CAPACITY: nat := 127

  lemma BufferIsPow2()
    ensures IsPow2(UART_BUFFER_SIZE)
  {
    assert Pow2(7) == UART_BUFFER_SIZE;
  }

  // ----- The packet predicates -----

  method CheckDeviceIdPacket(p: Packet) returns (matches: bool)
    requires Sized(p)
    ensures matches == IsDeviceIdPacket(p)
  {
    if p.length != 2 {
      return false;
    }
    if p.data[0] != BL_PACKET_DEVICE_ID_RES_DATA0 {
      return false;
    }
    for i := 2 to PACKET_DATA_LENGTH
      invariant forall j :: 2 <= j < i ==> p.data[j] == 0xff
    {
      if p.data[i] != 0xff {
        return false;
      }
    }
    matches := true;
  }

  method CheckFwLengthPacket(p: Packet) returns (matches: bool)
    requires Sized(p)
    ensures matches == IsFwLengthPacket(p)
  {
    if p.length != 5 {
      return false;
    }
    if p.data[0] != BL_PACKET_FW_LENGTH_RES_DATA0 {
      return false;
    }
    for i := 5 to PACKET_DATA_LENGTH
      invariant forall j :: 5 <= j < i ==> p.data[j] == 0xff
    {
      if p.data[i] != 0xff {
        return false;
      }
    }
    matches := true;
  }

  // Equal, except that a machine at the breakpoint has not looked at the rest of its bytes.
  predicate Agrees(b: Boot, c: Boot) { b == c || (c.link.halted && b.(rx := c.rx) == c) }

  // ----- Runs -----

  datatype Option = None | Some(ending: Ending)

  // What precedes a turn, and the time that the turn reads.
  datatype Input = Input(received: seq<bv8>, now: nat)

  // A run as UpdateRuns has it.
  datatype History = History(judge: Judge, flash: seq<bv8>, start: nat, actions: seq<Action>)

  function StateAfter(h: History): Boot
    requires |h.flash| == APP_FLASH_SIZE
  {
    UpdateRuns.Run(h.judge, h.flash, h.start, h.actions)
  }

  function AndThen(h: History, a: Action): History { h.(actions := h.actions + [a]) }

  lemma StateAfterOneMore(h: History, a: Action)
    requires |h.flash| == APP_FLASH_SIZE
    ensures StateAfter(AndThen(h, a)) == Step(h.judge, StateAfter(h), a)
  {
    assert (h.actions + [a])[..|h.actions|] == h.actions;
  }

  // ----- Runs that inputs make -----

  // The bytes of a batch that find room in the byte ring, when so many wait there already.
  function Admitted(waiting: nat, received: seq<bv8>): (bytes: seq<bv8>)
    ensures bytes <= received
  {
    received[..if waiting >= UART_CAPACITY then 0 else Min(|received|, UART_CAPACITY - waiting)]
  }

  function Arrivals(bytes: seq<bv8>): seq<Action> { seq(|bytes|, i requires 0 <= i < |bytes| => Arrive(bytes[i])) }

  function WithArrivals(h: History, bytes: seq<bv8>): History { h.(actions := h.actions + Arrivals(bytes)) }

  lemma NextArrival(h: History, received: seq<bv8>, i: nat)
    requires i < |received|
    ensures WithArrivals(h, received[..i + 1]) == AndThen(WithArrivals(h, received[..i]), Arrive(received[i]))
  {
    assert Arrivals(received[..i + 1]) == Arrivals(received[..i]) + [Arrive(received[i])];
    assert h.actions + Arrivals(received[..i + 1]) == h.actions + Arrivals(received[..i]) + [Arrive(received[i])];
  }

  lemma OneMoreWaits(before: seq<bv8>, received: seq<bv8>, n: nat)
    requires n < |received|
    ensures before + received[..n + 1] == before + received[..n] + [received[n]]
  {}

  lemma NoArrivals(h: History, received: seq<bv8>)
    ensures WithArrivals(h, received[..0]) == h
  {
    assert h.actions + Arrivals(received[..0]) == h.actions;
  }

  // Arrivals only lengthen what waits.
  lemma {:induction false} AfterArrivals(h: History, bytes: seq<bv8>, b: Boot, n: nat)
    requires |h.flash| == APP_FLASH_SIZE && b == StateAfter(h) && n <= |bytes|
    ensures StateAfter(WithArrivals(h, bytes[..n])) == b.(rx := b.rx + bytes[..n])
  {
    if n == 0 {
      NoArrivals(h, bytes);
      assert b.rx + bytes[..0] == b.rx;
    } else {
      var m := n - 1;
      AfterArrivals(h, bytes, b, m);
      NextArrival(h, bytes, m);
      StateAfterOneMore(WithArrivals(h, bytes[..m]), Arrive(bytes[m]));
      assert b.rx + bytes[..n] == b.rx + bytes[..m] + [bytes[m]];
    }
  }

  // All of the bytes, or as many as fill the ring.
  predicate AreAdmitted(waiting: nat, received: seq<bv8>, n: nat) {
    n <= |received| && (n == |received| || waiting + n >= UART_CAPACITY) && (n > 0 ==> waiting + n <= UART_CAPACITY)
  }

  lemma AdmittedAre(waiting: nat, received: seq<bv8>, n: nat)
    requires AreAdmitted(waiting, received, n)
    ensures Admitted(waiting, received) == received[..n]
  {}

  // A batch of bytes that meets so many others, and a turn.
  function WithInput(h: History, waiting: nat, input: Input): History {
    AndThen(WithArrivals(h, Admitted(waiting, input.received)), Go(input.now))
  }

  // The run that inputs make, where `waiting` tells how many bytes wait after a run.
  function Continued(waiting: History -> nat, h: History, inputs: seq<Input>): (h': History)
    ensures h' == h.(actions := h'.actions)
  {
    if inputs == [] then h
    else
      var before := Continued(waiting, h, inputs[..|inputs| - 1]);
      WithInput(before, waiting(before), inputs[|inputs| - 1])
  }

  // `running` holds before each of the turns.
  predicate Throughout(running: History -> bool, waiting: History -> nat, h: History, inputs: seq<Input>) {
    inputs == []
    || (Throughout(running, waiting, h, inputs[..|inputs| - 1]) && running(Continued(waiting, h, inputs[..|inputs| - 1])))
  }

  lemma ContinuedOneMore(running: History -> bool, waiting: History -> nat, h: History, inputs: seq<Input>, k: nat,
                         before: History, after: History)
    requires k < |inputs| && before == Continued(waiting, h, inputs[..k]) && Throughout(running, waiting, h, inputs[..k])
    requires running(before) && after == WithInput(before, waiting(before), inputs[k])
    ensures after == Continued(waiting, h, inputs[..k + 1]) && Throughout(running, waiting, h, inputs[..k + 1])
  {
    assert inputs[..k + 1][..k] == inputs[..k];
  }

  // All that was received and all turns.
  function ActionsOf(inputs: seq<Input>): seq<Action> {
    if inputs == [] then []
    else
      var last := inputs[|inputs| - 1];
      ActionsOf(inputs[..|inputs| - 1]) + Arrivals(last.received) + [Go(last.now)]
  }

  // Each batch finds room in the byte ring.
  predicate FindsRoom(waiting: History -> nat, h: History, inputs: seq<Input>) {
    inputs == []
    || (FindsRoom(waiting, h, inputs[..|inputs| - 1])
        && waiting(Continued(waiting, h, inputs[..|inputs| - 1])) + |inputs[|inputs| - 1].received| <= UART_CAPACITY)
  }

  lemma AllAdmitted(h: History, waiting: nat, input: Input)
    requires waiting + |input.received| <= UART_CAPACITY
    ensures WithInput(h, waiting, input) == h.(actions := h.actions + Arrivals(input.received) + [Go(input.now)])
  {
    assert Admitted(waiting, input.received) == input.received;
  }

  lemma {:induction false} AllArrive(waiting: History -> nat, h: History, inputs: seq<Input>)
    requires FindsRoom(waiting, h, inputs)
    ensures Continued(waiting, h, inputs).actions == h.actions + ActionsOf(inputs)
  {
    if inputs == [] {
      assert h.actions + [] == h.actions;
    } else {
      var front, last := inputs[..|inputs| - 1], inputs[|inputs| - 1];
      var before := Continued(waiting, h, front);
      AllArrive(waiting, h, front);
      AllAdmitted(before, waiting(before), last);
      assert h.actions + ActionsOf(front) + Arrivals(last.received) + [Go(last.now)] == h.actions + ActionsOf(inputs);
    }
  }

  // How many bytes wait in the byte ring after a run.
  function Waiting(h: History): nat { if |h.flash| == APP_FLASH_SIZE then |StateAfter(h).rx| else 0 }

  predicate StillRunning(h: History) { |h.flash| == APP_FLASH_SIZE && Running(StateAfter(h)) }

  function AfterInputs(h: History, inputs: seq<Input>): History { Continued(Waiting, h, inputs) }

  predicate RunsThrough(h: History, inputs: seq<Input>) { Throughout(StillRunning, Waiting, h, inputs) }

  // What follows the main loop after a run in which it has been left.
  function EndingAfter(h: History): Option {
    if |h.flash| == APP_FLASH_SIZE && StateAfter(h).mode == Done && Alive(StateAfter(h))
    then Some(EndingOf(h.judge, StateAfter(h))) else None
  }

  // As long as the byte ring has room, no byte is lost: the run has every arrival and every turn.
  lemma NothingIsLost(h: History, inputs: seq<Input>)
    requires FindsRoom(Waiting, h, inputs)
    ensures AfterInputs(h, inputs).actions == h.actions + ActionsOf(inputs)
  {
    AllArrive(Waiting, h, inputs);
  }

  class Bootloader {
    var bootloader_state: Mode
    var firmware_length: nat
    var bytes_written: nat
    var sync_seq: seq<bv8>
    var temp_packet: Packet
    // In the loop of the image check that does not end.
    var hung: bool
    const timer: Timer
    const comms: Comms
    const rx: Ring
    const flash: array<bv8>
    const validator: Validator
    ghost var log: seq<Event>
    ghost var arms: nat

    // The static objects do not overlap.
    ghost predicate Separate()
      reads this, rx
    {
      rx.buffer != flash && comms.Apart(rx) && comms.incoming_packet_buffer as object != flash as object
    }

    ghost function Value(): Boot
      reads this, timer, comms, rx, rx.buffer, flash
      requires rx.Valid()
    {
      Boot(bootloader_state, firmware_length, bytes_written, sync_seq, timer.Value(), comms.Value(), rx.Contents(),
           flash[..], log, arms, hung)
    }

    ghost predicate Ready()
      reads this, timer, comms, comms.incoming_packet_buffer, rx, rx.buffer, flash
    {
      && Separate() && comms.Ready() && rx.Valid() && rx.mask == UART_CAPACITY
      && |sync_seq| == 4 && flash.Length == APP_FLASH_SIZE
      && firmware_length < TWO_32 && bytes_written < TWO_32
    }

    // The state is that after the run h, or stopped like it at the breakpoint.
    ghost predicate Follows(h: History)
      reads this, timer, comms, comms.incoming_packet_buffer, rx, rx.buffer, flash
    {
      Ready() && |h.flash| == APP_FLASH_SIZE && Value() == StateAfter(h)
    }

    ghost predicate Matches(h: History)
      reads this, timer, comms, comms.incoming_packet_buffer, rx, rx.buffer, flash
    {
      Ready() && |h.flash| == APP_FLASH_SIZE && Agrees(Value(), StateAfter(h))
    }

    // The set-up calls at the start of main.
    constructor Setup(flash: array<bv8>, validator: Validator, now: nat)
      requires flash.Length == APP_FLASH_SIZE
      ensures Ready() && Value() == Initial(flash[..], now)
      ensures this.flash == flash && this.validator == validator
      ensures fresh(timer) && fresh(comms) && fresh(comms.incoming_packet_buffer) && fresh(rx) && fresh(rx.buffer)
    {
      var data_buffer := new bv8[UART_BUFFER_SIZE](_ => 0);
      BufferIsPow2();
      rx := new Ring.Setup(data_buffer);
      comms := new Comms.Setup();
      timer := new Timer(DEFAULT_TIMEOUT_MS, false, now);
      bootloader_state := Sync;
      firmware_length := 0;
      bytes_written := 0;
      sync_seq := [0, 0, 0, 0];
      temp_packet := EmptyPacket();
      hung := false;
      log := [];
      arms := 1;
      this.flash := flash;
      this.validator := validator;
    }

    // Creates a single-byte packet and sends it.
    method SendByte(byte: bv8)
      requires Ready()
      modifies this`temp_packet, comms`sent, comms`last_transmitted_packet
      ensures Ready() && Value() == Say(old(Value()), byte)
    {
      temp_packet := CreateSingleBytePacket(byte);
      comms.SendPacket(temp_packet);
    }

    method ResetTimer(now: nat)
      requires Ready()
      modifies timer, this`arms
      ensures Ready() && Value() == Rearm(old(Value()), now)
    {
      timer.Rearm(now);
      arms := arms + 1;
    }

    method BootloadingFailed()
      requires Ready()
      modifies this`temp_packet, this`bootloader_state, comms`sent, comms`last_transmitted_packet
      ensures Ready() && Value() == Fail(old(Value()))
    {
      SendByte(BL_PACKET_NACK_DATA0);
      bootloader_state := Done;
    }

    method CheckForTimeout(now: nat)
      requires Ready()
      modifies timer, this`temp_packet, this`bootloader_state, comms`sent, comms`last_transmitted_packet
      ensures Ready() && Value() == UpdateMachine.CheckForTimeout(old(Value()), now)
    {
      var elapsed := timer.HasElapsed(now);
      if elapsed {
        BootloadingFailed();
      }
    }

    // Takes the oldest packet from the queue.
    method ReceivePacket()
      requires Ready() && Value().link.queue != []
      modifies this`temp_packet, this`log, comms`packet_read_index, comms`queue, comms`halted
      ensures Ready() && Value() == Taken(old(Value()))
      ensures temp_packet == old(Value()).link.queue[0] && Sized(temp_packet)
    {
      ghost var p := comms.Value().queue[0];
      temp_packet := comms.ReceivePacket();
      log := log + [Took(temp_packet)];
    }

    method AnswerUpdateRequest(now: nat)
      requires Ready()
      modifies this, timer, comms
      ensures Ready() && Value() == Rearm(Enter(Say(old(Value()), BL_PACKET_FW_UPDATE_RES_DATA0), DeviceIdReq), now)
    {
      SendByte(BL_PACKET_FW_UPDATE_RES_DATA0);
      bootloader_state := DeviceIdReq;
      ResetTimer(now);
    }

    // BL_STATE_WAIT_FOR_FW_UPDATE_REQ
    method AwaitUpdateRequest(ghost judge: Judge, now: nat)
      requires Ready() && bootloader_state == WaitForFwUpdateReq
      modifies this, timer, comms
      ensures Ready() && Value() == Switch(judge, old(Value()), now)
    {
      UpdateRequestCase(judge, Value(), now);
      var available := comms.PacketAvailable();
      if available {
        ReceivePacket();
        var matches := IsSingleBytePacket(temp_packet, BL_PACKET_FW_UPDATE_REQ_DATA0);
        if matches {
          AnswerUpdateRequest(now);
        } else {
          BootloadingFailed();
        }
      } else {
        CheckForTimeout(now);
      }
    }

    // BL_STATE_DEVICE_ID_REQ
    method RequestDeviceId(ghost judge: Judge, now: nat)
      requires Ready() && bootloader_state == DeviceIdReq
      modifies this, timer, comms
      ensures Ready() && Value() == Switch(judge, old(Value()), now)
    {
      DeviceIdRequestCase(judge, Value(), now);
      SendByte(BL_PACKET_DEVICE_ID_REQ_DATA0);
      bootloader_state := DeviceIdRes;
      ResetTimer(now);
    }

    // BL_STATE_DEVICE_ID_RES
    method AwaitDeviceId(ghost judge: Judge, now: nat)
      requires Ready() && bootloader_state == DeviceIdRes
      modifies this, timer, comms
      ensures Ready() && Value() == Switch(judge, old(Value()), now)
    {
      DeviceIdCase(judge, Value(), now);
      var available := comms.PacketAvailable();
      if available {
        ReceivePacket();
        var matches := CheckDeviceIdPacket(temp_packet);
        if matches && temp_packet.data[1] == DEVICE_ID_BYTE {
          ResetTimer(now);
          bootloader_state := FwLengthReq;
        } else {
          BootloadingFailed();
        }
      } else {
        CheckForTimeout(now);
      }
    }

    // BL_STATE_FW_LENGTH_REQ
    method RequestLength(ghost judge: Judge, now: nat)
      requires Ready() && bootloader_state == FwLengthReq
      modifies this, timer, comms
      ensures Ready() && Value() == Switch(judge, old(Value()), now)
    {
      LengthRequestCase(judge, Value(), now);
      ResetTimer(now);
      SendByte(BL_PACKET_FW_LENGTH_REQ_DATA0);
      bootloader_state := FwLengthRes;
    }

    method AcceptLength(now: nat)
      requires Ready()
      modifies this`bootloader_state, this`arms, timer
      ensures Ready() && Value() == Enter(Rearm(old(Value()), now), EraseApplication)
    {
      ResetTimer(now);
      bootloader_state := EraseApplication;
    }

    method ExtractLength()
      requires Ready() && Sized(temp_packet)
      modifies this`firmware_length
      ensures Ready() && Value() == old(Value()).(firmwareLength := AnnouncedLength(temp_packet))
    {
      firmware_length := Le32(temp_packet.data[1], temp_packet.data[2], temp_packet.data[3], temp_packet.data[4]);
    }

    // Takes the length from the packet, if it fits.
    method TakeLength(now: nat)
      requires Ready() && Sized(temp_packet)
      modifies this, timer, comms
      ensures Ready() && Value() == LengthTaken(old(Value()), old(temp_packet), now)
    {
      ExtractLength();
      if firmware_length <= MAX_FW_LENGTH {
        AcceptLength(now);
      } else {
        BootloadingFailed();
      }
    }

    // BL_STATE_FW_LENGTH_RES
    method AwaitLength(ghost judge: Judge, now: nat)
      requires Ready() && bootloader_state == FwLengthRes
      modifies this, timer, comms
      ensures Ready() && Value() == Switch(judge, old(Value()), now)
    {
      LengthCase(judge, Value(), now);
      var available := comms.PacketAvailable();
      if available {
        ReceivePacket();
        var matches := CheckFwLengthPacket(temp_packet);
        if matches {
          TakeLength(now);
        } else {
          BootloadingFailed();
        }
      } else {
        CheckForTimeout(now);
      }
    }

    method EraseSectors()
      requires Ready()
      modifies flash, this`log
      ensures Ready() && Value() == Erase(old(Value()))
    {
      BlFlash.EraseMainApplication(flash);
      log := log + [Erased];
    }

    // BL_STATE_ERASE_APPLICATION
    method EraseFlash(ghost judge: Judge, now: nat)
      requires Ready() && bootloader_state == EraseApplication
      modifies this, timer, comms, flash
      ensures Ready() && Value() == Switch(judge, old(Value()), now)
    {
      EraseCase(judge, Value(), now);
      EraseSectors();
      ResetTimer(now);
      SendByte(BL_PACKET_READY_FOR_DATA_DATA0);
      bootloader_state := ReceiveFw;
    }

    method ProgramFlash(bytes: seq<bv8>)
      requires Ready()
      modifies flash, this`log, this`bytes_written
      ensures Ready() && Value() == Program(old(Value()), bytes)
    {
      BlFlash.Write(flash, bytes_written, bytes);
      log := log + [Programmed(bytes_written, bytes)];
      bytes_written := (bytes_written + |bytes|) % TWO_32;
    }

    // Programs the chunk in temp_packet behind what has been written.
    method WriteChunk(now: nat)
      requires Ready() && Sized(temp_packet)
      modifies flash, timer, this`log, this`bytes_written, this`arms
      ensures Ready() && Value() == Rearm(Program(old(Value()), ChunkOf(temp_packet)), now)
    {
      ProgramFlash(temp_packet.data[..ChunkSize(temp_packet.length)]);
      ResetTimer(now);
    }

    // Checks the complete image and reports.
    method ReportVerdict()
      requires Ready() && validator.Valid()
      modifies this, comms
      ensures Ready() && Value() == Conclude(validator.judge, old(Value()))
    {
      var verdict := validator.Check(flash);
      Report(validator.judge, verdict);
    }

    method Report(ghost judge: Judge, verdict: Verdict)
      requires Ready() && verdict == judge(flash[..])
      modifies this, comms
      ensures Ready() && Value() == Conclude(judge, old(Value()))
    {
      match verdict
      case Endless =>
        hung := true;
      case Genuine =>
        FinishWith(BL_PACKET_UPDATE_SUCCESSFUL_DATA0);
      case Rejected =>
        FinishWith(BL_PACKET_NACK_DATA0);
    }

    method FinishWith(byte: bv8)
      requires Ready()
      modifies this`temp_packet, this`bootloader_state, comms`sent, comms`last_transmitted_packet
      ensures Ready() && Value() == Enter(Say(old(Value()), byte), Done)
    {
      SendByte(byte);
      bootloader_state := Done;
    }

    // A chunk of valid length.
    method StoreChunk(now: nat)
      requires Ready() && validator.Valid() && Sized(temp_packet)
      modifies this, timer, comms, flash
      ensures Ready() && Value() == Store(validator.judge, old(Value()), old(temp_packet), now)
    {
      WriteChunk(now);
      if bytes_written >= firmware_length {
        ReportVerdict();
      } else {
        SendByte(BL_PACKET_READY_FOR_DATA_DATA0);
      }
    }

    // BL_STATE_RECEIVE_FW
    method AwaitChunk(now: nat)
      requires Ready() && validator.Valid() && bootloader_state == ReceiveFw
      modifies this, timer, comms, flash
      ensures Ready() && Value() == Switch(validator.judge, old(Value()), now)
    {
      DataCase(validator.judge, Value(), now);
      var available := comms.PacketAvailable();
      if available {
        ReceivePacket();
        if temp_packet.length > 0 && temp_packet.length <= 16 {
          StoreChunk(now);
        } else {
          BootloadingFailed();
        }
      } else {
        CheckForTimeout(now);
      }
    }

    method SwitchOnState(now: nat)
      requires Ready() && validator.Valid() && bootloader_state != Sync && bootloader_state != Done
      modifies this, timer, comms, flash
      ensures Ready() && Value() == Switch(validator.judge, old(Value()), now)
    {
      match bootloader_state
      case WaitForFwUpdateReq => AwaitUpdateRequest(validator.judge, now);
      case DeviceIdReq => RequestDeviceId(validator.judge, now);
      case DeviceIdRes => AwaitDeviceId(validator.judge, now);
      case FwLengthReq => RequestLength(validator.judge, now);
      case FwLengthRes => AwaitLength(validator.judge, now);
      case EraseApplication => EraseFlash(validator.judge, now);
      case ReceiveFw => AwaitChunk(now);
    }

    // Drops the bytes that wait.
    method FlushUart()
      requires Ready()
      modifies rx`read_index
      ensures Ready() && Value() == old(Value()).(rx := [])
    {
      var available := UartDataAvailable(rx);
      while available
        invariant Ready() && available == (rx.Contents() != [])
        invariant Value() == old(Value()).(rx := rx.Contents())
        decreases |rx.Contents()|
      {
        var byte := UartReadByte(rx);
        available := UartDataAvailable(rx);
      }
    }

    // Reads the oldest of the bytes that wait.
    method ReadByte() returns (byte: bv8)
      requires Ready() && rx.Contents() != []
      modifies rx`read_index
      ensures Ready() && byte == old(rx.Contents())[0]
      ensures Value() == old(Value()).(rx := old(rx.Contents())[1..])
    {
      byte := UartReadByte(rx);
    }

    method ShiftSyncSeq(byte: bv8)
      requires |sync_seq| == 4
      modifies this`sync_seq
      ensures sync_seq == Shifted(old(sync_seq), byte)
    {
      sync_seq := sync_seq[0 := sync_seq[1]];
      sync_seq := sync_seq[1 := sync_seq[2]];
      sync_seq := sync_seq[2 := sync_seq[3]];
      sync_seq := sync_seq[3 := byte];
    }

    method ShiftSyncByte()
      requires Ready() && rx.Contents() != []
      modifies this`sync_seq, rx`read_index
      ensures Ready()
      ensures Value() == old(Value()).(syncSeq := Shifted(old(sync_seq), old(rx.Contents())[0]), rx := old(rx.Contents())[1..])
    {
      var byte := ReadByte();
      ShiftSyncSeq(byte);
    }

    method AnswerSync(now: nat)
      requires Ready()
      modifies this, timer, comms
      ensures Ready()
      ensures Value() == Rearm(Enter(Say(old(Value()), BL_PACKET_SYNC_OBSERVED_DATA0), WaitForFwUpdateReq), now)
    {
      SendByte(BL_PACKET_SYNC_OBSERVED_DATA0);
      bootloader_state := WaitForFwUpdateReq;
      ResetTimer(now);
    }

    method ObserveSync(now: nat)
      requires Ready()
      modifies this, timer, comms, rx`read_index
      ensures Ready()
      ensures Value() == Rearm(Enter(Say(old(Value()).(rx := []), BL_PACKET_SYNC_OBSERVED_DATA0), WaitForFwUpdateReq), now)
    {
      FlushUart();
      AnswerSync(now);
    }

    // BL_STATE_SYNC
    method Synchronise(now: nat)
      requires Ready() && bootloader_state == Sync
      modifies this, timer, comms, rx`read_index
      ensures Ready() && Value() == SyncTurn(old(Value()), now)
    {
      var available := UartDataAvailable(rx);
      if available {
        ShiftSyncByte();
        var isMatch := sync_seq[0] == 0xc4;
        isMatch := isMatch && sync_seq[1] == 0x55;
        isMatch := isMatch && sync_seq[2] == 0x7e;
        isMatch := isMatch && sync_seq[3] == 0x10;
        if isMatch {
          ObserveSync(now);
        } else {
          CheckForTimeout(now);
        }
      } else {
        CheckForTimeout(now);
      }
    }

    // The byte that usart2_isr stores; it is lost if the ring is full.
    method OnReceive(byte: bv8) returns (stored: bool)
      requires Ready()
      modifies rx`write_index, rx.buffer
      ensures Ready()
      ensures Value() == if stored then Arrival(old(Value()), byte) else old(Value())
      ensures stored <==> |old(rx.Contents())| < rx.mask
      ensures rx.Contents() == if stored then old(rx.Contents()) + [byte] else old(rx.Contents())
    {
      stored := rx.Write(byte);
    }

    // comms_update
    method UpdateComms()
      requires Ready() && !comms.halted
      modifies comms, comms.incoming_packet_buffer, rx`read_index
      ensures Ready() && Agrees(Value(), Drained(old(Value())))
    {
      comms.Update(rx);
    }

    // One turn of the main loop.
    method Iterate(now: nat)
      requires Ready() && validator.Valid() && Running(Value())
      modifies this, timer, comms, comms.incoming_packet_buffer, rx`read_index, flash
      ensures Ready() && Agrees(Value(), Turn(validator.judge, old(Value()), now))
    {
      if bootloader_state == Sync {
        Synchronise(now);
      } else {
        UpdateComms();
        if !comms.halted {
          SwitchOnState(now);
        }
      }
    }

    // The interrupts that arrive before a turn.
    method OnReceiveAll(received: seq<bv8>)
      requires Ready()
      modifies rx`write_index, rx.buffer
      ensures Ready() && rx.Contents() == old(rx.Contents()) + Admitted(|old(rx.Contents())|, received)
    {
      ghost var waiting := |rx.Contents()|;
      ghost var n := 0;
      for i := 0 to |received|
        invariant Ready() && rx.buffer == old(rx.buffer)
        invariant n <= i && rx.Contents() == old(rx.Contents()) + received[..n]
        invariant AreAdmitted(waiting, received[..i], n)
      {
        var stored := OnReceive(received[i]);
        if stored {
          OneMoreWaits(old(rx.Contents()), received, n);
          n := n + 1;
        }
      }
      AdmittedAre(waiting, received, n);
    }

    // The interrupts before a turn, along a run.
    method ReceiveAlong(received: seq<bv8>, ghost h: History) returns (ghost h': History)
      requires Follows(h)
      modifies rx`write_index, rx.buffer
      ensures Follows(h') && rx.buffer == old(rx.buffer) && h' == WithArrivals(h, Admitted(Waiting(h), received))
    {
      ghost var admitted := Admitted(|rx.Contents()|, received);
      AfterArrivals(h, admitted, Value(), |admitted|);
      assert admitted[..|admitted|] == admitted;
      OnReceiveAll(received);
      h' := WithArrivals(h, admitted);
    }

    // The interrupts before a turn, and the turn.
    method RunTurn(input: Input, ghost h: History) returns (ghost h': History)
      requires Follows(h) && validator.Valid() && h.judge == validator.judge && Running(Value())
      modifies this, timer, comms, comms.incoming_packet_buffer, rx, rx.buffer, flash
      ensures Matches(h') && rx.buffer == old(rx.buffer)
      ensures h' == WithInput(h, Waiting(h), input) && StillRunning(h)
    {
      ghost var received := ReceiveAlong(input.received, h);
      StateAfterOneMore(received, Go(input.now));
      Iterate(input.now);
      h' := AndThen(received, Go(input.now));
    }

    // What follows the main loop.
    method LeaveLoop() returns (ending: Ending)
      requires Ready() && validator.Valid()
      ensures ending == EndingOf(validator.judge, Value())
    {
      var verdict := validator.Check(flash);
      ending := match verdict case Genuine => Jump case Rejected => ResetCore case Endless => Hang;
    }

    // The main loop, fed with inputs until it ends or they do.
    method RunLoop(inputs: seq<Input>, ghost h: History) returns (ghost h': History, ghost used: nat)
      requires Follows(h) && validator.Valid() && h.judge == validator.judge
      modifies this, timer, comms, comms.incoming_packet_buffer, rx, rx.buffer, flash
      ensures Matches(h') && used <= |inputs| && h' == AfterInputs(h, inputs[..used])
      ensures RunsThrough(h, inputs[..used]) && (Running(Value()) ==> used == |inputs|)
    {
      h' := h;
      used := 0;
      var k := 0;
      while k < |inputs| && bootloader_state != Done && !hung && !comms.halted
        invariant Matches(h') && rx.buffer == old(rx.buffer)
        invariant used == k <= |inputs| && h' == AfterInputs(h, inputs[..k]) && RunsThrough(h, inputs[..k])
        decreases |inputs| - k
      {
        ghost var before := h';
        h' := RunTurn(inputs[k], h');
        ContinuedOneMore(StillRunning, Waiting, h, inputs, k, before, h');
        k := k + 1;
        used := k;
      }
    }

    // The main loop and what follows it. It follows the run of the value-level machine that the inputs make: those up
    // to the one with which the loop ends.
    method RunMain(inputs: seq<Input>, ghost h: History) returns (ending: Option, ghost h': History, ghost used: nat)
      requires Follows(h) && validator.Valid() && h.judge == validator.judge
      modifies this, timer, comms, comms.incoming_packet_buffer, rx, rx.buffer, flash
      ensures Matches(h') && used <= |inputs| && h' == AfterInputs(h, inputs[..used])
      ensures RunsThrough(h, inputs[..used]) && (Running(Value()) ==> used == |inputs|)
      ensures ending == EndingAfter(h')
    {
      h', used := RunLoop(inputs, h);
      ending := None;
      if bootloader_state == Done && !hung && !comms.halted {
        var e := LeaveLoop();
        ending := Some(e);
      }
    }
  }

  lemma JumpsExactlyWhen(e: BlockCipher, rest: nat -> bv8, b: Boot)
    ensures var m := Memory(b.flash, rest);
      EndingOf(JudgeOf(e, rest), b) == Jump <==> Accepts(e, m) && Length(m) <= LONGEST_LOOP
  {
    var m := Memory(b.flash, rest);
    VerdictIsAcceptance(e, m);
    assert JudgeOf(e, rest)(b.flash) == VerdictOf(e, m);
  }

  // main of the device with its compiled-in key, from power-up: what it receives and the times of its turns
  // determine what it does.
  method PowerUp(flash: array<bv8>, rest: nat -> bv8, start: nat, inputs: seq<Input>)
    returns (ending: Option, ghost h: History, ghost used: nat)
    requires flash.Length == APP_FLASH_SIZE
    modifies flash
    ensures used <= |inputs|
    ensures h == AfterInputs(History(JudgeOf(DeviceCipher, rest), old(flash[..]), start, []), inputs[..used])
    ensures flash[..] == StateAfter(h).flash
    ensures RunsThrough(h.(actions := []), inputs[..used]) && (StillRunning(h) ==> used == |inputs|)
    ensures ending == EndingAfter(h)
    ensures ending.Some? ==> var m := Memory(flash[..], rest);
      (ending.ending == Jump <==> Accepts(DeviceCipher, m) && Length(m) <= LONGEST_LOOP)
  {
    var validator := new Validator.ForDevice(rest);
    var device := new Bootloader.Setup(flash, validator, start);
    h := History(validator.judge, flash[..], start, []);
    ending, h, used := device.RunMain(inputs, h);
    if ending.Some? {
      JumpsExactlyWhen(DeviceCipher, rest, device.Value());
    }
  }
}
