// The bootloader's main loop as a value: one turn of the loop is a function of the state and of the
// clock, which every turn reads at most once.
module UpdateMachine {
  import opened Packets
  import opened Link
  import opened LittleEndian
  import opened SimpleTimer
  import opened Image

  predicate IsSyncSeq(s: seq<bv8>)
    requires |s| == 4
  {
    s[0] == 0xc4 && s[1] == 0x55 && s[2] == 0x7e && s[3] == 0x10
  }

  const DEFAULT_TIMEOUT_MS: nat := 5000

  // The sectors that an erase covers, from MAIN_APP_START_ADDRESS on.
  const APP_FLASH_SIZE: nat := 0x78000

  datatype Mode =
    | Sync
    | WaitForFwUpdateReq
    | DeviceIdReq
    | DeviceIdRes
    | FwLengthReq
    | FwLengthRes
    | EraseApplication
    | ReceiveFw
    | Done

  function Rank(mode: Mode): nat {
    match mode
    case Sync => 0
    case WaitForFwUpdateReq => 1
    case DeviceIdReq => 2
    case DeviceIdRes => 3
    case FwLengthReq => 4
    case FwLengthRes => 5
    case EraseApplication => 6
    case ReceiveFw => 7
    case Done => 8
  }

  // What the machine did, apart from sending: packets taken from the queue, and flash operations.
  datatype Event = Took(p: Packet) | Erased | Programmed(offset: nat, bytes: seq<bv8>)

  // What checking the image in flash comes to.
  datatype Verdict = Genuine | Rejected | Endless

  type Judge = seq<bv8> -> Verdict

  datatype Boot = Boot(mode: Mode, firmwareLength: nat, bytesWritten: nat, syncSeq: seq<bv8>, timer: TimerState,
                       link: Link, rx: seq<bv8>, flash: seq<bv8>, log: seq<Event>, arms: nat, hung: bool)

  function Initial(flash: seq<bv8>, now: nat): Boot {
    Boot(Sync, 0, 0, [0, 0, 0, 0], Armed(DEFAULT_TIMEOUT_MS, false, now), InitialLink(), [], flash, [], 1, false)
  }

  // Types of the fields that the C types give for free.
  predicate WellTyped(b: Boot) {
    && Valid(b.link) && |b.syncSeq| == 4 && |b.flash| == APP_FLASH_SIZE
    && b.firmwareLength < TWO_32 && b.bytesWritten < TWO_32
  }

  // Neither at a breakpoint nor in an endless loop.
  predicate Alive(b: Boot) { !b.link.halted && !b.hung }

  predicate Running(b: Boot) { Alive(b) && b.mode != Done }

  // ----- Packets that the machine waits for -----

  predicate IsUpdateRequest(p: Packet) { IsSingleByte(p, BL_PACKET_FW_UPDATE_REQ_DATA0) }

  predicate IsDeviceIdPacket(p: Packet) {
    && p.length == 2 && Sized(p) && p.data[0] == BL_PACKET_DEVICE_ID_RES_DATA0
    && forall i :: 2 <= i < PACKET_DATA_LENGTH ==> p.data[i] == 0xff
  }

  predicate NamesThisDevice(p: Packet) { IsDeviceIdPacket(p) && p.data[1] == DEVICE_ID_BYTE }

  predicate IsFwLengthPacket(p: Packet) {
    && p.length == 5 && Sized(p) && p.data[0] == BL_PACKET_FW_LENGTH_RES_DATA0
    && forall i :: 5 <= i < PACKET_DATA_LENGTH ==> p.data[i] == 0xff
  }

  function AnnouncedLength(p: Packet): (n: nat)
    requires Sized(p)
    ensures n < TWO_32
  {
    Le32(p.data[1], p.data[2], p.data[3], p.data[4])
  }

  predicate AnnouncesFittingLength(p: Packet) { IsFwLengthPacket(p) && AnnouncedLength(p) <= MAX_FW_LENGTH }

  // A length byte of 1 to 16 announces one byte more than its low four bits say.
  predicate IsChunk(p: Packet) { Sized(p) && 0 < p.length <= 16 }

  function ChunkSize(length: bv8): (n: nat)
    ensures 1 <= n <= PACKET_DATA_LENGTH
  {
    (length & 0x0f) as nat + 1
  }

  function ChunkOf(p: Packet): (bytes: seq<bv8>)
    requires Sized(p)
    ensures |bytes| == ChunkSize(p.length)
  {
    p.data[..ChunkSize(p.length)]
  }

  // ----- Elementary actions -----

  function Enter(b: Boot, mode: Mode): Boot { b.(mode := mode) }

  function Say(b: Boot, byte: bv8): Boot { b.(link := Send(b.link, Single(byte))) }

  function Rearm(b: Boot, now: nat): Boot { b.(timer := Reset(b.timer, now), arms := b.arms + 1) }

  // bootloading_failed
  function Fail(b: Boot): Boot { Enter(Say(b, BL_PACKET_NACK_DATA0), Done) }

  function CheckForTimeout(b: Boot, now: nat): Boot {
    var checked := b.(timer := Checked(b.timer, now));
    if Fires(b.timer, now) then Fail(checked) else checked
  }

  // Whether a call of comms_receive_packet finds a packet, and what it leaves.
  predicate HasPacket(b: Boot) { b.link.queue != [] }

  function Taken(b: Boot): Boot
    requires HasPacket(b)
  {
    b.(link := b.link.(queue := b.link.queue[1..]), log := b.log + [Took(b.link.queue[0])])
  }

  function Erase(b: Boot): Boot { b.(flash := seq(|b.flash|, _ => 0xff), log := b.log + [Erased]) }

  function BitwiseAnd(x: bv8, y: bv8): bv8 { x & y }

  // Programming can only clear bits.
  function ProgramCells(flash: seq<bv8>, offset: nat, bytes: seq<bv8>): (cells: seq<bv8>)
    ensures |cells| == |flash|
  {
    seq(|flash|, i requires 0 <= i < |flash| =>
      if offset <= i < offset + |bytes| then BitwiseAnd(flash[i], bytes[i - offset]) else flash[i])
  }

  function Program(b: Boot, bytes: seq<bv8>): Boot {
    b.(flash := ProgramCells(b.flash, b.bytesWritten, bytes),
       log := b.log + [Programmed(b.bytesWritten, bytes)],
       bytesWritten := (b.bytesWritten + |bytes|) % TWO_32)
  }

  // ----- The switch statement: which case applies, and what it does -----

  datatype Move =
    | Idle           // nothing to do before the deadline
    | TimeOut
    | Refuse         // an unexpected packet
    | AcceptRequest
    | AskDeviceId
    | AcceptDevice
    | AskLength
    | RefuseLength   // a length packet that announces too much
    | AcceptLength
    | EraseAll
    | StoreChunk
    | FallThrough    // the default label

  // The packet that the move takes from the queue.
  predicate TakesPacket(m: Move) {
    m == Refuse || m == AcceptRequest || m == AcceptDevice || m == RefuseLength || m == AcceptLength || m == StoreChunk
  }

  predicate Waits(mode: Mode) {
    mode == WaitForFwUpdateReq || mode == DeviceIdRes || mode == FwLengthRes || mode == ReceiveFw
  }

  function DecideOnPacket(mode: Mode, p: Packet): Move
    requires Sized(p)
  {
    match mode
    case WaitForFwUpdateReq => if IsUpdateRequest(p) then AcceptRequest else Refuse
    case DeviceIdRes => if NamesThisDevice(p) then AcceptDevice else Refuse
    case FwLengthRes =>
      if IsFwLengthPacket(p) then
        if AnnouncedLength(p) <= MAX_FW_LENGTH then AcceptLength else RefuseLength
      else Refuse
    case _ => if IsChunk(p) then StoreChunk else Refuse
  }

  function Decide(b: Boot, now: nat): (m: Move)
    requires WellTyped(b)
    ensures TakesPacket(m) ==> HasPacket(b)
  {
    if Waits(b.mode) then
      if HasPacket(b) then DecideOnPacket(b.mode, b.link.queue[0])
      else if Fires(b.timer, now) then TimeOut
      else Idle
    else
      match b.mode
      case DeviceIdReq => AskDeviceId
      case FwLengthReq => AskLength
      case EraseApplication => EraseAll
      case _ => FallThrough
  }

  // The last chunk is in flash: check the image and tell the host.
  function Conclude(judge: Judge, b: Boot): Boot {
    match judge(b.flash)
    case Endless => b.(hung := true)
    case Genuine => Enter(Say(b, BL_PACKET_UPDATE_SUCCESSFUL_DATA0), Done)
    case Rejected => Enter(Say(b, BL_PACKET_NACK_DATA0), Done)
  }

  function Store(judge: Judge, b: Boot, p: Packet, now: nat): Boot
    requires Sized(p)
  {
    var c := Rearm(Program(b, ChunkOf(p)), now);
    if c.bytesWritten >= c.firmwareLength then Conclude(judge, c) else Say(c, BL_PACKET_READY_FOR_DATA_DATA0)
  }

  function Perform(judge: Judge, b: Boot, m: Move, now: nat): Boot
    requires WellTyped(b) && (TakesPacket(m) ==> HasPacket(b))
  {
    match m
    case Idle => b
    case TimeOut => Fail(b.(timer := Checked(b.timer, now)))
    case Refuse => Fail(Taken(b))
    case AcceptRequest => Rearm(Enter(Say(Taken(b), BL_PACKET_FW_UPDATE_RES_DATA0), DeviceIdReq), now)
    case AskDeviceId => Rearm(Enter(Say(b, BL_PACKET_DEVICE_ID_REQ_DATA0), DeviceIdRes), now)
    case AcceptDevice => Rearm(Enter(Taken(b), FwLengthReq), now)
    case AskLength => Rearm(Enter(Say(b, BL_PACKET_FW_LENGTH_REQ_DATA0), FwLengthRes), now)
    case RefuseLength => Fail(Taken(b).(firmwareLength := AnnouncedLength(b.link.queue[0])))
    case AcceptLength =>
      Rearm(Enter(Taken(b).(firmwareLength := AnnouncedLength(b.link.queue[0])), EraseApplication), now)
    case EraseAll => Rearm(Enter(Say(Erase(b), BL_PACKET_READY_FOR_DATA_DATA0), ReceiveFw), now)
    case StoreChunk => Store(judge, Taken(b), b.link.queue[0], now)
    case FallThrough => Enter(b, Sync)
  }

  function Switch(judge: Judge, b: Boot, now: nat): Boot
    requires WellTyped(b)
  {
    Perform(judge, b, Decide(b, now), now)
  }

  // ----- One turn of the main loop -----

  function Shifted(syncSeq: seq<bv8>, byte: bv8): seq<bv8>
    requires |syncSeq| == 4
  {
    [syncSeq[1], syncSeq[2], syncSeq[3], byte]
  }

  // The turn in state SYNC: one byte of the stream, or, on a match, all that waits.
  function SyncTurn(b: Boot, now: nat): Boot
    requires |b.syncSeq| == 4
  {
    if b.rx == [] then CheckForTimeout(b, now)
    else
      var c := b.(syncSeq := Shifted(b.syncSeq, b.rx[0]), rx := b.rx[1..]);
      if IsSyncSeq(c.syncSeq) then
        Rearm(Enter(Say(c.(rx := []), BL_PACKET_SYNC_OBSERVED_DATA0), WaitForFwUpdateReq), now)
      else CheckForTimeout(c, now)
  }

  // comms_update; at a breakpoint the rest of the bytes does not matter any more.
  function Drained(b: Boot): Boot
    requires Valid(b.link)
  {
    b.(link := Feed(b.link, b.rx), rx := [])
  }

  function Turn(judge: Judge, b: Boot, now: nat): Boot
    requires WellTyped(b)
  {
    if !Running(b) then b
    else if b.mode == Sync then SyncTurn(b, now)
    else if Drained(b).link.halted then Drained(b)
    else Switch(judge, Drained(b), now)
  }

  // The receive interrupt hands over a byte.
  function Arrival(b: Boot, byte: bv8): Boot { b.(rx := b.rx + [byte]) }

  // What follows the main loop.
  datatype Ending = Jump | ResetCore | Hang

  function EndingOf(judge: Judge, b: Boot): Ending {
    match judge(b.flash)
    case Genuine => Jump
    case Rejected => ResetCore
    case Endless => Hang
  }
}
