// Safety of the bootloader's main loop over whole runs: any bytes, at any times, in any number.
module UpdateRuns {
  import opened Packets
  import opened Link
  import opened SimpleTimer
  import opened UpdateMachine

  // A byte received, or a turn of the loop at a given time.
  datatype Action = Arrive(byte: bv8) | Go(now: nat)

  function Step(judge: Judge, b: Boot, a: Action): Boot
    requires WellTyped(b)
  {
    match a
    case Arrive(byte) => Arrival(b, byte)
    case Go(now) => Turn(judge, b, now)
  }

  // ----- Every state of every run is well typed -----

  lemma SendValid(l: Link, p: Packet)
    requires Valid(l) && Sized(p)
    ensures Valid(Send(l, p))
  {}

  lemma TakenWellTyped(b: Boot)
    requires WellTyped(b) && HasPacket(b)
    ensures WellTyped(Taken(b)) && Sized(b.link.queue[0])
  {}

  lemma SayWellTyped(b: Boot, byte: bv8)
    requires WellTyped(b)
    ensures WellTyped(Say(b, byte))
  {
    SendValid(b.link, Single(byte));
  }

  lemma CheckWellTyped(b: Boot, now: nat)
    requires WellTyped(b)
    ensures WellTyped(CheckForTimeout(b, now))
  {
    SayWellTyped(b.(timer := Checked(b.timer, now)), BL_PACKET_NACK_DATA0);
  }

  lemma StoreWellTyped(judge: Judge, b: Boot, p: Packet, now: nat)
    requires WellTyped(b) && Sized(p)
    ensures WellTyped(Store(judge, b, p, now))
  {
    var c := Rearm(Program(b, ChunkOf(p)), now);
    SayWellTyped(c, BL_PACKET_UPDATE_SUCCESSFUL_DATA0);
    SayWellTyped(c, BL_PACKET_NACK_DATA0);
    SayWellTyped(c, BL_PACKET_READY_FOR_DATA_DATA0);
  }

  lemma PerformWellTyped(judge: Judge, b: Boot, m: Move, now: nat)
    requires WellTyped(b) && (TakesPacket(m) ==> HasPacket(b))
    ensures WellTyped(Perform(judge, b, m, now))
  {
    if TakesPacket(m) {
      TakenWellTyped(b);
    }
    match m
    case Idle =>
    case FallThrough =>
    case AcceptDevice =>
    case AcceptLength =>
    case TimeOut => SayWellTyped(b.(timer := Checked(b.timer, now)), BL_PACKET_NACK_DATA0);
    case Refuse => SayWellTyped(Taken(b), BL_PACKET_NACK_DATA0);
    case AcceptRequest => SayWellTyped(Taken(b), BL_PACKET_FW_UPDATE_RES_DATA0);
    case AskDeviceId => SayWellTyped(b, BL_PACKET_DEVICE_ID_REQ_DATA0);
    case AskLength => SayWellTyped(b, BL_PACKET_FW_LENGTH_REQ_DATA0);
    case RefuseLength =>
      SayWellTyped(Taken(b).(firmwareLength := AnnouncedLength(b.link.queue[0])), BL_PACKET_NACK_DATA0);
    case EraseAll => SayWellTyped(Erase(b), BL_PACKET_READY_FOR_DATA_DATA0);
    case StoreChunk => StoreWellTyped(judge, Taken(b), b.link.queue[0], now);
  }

  lemma SyncTurnWellTyped(b: Boot, now: nat)
    requires WellTyped(b)
    ensures WellTyped(SyncTurn(b, now))
  {
    CheckWellTyped(b, now);
    if b.rx != [] {
      var c := b.(syncSeq := Shifted(b.syncSeq, b.rx[0]), rx := b.rx[1..]);
      CheckWellTyped(c, now);
      SayWellTyped(c.(rx := []), BL_PACKET_SYNC_OBSERVED_DATA0);
    }
  }

  lemma StepWellTyped(judge: Judge, b: Boot, a: Action)
    requires WellTyped(b)
    ensures WellTyped(Step(judge, b, a))
  {
    if a.Go? {
      SyncTurnWellTyped(b, a.now);
      PerformWellTyped(judge, Drained(b), Decide(Drained(b), a.now), a.now);
    }
  }

  // The state after a run of the loop from power-up.
  function Run(judge: Judge, flash: seq<bv8>, start: nat, actions: seq<Action>): (b: Boot)
    requires |flash| == APP_FLASH_SIZE
    ensures WellTyped(b)
  {
    if actions == [] then Initial(flash, start)
    else
      var before := Run(judge, flash, start, actions[..|actions| - 1]);
      StepWellTyped(judge, before, actions[|actions| - 1]);
      Step(judge, before, actions[|actions| - 1])
  }

  lemma RunOneMore(judge: Judge, flash: seq<bv8>, start: nat, actions: seq<Action>, a: Action)
    requires |flash| == APP_FLASH_SIZE
    ensures Run(judge, flash, start, actions + [a]) == Step(judge, Run(judge, flash, start, actions), a)
  {
    assert (actions + [a])[..|actions|] == actions;
  }

  // ----- The state rank -----

  // The moves of the modes that the switch is reached with.
  lemma MovesOf(b: Boot, now: nat)
    requires WellTyped(b) && b.mode != Sync && b.mode != Done
    ensures var m := Decide(b, now); match b.mode
      case DeviceIdReq => m == AskDeviceId
      case FwLengthReq => m == AskLength
      case EraseApplication => m == EraseAll
      case WaitForFwUpdateReq => m == Idle || m == TimeOut || m == Refuse || m == AcceptRequest
      case DeviceIdRes => m == Idle || m == TimeOut || m == Refuse || m == AcceptDevice
      case FwLengthRes => m == Idle || m == TimeOut || m == Refuse || m == RefuseLength || m == AcceptLength
      case _ => m == Idle || m == TimeOut || m == Refuse || m == StoreChunk
  {}

  // The mode that a move leads to.
  lemma ModeAfter(judge: Judge, b: Boot, m: Move, now: nat)
    requires WellTyped(b) && (TakesPacket(m) ==> HasPacket(b))
    ensures var mode := Perform(judge, b, m, now).mode; match m
      case Idle => mode == b.mode
      case AcceptRequest => mode == DeviceIdReq
      case AskDeviceId => mode == DeviceIdRes
      case AcceptDevice => mode == FwLengthReq
      case AskLength => mode == FwLengthRes
      case AcceptLength => mode == EraseApplication
      case EraseAll => mode == ReceiveFw
      case StoreChunk => mode == b.mode || mode == Done
      case FallThrough => mode == Sync
      case _ => mode == Done
  {}

  lemma SwitchRank(judge: Judge, b: Boot, now: nat)
    requires WellTyped(b) && b.mode != Sync && b.mode != Done
    ensures Rank(b.mode) <= Rank(Switch(judge, b, now).mode)
    ensures Decide(b, now) != FallThrough
  {
    MovesOf(b, now);
    ModeAfter(judge, b, Decide(b, now), now);
  }

  lemma StepRank(judge: Judge, b: Boot, a: Action)
    requires WellTyped(b)
    ensures Rank(b.mode) <= Rank(Step(judge, b, a).mode)
  {
    if a.Go? && b.mode != Sync && b.mode != Done {
      SwitchRank(judge, Drained(b), a.now);
    }
  }

  // The rank never decreases along a run; with SwitchRank, no turn falls into the default label.
  lemma {:induction false} RankNeverFalls(judge: Judge, flash: seq<bv8>, start: nat, actions: seq<Action>, i: nat)
    requires |flash| == APP_FLASH_SIZE && i <= |actions|
    ensures Rank(Run(judge, flash, start, actions[..i]).mode) <= Rank(Run(judge, flash, start, actions).mode)
  {
    var n := |actions|;
    if i == n {
      assert actions[..i] == actions;
    } else {
      assert actions[..n - 1][..i] == actions[..i];
      RankNeverFalls(judge, flash, start, actions[..n - 1], i);
      StepRank(judge, Run(judge, flash, start, actions[..n - 1]), actions[n - 1]);
    }
  }
}
