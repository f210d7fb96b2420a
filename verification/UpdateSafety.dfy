// In every run of the bootloader's main loop: the log passes the flash audit, the flash holds exactly
// what was programmed, and the host is told of success only if the image in flash is genuine.
module UpdateSafety {
  import opened Packets
  import opened SimpleTimer
  import opened Image
  import opened UpdateMachine
  import opened UpdateRuns
  import opened FlashAudit

  // ----- The log -----

  // What the audit must say in each mode.
  function Stage(b: Boot): Audit {
    match b.mode
    case Sync => Fresh
    case WaitForFwUpdateReq => Fresh
    case DeviceIdReq => Requested
    case DeviceIdRes => Requested
    case FwLengthReq => Identified
    case FwLengthRes => Identified
    case EraseApplication => Agreed(b.firmwareLength)
    case ReceiveFw => Written(b.firmwareLength, b.bytesWritten)
    case Done => Closed
  }

  // The loop has not ended, one way or another.
  predicate InLoop(b: Boot) { b.mode != Done && !b.hung }

  predicate LogInv(b: Boot) {
    && WellTyped(b) && Passes(b.log)
    && (InLoop(b) ==>
          && AuditOf(b.log) == Stage(b)
          && (b.mode != ReceiveFw ==> b.bytesWritten == 0)
          && (b.mode == ReceiveFw ==> b.bytesWritten < AtLeastOne(b.firmwareLength) && b.firmwareLength <= MAX_FW_LENGTH)
          && (b.mode == EraseApplication ==> b.firmwareLength <= MAX_FW_LENGTH))
  }

  // A state with the same log and the same place in the protocol.
  predicate SamePlace(b: Boot, c: Boot) {
    && c.log == b.log && c.mode == b.mode && c.hung == b.hung
    && c.firmwareLength == b.firmwareLength && c.bytesWritten == b.bytesWritten && c.flash == b.flash
  }

  lemma SamePlaceLogInv(b: Boot, c: Boot)
    requires LogInv(b) && SamePlace(b, c) && WellTyped(c)
    ensures LogInv(c)
  {}

  lemma FailLogInv(b: Boot)
    requires WellTyped(b) && Passes(b.log)
    ensures LogInv(Fail(b))
  {
    SayWellTyped(b, BL_PACKET_NACK_DATA0);
  }

  // A log with one more packet taken.
  lemma TakenLog(b: Boot)
    requires LogInv(b) && InLoop(b) && Waits(b.mode) && HasPacket(b)
    ensures WellTyped(Taken(b)) && Passes(Taken(b).log)
    ensures AuditOf(Taken(b).log) == Audited(Stage(b), Took(b.link.queue[0]))
  {
    TakenWellTyped(b);
    AuditSnoc(b.log, Took(b.link.queue[0]));
  }

  lemma RefuseLogInv(judge: Judge, b: Boot, now: nat)
    requires LogInv(b) && InLoop(b) && Waits(b.mode) && HasPacket(b)
    ensures LogInv(Perform(judge, b, Refuse, now)) && LogInv(Perform(judge, b, RefuseLength, now))
  {
    TakenLog(b);
    FailLogInv(Taken(b));
    FailLogInv(Taken(b).(firmwareLength := AnnouncedLength(b.link.queue[0])));
  }

  lemma AcceptLogInv(judge: Judge, b: Boot, m: Move, now: nat)
    requires LogInv(b) && InLoop(b) && Waits(b.mode) && HasPacket(b)
    requires m == DecideOnPacket(b.mode, b.link.queue[0])
    requires m == AcceptRequest || m == AcceptDevice || m == AcceptLength
    ensures LogInv(Perform(judge, b, m, now))
  {
    TakenLog(b);
    PerformWellTyped(judge, b, m, now);
  }

  lemma EraseLogInv(judge: Judge, b: Boot, now: nat)
    requires LogInv(b) && InLoop(b) && b.mode == EraseApplication
    ensures LogInv(Perform(judge, b, EraseAll, now))
  {
    AuditSnoc(b.log, Erased);
    PerformWellTyped(judge, b, EraseAll, now);
  }

  // The state once a chunk is in flash and before the machine looks at the total.
  function Stored(b: Boot, now: nat): Boot
    requires WellTyped(b) && HasPacket(b)
  {
    Rearm(Program(Taken(b), ChunkOf(b.link.queue[0])), now)
  }

  lemma StoredLog(b: Boot, now: nat)
    requires LogInv(b) && InLoop(b) && b.mode == ReceiveFw && HasPacket(b) && IsChunk(b.link.queue[0])
    ensures WellTyped(Stored(b, now))
    ensures AuditOf(Stored(b, now).log) == Written(b.firmwareLength, Stored(b, now).bytesWritten)
    ensures Stored(b, now).bytesWritten == b.bytesWritten + ChunkSize(b.link.queue[0].length)
  {
    TakenLog(b);
    AuditSnoc(Taken(b).log, Programmed(b.bytesWritten, ChunkOf(b.link.queue[0])));
  }

  lemma ConcludeLogInv(judge: Judge, b: Boot)
    requires WellTyped(b) && Passes(b.log)
    ensures LogInv(Conclude(judge, b))
  {
    SayWellTyped(b, BL_PACKET_UPDATE_SUCCESSFUL_DATA0);
    SayWellTyped(b, BL_PACKET_NACK_DATA0);
  }

  lemma StoreLogInv(judge: Judge, b: Boot, now: nat)
    requires LogInv(b) && InLoop(b) && b.mode == ReceiveFw && HasPacket(b) && IsChunk(b.link.queue[0])
    ensures LogInv(Perform(judge, b, StoreChunk, now))
  {
    var c := Stored(b, now);
    StoredLog(b, now);
    ConcludeLogInv(judge, c);
    SayWellTyped(c, BL_PACKET_READY_FOR_DATA_DATA0);
  }

  lemma SwitchLogInv(judge: Judge, b: Boot, now: nat)
    requires LogInv(b) && InLoop(b) && b.mode != Sync
    ensures LogInv(Switch(judge, b, now))
  {
    var m := Decide(b, now);
    MovesOf(b, now);
    if m == Refuse || m == RefuseLength {
      RefuseLogInv(judge, b, now);
    } else if m == AcceptRequest || m == AcceptDevice || m == AcceptLength {
      AcceptLogInv(judge, b, m, now);
    } else if m == EraseAll {
      EraseLogInv(judge, b, now);
    } else if m == StoreChunk {
      StoreLogInv(judge, b, now);
    } else if m == TimeOut {
      FailLogInv(b.(timer := Checked(b.timer, now)));
    } else {
      PerformWellTyped(judge, b, m, now);
    }
  }

  lemma SyncLogInv(b: Boot, now: nat)
    requires LogInv(b) && InLoop(b) && b.mode == Sync
    ensures LogInv(SyncTurn(b, now))
  {
    SyncTurnWellTyped(b, now);
  }

  lemma StepLogInv(judge: Judge, b: Boot, a: Action)
    requires LogInv(b)
    ensures LogInv(Step(judge, b, a))
  {
    if a.Arrive? {
      SamePlaceLogInv(b, Arrival(b, a.byte));
    } else if Running(b) {
      if b.mode == Sync {
        SyncLogInv(b, a.now);
      } else {
        SamePlaceLogInv(b, Drained(b));
        if !Drained(b).link.halted {
          SwitchLogInv(judge, Drained(b), a.now);
        }
      }
    }
  }

  lemma InitialLogInv(flash: seq<bv8>, start: nat)
    requires |flash| == APP_FLASH_SIZE
    ensures LogInv(Initial(flash, start))
  {}

  // In every run, the log passes the audit, so that FlashAudit's theorems hold of it: one erase after the
  // handshake, contiguous and disjoint writes that stay inside the erased sectors.
  lemma {:induction false} EveryRunPassesAudit(judge: Judge, flash: seq<bv8>, start: nat, actions: seq<Action>)
    requires |flash| == APP_FLASH_SIZE
    ensures LogInv(Run(judge, flash, start, actions)) && Passes(Run(judge, flash, start, actions).log)
  {
    if actions == [] {
      InitialLogInv(flash, start);
    } else {
      var n := |actions| - 1;
      EveryRunPassesAudit(judge, flash, start, actions[..n]);
      StepLogInv(judge, Run(judge, flash, start, actions[..n]), actions[n]);
    }
  }
}
