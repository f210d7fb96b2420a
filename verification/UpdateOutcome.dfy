// What a run of the bootloader's main loop leaves behind: the contents of the flash, and when the host is
// told that the update was successful.
module UpdateOutcome {
  import opened Packets
  import opened Link
  import opened SimpleTimer
  import opened UpdateMachine
  import opened UpdateRuns
  import opened FlashAudit
  import opened UpdateSafety

  // ----- The contents of the flash -----

  // The flash is as it was, or it holds the programmed bytes and is blank after them.
  ghost predicate Shows(flash: seq<bv8>, before: seq<bv8>, log: seq<Event>) {
    && |flash| == APP_FLASH_SIZE
    && if HasErased(log) then
         && Payload(log) <= flash
         && forall i :: |Payload(log)| <= i < |flash| ==> flash[i] == 0xff
       else flash == before && Payload(log) == []
  }

  ghost predicate FlashInv(before: seq<bv8>, b: Boot) {
    LogInv(b) && Shows(b.flash, before, b.log) && b.bytesWritten == |Payload(b.log)|
  }

  lemma PayloadSnoc(log: seq<Event>, e: Event)
    ensures Payload(log + [e]) == Payload(log) + (match e case Programmed(_, bytes) => bytes case _ => [])
    ensures HasErased(log + [e]) == (e.Erased? || HasErased(log))
  {
    assert (log + [e])[..|log|] == log;
  }

  lemma AndWithBlank(x: bv8)
    ensures BitwiseAnd(0xff, x) == x
  {}

  // Programming blank cells stores the bytes exactly.
  lemma ProgramBlank(flash: seq<bv8>, offset: nat, bytes: seq<bv8>)
    requires offset + |bytes| <= |flash|
    requires forall i :: offset <= i < |flash| ==> flash[i] == 0xff
    ensures flash[..offset] + bytes <= ProgramCells(flash, offset, bytes)
    ensures forall i :: offset + |bytes| <= i < |flash| ==> ProgramCells(flash, offset, bytes)[i] == 0xff
  {
    forall i | 0 <= i < |bytes| ensures ProgramCells(flash, offset, bytes)[offset + i] == bytes[i] {
      AndWithBlank(bytes[i]);
    }
  }

  lemma ShowsAfterTook(flash: seq<bv8>, before: seq<bv8>, log: seq<Event>, p: Packet)
    requires Shows(flash, before, log)
    ensures Shows(flash, before, log + [Took(p)]) && Payload(log + [Took(p)]) == Payload(log)
  {
    PayloadSnoc(log, Took(p));
  }

  lemma ShowsAfterErase(flash: seq<bv8>, before: seq<bv8>, log: seq<Event>)
    requires Shows(flash, before, log) && !HasErased(log)
    ensures Shows(seq(|flash|, _ => 0xff), before, log + [Erased]) && Payload(log + [Erased]) == []
  {
    PayloadSnoc(log, Erased);
  }

  lemma ShowsAfterProgram(flash: seq<bv8>, before: seq<bv8>, log: seq<Event>, bytes: seq<bv8>)
    requires Shows(flash, before, log) && HasErased(log) && |Payload(log)| + |bytes| <= |flash|
    ensures var e := Programmed(|Payload(log)|, bytes);
      && Shows(ProgramCells(flash, |Payload(log)|, bytes), before, log + [e])
      && |Payload(log + [e])| == |Payload(log)| + |bytes|
  {
    PayloadSnoc(log, Programmed(|Payload(log)|, bytes));
    ProgramBlank(flash, |Payload(log)|, bytes);
    assert flash[..|Payload(log)|] == Payload(log);
  }

  // Most moves leave the flash alone.
  lemma QuietMove(judge: Judge, b: Boot, m: Move, now: nat)
    requires WellTyped(b) && (TakesPacket(m) ==> HasPacket(b)) && m != EraseAll && m != StoreChunk
    ensures var c := Perform(judge, b, m, now);
      && c.flash == b.flash && c.bytesWritten == b.bytesWritten
      && c.log == if TakesPacket(m) then b.log + [Took(b.link.queue[0])] else b.log
  {}

  lemma QuietMoveFlashInv(judge: Judge, before: seq<bv8>, b: Boot, m: Move, now: nat)
    requires FlashInv(before, b) && (TakesPacket(m) ==> HasPacket(b)) && m != EraseAll && m != StoreChunk
    requires LogInv(Perform(judge, b, m, now))
    ensures FlashInv(before, Perform(judge, b, m, now))
  {
    QuietMove(judge, b, m, now);
    if TakesPacket(m) {
      ShowsAfterTook(b.flash, before, b.log, b.link.queue[0]);
    }
  }

  lemma EraseFlashInv(judge: Judge, before: seq<bv8>, b: Boot, now: nat)
    requires FlashInv(before, b) && InLoop(b) && b.mode == EraseApplication
    requires LogInv(Perform(judge, b, EraseAll, now))
    ensures FlashInv(before, Perform(judge, b, EraseAll, now))
  {
    PassedLogTallies(b.log);
    ShowsAfterErase(b.flash, before, b.log);
  }

  lemma StoredFlash(before: seq<bv8>, b: Boot, now: nat)
    requires FlashInv(before, b) && InLoop(b) && b.mode == ReceiveFw && HasPacket(b) && IsChunk(b.link.queue[0])
    ensures WellTyped(Stored(b, now)) && Shows(Stored(b, now).flash, before, Stored(b, now).log)
    ensures Stored(b, now).bytesWritten == |Payload(Stored(b, now).log)|
  {
    var p := b.link.queue[0];
    StoredLog(b, now);
    PassedLogTallies(b.log);
    ShowsAfterTook(b.flash, before, b.log, p);
    PayloadSnoc(b.log, Took(p));
    ShowsAfterProgram(b.flash, before, Taken(b).log, ChunkOf(p));
  }

  // Judging the image and reporting change neither flash nor log.
  lemma StoreKeepsStored(judge: Judge, b: Boot, now: nat)
    requires WellTyped(b) && HasPacket(b)
    ensures var c, d := Stored(b, now), Perform(judge, b, StoreChunk, now);
      d.flash == c.flash && d.log == c.log && d.bytesWritten == c.bytesWritten
  {}

  lemma StoreFlashInv(judge: Judge, before: seq<bv8>, b: Boot, now: nat)
    requires FlashInv(before, b) && InLoop(b) && b.mode == ReceiveFw && HasPacket(b) && IsChunk(b.link.queue[0])
    requires LogInv(Perform(judge, b, StoreChunk, now))
    ensures FlashInv(before, Perform(judge, b, StoreChunk, now))
  {
    StoredFlash(before, b, now);
    StoreKeepsStored(judge, b, now);
  }

  lemma SwitchFlashInv(judge: Judge, before: seq<bv8>, b: Boot, now: nat)
    requires FlashInv(before, b) && InLoop(b) && b.mode != Sync
    ensures FlashInv(before, Switch(judge, b, now))
  {
    var m := Decide(b, now);
    MovesOf(b, now);
    SwitchLogInv(judge, b, now);
    if m == EraseAll {
      EraseFlashInv(judge, before, b, now);
    } else if m == StoreChunk {
      StoreFlashInv(judge, before, b, now);
    } else {
      QuietMoveFlashInv(judge, before, b, m, now);
    }
  }

  lemma StepFlashInv(judge: Judge, before: seq<bv8>, b: Boot, a: Action)
    requires FlashInv(before, b)
    ensures FlashInv(before, Step(judge, b, a))
  {
    StepLogInv(judge, b, a);
    if a.Go? && Running(b) && b.mode != Sync && !Drained(b).link.halted {
      SamePlaceLogInv(b, Drained(b));
      SwitchFlashInv(judge, before, Drained(b), a.now);
    }
  }

  // In every run the flash is what it was at power-up, or holds exactly the programmed bytes, one after
  // the other from MAIN_APP_START_ADDRESS, and is blank after them.
  lemma {:induction false} FlashHoldsPayload(judge: Judge, flash: seq<bv8>, start: nat, actions: seq<Action>)
    requires |flash| == APP_FLASH_SIZE
    ensures FlashInv(flash, Run(judge, flash, start, actions))
  {
    if actions == [] {
      InitialLogInv(flash, start);
    } else {
      var n := |actions| - 1;
      FlashHoldsPayload(judge, flash, start, actions[..n]);
      StepFlashInv(judge, flash, Run(judge, flash, start, actions[..n]), actions[n]);
    }
  }

  // ----- UPDATE_SUCCESSFUL -----

  predicate NoSuccess(l: Link) { Success() !in l.sent && l.last != Success() }

  lemma SinglesDiffer(a: bv8, b: bv8)
    requires a != b
    ensures Single(a) != Single(b)
  {
    assert Single(a).data[0] != Single(b).data[0];
  }

  lemma SendNoSuccess(l: Link, p: Packet)
    requires NoSuccess(l) && p != Success()
    ensures NoSuccess(Send(l, p))
  {}

  lemma HandleNoSuccess(l: Link)
    requires NoSuccess(l)
    ensures NoSuccess(HandlePacket(l))
  {
    SinglesDiffer(PACKET_ACK_DATA0, BL_PACKET_UPDATE_SUCCESSFUL_DATA0);
    SinglesDiffer(PACKET_RETX_DATA0, BL_PACKET_UPDATE_SUCCESSFUL_DATA0);
  }

  lemma {:induction false} FeedNoSuccess(l: Link, bytes: seq<bv8>)
    requires Valid(l) && NoSuccess(l)
    ensures NoSuccess(Feed(l, bytes))
  {
    if bytes != [] {
      var l1, byte := Feed(l, bytes[..|bytes| - 1]), bytes[|bytes| - 1];
      FeedNoSuccess(l, bytes[..|bytes| - 1]);
      if l1.phase == AwaitCrc {
        HandleNoSuccess(l1.(temp := l1.temp.(crc := byte)));
      }
    }
  }

  // All of the announced image has been programmed.
  predicate Complete(log: seq<Event>) {
    AuditOf(log).Written? && AuditOf(log).next >= AtLeastOne(AuditOf(log).length)
  }

  predicate ReportsTruly(judge: Judge, b: Boot) {
    if b.mode == Done then Success() in b.link.sent <==> Complete(b.log) && judge(b.flash) == Genuine
    else NoSuccess(b.link)
  }

  lemma SayNoSuccess(b: Boot, byte: bv8)
    requires NoSuccess(b.link) && byte != BL_PACKET_UPDATE_SUCCESSFUL_DATA0
    ensures NoSuccess(Say(b, byte).link)
  {
    SinglesDiffer(byte, BL_PACKET_UPDATE_SUCCESSFUL_DATA0);
    SendNoSuccess(b.link, Single(byte));
  }

  lemma FailReports(judge: Judge, b: Boot)
    requires NoSuccess(b.link) && !Complete(b.log)
    ensures ReportsTruly(judge, Fail(b))
  {
    SayNoSuccess(b, BL_PACKET_NACK_DATA0);
  }

  lemma RefuseReports(judge: Judge, b: Boot, m: Move, now: nat)
    requires LogInv(b) && InLoop(b) && NoSuccess(b.link) && Waits(b.mode) && HasPacket(b)
    requires m == DecideOnPacket(b.mode, b.link.queue[0]) && (m == Refuse || m == RefuseLength)
    ensures ReportsTruly(judge, Perform(judge, b, m, now))
  {
    TakenLog(b);
    FailReports(judge, Taken(b));
    FailReports(judge, Taken(b).(firmwareLength := AnnouncedLength(b.link.queue[0])));
  }

  lemma ConcludeReports(judge: Judge, b: Boot)
    requires NoSuccess(b.link) && b.mode == ReceiveFw && Complete(b.log)
    ensures ReportsTruly(judge, Conclude(judge, b))
  {
    SayNoSuccess(b, BL_PACKET_NACK_DATA0);
  }

  lemma StoreReports(judge: Judge, b: Boot, now: nat)
    requires LogInv(b) && InLoop(b) && NoSuccess(b.link)
    requires b.mode == ReceiveFw && HasPacket(b) && IsChunk(b.link.queue[0])
    ensures ReportsTruly(judge, Perform(judge, b, StoreChunk, now))
  {
    var c := Stored(b, now);
    StoredLog(b, now);
    if c.bytesWritten >= c.firmwareLength {
      ConcludeReports(judge, c);
    } else {
      SayNoSuccess(c, BL_PACKET_READY_FOR_DATA_DATA0);
    }
  }

  lemma AdvanceReports(judge: Judge, b: Boot, m: Move, now: nat)
    requires WellTyped(b) && b.mode != Done && NoSuccess(b.link) && (TakesPacket(m) ==> HasPacket(b))
    requires m == AcceptRequest || m == AskDeviceId || m == AcceptDevice || m == AskLength || m == AcceptLength
          || m == EraseAll || m == Idle
    ensures ReportsTruly(judge, Perform(judge, b, m, now))
  {
    match m
    case AcceptRequest => SayNoSuccess(Taken(b), BL_PACKET_FW_UPDATE_RES_DATA0);
    case AskDeviceId => SayNoSuccess(b, BL_PACKET_DEVICE_ID_REQ_DATA0);
    case AskLength => SayNoSuccess(b, BL_PACKET_FW_LENGTH_REQ_DATA0);
    case EraseAll => SayNoSuccess(Erase(b), BL_PACKET_READY_FOR_DATA_DATA0);
    case _ =>
  }

  lemma SwitchReports(judge: Judge, b: Boot, now: nat)
    requires LogInv(b) && InLoop(b) && b.mode != Sync && NoSuccess(b.link)
    ensures ReportsTruly(judge, Switch(judge, b, now))
  {
    var m := Decide(b, now);
    MovesOf(b, now);
    if m == Refuse || m == RefuseLength {
      RefuseReports(judge, b, m, now);
    } else if m == StoreChunk {
      StoreReports(judge, b, now);
    } else if m == TimeOut {
      FailReports(judge, b.(timer := Checked(b.timer, now)));
    } else {
      AdvanceReports(judge, b, m, now);
    }
  }

  lemma SyncReports(judge: Judge, b: Boot, now: nat)
    requires LogInv(b) && InLoop(b) && b.mode == Sync && NoSuccess(b.link)
    ensures ReportsTruly(judge, SyncTurn(b, now))
  {}

  lemma StepReports(judge: Judge, b: Boot, a: Action)
    requires LogInv(b) && ReportsTruly(judge, b)
    ensures ReportsTruly(judge, Step(judge, b, a))
  {
    if a.Go? && Running(b) {
      if b.mode == Sync {
        SyncReports(judge, b, a.now);
      } else {
        FeedNoSuccess(b.link, b.rx);
        SamePlaceLogInv(b, Drained(b));
        if !Drained(b).link.halted {
          SwitchReports(judge, Drained(b), a.now);
        }
      }
    }
  }

  lemma {:induction false} EveryRunReportsTruly(judge: Judge, flash: seq<bv8>, start: nat, actions: seq<Action>)
    requires |flash| == APP_FLASH_SIZE
    ensures LogInv(Run(judge, flash, start, actions)) && ReportsTruly(judge, Run(judge, flash, start, actions))
  {
    if actions == [] {
      InitialLogInv(flash, start);
    } else {
      var n := |actions| - 1;
      EveryRunReportsTruly(judge, flash, start, actions[..n]);
      StepLogInv(judge, Run(judge, flash, start, actions[..n]), actions[n]);
      StepReports(judge, Run(judge, flash, start, actions[..n]), actions[n]);
    }
  }

  // UPDATE_SUCCESSFUL is sent exactly in those runs that end with a complete and genuine image in flash,
  // and those runs go on to the jump.
  lemma SuccessMeansJump(judge: Judge, flash: seq<bv8>, start: nat, actions: seq<Action>)
    requires |flash| == APP_FLASH_SIZE
    ensures var b := Run(judge, flash, start, actions);
      && (Success() in b.link.sent <==> b.mode == Done && Complete(b.log) && judge(b.flash) == Genuine)
      && (Success() in b.link.sent ==> EndingOf(judge, b) == Jump)
  {
    EveryRunReportsTruly(judge, flash, start, actions);
  }

  // ----- The endless check and the breakpoint -----

  // The machine hangs in the check of the image exactly if the announced image is complete and its check does
  // not end; and it stops at a breakpoint only if a packet came when the packet ring was full.
  predicate StopsTruly(judge: Judge, b: Boot) {
    && (b.hung <==> Complete(b.log) && judge(b.flash) == Endless)
    && (b.hung ==> b.mode == ReceiveFw)
    && (b.link.halted ==> |b.link.queue| == QUEUE_CAPACITY)
  }

  lemma HaltsWhenFull(l: Link, byte: bv8)
    requires Valid(l) && !l.halted
    ensures FeedByte(l, byte).halted ==> |FeedByte(l, byte).queue| == QUEUE_CAPACITY
  {}

  lemma {:induction false} FeedHaltsWhenFull(l: Link, bytes: seq<bv8>)
    requires Valid(l) && (l.halted ==> |l.queue| == QUEUE_CAPACITY)
    ensures Feed(l, bytes).halted ==> |Feed(l, bytes).queue| == QUEUE_CAPACITY
  {
    if bytes != [] {
      var l1, byte := Feed(l, bytes[..|bytes| - 1]), bytes[|bytes| - 1];
      FeedHaltsWhenFull(l, bytes[..|bytes| - 1]);
      if !l1.halted {
        HaltsWhenFull(l1, byte);
      }
    }
  }

  // While the loop goes on, the image is not complete.
  lemma IncompleteInLoop(b: Boot)
    requires LogInv(b) && InLoop(b)
    ensures !Complete(b.log)
  {}

  lemma QuietMoveStops(judge: Judge, b: Boot, m: Move, now: nat)
    requires LogInv(b) && InLoop(b) && !b.link.halted && (TakesPacket(m) ==> HasPacket(b) && Waits(b.mode))
    requires m != EraseAll && m != StoreChunk
    ensures StopsTruly(judge, Perform(judge, b, m, now))
  {
    QuietMove(judge, b, m, now);
    IncompleteInLoop(b);
    if TakesPacket(m) {
      TakenLog(b);
    }
  }

  lemma EraseStops(judge: Judge, b: Boot, now: nat)
    requires LogInv(b) && InLoop(b) && !b.link.halted && b.mode == EraseApplication
    ensures StopsTruly(judge, Perform(judge, b, EraseAll, now))
  {
    AuditSnoc(b.log, Erased);
  }

  lemma StoreStops(judge: Judge, b: Boot, now: nat)
    requires LogInv(b) && InLoop(b) && !b.link.halted && b.mode == ReceiveFw && HasPacket(b) && IsChunk(b.link.queue[0])
    ensures StopsTruly(judge, Perform(judge, b, StoreChunk, now))
  {
    StoredLog(b, now);
  }

  lemma SwitchStops(judge: Judge, b: Boot, now: nat)
    requires LogInv(b) && InLoop(b) && !b.link.halted && b.mode != Sync
    ensures StopsTruly(judge, Switch(judge, b, now))
  {
    var m := Decide(b, now);
    MovesOf(b, now);
    if m == EraseAll {
      EraseStops(judge, b, now);
    } else if m == StoreChunk {
      StoreStops(judge, b, now);
    } else {
      QuietMoveStops(judge, b, m, now);
    }
  }

  lemma StepStops(judge: Judge, b: Boot, a: Action)
    requires LogInv(b) && StopsTruly(judge, b)
    ensures StopsTruly(judge, Step(judge, b, a))
  {
    if a.Go? && Running(b) && b.mode != Sync {
      FeedHaltsWhenFull(b.link, b.rx);
      SamePlaceLogInv(b, Drained(b));
      if !Drained(b).link.halted {
        SwitchStops(judge, Drained(b), a.now);
      }
    }
  }

  lemma {:induction false} EveryRunStopsTruly(judge: Judge, flash: seq<bv8>, start: nat, actions: seq<Action>)
    requires |flash| == APP_FLASH_SIZE
    ensures LogInv(Run(judge, flash, start, actions)) && StopsTruly(judge, Run(judge, flash, start, actions))
  {
    if actions == [] {
      InitialLogInv(flash, start);
    } else {
      var n := |actions| - 1;
      EveryRunStopsTruly(judge, flash, start, actions[..n]);
      StepLogInv(judge, Run(judge, flash, start, actions[..n]), actions[n]);
      StepStops(judge, Run(judge, flash, start, actions[..n]), actions[n]);
    }
  }
}
