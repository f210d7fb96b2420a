// What a device tells the updater at the end of a run, and what each turn of its main loop does about its
// deadline: turns of any run, whatever has been received.
module UpdateReports {
  import opened Packets
  import opened Link
  import opened SimpleTimer
  import opened UpdateMachine
  import opened UpdateRuns
  import opened UpdateSafety
  import opened UpdateOutcome

  // ----- The last word -----

  predicate LastIs(sent: seq<Packet>, p: Packet) { sent != [] && sent[|sent| - 1] == p }

  // A device that has left its loop has said so, and last of all.
  predicate EndReported(b: Boot) {
    b.mode == Done ==> LastIs(b.link.sent, Success()) || (LastIs(b.link.sent, Nack()) && Success() !in b.link.sent)
  }

  lemma NackIsNoSuccess()
    ensures Nack() != Success()
  {
    SinglesDiffer(BL_PACKET_NACK_DATA0, BL_PACKET_UPDATE_SUCCESSFUL_DATA0);
  }

  lemma SayingEnds(b: Boot, c: Boot, p: Packet)
    requires NoSuccess(b.link) && c.link.sent == b.link.sent + [p] && (p == Success() || p == Nack())
    ensures EndReported(c)
  {
    NackIsNoSuccess();
  }

  // c has sent one more packet, and that is a verdict.
  predicate SaysVerdict(b: Boot, c: Boot) {
    c.link.sent == b.link.sent + [Success()] || c.link.sent == b.link.sent + [Nack()]
  }

  lemma StoringEnds(judge: Judge, b: Boot, p: Packet, now: nat)
    requires Sized(p) && b.mode != Done && Store(judge, b, p, now).mode == Done
    ensures SaysVerdict(b, Store(judge, b, p, now))
  {}

  // What a move that ends the loop sends.
  lemma EndingMove(judge: Judge, b: Boot, m: Move, now: nat)
    requires WellTyped(b) && b.mode != Done && (TakesPacket(m) ==> HasPacket(b)) && Perform(judge, b, m, now).mode == Done
    ensures SaysVerdict(b, Perform(judge, b, m, now))
  {
    if m == StoreChunk {
      TakenWellTyped(b);
      StoringEnds(judge, Taken(b), b.link.queue[0], now);
    }
  }

  lemma SyncEnds(b: Boot, now: nat)
    requires WellTyped(b) && b.mode == Sync && NoSuccess(b.link)
    ensures EndReported(SyncTurn(b, now))
  {
    var c := SyncTurn(b, now);
    if c.mode == Done {
      SayingEnds(b, c, Nack());
    }
  }

  lemma SwitchEnds(judge: Judge, b: Boot, now: nat)
    requires WellTyped(b) && b.mode != Done && NoSuccess(b.link)
    ensures EndReported(Switch(judge, b, now))
  {
    var c := Switch(judge, b, now);
    if c.mode == Done {
      EndingMove(judge, b, Decide(b, now), now);
      SayingEnds(b, c, c.link.sent[|b.link.sent|]);
    }
  }

  lemma StepEnds(judge: Judge, b: Boot, a: Action)
    requires LogInv(b) && ReportsTruly(judge, b) && EndReported(b)
    ensures EndReported(Step(judge, b, a))
  {
    if a.Go? && Running(b) {
      if b.mode == Sync {
        SyncEnds(b, a.now);
      } else {
        FeedNoSuccess(b.link, b.rx);
        if !Drained(b).link.halted {
          SwitchEnds(judge, Drained(b), a.now);
        }
      }
    }
  }

  lemma {:induction false} EndsReported(judge: Judge, flash: seq<bv8>, start: nat, actions: seq<Action>)
    requires |flash| == APP_FLASH_SIZE
    ensures EndReported(Run(judge, flash, start, actions))
  {
    if actions != [] {
      var n := |actions| - 1;
      EndsReported(judge, flash, start, actions[..n]);
      EveryRunReportsTruly(judge, flash, start, actions[..n]);
      StepEnds(judge, Run(judge, flash, start, actions[..n]), actions[n]);
    }
  }

  // The last packet of a device that has left its loop is UPDATE_SUCCESSFUL if all of a genuine image is in flash,
  // and NACK otherwise.
  lemma EveryEndIsReported(judge: Judge, flash: seq<bv8>, start: nat, actions: seq<Action>)
    requires |flash| == APP_FLASH_SIZE && Run(judge, flash, start, actions).mode == Done
    ensures var b := Run(judge, flash, start, actions);
      LastIs(b.link.sent, if Complete(b.log) && judge(b.flash) == Genuine then Success() else Nack())
  {
    EndsReported(judge, flash, start, actions);
    EveryRunReportsTruly(judge, flash, start, actions);
  }

  // ----- The timer -----

  // In its loop, the device has its one-shot timer armed for the default time.
  predicate TimerArmed(b: Boot) {
    InLoop(b) ==> b.timer == TimerState(DEFAULT_TIMEOUT_MS, b.timer.targetTime, false, false)
  }

  // The timer is armed anew if and only if the mode or the log has changed.
  predicate ArmsWhenMoving(b: Boot, c: Boot, now: nat) {
    c.mode != Done ==>
      if c.mode == b.mode && c.log == b.log then c.timer == b.timer && c.arms == b.arms
      else c.timer == TimerState(DEFAULT_TIMEOUT_MS, (now + DEFAULT_TIMEOUT_MS) % TWO_64, false, false) && c.arms == b.arms + 1
  }

  lemma LogGrows(log: seq<Event>, more: seq<Event>)
    requires more != []
    ensures log + more != log
  {
    assert |log + more| > |log|;
  }

  lemma StoreArmsTimer(judge: Judge, b: Boot, now: nat)
    requires WellTyped(b) && HasPacket(b) && InLoop(b) && TimerArmed(b)
    ensures ArmsWhenMoving(b, Perform(judge, b, StoreChunk, now), now)
  {
    LogGrows(b.log, [Took(b.link.queue[0])]);
    LogGrows(b.log, [Took(b.link.queue[0]), Programmed(b.bytesWritten, ChunkOf(b.link.queue[0]))]);
    StoreKeepsStored(judge, b, now);
  }

  lemma PerformArmsTimer(judge: Judge, b: Boot, now: nat)
    requires WellTyped(b) && b.mode != Sync && InLoop(b) && TimerArmed(b)
    ensures ArmsWhenMoving(b, Switch(judge, b, now), now)
  {
    MovesOf(b, now);
    if Decide(b, now) == StoreChunk {
      StoreArmsTimer(judge, b, now);
    }
  }

  lemma SyncArmsTimer(b: Boot, now: nat)
    requires WellTyped(b) && b.mode == Sync && InLoop(b) && TimerArmed(b)
    ensures ArmsWhenMoving(b, SyncTurn(b, now), now)
  {}

  lemma TurnArms(judge: Judge, b: Boot, now: nat)
    requires WellTyped(b) && Running(b) && TimerArmed(b)
    ensures ArmsWhenMoving(b, Turn(judge, b, now), now)
  {
    if b.mode == Sync {
      SyncArmsTimer(b, now);
    } else if !Drained(b).link.halted {
      PerformArmsTimer(judge, Drained(b), now);
    }
  }

  lemma StepArmed(judge: Judge, b: Boot, a: Action)
    requires WellTyped(b) && TimerArmed(b)
    ensures TimerArmed(Step(judge, b, a))
  {
    if a.Go? && Running(b) {
      TurnArms(judge, b, a.now);
    }
  }

  lemma {:induction false} RunArmed(judge: Judge, flash: seq<bv8>, start: nat, actions: seq<Action>)
    requires |flash| == APP_FLASH_SIZE
    ensures TimerArmed(Run(judge, flash, start, actions))
  {
    if actions != [] {
      var n := |actions| - 1;
      RunArmed(judge, flash, start, actions[..n]);
      StepArmed(judge, Run(judge, flash, start, actions[..n]), actions[n]);
    }
  }

  // A turn that goes on in the protocol arms the timer for 5000 more ticks; any other turn leaves it alone.
  lemma TurnArmsExactlyWhen(judge: Judge, flash: seq<bv8>, start: nat, actions: seq<Action>, now: nat)
    requires |flash| == APP_FLASH_SIZE && Running(Run(judge, flash, start, actions))
    ensures ArmsWhenMoving(Run(judge, flash, start, actions), Run(judge, flash, start, actions + [Go(now)]), now)
  {
    RunOneMore(judge, flash, start, actions, Go(now));
    RunArmed(judge, flash, start, actions);
    TurnArms(judge, Run(judge, flash, start, actions), now);
  }

  // ----- The deadline -----

  // What becomes of a device whose deadline is looked at, with the packet engine in state l: one NACK and the end
  // if it has passed, and nothing otherwise.
  predicate Overdue(b: Boot, l: Link, c: Boot, now: nat) {
    if b.timer.targetTime <= now then c.mode == Done && c.link.sent == l.sent + [Nack()] else c.mode == b.mode && c.link == l
  }

  // The device has taken in what it received, and there is nothing to take from the queue.
  predicate FindsNothing(b: Boot, l: Link)
    requires Valid(b.link)
  {
    if b.mode == Sync then b.rx == [] && l == b.link
    else Waits(b.mode) && l == Feed(b.link, b.rx) && l.queue == [] && !l.halted
  }

  lemma IdleTurn(judge: Judge, b: Boot, l: Link, now: nat)
    requires WellTyped(b) && Running(b) && TimerArmed(b) && FindsNothing(b, l)
    ensures Overdue(b, l, Turn(judge, b, now), now)
  {}

  // A turn that finds no packet, or in SYNC no byte: at or after the deadline it sends exactly one NACK and ends the
  // loop, and before the deadline it does nothing.
  lemma DeadlineTurn(judge: Judge, flash: seq<bv8>, start: nat, actions: seq<Action>, l: Link, now: nat)
    requires |flash| == APP_FLASH_SIZE && Running(Run(judge, flash, start, actions))
    requires FindsNothing(Run(judge, flash, start, actions), l)
    ensures Overdue(Run(judge, flash, start, actions), l, Run(judge, flash, start, actions + [Go(now)]), now)
  {
    RunOneMore(judge, flash, start, actions, Go(now));
    RunArmed(judge, flash, start, actions);
    IdleTurn(judge, Run(judge, flash, start, actions), l, now);
  }

  // ----- The sync sequence -----

  // The bytes received in a run.
  function Arrived(actions: seq<Action>): seq<bv8> {
    if actions == [] then []
    else Arrived(actions[..|actions| - 1]) + (match actions[|actions| - 1] case Arrive(byte) => [byte] case Go(_) => [])
  }

  // The same after four zeros, with which the shift register starts.
  function Stream(actions: seq<Action>): seq<bv8> { [0, 0, 0, 0] + Arrived(actions) }

  predicate EndsWith(s: seq<bv8>, t: seq<bv8>) { |t| <= |s| && s[|s| - |t|..] == t }

  // In SYNC the stream ends with the four bytes read last and those not yet read.
  predicate ShiftsThrough(b: Boot, stream: seq<bv8>) {
    b.mode == Sync ==> b.link == InitialLink() && |b.syncSeq| == 4 && EndsWith(stream, b.syncSeq + b.rx)
  }

  lemma OneMoreReceived(s: seq<bv8>, t: seq<bv8>, b: bv8)
    requires EndsWith(s, t)
    ensures EndsWith(s + [b], t + [b])
  {}

  lemma ShorterEnd(s: seq<bv8>, t: seq<bv8>)
    requires EndsWith(s, t) && t != []
    ensures EndsWith(s, t[1..])
  {}

  lemma ArrivalShifts(b: Boot, stream: seq<bv8>, byte: bv8)
    requires ShiftsThrough(b, stream)
    ensures ShiftsThrough(Arrival(b, byte), stream + [byte])
  {
    if b.mode == Sync {
      OneMoreReceived(stream, b.syncSeq + b.rx, byte);
      assert b.syncSeq + (b.rx + [byte]) == (b.syncSeq + b.rx) + [byte];
    }
  }

  lemma SyncTurnShifts(b: Boot, stream: seq<bv8>, now: nat)
    requires WellTyped(b) && b.mode == Sync && ShiftsThrough(b, stream)
    ensures ShiftsThrough(SyncTurn(b, now), stream)
  {
    if b.rx != [] {
      ShorterEnd(stream, b.syncSeq + b.rx);
      assert Shifted(b.syncSeq, b.rx[0]) + b.rx[1..] == (b.syncSeq + b.rx)[1..];
    }
  }

  lemma TurnShifts(judge: Judge, b: Boot, stream: seq<bv8>, now: nat)
    requires WellTyped(b) && ShiftsThrough(b, stream)
    ensures ShiftsThrough(Turn(judge, b, now), stream)
  {
    if Running(b) {
      if b.mode == Sync {
        SyncTurnShifts(b, stream, now);
      } else if !Drained(b).link.halted {
        SwitchRank(judge, Drained(b), now);
      }
    }
  }

  lemma StreamOneMore(actions: seq<Action>, a: Action)
    ensures Stream(actions + [a]) == Stream(actions) + (match a case Arrive(byte) => [byte] case Go(_) => [])
  {
    assert (actions + [a])[..|actions|] == actions;
  }

  lemma StepShifts(judge: Judge, b: Boot, stream: seq<bv8>, a: Action)
    requires WellTyped(b) && ShiftsThrough(b, stream)
    ensures ShiftsThrough(Step(judge, b, a), stream + (match a case Arrive(byte) => [byte] case Go(_) => []))
  {
    match a
    case Arrive(byte) => ArrivalShifts(b, stream, byte);
    case Go(now) =>
      TurnShifts(judge, b, stream, now);
      assert stream + [] == stream;
  }

  lemma {:induction false} RunShifts(judge: Judge, flash: seq<bv8>, start: nat, actions: seq<Action>)
    requires |flash| == APP_FLASH_SIZE
    ensures ShiftsThrough(Run(judge, flash, start, actions), Stream(actions))
  {
    if actions != [] {
      var n := |actions| - 1;
      RunShifts(judge, flash, start, actions[..n]);
      StepShifts(judge, Run(judge, flash, start, actions[..n]), Stream(actions[..n]), actions[n]);
      StreamOneMore(actions[..n], actions[n]);
      assert actions == actions[..n] + [actions[n]];
    }
  }

  // The four bytes that end with the next byte to be read.
  lemma NextWindow(b: Boot, stream: seq<bv8>) returns (i: nat)
    requires b.mode == Sync && ShiftsThrough(b, stream) && b.rx != []
    ensures i == |stream| - |b.rx| && 4 <= i < |stream| && stream[i - 3..i + 1] == Shifted(b.syncSeq, b.rx[0])
  {
    i := |stream| - |b.rx|;
    assert stream[i - 4..] == b.syncSeq + b.rx;
    assert stream[i - 3..i + 1] == stream[i - 4..][1..5];
  }

  lemma SyncTurnOn(b: Boot, now: nat, window: seq<bv8>)
    requires WellTyped(b) && Running(b) && b.mode == Sync && b.link == InitialLink() && b.rx != [] && TimerArmed(b)
    requires window == Shifted(b.syncSeq, b.rx[0])
    ensures var c := SyncTurn(b, now);
      if window == [0xc4, 0x55, 0x7e, 0x10]
      then c.mode == WaitForFwUpdateReq && c.rx == [] && c.link.sent == [Single(BL_PACKET_SYNC_OBSERVED_DATA0)]
      else Overdue(b, b.link, c, now) && c.rx == b.rx[1..]
  {}

  // A turn in SYNC that reads a byte: the device goes on if and only if this byte and the three before it are the
  // sync sequence, whatever came before and however late it is; it then says so, and drops the bytes that wait.
  lemma SyncObservedExactlyWhen(judge: Judge, flash: seq<bv8>, start: nat, actions: seq<Action>, now: nat)
    requires |flash| == APP_FLASH_SIZE && Running(Run(judge, flash, start, actions))
    requires Run(judge, flash, start, actions).mode == Sync && Run(judge, flash, start, actions).rx != []
    ensures var b, c := Run(judge, flash, start, actions), Run(judge, flash, start, actions + [Go(now)]);
      var i := |Stream(actions)| - |b.rx|;
      && 4 <= i < |Stream(actions)|
      && if Stream(actions)[i - 3..i + 1] == [0xc4, 0x55, 0x7e, 0x10]
         then c.mode == WaitForFwUpdateReq && c.rx == [] && c.link.sent == [Single(BL_PACKET_SYNC_OBSERVED_DATA0)]
         else Overdue(b, b.link, c, now) && c.rx == b.rx[1..]
  {
    var b := Run(judge, flash, start, actions);
    RunOneMore(judge, flash, start, actions, Go(now));
    RunArmed(judge, flash, start, actions);
    RunShifts(judge, flash, start, actions);
    var i := NextWindow(b, Stream(actions));
    SyncTurnOn(b, now, Stream(actions)[i - 3..i + 1]);
  }

  // ----- Packets -----

  // The packet that the device waits for, field by field.
  predicate IsAwaited(mode: Mode, p: Packet)
    requires Sized(p)
  {
    match mode
    case WaitForFwUpdateReq => p.length == 1 && p.data == Fill([0x31])
    case DeviceIdRes => p.length == 2 && p.data == Fill([0x3f, 0x42])
    case FwLengthRes =>
      && p.length == 5 && p.data == Fill([0x45, p.data[1], p.data[2], p.data[3], p.data[4]])
      && p.data[1] as int + 0x100 * (p.data[2] as int) + 0x1_0000 * (p.data[3] as int) + 0x100_0000 * (p.data[4] as int) <= 0x38000
    case _ => 1 <= p.length as int <= 16
  }

  // What the device does with it.
  predicate GoesOn(b: Boot, p: Packet, c: Boot)
    requires Sized(p)
  {
    match b.mode
    case WaitForFwUpdateReq => c.mode == DeviceIdReq && c.log == b.log + [Took(p)]
    case DeviceIdRes => c.mode == FwLengthReq && c.log == b.log + [Took(p)]
    case FwLengthRes => c.mode == EraseApplication && c.log == b.log + [Took(p)]
    case _ => c.log == b.log + [Took(p), Programmed(b.bytesWritten, p.data[..p.length as int % 16 + 1])]
  }

  lemma SizeOfChunk(length: bv8)
    requires 1 <= length as int <= 16
    ensures ChunkSize(length) == length as int % 16 + 1
  {}

  lemma AwaitedRecognised(p: Packet)
    requires Sized(p)
    ensures IsUpdateRequest(p) <==> IsAwaited(WaitForFwUpdateReq, p)
    ensures NamesThisDevice(p) <==> IsAwaited(DeviceIdRes, p)
    ensures AnnouncesFittingLength(p) <==> IsAwaited(FwLengthRes, p)
  {}

  // The move that the packet leads to.
  lemma MoveOnPacket(b: Boot, now: nat) returns (p: Packet, m: Move)
    requires WellTyped(b) && Waits(b.mode) && b.link.queue != []
    ensures p == b.link.queue[0] && Sized(p) && m == Decide(b, now) && TakesPacket(m)
    ensures if !IsAwaited(b.mode, p) then m == Refuse || m == RefuseLength
            else m == match b.mode case WaitForFwUpdateReq => AcceptRequest case DeviceIdRes => AcceptDevice
                                   case FwLengthRes => AcceptLength case _ => StoreChunk
  {
    p, m := b.link.queue[0], Decide(b, now);
    AwaitedRecognised(p);
  }

  // c is b after taking p from the queue and refusing it.
  predicate RefusesPacket(b: Boot, l: Link, p: Packet, c: Boot) {
    c.mode == Done && c.link.sent == l.sent + [Nack()] && c.flash == b.flash && c.log == b.log + [Took(p)]
  }

  lemma RefusingMove(judge: Judge, b: Boot, m: Move, now: nat)
    requires WellTyped(b) && HasPacket(b) && (m == Refuse || m == RefuseLength)
    ensures RefusesPacket(b, b.link, b.link.queue[0], Perform(judge, b, m, now))
  {}

  lemma AcceptingMove(judge: Judge, b: Boot, m: Move, now: nat)
    requires WellTyped(b) && HasPacket(b) && Waits(b.mode)
    requires m == match b.mode case WaitForFwUpdateReq => AcceptRequest case DeviceIdRes => AcceptDevice
                               case FwLengthRes => AcceptLength case _ => Idle
    ensures m != Idle ==> GoesOn(b, b.link.queue[0], Perform(judge, b, m, now))
  {}

  lemma StoringMove(judge: Judge, b: Boot, now: nat)
    requires WellTyped(b) && HasPacket(b) && b.mode == ReceiveFw && 1 <= b.link.queue[0].length as int <= 16
    ensures GoesOn(b, b.link.queue[0], Perform(judge, b, StoreChunk, now))
  {
    var p := b.link.queue[0];
    SizeOfChunk(p.length);
    StoreKeepsStored(judge, b, now);
    assert b.log + [Took(p)] + [Programmed(b.bytesWritten, ChunkOf(p))] == b.log + [Took(p), Programmed(b.bytesWritten, ChunkOf(p))];
  }

  lemma TakesOrRefuses(judge: Judge, b: Boot, now: nat)
    requires WellTyped(b) && Waits(b.mode) && b.link.queue != []
    ensures var p, c := b.link.queue[0], Switch(judge, b, now);
      Sized(p) && if IsAwaited(b.mode, p) then GoesOn(b, p, c) else RefusesPacket(b, b.link, p, c)
  {
    var p, m := MoveOnPacket(b, now);
    if !IsAwaited(b.mode, p) {
      RefusingMove(judge, b, m, now);
    } else if b.mode == ReceiveFw {
      StoringMove(judge, b, now);
    } else {
      AcceptingMove(judge, b, m, now);
    }
  }

  lemma TurnTakesOrRefuses(judge: Judge, b: Boot, l: Link, now: nat)
    requires WellTyped(b) && Running(b) && Waits(b.mode) && l == Feed(b.link, b.rx) && l.queue != [] && !l.halted
    ensures var p, c := l.queue[0], Turn(judge, b, now);
      Sized(p) && if IsAwaited(b.mode, p) then GoesOn(b, p, c) else RefusesPacket(b, l, p, c)
  {
    TakesOrRefuses(judge, Drained(b), now);
  }

  // A turn that finds a packet: it goes on in the protocol if and only if this is the packet that it waits for, and
  // otherwise it sends NACK and ends the loop, with the flash as it was.
  lemma PacketTakenExactlyWhen(judge: Judge, flash: seq<bv8>, start: nat, actions: seq<Action>, l: Link, now: nat)
    requires |flash| == APP_FLASH_SIZE && Running(Run(judge, flash, start, actions))
    requires Waits(Run(judge, flash, start, actions).mode) && l.queue != [] && !l.halted
    requires l == Feed(Run(judge, flash, start, actions).link, Run(judge, flash, start, actions).rx)
    ensures var b, c := Run(judge, flash, start, actions), Run(judge, flash, start, actions + [Go(now)]);
      Sized(l.queue[0]) &&
      if IsAwaited(b.mode, l.queue[0]) then GoesOn(b, l.queue[0], c) else RefusesPacket(b, l, l.queue[0], c)
  {
    RunOneMore(judge, flash, start, actions, Go(now));
    TurnTakesOrRefuses(judge, Run(judge, flash, start, actions), l, now);
  }
}
