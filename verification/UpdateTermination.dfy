// The bootloader's main loop ends, if its clock advances: either at a deadline, or because there are only
// so many occasions to postpone the deadline.
module UpdateTermination {
  import opened Link
  import opened SimpleTimer
  import opened Image
  import opened UpdateMachine
  import opened UpdateRuns
  import opened FlashAudit
  import opened UpdateSafety
  import opened UpdateOutcome

  // ----- How often the timer is armed -----

  // How often it has been armed at most, on reaching a mode.
  function ArmsSoFar(b: Boot): nat { 1 + Rank(b.mode) + (if b.mode == ReceiveFw then b.bytesWritten else 0) }

  predicate ArmInv(b: Boot) {
    if InLoop(b) then b.arms <= ArmsSoFar(b) else b.arms <= 8 + AtLeastOne(b.firmwareLength)
  }

  // How often it can still be armed at most.
  function ArmsLeft(b: Boot): nat {
    match b.mode
    case Done => 0
    case ReceiveFw => if b.bytesWritten < AtLeastOne(b.firmwareLength) then AtLeastOne(b.firmwareLength) - b.bytesWritten else 0
    case EraseApplication => 1 + AtLeastOne(b.firmwareLength)
    case _ => 7 - Rank(b.mode) + MAX_FW_LENGTH
  }

  // ----- The deadline -----

  // While the loop runs, the timer is armed and its deadline is at most one timeout after `last`, the time
  // of the latest turn.
  predicate TimerInv(b: Boot, last: nat) {
    InLoop(b) ==>
      b.timer == TimerState(DEFAULT_TIMEOUT_MS, b.timer.targetTime, false, false) && b.timer.targetTime <= last + DEFAULT_TIMEOUT_MS
  }

  function TicksLeft(b: Boot, last: nat): nat { if b.timer.targetTime <= last then 0 else b.timer.targetTime - last }

  // A bound on the number of further turns at which the clock has advanced.
  function Potential(b: Boot, last: nat): nat {
    if Running(b) then (DEFAULT_TIMEOUT_MS + 1) * ArmsLeft(b) + TicksLeft(b, last) else 0
  }

  ghost predicate Inv(b: Boot, last: nat) { LogInv(b) && ArmInv(b) && TimerInv(b, last) }

  // What a turn at time `now` after one at time `last` does: nothing, if it comes before the deadline; or
  // it arms the timer, and so uses up one of the occasions; or it ends the loop.
  predicate Progress(b: Boot, c: Boot, now: nat) {
    || (InLoop(c) && c.timer == b.timer && c.arms == b.arms && now < b.timer.targetTime && ArmsLeft(c) == ArmsLeft(b)
        && ArmsSoFar(c) == ArmsSoFar(b))
    || (InLoop(c) && c.timer == Reset(b.timer, now) && c.arms == b.arms + 1 && ArmsLeft(c) < ArmsLeft(b)
        && ArmsSoFar(b) < ArmsSoFar(c))
    || (!InLoop(c) && c.arms <= b.arms + 1 && c.arms <= 8 + AtLeastOne(c.firmwareLength))
  }

  lemma ArmsWithinBound(b: Boot)
    requires LogInv(b) && ArmInv(b) && InLoop(b)
    ensures b.arms < 8 + AtLeastOne(b.firmwareLength)
    ensures b.mode != ReceiveFw ==> b.arms <= 7
  {}

  lemma EndProgress(judge: Judge, b: Boot, m: Move, now: nat)
    requires LogInv(b) && ArmInv(b) && InLoop(b) && (TakesPacket(m) ==> HasPacket(b))
    requires m == TimeOut || m == Refuse || (m == RefuseLength && b.mode == FwLengthRes)
    ensures Progress(b, Perform(judge, b, m, now), now)
  {
    ArmsWithinBound(b);
  }

  lemma SendProgress(judge: Judge, b: Boot, m: Move, now: nat)
    requires LogInv(b) && ArmInv(b) && InLoop(b)
    requires match m
      case AskDeviceId => b.mode == DeviceIdReq
      case AskLength => b.mode == FwLengthReq
      case EraseAll => b.mode == EraseApplication
      case _ => false
    ensures Progress(b, Perform(judge, b, m, now), now)
  {}

  lemma AcceptProgress(judge: Judge, b: Boot, m: Move, now: nat)
    requires LogInv(b) && ArmInv(b) && InLoop(b) && HasPacket(b)
    requires match m
      case AcceptRequest => b.mode == WaitForFwUpdateReq
      case AcceptDevice => b.mode == DeviceIdRes
      case AcceptLength => b.mode == FwLengthRes && AnnouncedLength(b.link.queue[0]) <= MAX_FW_LENGTH
      case _ => false
    ensures Progress(b, Perform(judge, b, m, now), now)
  {}

  lemma StoreProgress(judge: Judge, b: Boot, now: nat)
    requires LogInv(b) && ArmInv(b) && InLoop(b) && b.mode == ReceiveFw && HasPacket(b) && IsChunk(b.link.queue[0])
    ensures Progress(b, Perform(judge, b, StoreChunk, now), now)
  {
    ArmsWithinBound(b);
    StoredLog(b, now);
  }

  lemma SwitchProgress(judge: Judge, b: Boot, now: nat, last: nat)
    requires Inv(b, last) && InLoop(b) && b.mode != Sync
    ensures Progress(b, Switch(judge, b, now), now)
  {
    var m := Decide(b, now);
    MovesOf(b, now);
    if m == StoreChunk {
      StoreProgress(judge, b, now);
    } else if m == TimeOut || m == Refuse || m == RefuseLength {
      EndProgress(judge, b, m, now);
    } else if m == AskDeviceId || m == AskLength || m == EraseAll {
      SendProgress(judge, b, m, now);
    } else if m != Idle {
      AcceptProgress(judge, b, m, now);
    }
  }

  lemma SyncProgress(b: Boot, now: nat, last: nat)
    requires Inv(b, last) && InLoop(b) && b.mode == Sync
    ensures Progress(b, SyncTurn(b, now), now)
  {}

  lemma ProgressPays(b: Boot, c: Boot, now: nat, last: nat)
    requires Inv(b, last) && LogInv(c) && Running(b) && Progress(b, c, now) && last <= now < TICKS && ArmsLeft(b) > 0
    ensures Inv(c, now) && Potential(c, now) <= Potential(b, last)
    ensures last < now ==> Potential(c, now) < Potential(b, last)
  {}

  lemma ArmsRemain(b: Boot)
    requires LogInv(b) && InLoop(b)
    ensures ArmsLeft(b) > 0
  {}

  // A turn never adds to the potential, and takes from it whenever the clock has advanced.
  predicate Pays(b: Boot, c: Boot, now: nat, last: nat) {
    Potential(c, now) <= Potential(b, last) && (Running(b) && last < now ==> Potential(c, now) < Potential(b, last))
  }

  lemma SyncTurnPays(b: Boot, now: nat, last: nat)
    requires Inv(b, last) && last <= now < TICKS && Running(b) && b.mode == Sync
    ensures Inv(SyncTurn(b, now), now) && Pays(b, SyncTurn(b, now), now, last)
  {
    SyncLogInv(b, now);
    ArmsRemain(b);
    SyncProgress(b, now, last);
    ProgressPays(b, SyncTurn(b, now), now, last);
  }

  lemma SwitchPays(judge: Judge, b: Boot, now: nat, last: nat)
    requires Inv(b, last) && last <= now < TICKS && Running(b) && b.mode != Sync
    ensures Inv(Switch(judge, b, now), now) && Pays(b, Switch(judge, b, now), now, last)
  {
    SwitchLogInv(judge, b, now);
    ArmsRemain(b);
    SwitchProgress(judge, b, now, last);
    ProgressPays(b, Switch(judge, b, now), now, last);
  }

  lemma DrainedInv(b: Boot, now: nat, last: nat)
    requires Inv(b, last) && last <= now && Running(b)
    ensures Inv(Drained(b), last) && Inv(Drained(b), now)
    ensures if Drained(b).link.halted then Pays(b, Drained(b), now, last) else Potential(Drained(b), last) == Potential(b, last)
  {
    ArmsRemain(b);
    SamePlaceLogInv(b, Drained(b));
  }

  lemma TurnPays(judge: Judge, b: Boot, now: nat, last: nat)
    requires Inv(b, last) && last <= now < TICKS
    ensures Inv(Turn(judge, b, now), now) && Pays(b, Turn(judge, b, now), now, last)
  {
    if Running(b) {
      if b.mode == Sync {
        SyncTurnPays(b, now, last);
      } else {
        DrainedInv(b, now, last);
        if !Drained(b).link.halted {
          SwitchPays(judge, Drained(b), now, last);
        }
      }
    }
  }

  // ----- Whole runs -----

  // The time of the latest turn.
  function ClockAfter(start: nat, actions: seq<Action>): nat {
    if actions == [] then start
    else if actions[|actions| - 1].Go? then actions[|actions| - 1].now
    else ClockAfter(start, actions[..|actions| - 1])
  }

  // The clock never goes back and never wraps.
  predicate Monotone(start: nat, actions: seq<Action>) {
    if actions == [] then start < TICKS
    else
      && Monotone(start, actions[..|actions| - 1])
      && (actions[|actions| - 1].Go? ==> ClockAfter(start, actions[..|actions| - 1]) <= actions[|actions| - 1].now < TICKS)
  }

  // The number of turns at which the clock has advanced since the turn before.
  function Advances(start: nat, actions: seq<Action>): nat {
    if actions == [] then 0
    else
      var front, a := actions[..|actions| - 1], actions[|actions| - 1];
      Advances(start, front) + (if a.Go? && a.now > ClockAfter(start, front) then 1 else 0)
  }

  const LONGEST_RUN: nat := (DEFAULT_TIMEOUT_MS + 1) * (7 + MAX_FW_LENGTH) + DEFAULT_TIMEOUT_MS

  // The potential and the turns that it has paid for stay within the bound.
  ghost predicate Solvent(b: Boot, last: nat, advances: nat) {
    last < TICKS && Inv(b, last) && (Running(b) ==> Potential(b, last) + advances <= LONGEST_RUN)
  }

  lemma InitialSolvent(flash: seq<bv8>, start: nat)
    requires |flash| == APP_FLASH_SIZE && start < TICKS
    ensures Solvent(Initial(flash, start), start, 0)
  {
    InitialLogInv(flash, start);
  }

  lemma ArrivalSolvent(b: Boot, byte: bv8, last: nat, advances: nat)
    requires Solvent(b, last, advances)
    ensures Solvent(Arrival(b, byte), last, advances)
  {
    SamePlaceLogInv(b, Arrival(b, byte));
  }

  lemma TurnSolvent(judge: Judge, b: Boot, now: nat, last: nat, advances: nat)
    requires Solvent(b, last, advances) && last <= now < TICKS
    ensures Solvent(Turn(judge, b, now), now, advances + (if now > last then 1 else 0))
  {
    TurnPays(judge, b, now, last);
  }

  lemma {:induction false} RunSolvent(judge: Judge, flash: seq<bv8>, start: nat, actions: seq<Action>)
    requires |flash| == APP_FLASH_SIZE && Monotone(start, actions)
    ensures Solvent(Run(judge, flash, start, actions), ClockAfter(start, actions), Advances(start, actions))
  {
    if actions == [] {
      InitialSolvent(flash, start);
    } else {
      var front, a := actions[..|actions| - 1], actions[|actions| - 1];
      RunSolvent(judge, flash, start, front);
      var before, last := Run(judge, flash, start, front), ClockAfter(start, front);
      if a.Go? {
        TurnSolvent(judge, before, a.now, last, Advances(start, front));
      } else {
        ArrivalSolvent(before, a.byte, last, Advances(start, front));
      }
    }
  }

  // By the time that its clock has advanced at more than LONGEST_RUN turns, whatever is received, a run has left
  // the loop, or has stopped at the breakpoint of a full packet ring, or has all of an announced image in flash
  // whose check does not end. The last of these is the only way to hang in the loop.
  lemma RunsEnd(judge: Judge, flash: seq<bv8>, start: nat, actions: seq<Action>)
    requires |flash| == APP_FLASH_SIZE && Monotone(start, actions) && Advances(start, actions) > LONGEST_RUN
    ensures var b := Run(judge, flash, start, actions);
      && (b.hung <==> Complete(b.log) && judge(b.flash) == Endless)
      && (|| b.mode == Done
          || (b.link.halted && |b.link.queue| == QUEUE_CAPACITY)
          || (Complete(b.log) && judge(b.flash) == Endless))
  {
    RunSolvent(judge, flash, start, actions);
    EveryRunStopsTruly(judge, flash, start, actions);
  }

  // The timer is armed at most 8 + max(1, announced length) times.
  lemma ArmedAtMost(judge: Judge, flash: seq<bv8>, start: nat, actions: seq<Action>)
    requires |flash| == APP_FLASH_SIZE && Monotone(start, actions)
    ensures var b := Run(judge, flash, start, actions); b.arms <= 8 + AtLeastOne(b.firmwareLength)
  {
    RunSolvent(judge, flash, start, actions);
    var b := Run(judge, flash, start, actions);
    if InLoop(b) {
      ArmsWithinBound(b);
    }
  }
}
