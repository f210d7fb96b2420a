// From power-up to the start of a transfer: a device that observes the sync sequence is ready for it.
module SyncPhase {
  import opened Packets
  import opened Link
  import opened Framing
  import opened LittleEndian
  import opened Host
  import opened SimpleTimer
  import opened UpdateMachine
  import opened UpdateRuns
  import opened UpdateOutcome
  import opened SessionPhases
  import opened LoopTransfers

  // Before it has observed the sequence, the device has neither sent nor parsed anything.
  predicate Untouched(b: Boot) {
    b.mode == Sync ==>
      && b.link == InitialLink() && !b.hung && b.log == []
      && b.timer.waitTime == DEFAULT_TIMEOUT_MS && !b.timer.autoReset
  }

  lemma InitialLinkAtRest()
    ensures AtRest(InitialLink()) && AtRest(Send(InitialLink(), Single(BL_PACKET_SYNC_OBSERVED_DATA0)))
  {}

  lemma SyncTurnLink(b: Boot, now: nat)
    requires |b.syncSeq| == 4 && b.mode == Sync && Untouched(b)
    ensures var c := SyncTurn(b, now);
      && Untouched(c)
      && (c.mode == WaitForFwUpdateReq ==>
            && c.link == Send(InitialLink(), Single(BL_PACKET_SYNC_OBSERVED_DATA0)) && !c.hung && c.log == []
            && c.rx == [] && c.timer == Armed(DEFAULT_TIMEOUT_MS, false, now))
  {}

  lemma StepUntouched(judge: Judge, b: Boot, a: Action)
    requires WellTyped(b) && Untouched(b)
    ensures Untouched(Step(judge, b, a))
  {
    if a.Go? && Running(b) {
      if b.mode == Sync {
        SyncTurnLink(b, a.now);
      } else if !Drained(b).link.halted {
        StaysOutOfSync(judge, Drained(b), a.now);
      }
    }
  }

  lemma StaysOutOfSync(judge: Judge, b: Boot, now: nat)
    requires WellTyped(b) && b.mode != Sync && b.mode != Done
    ensures Switch(judge, b, now).mode != Sync
  {
    SwitchRank(judge, b, now);
  }

  lemma {:induction false} RunUntouched(judge: Judge, flash: seq<bv8>, start: nat, actions: seq<Action>)
    requires |flash| == APP_FLASH_SIZE
    ensures Untouched(Run(judge, flash, start, actions))
  {
    if actions != [] {
      var n := |actions| - 1;
      RunUntouched(judge, flash, start, actions[..n]);
      StepUntouched(judge, Run(judge, flash, start, actions[..n]), actions[n]);
    }
  }

  // What is true of a device whose latest turn has observed the sync sequence.
  ghost predicate JustObserved(c: Boot, now: nat) {
    && c.mode == WaitForFwUpdateReq && !c.hung && c.log == [] && c.rx == []
    && c.link == Send(InitialLink(), Single(BL_PACKET_SYNC_OBSERVED_DATA0))
    && c.timer == Armed(DEFAULT_TIMEOUT_MS, false, now)
  }

  lemma ObservedIs(judge: Judge, flash: seq<bv8>, start: nat, actions: seq<Action>, now: nat) returns (c: Boot)
    requires |flash| == APP_FLASH_SIZE && Run(judge, flash, start, actions).mode == Sync
    requires Run(judge, flash, start, actions + [Go(now)]).mode == WaitForFwUpdateReq
    ensures c == Run(judge, flash, start, actions + [Go(now)]) && JustObserved(c, now)
  {
    var b := Run(judge, flash, start, actions);
    RunOneMore(judge, flash, start, actions, Go(now));
    RunUntouched(judge, flash, start, actions);
    TurnInSync(judge, b, now);
    SyncTurnLink(b, now);
    c := Run(judge, flash, start, actions + [Go(now)]);
  }

  lemma ObservedIsReady(st: Setting, c: Boot, host: Host, now: nat)
    requires Fits(st) && JustObserved(c, now) && now < TICKS && ValidHost(host) && host.packets == []
    requires FlashInv(st.before, c) && ReportsTruly(st.judge, c)
    ensures ReadyAt(st, c, host, now)
  {
    InitialLinkAtRest();
  }

  // The run of the main loop from power-up whose latest turn has observed the sync sequence ends in a state
  // from which the theorems about transfers start, with the timer armed at the time of that turn.
  lemma SyncMakesReady(judge: Judge, flash: seq<bv8>, start: nat, actions: seq<Action>, now: nat, image: seq<bv8>,
                    host: Host)
    requires |flash| == APP_FLASH_SIZE && 0 < |image| < TWO_32
    requires ValidHost(host) && host.packets == [] && now < TICKS
    requires Run(judge, flash, start, actions).mode == Sync
    requires Run(judge, flash, start, actions + [Go(now)]).mode == WaitForFwUpdateReq
    ensures ReadyAt(Setting(judge, flash, image), Run(judge, flash, start, actions + [Go(now)]), host, now)
  {
    var c := ObservedIs(judge, flash, start, actions, now);
    FlashHoldsPayload(judge, flash, start, actions + [Go(now)]);
    EveryRunReportsTruly(judge, flash, start, actions + [Go(now)]);
    ObservedIsReady(Setting(judge, flash, image), c, host, now);
  }

  lemma TurnInSync(judge: Judge, b: Boot, now: nat)
    requires WellTyped(b) && b.mode == Sync
    ensures Step(judge, b, Go(now)) == if Running(b) then SyncTurn(b, now) else b
  {}

  // ----- The sequence is observed -----

  // A turn that reads one more byte before the deadline and finds no match.
  lemma ReadsOneByte(b: Boot, now: nat)
    requires |b.syncSeq| == 4 && b.rx != [] && !Fires(b.timer, now) && !IsSyncSeq(Shifted(b.syncSeq, b.rx[0]))
    ensures SyncTurn(b, now) == b.(syncSeq := Shifted(b.syncSeq, b.rx[0]), rx := b.rx[1..])
  {}

  // After power-up: the four bytes wait, and so many of them have been read.
  predicate Reading(b: Boot, flash: seq<bv8>, start: nat, syncSeq: seq<bv8>, rx: seq<bv8>) {
    b == Initial(flash, start).(syncSeq := syncSeq, rx := rx)
  }

  lemma ReadsNext(judge: Judge, b: Boot, flash: seq<bv8>, start: nat, syncSeq: seq<bv8>, rx: seq<bv8>, now: nat)
    requires |flash| == APP_FLASH_SIZE && |syncSeq| == 4 && rx != [] && Reading(b, flash, start, syncSeq, rx)
    requires now < start + DEFAULT_TIMEOUT_MS && start < TICKS && !IsSyncSeq(Shifted(syncSeq, rx[0]))
    ensures WellTyped(b) && Reading(Step(judge, b, Go(now)), flash, start, Shifted(syncSeq, rx[0]), rx[1..])
  {
    InitialLinkAtRest();
    TurnInSync(judge, b, now);
    ReadsOneByte(b, now);
  }

  // If the sync sequence is the first thing that a device receives, four turns before the deadline observe
  // it: the premises of SyncMakesReady can be met, for every flash and every clock.
  lemma SyncIsObserved(judge: Judge, flash: seq<bv8>, start: nat, now: nat) returns (actions: seq<Action>)
    requires |flash| == APP_FLASH_SIZE && start < TICKS && start <= now < start + DEFAULT_TIMEOUT_MS
    ensures Run(judge, flash, start, actions).mode == Sync
    ensures Run(judge, flash, start, actions + [Go(now)]).mode == WaitForFwUpdateReq
  {
    var b0 := Run(judge, flash, start, []);
    RunOneMore(judge, flash, start, [], Arrive(0xc4));
    var a1 := [] + [Arrive(0xc4)];
    RunOneMore(judge, flash, start, a1, Arrive(0x55));
    var a2 := a1 + [Arrive(0x55)];
    RunOneMore(judge, flash, start, a2, Arrive(0x7e));
    var a3 := a2 + [Arrive(0x7e)];
    RunOneMore(judge, flash, start, a3, Arrive(0x10));
    var a4 := a3 + [Arrive(0x10)];
    assert Reading(Run(judge, flash, start, a4), flash, start, [0, 0, 0, 0], [0xc4, 0x55, 0x7e, 0x10]);
    actions := ReadsThree(judge, flash, start, now, a4);
    var b := Run(judge, flash, start, actions);
    RunOneMore(judge, flash, start, actions, Go(now));
    TurnInSync(judge, b, now);
  }

  lemma ReadsThree(judge: Judge, flash: seq<bv8>, start: nat, now: nat, a4: seq<Action>) returns (a7: seq<Action>)
    requires |flash| == APP_FLASH_SIZE && start < TICKS && start <= now < start + DEFAULT_TIMEOUT_MS
    requires Reading(Run(judge, flash, start, a4), flash, start, [0, 0, 0, 0], [0xc4, 0x55, 0x7e, 0x10])
    ensures Reading(Run(judge, flash, start, a7), flash, start, [0, 0xc4, 0x55, 0x7e], [0x10])
  {
    var a5, a6 := a4 + [Go(now)], a4 + [Go(now)] + [Go(now)];
    a7 := a6 + [Go(now)];
    RunOneMore(judge, flash, start, a4, Go(now));
    ReadsNext(judge, Run(judge, flash, start, a4), flash, start, [0, 0, 0, 0], [0xc4, 0x55, 0x7e, 0x10], now);
    RunOneMore(judge, flash, start, a5, Go(now));
    ReadsNext(judge, Run(judge, flash, start, a5), flash, start, [0, 0, 0, 0xc4], [0x55, 0x7e, 0x10], now);
    RunOneMore(judge, flash, start, a6, Go(now));
    ReadsNext(judge, Run(judge, flash, start, a6), flash, start, [0, 0, 0xc4, 0x55], [0x7e, 0x10], now);
  }
}
