// How the runs of a device end, in terms of the image in its flash: a device with a block cipher e, and with
// memory `rest` beyond the application's sectors.
module DeviceRuns {
  import opened CbcMac
  import opened Image
  import opened MacLoop
  import opened Link
  import opened UpdateMachine
  import opened UpdateRuns
  import opened UpdateOutcome
  import opened UpdateTermination
  import opened Verdicts

  // The check of this image does not end: no offset that its loop comes to reaches the length.
  ghost predicate CheckNeverEnds(m: Memory) {
    && Sentinel(m) == FIRMWARE_INFO_SENTINEL && DeviceId(m) == DEVICE_ID
    && !(exists n: nat :: OffsetAfter(n) >= Length(m))
  }

  lemma EndlessExactlyWhen(e: BlockCipher, m: Memory)
    ensures VerdictOf(e, m) == Endless <==> CheckNeverEnds(m)
  {
    LoopEndsExactlyWhen(Length(m));
    assert VerdictOf(e, m) == Endless ==> CheckNeverEnds(m);
  }

  lemma EndsAs(e: BlockCipher, rest: nat -> bv8, b: Boot)
    requires |b.flash| == APP_FLASH_SIZE && StopsTruly(JudgeOf(e, rest), b) && b.mode == Done
    ensures var m := Memory(b.flash, rest);
      && (EndingOf(JudgeOf(e, rest), b) == Jump <==> Accepts(e, m) && !CheckNeverEnds(m))
      && (EndingOf(JudgeOf(e, rest), b) == Hang <==> CheckNeverEnds(m))
      && (EndingOf(JudgeOf(e, rest), b) == Hang ==> !Complete(b.log))
  {
    var m := Memory(b.flash, rest);
    var verdict := VerdictOf(e, m);
    assert JudgeOf(e, rest)(b.flash) == verdict;
    VerdictIsAcceptance(e, m);
    EndlessExactlyWhen(e, m);
  }

  // A device hangs in its main loop exactly if it has all of an announced image in flash whose check never
  // ends; and a run whose clock has advanced often enough has left the loop, or has stopped at a full packet
  // ring, or hangs.
  lemma DeviceRunsEnd(e: BlockCipher, rest: nat -> bv8, flash: seq<bv8>, start: nat, actions: seq<Action>)
    requires |flash| == APP_FLASH_SIZE && Monotone(start, actions) && Advances(start, actions) > LONGEST_RUN
    ensures var b := Run(JudgeOf(e, rest), flash, start, actions);
      && (b.hung <==> Complete(b.log) && CheckNeverEnds(Memory(b.flash, rest)))
      && (b.mode == Done || b.hung || (b.link.halted && |b.link.queue| == QUEUE_CAPACITY))
  {
    RunsEnd(JudgeOf(e, rest), flash, start, actions);
    EndlessExactlyWhen(e, Memory(Run(JudgeOf(e, rest), flash, start, actions).flash, rest));
  }

  // What follows a main loop that has been left. The check is made again: after an update it cannot hang, but a
  // device that gives up before the erase hangs if the image that it has hangs its check.
  lemma DeviceGoesOn(e: BlockCipher, rest: nat -> bv8, flash: seq<bv8>, start: nat, actions: seq<Action>)
    requires |flash| == APP_FLASH_SIZE
    requires Run(JudgeOf(e, rest), flash, start, actions).mode == Done
    ensures var b := Run(JudgeOf(e, rest), flash, start, actions); var m := Memory(b.flash, rest);
      && (EndingOf(JudgeOf(e, rest), b) == Jump <==> Accepts(e, m) && !CheckNeverEnds(m))
      && (EndingOf(JudgeOf(e, rest), b) == Hang <==> CheckNeverEnds(m))
      && (EndingOf(JudgeOf(e, rest), b) == Hang ==> !Complete(b.log))
  {
    EveryRunStopsTruly(JudgeOf(e, rest), flash, start, actions);
    EndsAs(e, rest, Run(JudgeOf(e, rest), flash, start, actions));
  }
}
