// The bootloader's judgement of the image in flash, as the main loop sees it.
module Verdicts {
  import opened CbcMac
  import opened Image
  import opened MacLoop
  import opened Validation
  import opened UpdateMachine

  function VerdictOf(e: BlockCipher, m: Memory): Verdict {
    if Sentinel(m) != FIRMWARE_INFO_SENTINEL || DeviceId(m) != DEVICE_ID then Rejected
    else if Length(m) > LONGEST_LOOP then Endless
    else if Accepts(e, m) then Genuine
    else Rejected
  }

  // The judgement of a device with cipher e and the given memory beyond the application's sectors.
  function JudgeOf(e: BlockCipher, rest: nat -> bv8): Judge { (flash: seq<bv8>) => VerdictOf(e, Memory(flash, rest)) }

  // A loop that never ends is the only way in which the verdict differs from acceptance.
  lemma VerdictIsAcceptance(e: BlockCipher, m: Memory)
    ensures VerdictOf(e, m) == Genuine <==> Accepts(e, m) && Length(m) <= LONGEST_LOOP
    ensures VerdictOf(e, m) == Endless ==>
      Sentinel(m) == FIRMWARE_INFO_SENTINEL && DeviceId(m) == DEVICE_ID && !(exists n: nat :: OffsetAfter(n) >= Length(m))
  {
    LoopEndsExactlyWhen(Length(m));
  }

  lemma CheckedInTime(e: BlockCipher, m: Memory)
    ensures VerdictOf(e, m) == Endless <==> !CheckedWithin(m, ENOUGH_TURNS)
    ensures CheckedWithin(m, ENOUGH_TURNS) ==> (VerdictOf(e, m) == Genuine <==> Accepts(e, m))
  {
    LoopEndsExactlyWhen(Length(m));
    VerdictIsAcceptance(e, m);
  }

  class Validator {
    ghost const e: BlockCipher
    ghost const judge: Judge
    const rest: nat -> bv8

    ghost predicate Valid() { Implements(e, DeviceKeys()) && judge == JudgeOf(e, rest) }

    constructor (ghost e: BlockCipher, rest: nat -> bv8)
      requires Implements(e, DeviceKeys())
      ensures Valid() && judge == JudgeOf(e, rest)
    {
      this.e := e;
      this.rest := rest;
      judge := JudgeOf(e, rest);
    }

    // The device with its own cipher.
    constructor ForDevice(rest: nat -> bv8)
      ensures Valid() && judge == JudgeOf(DeviceCipher, rest)
    {
      e := DeviceCipher;
      this.rest := rest;
      judge := JudgeOf(DeviceCipher, rest);
      new;
      DeviceCipherImplemented();
    }

    // validate_fw_image, in as many turns of its loop as any image needs whose loop ends.
    method Check(flash: array<bv8>) returns (verdict: Verdict)
      requires Valid()
      ensures verdict == judge(flash[..])
    {
      var m := Memory(flash[..], rest);
      var ended, ok := ValidateFwImage(e, m, ENOUGH_TURNS);
      CheckedInTime(e, m);
      verdict := if !ended then Endless else if ok then Genuine else Rejected;
    }
  }
}
