// From the signer's input to the jump: signing an image and transferring it.
module EndToEnd {
  import opened Aes
  import opened CbcMac
  import opened Image
  import opened Signer
  import opened SigningAgreement
  import opened Packets
  import opened UpdateMachine
  import opened Verdicts
  import opened Validation
  import opened Tampering
  import Host
  import opened Transfer
  import opened FrameSession
  import opened SessionPhases
  import opened SimpleTimer
  import opened UpdateRuns
  import opened TransferRuns
  import opened LoopRuns
  import opened LoopTransfers
  import opened SyncPhase

  // The images that can be signed and then transferred and accepted, before signing: built for this
  // device, with a body that fits and ends in a partial block of more than one byte, which no control packet
  // looks like.
  predicate Updatable(image: seq<bv8>, version: int) {
    && CanSign(image, version) && CarriesInfo(image)
    && BODY_OFFSET < |image| <= MAX_FW_LENGTH
    && |image| % AES_BLOCK_SIZE != 0 && |image| % AES_BLOCK_SIZE != 1
    && !LooksLikeControl(image[LastChunkStart(image)..])
  }

  lemma ByteValue(b: bv8)
    requires b as int == 0x42
    ensures b == 0x42
  {}

  lemma DeviceIdOfInfo(image: seq<bv8>)
    requires SIGNATURE_OFFSET <= |image| && FieldOf(image, FWINFO_OFFSET + 4) == DEVICE_ID
    ensures image[FWINFO_OFFSET + 4] == 0x42
  {
    ByteValue(image[FWINFO_OFFSET + 4]);
  }

  lemma SignedLength(e: BlockCipher, image: seq<bv8>, version: nat)
    requires CanSign(image, version) && BODY_OFFSET < |image|
    ensures |Signed(e, image, version)| == |image|
  {}

  lemma SameTail(a: seq<bv8>, b: seq<bv8>, p: nat)
    requires |a| == |b| && p <= |a| && forall i :: p <= i < |a| ==> a[i] == b[i]
    ensures a[p..] == b[p..]
  {}

  lemma LastChunkInBody(image: seq<bv8>)
    requires BODY_OFFSET < |image|
    ensures BODY_OFFSET <= LastChunkStart(image) < |image|
  {}

  lemma SignedKeeps(e: BlockCipher, image: seq<bv8>, version: nat) returns (signed: seq<bv8>)
    requires CanSign(image, version) && BODY_OFFSET < |image|
    ensures signed == Signed(e, image, version) && |signed| == |image|
    ensures forall i :: BODY_OFFSET <= i < |image| || i == FWINFO_OFFSET + 4 ==> signed[i] == image[i]
  {
    signed := Signed(e, image, version);
    SignedLength(e, image, version);
    forall i | BODY_OFFSET <= i < |image| || i == FWINFO_OFFSET + 4 ensures signed[i] == image[i] {
      SignedByte(e, image, version, i);
    }
  }

  lemma SignedBytes(e: BlockCipher, image: seq<bv8>, version: nat) returns (signed: seq<bv8>)
    requires CanSign(image, version) && BODY_OFFSET < |image|
    ensures signed == Signed(e, image, version) && |signed| == |image|
    ensures signed[FWINFO_OFFSET + 4] == image[FWINFO_OFFSET + 4]
    ensures signed[LastChunkStart(image)..] == image[LastChunkStart(image)..]
  {
    signed := SignedKeeps(e, image, version);
    LastChunkInBody(image);
    SameTail(signed, image, LastChunkStart(image));
  }

  lemma SignedIsTransferable(e: BlockCipher, image: seq<bv8>, version: nat)
    requires Updatable(image, version)
    ensures Transferable(Signed(e, image, version)) && |Signed(e, image, version)| == |image|
  {
    var signed := SignedBytes(e, image, version);
    DeviceIdOfInfo(image);
  }

  // The session in which a device with cipher e, the same as the signer's, receives the signed image.
  function SigningSetting(e: BlockCipher, rest: nat -> bv8, before: seq<bv8>, image: seq<bv8>, version: nat): Setting
    requires CanSign(image, version)
  {
    Setting(JudgeOf(e, rest), before, Signed(e, image, version))
  }

  lemma FlashStartsWithImage(rest: nat -> bv8, image: seq<bv8>)
    requires |image| <= APP_FLASH_SIZE
    ensures StartsWith(Memory(FinalFlash(image), rest), image)
  {}

  // What the device judges of a signed image in its flash.
  lemma SignedVerdict(e: BlockCipher, rest: nat -> bv8, before: seq<bv8>, image: seq<bv8>, version: nat)
    requires Updatable(image, version)
    ensures FinalVerdict(SigningSetting(e, rest, before, image, version)) == Genuine
  {
    var signed := Signed(e, image, version);
    var m := Memory(FinalFlash(signed), rest);
    SignedIsTransferable(e, image, version);
    FlashStartsWithImage(rest, signed);
    SignedAccepted(e, image, version, m);
    SignedInfo(image, version, SignatureOf(e, Stamped(image, version)), m);
    VerdictIsAcceptance(e, m);
  }

  // The image is in flash byte for byte, both sides have seen UPDATE_SUCCESSFUL, and the device jumps.
  predicate Installed(st: Setting, d: Boot, place: Host.Place) {
    && d.flash == FinalFlash(st.image) && Success() in d.link.sent
    && d.mode == Done && EndingOf(st.judge, d) == Jump && place == Host.Succeeded
  }

  lemma GenuineEnds(st: Setting, d: Boot, place: Host.Place)
    requires Fits(st) && Ended(st, d, place) && FinalVerdict(st) == Genuine
    ensures Installed(st, d, place)
  {}

  lemma GenuineIsInstalled(st: Setting, dev: Boot, host: Host.Host, budget: nat, noise: Noise, armedAt: nat,
                    steps: seq<LoopStep>)
    requires ReadyAt(st, dev, host, armedAt) && Prompt(st, LoopBegun(dev, host, budget, noise, armedAt), steps)
    requires Transferable(st.image) && FinalVerdict(st) == Genuine
    ensures LoopChanges(st, LoopBegun(dev, host, budget, noise, armedAt), steps) <= MostChanges(st, budget)
    ensures var x := LoopRun(st, LoopBegun(dev, host, budget, noise, armedAt), steps);
      Rests(st, x) ==> Installed(st, x.line.dev, x.line.host.place)
  {
    var x := LoopRun(st, LoopBegun(dev, host, budget, noise, armedAt), steps);
    LoopTransferEnds(st, dev, host, budget, noise, armedAt, steps);
    LoopEndsWell(st, dev, host, budget, noise, armedAt, steps);
    if Rests(st, x) {
      GenuineEnds(st, x.line.dev, x.line.host.place);
    }
  }

  // A device that was powered up, ran through these actions, and observed the sync sequence in a turn at `now`.
  ghost predicate Observes(judge: Judge, before: seq<bv8>, start: nat, actions: seq<Action>, now: nat)
    requires |before| == APP_FLASH_SIZE
  {
    && now < TICKS && Run(judge, before, start, actions).mode == Sync
    && Run(judge, before, start, actions + [Go(now)]).mode == WaitForFwUpdateReq
  }

  // For every updatable image: it is signed; a device observes the sync sequence in a run of its main loop from
  // power-up; updater and device take steps in any interleaving, every turn of the device before its
  // deadline; and, within the budget, any command and data frames are damaged. Then the device's states are those of
  // the same run of its main loop, only so many steps change anything, and a standstill means that the signed
  // image is installed.
  lemma SignedImageIsInstalled(e: BlockCipher, rest: nat -> bv8, before: seq<bv8>, image: seq<bv8>, version: nat,
                               start: nat, actions: seq<Action>, now: nat, host: Host.Host, budget: nat, noise: Noise,
                               steps: seq<LoopStep>)
    returns (st: Setting, loop: Loop, whole: seq<Action>)
    requires Updatable(image, version) && |before| == APP_FLASH_SIZE && Host.ValidHost(host) && host.packets == []
    requires Observes(JudgeOf(e, rest), before, start, actions, now)
    requires Prompt(SigningSetting(e, rest, before, image, version),
      LoopBegun(Run(JudgeOf(e, rest), before, start, actions + [Go(now)]), host, budget, noise, now), steps)
    ensures st == Setting(JudgeOf(e, rest), before, Signed(e, image, version))
    ensures loop == LoopBegun(Run(st.judge, before, start, actions + [Go(now)]), host, budget, noise, now)
    ensures actions + [Go(now)] <= whole && LoopRun(st, loop, steps).line.dev == Run(st.judge, before, start, whole)
    ensures LoopChanges(st, loop, steps) <= MostChanges(st, budget)
    ensures var x := LoopRun(st, loop, steps); Rests(st, x) ==> Installed(st, x.line.dev, x.line.host.place)
  {
    st := SigningSetting(e, rest, before, image, version);
    var dev := Run(st.judge, before, start, actions + [Go(now)]);
    loop := LoopBegun(dev, host, budget, noise, now);
    SignedIsTransferable(e, image, version);
    SignedVerdict(e, rest, before, image, version);
    SyncMakesReady(st.judge, before, start, actions, now, st.image, host);
    GenuineIsInstalled(st, dev, host, budget, noise, now, steps);
    whole := LoopDeviceIsRun(st, before, start, actions + [Go(now)], loop, steps);
  }

  // And however such a transfer has gone so far, it can be carried on to that standstill, in time.
  lemma SignedImageCanBeInstalled(st: Setting, dev: Boot, host: Host.Host, budget: nat, noise: Noise, armedAt: nat,
                                  e: BlockCipher, rest: nat -> bv8, image: seq<bv8>, version: nat, steps: seq<LoopStep>)
    returns (all: seq<LoopStep>)
    requires Updatable(image, version) && st == SigningSetting(e, rest, st.before, image, version)
    requires ReadyAt(st, dev, host, armedAt) && Prompt(st, LoopBegun(dev, host, budget, noise, armedAt), steps)
    ensures steps <= all && Prompt(st, LoopBegun(dev, host, budget, noise, armedAt), all)
    ensures var x := LoopRun(st, LoopBegun(dev, host, budget, noise, armedAt), all);
      Installed(st, x.line.dev, x.line.host.place)
  {
    SignedIsTransferable(e, image, version);
    SignedVerdict(e, rest, st.before, image, version);
    all := LoopCanFinish(st, dev, host, budget, noise, armedAt, steps);
    var x := LoopRun(st, LoopBegun(dev, host, budget, noise, armedAt), all);
    GenuineEnds(st, x.line.dev, x.line.host.place);
  }

  // A device rejects every image that differs from a genuine one inside one authenticated block, with the length
  // field kept. (Only the info block holds the length, so the other blocks may change in any way.)
  lemma DeviceRejectsChangedBlock(m: Memory, m': Memory, p: nat, changed: nat)
    requires Accepts(DeviceCipher, m)
    requires IsAuthenticatedBlock(m, p) && ChangedWithin(m, m', p)
    requires p <= changed < p + AES_BLOCK_SIZE && (changed < Length(m) || p == FWINFO_OFFSET)
    requires m'.At(changed) != m.At(changed)
    ensures !Accepts(DeviceCipher, m')
  {
    DeviceCipherInjective();
    ChangedBlockRejected(DeviceCipher, m, m', p, changed);
  }
}
