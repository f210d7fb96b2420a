// The device's side of a transfer: what each turn of its switch statement makes of the updater's answers.
module TransferDevice {
  import opened Packets
  import opened Link
  import opened Framing
  import opened LittleEndian
  import opened Host
  import opened UpdateMachine
  import opened UpdateCases
  import opened UpdateRuns
  import opened FlashAudit
  import opened UpdateSafety
  import opened UpdateOutcome
  import opened Transfer

  // The packets that the machine has taken from its queue.
  function TakenPackets(log: seq<Event>): seq<Packet> {
    if log == [] then []
    else TakenPackets(log[..|log| - 1]) + (match log[|log| - 1] case Took(p) => [p] case _ => [])
  }

  lemma TakenSnoc(log: seq<Event>, e: Event)
    ensures TakenPackets(log + [e]) == TakenPackets(log) + (match e case Took(p) => [p] case _ => [])
  {
    assert (log + [e])[..|log|] == log;
  }

  function AnswersUpTo(image: seq<bv8>, n: nat): (answers: seq<Packet>)
    requires |image| < TWO_32 && n <= AnswerCount(image)
    ensures |answers| == n
  {
    if n == 0 then [] else AnswersUpTo(image, n - 1) + [Answer(image, n - 1)]
  }

  // The device has taken the first n answers, each once and in order, and has their bytes in flash.
  ghost predicate DeviceAt(before: seq<bv8>, image: seq<bv8>, d: Boot, n: nat, mode: Mode)
    requires |image| < TWO_32
  {
    && FlashInv(before, d) && AtRest(d.link) && !d.hung && d.mode == mode
    && n <= AnswerCount(image) && TakenPackets(d.log) == AnswersUpTo(image, n)
    && Payload(d.log) == image[..Carried(image, n)]
    && (n >= 3 ==> d.firmwareLength == |image|)
  }

  // The mode in which the device waits for answer n.
  function WaitMode(n: nat): Mode {
    if n == 0 then WaitForFwUpdateReq else if n == 1 then DeviceIdRes else if n == 2 then FwLengthRes else ReceiveFw
  }

  // d' is d after sending the packets.
  predicate Said(d: Boot, d': Boot, packets: seq<Packet>) { d'.link.sent == d.link.sent + packets }

  lemma SayAtRest(l: Link, p: Packet)
    requires AtRest(l) && Sized(p)
    ensures AtRest(Send(l, p)) && Send(l, p).sent == l.sent + [p] && Send(l, p).queue == l.queue
  {
    SendValid(l, p);
  }

  lemma TakenOne(image: seq<bv8>, d: Boot, n: nat)
    requires |image| < TWO_32 && n < AnswerCount(image) && AtRest(d.link) && WellTyped(d)
    requires d.link.queue == [Answer(image, n)] && TakenPackets(d.log) == AnswersUpTo(image, n)
    ensures var t := Taken(d);
      && AtRest(t.link) && t.link.queue == [] && t.link.sent == d.link.sent
      && TakenPackets(t.log) == AnswersUpTo(image, n + 1) && Payload(t.log) == Payload(d.log)
  {
    TakenWellTyped(d);
    TakenSnoc(d.log, Took(Answer(image, n)));
    PayloadSnoc(d.log, Took(Answer(image, n)));
  }

  lemma TakeRequest(judge: Judge, before: seq<bv8>, image: seq<bv8>, d: Boot, now: nat)
    requires |image| < TWO_32 && DeviceAt(before, image, d, 0, WaitForFwUpdateReq)
    requires d.link.queue == [Answer(image, 0)] && TakenForWhatItIs(image, 0)
    ensures var c := Switch(judge, d, now);
      DeviceAt(before, image, c, 1, DeviceIdReq) && c.link.queue == [] && Said(d, c, [Res()])
  {
    SwitchFlashInv(judge, before, d, now);
    UpdateRequestCase(judge, d, now);
    TakenOne(image, d, 0);
    SayAtRest(Taken(d).link, Res());
  }

  lemma TakeDeviceId(judge: Judge, before: seq<bv8>, image: seq<bv8>, d: Boot, now: nat)
    requires |image| < TWO_32 && DeviceAt(before, image, d, 1, DeviceIdRes)
    requires d.link.queue == [Answer(image, 1)] && TakenForWhatItIs(image, 1)
    ensures var c := Switch(judge, d, now);
      DeviceAt(before, image, c, 2, FwLengthReq) && c.link.queue == [] && Said(d, c, [])
  {
    SwitchFlashInv(judge, before, d, now);
    DeviceIdCase(judge, d, now);
    TakenOne(image, d, 1);
  }

  lemma AcceptLengthIs(judge: Judge, d: Boot, now: nat)
    requires WellTyped(d) && d.mode == FwLengthRes && HasPacket(d) && AnnouncesFittingLength(d.link.queue[0])
    ensures Switch(judge, d, now) ==
      Enter(Rearm(Taken(d).(firmwareLength := AnnouncedLength(d.link.queue[0])), now), EraseApplication)
  {
    LengthCase(judge, d, now);
  }

  lemma TakeLength(judge: Judge, before: seq<bv8>, image: seq<bv8>, d: Boot, now: nat)
    requires |image| < TWO_32 && DeviceAt(before, image, d, 2, FwLengthRes)
    requires d.link.queue == [Answer(image, 2)] && TakenForWhatItIs(image, 2)
    ensures var c := Switch(judge, d, now);
      DeviceAt(before, image, c, 3, EraseApplication) && c.link.queue == [] && Said(d, c, [])
  {
    SwitchFlashInv(judge, before, d, now);
    AcceptLengthIs(judge, d, now);
    TakenOne(image, d, 2);
  }

  lemma AskForDeviceId(judge: Judge, before: seq<bv8>, image: seq<bv8>, d: Boot, now: nat)
    requires |image| < TWO_32 && DeviceAt(before, image, d, 1, DeviceIdReq) && d.link.queue == []
    ensures var c := Switch(judge, d, now);
      DeviceAt(before, image, c, 1, DeviceIdRes) && c.link.queue == [] && Said(d, c, [IdRequest()])
  {
    SwitchFlashInv(judge, before, d, now);
    DeviceIdRequestCase(judge, d, now);
    SayAtRest(d.link, IdRequest());
  }

  lemma AskForLength(judge: Judge, before: seq<bv8>, image: seq<bv8>, d: Boot, now: nat)
    requires |image| < TWO_32 && DeviceAt(before, image, d, 2, FwLengthReq) && d.link.queue == []
    ensures var c := Switch(judge, d, now);
      DeviceAt(before, image, c, 2, FwLengthRes) && c.link.queue == [] && Said(d, c, [LengthRequest()])
  {
    SwitchFlashInv(judge, before, d, now);
    LengthRequestCase(judge, d, now);
    SayAtRest(d.link, LengthRequest());
  }

  lemma EraseForChunks(judge: Judge, before: seq<bv8>, image: seq<bv8>, d: Boot, now: nat)
    requires |image| < TWO_32 && DeviceAt(before, image, d, 3, EraseApplication) && d.link.queue == []
    ensures var c := Switch(judge, d, now);
      DeviceAt(before, image, c, 3, ReceiveFw) && c.link.queue == [] && Said(d, c, [ReadyForData()])
  {
    SwitchFlashInv(judge, before, d, now);
    EraseCase(judge, d, now);
    SayAtRest(d.link, ReadyForData());
    TakenSnoc(d.log, Erased);
    PayloadSnoc(d.log, Erased);
  }

  // ----- Chunks -----

  lemma CarriedChunk(image: seq<bv8>, n: nat)
    requires 3 <= n < AnswerCount(image)
    ensures Carried(image, n) == 16 * (n - 3) < |image|
    ensures Carried(image, n + 1) == Carried(image, n) + ChunkSizeAt(image, 16 * (n - 3))
    ensures image[..Carried(image, n)] + ChunkAt(image, 16 * (n - 3)) == image[..Carried(image, n + 1)]
    ensures Carried(image, n + 1) == |image| <==> n + 1 == AnswerCount(image)
  {}

  // The first n answers are in, and the device is about to compare the total with the announced length.
  predicate StoredAt(image: seq<bv8>, c: Boot, n: nat)
    requires |image| < TWO_32
  {
    && AtRest(c.link) && c.link.queue == [] && c.mode == ReceiveFw && !c.hung
    && n <= AnswerCount(image) && TakenPackets(c.log) == AnswersUpTo(image, n)
    && Payload(c.log) == image[..Carried(image, n)] && AuditOf(c.log) == Written(|image|, Carried(image, n))
    && c.bytesWritten == Carried(image, n) && c.firmwareLength == |image|
  }

  // The state with the chunk in flash, before the device compares the total with the announced length.
  lemma ChunkStored(before: seq<bv8>, image: seq<bv8>, d: Boot, n: nat, now: nat)
    requires |image| < TWO_32 && 3 <= n < AnswerCount(image) && DeviceAt(before, image, d, n, ReceiveFw)
    requires d.link.queue == [Answer(image, n)] && TakenForWhatItIs(image, n)
    ensures StoredAt(image, Stored(d, now), n + 1) && Stored(d, now).link.sent == d.link.sent
  {
    var p := Answer(image, n);
    TakenOne(image, d, n);
    StoredLog(d, now);
    CarriedChunk(image, n);
    TakenSnoc(Taken(d).log, Programmed(d.bytesWritten, ChunkOf(p)));
    PayloadSnoc(Taken(d).log, Programmed(d.bytesWritten, ChunkOf(p)));
  }

  lemma StoreIs(judge: Judge, d: Boot, now: nat)
    requires WellTyped(d) && d.mode == ReceiveFw && HasPacket(d) && IsChunk(d.link.queue[0])
    ensures var c := Stored(d, now);
      Switch(judge, d, now) ==
        if c.bytesWritten >= c.firmwareLength then Conclude(judge, c) else Say(c, BL_PACKET_READY_FOR_DATA_DATA0)
  {
    DataCase(judge, d, now);
  }

  lemma TakeChunk(judge: Judge, before: seq<bv8>, image: seq<bv8>, d: Boot, n: nat, now: nat)
    requires |image| < TWO_32 && 3 <= n < AnswerCount(image) - 1 && DeviceAt(before, image, d, n, ReceiveFw)
    requires d.link.queue == [Answer(image, n)] && TakenForWhatItIs(image, n)
    ensures var c := Switch(judge, d, now);
      DeviceAt(before, image, c, n + 1, ReceiveFw) && c.link.queue == [] && Said(d, c, [ReadyForData()])
  {
    SwitchFlashInv(judge, before, d, now);
    StoreIs(judge, d, now);
    ChunkStored(before, image, d, n, now);
    CarriedChunk(image, n);
    SayAtRest(Stored(d, now).link, ReadyForData());
  }

  // The device has the whole image in flash and has acted on its verdict.
  ghost predicate DeviceFinished(judge: Judge, before: seq<bv8>, image: seq<bv8>, d: Boot)
    requires |image| < TWO_32
  {
    && FlashInv(before, d) && AtRest(d.link)
    && TakenPackets(d.log) == AnswersUpTo(image, AnswerCount(image)) && Payload(d.log) == image
    && Complete(d.log)
    && (if judge(d.flash) == Endless then d.hung else d.mode == Done && !d.hung)
  }

  lemma ConcludeIs(judge: Judge, c: Boot)
    requires AtRest(c.link) && c.link.queue == [] && !c.hung
    ensures var e := Conclude(judge, c);
      && e.flash == c.flash && e.log == c.log && AtRest(e.link) && e.link.queue == [] && Said(c, e, Report(judge(c.flash)))
      && (if judge(c.flash) == Endless then e.hung else e.mode == Done && !e.hung)
  {
    SayAtRest(c.link, Success());
    SayAtRest(c.link, Nack());
  }

  lemma LastChunkFinishes(judge: Judge, before: seq<bv8>, image: seq<bv8>, c: Boot, e: Boot)
    requires |image| < TWO_32 && AnswerCount(image) > 3 && StoredAt(image, c, AnswerCount(image))
    requires e == Conclude(judge, c) && FlashInv(before, e)
    ensures DeviceFinished(judge, before, image, e) && e.link.queue == [] && Said(c, e, Report(judge(e.flash)))
  {
    ConcludeIs(judge, c);
    CarriedChunk(image, AnswerCount(image) - 1);
  }

  lemma TakeLastChunk(judge: Judge, before: seq<bv8>, image: seq<bv8>, d: Boot, n: nat, now: nat)
    requires |image| < TWO_32 && 3 <= n && n + 1 == AnswerCount(image) && DeviceAt(before, image, d, n, ReceiveFw)
    requires d.link.queue == [Answer(image, n)] && TakenForWhatItIs(image, n)
    ensures var c := Switch(judge, d, now);
      DeviceFinished(judge, before, image, c) && c.link.queue == [] && Said(d, c, Report(judge(c.flash)))
  {
    SwitchFlashInv(judge, before, d, now);
    StoreIs(judge, d, now);
    ChunkStored(before, image, d, n, now);
    CarriedChunk(image, n);
    LastChunkFinishes(judge, before, image, Stored(d, now), Switch(judge, d, now));
  }

  // What the flash holds at the end: the image, and blanks.
  lemma FinishedFlash(judge: Judge, before: seq<bv8>, image: seq<bv8>, d: Boot)
    requires |image| < TWO_32 && image != [] && DeviceFinished(judge, before, image, d)
    ensures image <= d.flash && forall i :: |image| <= i < APP_FLASH_SIZE ==> d.flash[i] == 0xff
  {
    PassedLogTallies(d.log);
    PayloadOnlyErased(d.log);
  }

  lemma {:induction false} PayloadOnlyErased(log: seq<Event>)
    requires Passes(log) && Payload(log) != []
    ensures HasErased(log)
  {
    var front, e := log[..|log| - 1], log[|log| - 1];
    PrefixPasses(log, |log| - 1);
    if e.Programmed? {
      PassedLogTallies(front);
    } else {
      PayloadOnlyErased(front);
    }
  }
}
