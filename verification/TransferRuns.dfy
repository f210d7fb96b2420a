// The theorems about whole transfers: runs of bootloader and updater on the serial line, under any
// interleaving and any damage, within a budget, to the frames with commands and data.
module TransferRuns {
  import opened Packets
  import opened Link
  import opened Framing
  import opened LittleEndian
  import opened Host
  import opened UpdateMachine
  import opened UpdateRuns
  import opened FlashAudit
  import opened UpdateSafety
  import opened UpdateOutcome
  import opened Transfer
  import opened TransferDevice
  import opened Exchanges
  import opened FrameSession
  import opened SessionPhases
  import opened SessionSteps
  import opened SessionLost
  import opened SessionRuns
  import opened LineSession
  import opened LineRuns

  // The device has observed the sync sequence and nothing else has happened to it.
  ghost predicate Ready(st: Setting, dev: Boot, host: Host) {
    Fits(st) && Synchronised(dev, host) && FlashInv(st.before, dev) && ReportsTruly(st.judge, dev)
  }

  function LineRun(st: Setting, start: Line, steps: seq<LineStep>): Line {
    if steps == [] then start
    else
      var l := LineRun(st, start, steps[..|steps| - 1]);
      if TypedLine(l, st.image) then LineStepOf(st.judge, st.image, l, steps[|steps| - 1]) else l
  }

  // ----- Where a run can be -----

  ghost predicate InStretch(st: Setting, l: Line, s: Session, n: nat, ph: Stretch)
    requires Fits(st)
  {
    Follows(st, l, s) && Within(st, s, n, ph)
  }

  ghost predicate IsLost(st: Setting, l: Line, s: Session) {
    Follows(st, l, s) && Lost(s, st.image) && !Transferable(st.image)
  }

  lemma InitialStage(st: Setting, dev: Boot, host: Host)
    requires Ready(st, dev, host)
    ensures DeviceAt(st.before, st.image, dev, 0, WaitForFwUpdateReq)
    ensures Typed(Session(dev, Begin(host), [], [], 0), st.image)
  {}

  lemma BegunIs(dev: Boot, host: Host, budget: nat, noise: Noise) returns (sent: Packet, s: Session)
    ensures sent == if Hit(noise, budget) then noise.q else UpdateRequest()
    ensures s == Begun(dev, host, budget, noise)
    ensures s == Session(dev, Begin(host), [Ack(), sent], [], if Hit(noise, budget) then budget - 1 else budget)
  {
    sent := if Hit(noise, budget) then noise.q else UpdateRequest();
    s := Begun(dev, host, budget, noise);
  }

  lemma BegunWithin(st: Setting, x: Exchange, s: Session, sent: Packet, damaged: bool)
    requires Fits(st) && Regular(x) && x.answer == UpdateRequest() && (if damaged then WrongCrc(sent) else sent == x.answer)
    requires DeviceAt(st.before, st.image, s.dev, 0, WaitForFwUpdateReq) && s.dev.link.queue == []
    requires ValidHost(s.host) && s.host.rx == [] && s.host.packets == [] && s.host.last == x.answer && s.host.place == AwaitUpdateResponse
    requires s.toDev == [Ack(), sent] && s.toHost == []
    ensures At(st, x, s, 0, Outstanding(1, damaged))
  {
    RequestAnswer(st.image);
    ManyAnswers(st);
    assert s.toDev[..1] == Repeat(x.ack, 1);
  }

  lemma BegunRefines(s: Session, sent: Packet)
    requires AtRest(s.dev.link) && s.host.rx == [] && s.toDev == [Ack(), sent] && Sized(sent) && s.toHost == []
    ensures Refines(Line(s.dev, s.host, Encoded(s.toDev), [], s.budget), s)
  {
    assert AllSized(s.toDev);
  }

  lemma BegunTyped(st: Setting, dev: Boot, host: Host, s: Session, sent: Packet)
    requires Ready(st, dev, host) && Sized(sent) && s.dev == dev && s.host == Begin(host) && s.toDev == [Ack(), sent] && s.toHost == []
    ensures Typed(s, st.image)
  {
    InitialStage(st, dev, host);
  }

  lemma RunBegins(st: Setting, dev: Boot, host: Host, budget: nat, noise: Noise)
    requires Ready(st, dev, host)
    ensures InStretch(st, LineBegun(dev, host, budget, noise), Begun(dev, host, budget, noise), 0, Outstanding(1, Hit(noise, budget)))
  {
    var sent, s := BegunIs(dev, host, budget, noise);
    InitialStage(st, dev, host);
    BegunRefines(s, sent);
    BegunTyped(st, dev, host, s, sent);
    var x := ExchangeDetails(st, 0);
    BegunWithin(st, x, s, sent, Hit(noise, budget));
  }

  lemma LostStays(st: Setting, l: Line, s: Session, a: LineStep) returns (s': Session)
    requires Fits(st) && IsLost(st, l, s)
    ensures TypedLine(l, st.image) && IsLost(st, LineStepOf(st.judge, st.image, l, a), s')
  {
    FollowsIsTyped(st, l, s);
    if Completes(l, a) {
      StepLost(st.judge, s, st.image, FrameStepOf(a));
      CompleteStep(st, l, s, a);
      s' := StepOf(st.judge, st.image, s, FrameStepOf(a));
    } else {
      IncompleteStep(st, l, s, a);
      s' := s;
    }
  }

  // The state of a run, with the session that it follows.
  lemma {:induction false} RunIs(st: Setting, dev: Boot, host: Host, budget: nat, noise: Noise, steps: seq<LineStep>)
    returns (s: Session, n: nat, ph: Stretch)
    requires Ready(st, dev, host)
    ensures var l := LineRun(st, LineBegun(dev, host, budget, noise), steps);
      InStretch(st, l, s, n, ph) || IsLost(st, l, s)
  {
    if steps == [] {
      RunBegins(st, dev, host, budget, noise);
      s, n, ph := Begun(dev, host, budget, noise), 0, Outstanding(1, Hit(noise, budget));
    } else {
      var front, a := steps[..|steps| - 1], steps[|steps| - 1];
      s, n, ph := RunIs(st, dev, host, budget, noise, front);
      s, n, ph := RunGoesOn(st, LineRun(st, LineBegun(dev, host, budget, noise), front), s, n, ph, a);
    }
  }

  lemma RunGoesOn(st: Setting, l: Line, s: Session, n: nat, ph: Stretch, a: LineStep)
    returns (s': Session, n': nat, ph': Stretch)
    requires Fits(st) && (InStretch(st, l, s, n, ph) || IsLost(st, l, s))
    ensures TypedLine(l, st.image)
    ensures var l' := LineStepOf(st.judge, st.image, l, a); InStretch(st, l', s', n', ph') || IsLost(st, l', s')
  {
    if InStretch(st, l, s, n, ph) {
      s', n', ph' := LineAdvances(st, l, s, n, ph, a);
    } else {
      s' := LostStays(st, l, s, a);
      n', ph' := n, ph;
    }
  }

  // ----- Delivery, exactly once and in order -----

  // The device's queue and everything taken from it are the first so many answers.
  ghost predicate DeliveredInOrder(image: seq<bv8>, delivered: seq<Packet>)
    requires |image| < TWO_32
  {
    exists m: nat :: m <= AnswerCount(image) && delivered == AnswersUpTo(image, m)
  }

  // All packets that the device has ever queued.
  function Delivered(d: Boot): seq<Packet> { TakenPackets(d.log) + d.link.queue }

  // The flash holds the image as far as it has been written.
  predicate HoldsPrefix(image: seq<bv8>, d: Boot) {
    d.mode == ReceiveFw && InLoop(d) ==>
      d.bytesWritten <= |image| && d.bytesWritten <= |d.flash| && d.flash[..d.bytesWritten] == image[..d.bytesWritten]
  }

  lemma StageDelivered(st: Setting, x: Exchange, s: Session, n: nat, ph: Stretch)
    requires Fits(st) && At(st, x, s, n, ph) && (n < AnswerCount(st.image) ==> x.answer == Answer(st.image, n))
    ensures DeliveredInOrder(st.image, Delivered(s.dev))
  {
    if ph.Arrived? {
      assert Delivered(s.dev) == AnswersUpTo(st.image, n + 1);
    } else {
      assert Delivered(s.dev) == AnswersUpTo(st.image, n);
    }
  }

  lemma StagePrefix(st: Setting, d: Boot, n: nat, ph: Stretch)
    requires Fits(st) && DeviceStage(st, d, n, ph)
    ensures HoldsPrefix(st.image, d)
  {
    if d.mode == ReceiveFw && InLoop(d) {
      PassedLogTallies(d.log);
    }
  }

  // What holds at every moment of the transfer of an image that can be transferred: the packet ring never
  // overflows, the bytes under way fit in the byte ring, every frame is queued once and in order, and the
  // flash holds the image as far as it has been written.
  ghost predicate InOrder(st: Setting, l: Line)
    requires Fits(st)
  {
    && !l.dev.link.halted && |l.dev.link.queue| <= 1 && |l.toDev| <= 54 && |l.toHost| <= 54
    && DeliveredInOrder(st.image, Delivered(l.dev)) && HoldsPrefix(st.image, l.dev)
  }

  lemma StageInOrder(st: Setting, s: Session, n: nat, ph: Stretch)
    requires Fits(st) && Within(st, s, n, ph)
    ensures DeliveredInOrder(st.image, Delivered(s.dev)) && HoldsPrefix(st.image, s.dev)
  {
    var x := ExchangeDetails(st, n);
    StageDelivered(st, x, s, n, ph);
    StagePrefix(st, s.dev, n, ph);
  }

  lemma SameDelivery(st: Setting, l: Line, s: Session)
    requires Refines(l, s)
    ensures Delivered(l.dev) == Delivered(s.dev) && HoldsPrefix(st.image, l.dev) == HoldsPrefix(st.image, s.dev)
    ensures l.dev.link.queue == s.dev.link.queue && !l.dev.link.halted
  {}

  lemma StretchInOrder(st: Setting, l: Line, s: Session, n: nat, ph: Stretch)
    requires Fits(st) && InStretch(st, l, s, n, ph)
    ensures InOrder(st, l)
  {
    StageInOrder(st, s, n, ph);
    FewBytes(st, l, s, n, ph);
    SameDelivery(st, l, s);
  }

  // Any finite number of damaged command and data frames, under any interleaving: every answer of the host
  // is queued at the device exactly once and in order, the overflow breakpoint is never reached, and after
  // each chunk the flash holds the same prefix as the image.
  lemma QueuedOnceInOrder(st: Setting, dev: Boot, host: Host, budget: nat, noise: Noise, steps: seq<LineStep>)
    requires Ready(st, dev, host) && Transferable(st.image)
    ensures InOrder(st, LineRun(st, LineBegun(dev, host, budget, noise), steps))
  {
    var s, n, ph := RunIs(st, dev, host, budget, noise, steps);
    StretchInOrder(st, LineRun(st, LineBegun(dev, host, budget, noise), steps), s, n, ph);
  }

  // ----- Success -----

  // The device has reported success, and rightly.
  predicate Succeeds(st: Setting, d: Boot) {
    && Transferable(st.image) && d.mode == Done && d.flash == FinalFlash(st.image)
    && st.judge(d.flash) == Genuine && EndingOf(st.judge, d) == Jump
  }

  lemma DoneMeansFinished(st: Setting, s: Session, n: nat, ph: Stretch)
    requires Fits(st) && Within(st, s, n, ph) && s.dev.mode == Done
    ensures n == AnswerCount(st.image) && Transferable(st.image) && s.dev.flash == FinalFlash(st.image)
  {
    if n < AnswerCount(st.image) {
      StageRuns(st, s.dev, n, ph);
    } else {
      FinishedIsFinalFlash(st, s.dev);
    }
  }

  lemma SuccessIsDeserved(st: Setting, s: Session, n: nat, ph: Stretch)
    requires Fits(st) && ReportsTruly(st.judge, s.dev) && Success() in s.dev.link.sent
    requires Within(st, s, n, ph) || Lost(s, st.image)
    ensures Succeeds(st, s.dev)
  {
    if !Lost(s, st.image) {
      DoneMeansFinished(st, s, n, ph);
    }
  }

  // Whatever the image: if the device ever reports success, the image could be transferred, it is in flash
  // byte for byte, and it is genuine.
  lemma SuccessOnlyIf(st: Setting, dev: Boot, host: Host, budget: nat, noise: Noise, steps: seq<LineStep>)
    requires Ready(st, dev, host)
    ensures var l := LineRun(st, LineBegun(dev, host, budget, noise), steps);
      Success() in l.dev.link.sent ==> Succeeds(st, l.dev)
  {
    var l := LineRun(st, LineBegun(dev, host, budget, noise), steps);
    var s, n, ph := RunIs(st, dev, host, budget, noise, steps);
    if Success() in l.dev.link.sent {
      SuccessIsDeserved(st, s, n, ph);
    }
  }

  // ----- The end -----

  // No step changes the line any more.
  ghost predicate AtRestForGood(st: Setting, l: Line)
    requires TypedLine(l, st.image)
  {
    forall a: LineStep :: LineStepOf(st.judge, st.image, l, a) == l
  }

  lemma FramesNeedBytes(have: seq<bv8>, rest: seq<bv8>, frames: seq<Packet>)
    requires AllSized(frames) && |have| < PACKET_TOTAL_LENGTH && have + rest == WireAll(frames)
    ensures rest == [] <==> frames == []
  {
    assert |have + rest| == |have| + |rest|;
  }

  lemma HostByteShortens(l: Line)
    requires ValidHost(l.host) && l.toHost != []
    ensures HostByte(l, Clean) != l
  {
    assert HostByte(l, Clean).toHost == l.toHost[1..];
  }

  lemma DevByteShortens(l: Line)
    requires Valid(l.dev.link) && l.toDev != [] && Running(l.dev)
    ensures DevByte(l) != l
  {
    assert DevByte(l).toDev == l.toDev[1..];
  }

  lemma StoreKeepsQueue(judge: Judge, d: Boot, p: Packet, now: nat)
    requires Sized(p)
    ensures Store(judge, d, p, now).link.queue == d.link.queue
  {}

  lemma PerformTakes(judge: Judge, d: Boot, m: Move, now: nat)
    requires WellTyped(d) && TakesPacket(m) && HasPacket(d)
    ensures Perform(judge, d, m, now).link.queue == d.link.queue[1..]
  {
    if m == StoreChunk {
      TakenWellTyped(d);
      StoreKeepsQueue(judge, Taken(d), d.link.queue[0], now);
    }
  }

  lemma TakingTakes(judge: Judge, d: Boot, now: nat)
    requires WellTyped(d) && Waits(d.mode) && HasPacket(d)
    ensures Switch(judge, d, now).link.queue == d.link.queue[1..]
  {
    PerformTakes(judge, d, Decide(d, now), now);
  }

  // What a device or a host at a standstill cannot have left to do.
  predicate CanTake(d: Boot) { Running(d) && Waits(d.mode) && HasPacket(d) }

  predicate CanAsk(d: Boot) {
    Running(d) && (d.mode == DeviceIdReq || d.mode == FwLengthReq || d.mode == EraseApplication)
  }

  predicate CanWake(h: Host) { h.packets != [] && h.place != Succeeded && h.place != Failed }

  // No bytes under way that anybody would read, and nothing to take, to ask or to wake up for.
  predicate NothingToDo(l: Line) {
    && l.toHost == [] && (Running(l.dev) ==> l.toDev == [])
    && !CanTake(l.dev) && !CanAsk(l.dev) && !CanWake(l.host)
  }

  lemma TakingMoves(judge: Judge, l: Line, now: nat)
    requires WellTyped(l.dev) && CanTake(l.dev)
    ensures DevTurn(judge, l, now) != l
  {
    TakingIsNoTimeOut(l.dev, now);
    TakingTakes(judge, l.dev, now);
  }

  lemma AskingMoves(judge: Judge, l: Line, now: nat)
    requires WellTyped(l.dev) && CanAsk(l.dev)
    ensures DevTurn(judge, l, now) != l
  {}

  lemma WakingMoves(l: Line, image: seq<bv8>)
    requires |image| < TWO_32 && PlaceInImage(l.host, image) && CanWake(l.host)
    ensures HostWake(l, image, Clean) != l
  {
    assert Advance(l.host, image).packets == l.host.packets[1..];
  }

  lemma StandstillMeansQuiet(st: Setting, l: Line)
    requires TypedLine(l, st.image) && AtRestForGood(st, l)
    ensures l.toHost == [] && (Running(l.dev) ==> l.toDev == [])
  {
    assert LineStepOf(st.judge, st.image, l, HostReads(Clean)) == l;
    assert LineStepOf(st.judge, st.image, l, DevReads) == l;
    if l.toHost != [] {
      HostByteShortens(l);
    }
    if l.toDev != [] && Running(l.dev) {
      DevByteShortens(l);
    }
  }

  lemma StandstillMeansNothingToDo(st: Setting, l: Line)
    requires TypedLine(l, st.image) && AtRestForGood(st, l)
    ensures NothingToDo(l)
  {
    StandstillMeansQuiet(st, l);
    assert LineStepOf(st.judge, st.image, l, DevTurns(0)) == l;
    assert LineStepOf(st.judge, st.image, l, HostRuns(Clean)) == l;
    if CanTake(l.dev) {
      TakingMoves(st.judge, l, 0);
    }
    if CanAsk(l.dev) {
      AskingMoves(st.judge, l, 0);
    }
    if CanWake(l.host) {
      WakingMoves(l, st.image);
    }
  }

  lemma QuietWires(l: Line, s: Session)
    requires Refines(l, s) && NothingToDo(l)
    ensures s.toHost == [] && (Running(s.dev) ==> s.toDev == [])
  {
    FramesNeedBytes(l.host.rx, l.toHost, s.toHost);
    FramesNeedBytes(Pending(l.dev.link), l.toDev, s.toDev);
  }

  lemma SameToDo(l: Line, s: Session)
    requires Refines(l, s)
    ensures CanTake(l.dev) == CanTake(s.dev) && CanAsk(l.dev) == CanAsk(s.dev) && CanWake(l.host) == CanWake(s.host)
  {}

  lemma AskPlaceIsOpen(st: Setting, n: nat, taken: nat)
    requires Fits(st) && 1 <= n <= AnswerCount(st.image) && taken < QuestionCount(st, n)
    ensures AskPlace(st, n, taken) != Succeeded && AskPlace(st, n, taken) != Failed
  {}

  lemma QuestionCounts(st: Setting, n: nat)
    requires Fits(st)
    ensures 4 <= n < AnswerCount(st.image) ==> QuestionCount(st, n) == 1
    ensures n == 1 ==> QuestionCount(st, n) == 2
  {}

  // With quiet wires and nothing to do, only the end is left.
  lemma QuietStretch(st: Setting, x: Exchange, s: Session, n: nat, ph: Stretch)
    requires Fits(st) && At(st, x, s, n, ph) && s.toHost == [] && (Running(s.dev) ==> s.toDev == [])
    requires x.questions == Questions(st.image, n, FinalVerdict(st))
    requires !CanTake(s.dev) && !CanAsk(s.dev) && !CanWake(s.host)
    ensures n == AnswerCount(st.image) && ph.Asking? && ph.taken == QuestionCount(st, n)
  {
    StageRuns(st, s.dev, n, ph);
    WaitModeWaits(n);
    LastAsksNothing(st, x, s, n, ph);
    QuestionCounts(st, n);
    if ph.Asking? && ph.taken < ph.handled {
      AskPlaceIsOpen(st, n, ph.taken);
    }
  }

  lemma QuietMeansEnd(st: Setting, l: Line, s: Session, n: nat, ph: Stretch)
    requires Fits(st) && InStretch(st, l, s, n, ph) && NothingToDo(l)
    ensures n == AnswerCount(st.image) && ph.Asking? && ph.taken == QuestionCount(st, n)
  {
    var x := ExchangeDetails(st, n);
    QuietWires(l, s);
    SameToDo(l, s);
    QuietStretch(st, x, s, n, ph);
  }

  // How a transfer ends: the device has taken every answer once and in order, the flash holds the image and
  // blanks, and the two sides agree on the verdict.
  predicate Ended(st: Setting, d: Boot, place: Place)
    requires Fits(st)
  {
    && TakenPackets(d.log) == AnswersUpTo(st.image, AnswerCount(st.image)) && d.flash == FinalFlash(st.image)
    && (Success() in d.link.sent <==> FinalVerdict(st) == Genuine)
    && match FinalVerdict(st)
       case Genuine => d.mode == Done && place == Succeeded && EndingOf(st.judge, d) == Jump
       case Rejected => d.mode == Done && place == Failed && EndingOf(st.judge, d) == ResetCore
       case Endless => d.hung && EndingOf(st.judge, d) == Hang
  }

  lemma FinishedEnds(st: Setting, d: Boot, place: Place)
    requires Fits(st) && DeviceFinished(st.judge, st.before, st.image, d) && d.flash == FinalFlash(st.image)
    requires ReportsTruly(st.judge, d)
    requires FinalVerdict(st) == Genuine ==> place == Succeeded
    requires FinalVerdict(st) == Rejected ==> place == Failed
    ensures Ended(st, d, place)
  {}

  lemma FinalPlace(st: Setting, taken: nat)
    requires Fits(st) && taken == QuestionCount(st, AnswerCount(st.image))
    ensures FinalVerdict(st) == Genuine ==> AskPlace(st, AnswerCount(st.image), taken) == Succeeded
    ensures FinalVerdict(st) == Rejected ==> AskPlace(st, AnswerCount(st.image), taken) == Failed
  {
    ManyAnswers(st);
  }

  lemma EndIs(st: Setting, s: Session, n: nat, ph: Stretch)
    requires Fits(st) && Within(st, s, n, ph) && ReportsTruly(st.judge, s.dev)
    requires n == AnswerCount(st.image) && ph.Asking? && ph.taken == QuestionCount(st, n)
    ensures Ended(st, s.dev, s.host.place)
  {
    FinishedIsFinalFlash(st, s.dev);
    FinalPlace(st, ph.taken);
    FinishedEnds(st, s.dev, s.host.place);
  }

  lemma SameEnd(st: Setting, l: Line, s: Session)
    requires Fits(st) && Refines(l, s) && Ended(st, s.dev, s.host.place)
    ensures Ended(st, l.dev, l.host.place)
  {}

  lemma NothingToDoIsTheEnd(st: Setting, l: Line, s: Session, n: nat, ph: Stretch)
    requires Fits(st) && InStretch(st, l, s, n, ph) && NothingToDo(l)
    ensures Ended(st, l.dev, l.host.place)
  {
    QuietMeansEnd(st, l, s, n, ph);
    EndIs(st, s, n, ph);
    SameEnd(st, l, s);
  }

  // A transfer that has come to a standstill has come to its end.
  lemma StandstillIsTheEnd(st: Setting, dev: Boot, host: Host, budget: nat, noise: Noise, steps: seq<LineStep>)
    requires Ready(st, dev, host) && Transferable(st.image)
    ensures var l := LineRun(st, LineBegun(dev, host, budget, noise), steps);
      TypedLine(l, st.image) && (AtRestForGood(st, l) ==> Ended(st, l.dev, l.host.place))
  {
    var l := LineRun(st, LineBegun(dev, host, budget, noise), steps);
    var s, n, ph := RunIs(st, dev, host, budget, noise, steps);
    FollowsIsTyped(st, l, s);
    if AtRestForGood(st, l) {
      StandstillMeansNothingToDo(st, l);
      NothingToDoIsTheEnd(st, l, s, n, ph);
    }
  }

  // How the transfer of any other image ends. If the device refuses the device id, the length, or a last chunk of one
  // byte, it has sent NACK and left its loop, and the updater has given up; if the last chunk looks like a control
  // packet, the device goes on waiting for it. The flash is as it was, or has all chunks but the last.
  predicate NotInstalled(st: Setting, d: Boot, place: Place) {
    && d.flash == (if HandshakeFails(st.image) then st.before else FinalFlash(StoredPart(st.image)))
    && Success() !in d.link.sent
    && if IsDeclined(st.image) then d.mode == Done && d.link.sent != [] && d.link.sent[|d.link.sent| - 1] == Nack() && place == Failed
       else d.mode == ReceiveFw && (place == AwaitResult || place == Failed)
  }

  lemma LostFlash(st: Setting, d: Boot)
    requires FlashInv(st.before, d) && LeftAs(d.log, st.image)
    ensures d.flash == if HandshakeFails(st.image) then st.before else FinalFlash(StoredPart(st.image))
  {}

  lemma QuietLost(st: Setting, s: Session)
    requires Lost(s, st.image) && FlashInv(st.before, s.dev) && ReportsTruly(st.judge, s.dev)
    requires s.toHost == [] && !CanWake(s.host)
    ensures NotInstalled(st, s.dev, s.host.place)
  {
    LostFlash(st, s.dev);
  }

  lemma LostEnds(st: Setting, l: Line, s: Session)
    requires IsLost(st, l, s) && NothingToDo(l)
    ensures NotInstalled(st, l.dev, l.host.place)
  {
    QuietWires(l, s);
    SameToDo(l, s);
    QuietLost(st, s);
  }

  lemma EndOnlyIfTransferable(st: Setting, l: Line, s: Session, n: nat, ph: Stretch)
    requires Fits(st) && InStretch(st, l, s, n, ph) && NothingToDo(l)
    ensures Transferable(st.image)
  {
    QuietMeansEnd(st, l, s, n, ph);
  }

  lemma UntransferableEnds(st: Setting, dev: Boot, host: Host, budget: nat, noise: Noise, steps: seq<LineStep>)
    requires Ready(st, dev, host) && !Transferable(st.image)
    ensures var l := LineRun(st, LineBegun(dev, host, budget, noise), steps);
      TypedLine(l, st.image) && (AtRestForGood(st, l) ==> NotInstalled(st, l.dev, l.host.place))
  {
    var l := LineRun(st, LineBegun(dev, host, budget, noise), steps);
    var s, n, ph := RunIs(st, dev, host, budget, noise, steps);
    FollowsIsTyped(st, l, s);
    if AtRestForGood(st, l) {
      StandstillMeansNothingToDo(st, l);
      if InStretch(st, l, s, n, ph) {
        EndOnlyIfTransferable(st, l, s, n, ph);
      }
      LostEnds(st, l, s);
    }
  }

  // Success is reported exactly for those images that can be transferred and are genuine once in flash.
  lemma SuccessExactlyWhen(st: Setting, dev: Boot, host: Host, budget: nat, noise: Noise, steps: seq<LineStep>)
    requires Ready(st, dev, host)
    requires TypedLine(LineRun(st, LineBegun(dev, host, budget, noise), steps), st.image)
    requires AtRestForGood(st, LineRun(st, LineBegun(dev, host, budget, noise), steps))
    ensures Success() in LineRun(st, LineBegun(dev, host, budget, noise), steps).dev.link.sent
       <==> Transferable(st.image) && FinalVerdict(st) == Genuine
  {
    SuccessOnlyIf(st, dev, host, budget, noise, steps);
    if Transferable(st.image) {
      StandstillIsTheEnd(st, dev, host, budget, noise, steps);
    }
  }

  // ----- Standstill is reached -----

  // The number of steps that have changed the line.
  function Changes(st: Setting, start: Line, steps: seq<LineStep>): nat {
    if steps == [] then 0
    else
      var front := steps[..|steps| - 1];
      Changes(st, start, front) + (if LineRun(st, start, steps) == LineRun(st, start, front) then 0 else 1)
  }

  function MostChanges(st: Setting, budget: nat): nat {
    200 * (40 * AnswerCount(st.image) + 10 * budget + 26) + 108
  }

  lemma InitialWeight(st: Setting, dev: Boot, host: Host, budget: nat, noise: Noise)
    requires Ready(st, dev, host)
    ensures Weight(st, LineBegun(dev, host, budget, noise), Begun(dev, host, budget, noise), 0,
                   Outstanding(1, Hit(noise, budget))) <= MostChanges(st, budget)
  {
    RunBegins(st, dev, host, budget, noise);
    FewBytes(st, LineBegun(dev, host, budget, noise), Begun(dev, host, budget, noise), 0, Outstanding(1, Hit(noise, budget)));
  }

  lemma WeightIsNatural(st: Setting, l: Line, s: Session, n: nat, ph: Stretch)
    requires Fits(st) && Within(st, s, n, ph)
    ensures Weight(st, l, s, n, ph) >= 0
  {
    RemainingIsNatural(st, s, n, ph);
  }

  lemma OneMoreStep(st: Setting, l: Line, s: Session, n: nat, ph: Stretch, a: LineStep, l': Line)
    returns (s': Session, n': nat, ph': Stretch)
    requires Fits(st) && Transferable(st.image) && InStretch(st, l, s, n, ph) && TypedLine(l, st.image)
    requires l' == LineStepOf(st.judge, st.image, l, a)
    ensures InStretch(st, l', s', n', ph')
    ensures l' == l || Weight(st, l', s', n', ph') < Weight(st, l, s, n, ph)
  {
    s', n', ph' := LineAdvances(st, l, s, n, ph, a);
  }

  lemma {:induction false} RunPays(st: Setting, dev: Boot, host: Host, budget: nat, noise: Noise, steps: seq<LineStep>)
    returns (s: Session, n: nat, ph: Stretch)
    requires Ready(st, dev, host) && Transferable(st.image)
    ensures var start := LineBegun(dev, host, budget, noise);
      && InStretch(st, LineRun(st, start, steps), s, n, ph)
      && Weight(st, LineRun(st, start, steps), s, n, ph) + Changes(st, start, steps) <= MostChanges(st, budget)
  {
    var start := LineBegun(dev, host, budget, noise);
    if steps == [] {
      RunBegins(st, dev, host, budget, noise);
      InitialWeight(st, dev, host, budget, noise);
      s, n, ph := Begun(dev, host, budget, noise), 0, Outstanding(1, Hit(noise, budget));
    } else {
      var front, a := steps[..|steps| - 1], steps[|steps| - 1];
      s, n, ph := RunPays(st, dev, host, budget, noise, front);
      FollowsIsTyped(st, LineRun(st, start, front), s);
      var l, l' := LineRun(st, start, front), LineRun(st, start, steps);
      var s0, n0, ph0 := s, n, ph;
      s, n, ph := OneMoreStep(st, l, s0, n0, ph0, a, l');
      if l' == l {
        s, n, ph := s0, n0, ph0;
      }
    }
  }

  // No transfer goes on for ever: only so many steps can change anything, however they are interleaved.
  lemma TransfersEnd(st: Setting, dev: Boot, host: Host, budget: nat, noise: Noise, steps: seq<LineStep>)
    requires Ready(st, dev, host) && Transferable(st.image)
    ensures Changes(st, LineBegun(dev, host, budget, noise), steps) <= MostChanges(st, budget)
  {
    var s, n, ph := RunPays(st, dev, host, budget, noise, steps);
    WeightIsNatural(st, LineRun(st, LineBegun(dev, host, budget, noise), steps), s, n, ph);
  }

  lemma LineRunSnoc(st: Setting, start: Line, steps: seq<LineStep>, a: LineStep)
    ensures var l := LineRun(st, start, steps);
      LineRun(st, start, steps + [a]) == if TypedLine(l, st.image) then LineStepOf(st.judge, st.image, l, a) else l
  {
    assert (steps + [a])[..|steps|] == steps;
  }

  lemma SomeStepOnward(st: Setting, l: Line, s: Session, n: nat, ph: Stretch)
    returns (a: LineStep, l': Line, s': Session, n': nat, ph': Stretch)
    requires Fits(st) && Transferable(st.image) && InStretch(st, l, s, n, ph)
    requires TypedLine(l, st.image) && !AtRestForGood(st, l)
    ensures l' == LineStepOf(st.judge, st.image, l, a) && InStretch(st, l', s', n', ph')
    ensures Weight(st, l', s', n', ph') < Weight(st, l, s, n, ph)
  {
    a :| LineStepOf(st.judge, st.image, l, a) != l;
    l' := LineStepOf(st.judge, st.image, l, a);
    s', n', ph' := OneMoreStep(st, l, s, n, ph, a, l');
  }

  ghost predicate StandsStill(st: Setting, l: Line) { TypedLine(l, st.image) && AtRestForGood(st, l) }

  lemma OneStepLonger(st: Setting, start: Line, steps: seq<LineStep>, l: Line, s: Session, n: nat, ph: Stretch)
    returns (longer: seq<LineStep>, l': Line, s': Session, n': nat, ph': Stretch)
    requires Fits(st) && Transferable(st.image) && l == LineRun(st, start, steps) && InStretch(st, l, s, n, ph)
    requires TypedLine(l, st.image) && !AtRestForGood(st, l)
    ensures steps <= longer && l' == LineRun(st, start, longer) && InStretch(st, l', s', n', ph')
    ensures 0 <= Weight(st, l', s', n', ph') < Weight(st, l, s, n, ph)
  {
    var a: LineStep;
    a, l', s', n', ph' := SomeStepOnward(st, l, s, n, ph);
    LineRunSnoc(st, start, steps, a);
    WeightIsNatural(st, l', s', n', ph');
    longer := steps + [a];
  }

  lemma {:induction false} CanFinish(st: Setting, start: Line, steps: seq<LineStep>, l: Line, s: Session, n: nat, ph: Stretch, weight: nat)
    returns (all: seq<LineStep>)
    requires Fits(st) && Transferable(st.image) && l == LineRun(st, start, steps) && InStretch(st, l, s, n, ph)
    requires Weight(st, l, s, n, ph) <= weight
    ensures steps <= all && StandsStill(st, LineRun(st, start, all))
    decreases weight
  {
    FollowsIsTyped(st, l, s);
    if AtRestForGood(st, l) {
      all := steps;
    } else {
      var longer, l', s', n', ph' := OneStepLonger(st, start, steps, l, s, n, ph);
      all := CanFinish(st, start, longer, l', s', n', ph', weight - 1);
    }
  }

  // However a transfer has gone so far, it can be carried on to its end.
  lemma EveryTransferCanFinish(st: Setting, dev: Boot, host: Host, budget: nat, noise: Noise, steps: seq<LineStep>)
    returns (all: seq<LineStep>)
    requires Ready(st, dev, host) && Transferable(st.image)
    ensures var l := LineRun(st, LineBegun(dev, host, budget, noise), all);
      steps <= all && StandsStill(st, l) && Ended(st, l.dev, l.host.place)
  {
    var start := LineBegun(dev, host, budget, noise);
    var s, n, ph := RunIs(st, dev, host, budget, noise, steps);
    var l := LineRun(st, start, steps);
    WeightIsNatural(st, l, s, n, ph);
    all := CanFinish(st, start, steps, l, s, n, ph, Weight(st, l, s, n, ph));
    StandstillIsTheEnd(st, dev, host, budget, noise, all);
  }
}
