// Each step of a session leads from a stretch to a stretch, and nearer to the end unless it changes nothing.
module SessionSteps {
  import opened Packets
  import opened Link
  import opened Framing
  import opened Host
  import opened UpdateMachine
  import opened UpdateSafety
  import opened UpdateOutcome
  import opened Transfer
  import opened TransferDevice
  import opened Exchanges
  import opened FrameSession
  import opened SessionPhases

  // ----- The device handles a frame -----

  // l' is l after handling a frame that left the given queue and sent the given packets.
  predicate LinkTo(l: Link, l': Link, queue: seq<Packet>, sent: seq<Packet>) {
    AtRest(l') && l'.queue == queue && l'.sent == l.sent + sent
  }

  lemma LinkGetsAck(l: Link)
    requires AtRest(l)
    ensures LinkTo(l, HandlePacket(Completed(l, Ack())), l.queue, [])
  {
    HandleWellFormed(l, Ack());
  }

  lemma LinkGetsPlain(l: Link, p: Packet)
    requires AtRest(l) && l.queue == [] && Plain(p)
    ensures LinkTo(l, HandlePacket(Completed(l, p)), [p], [Ack()])
  {
    HandleWellFormed(l, p);
  }

  lemma LinkGetsDamaged(l: Link, q: Packet)
    requires AtRest(l) && WrongCrc(q)
    ensures LinkTo(l, HandlePacket(Completed(l, q)), l.queue, [Retx()])
  {}

  lemma NewlySentIs(before: seq<Packet>, more: seq<Packet>)
    ensures NewlySent(before, before + more) == more
  {}

  lemma DevFrameIs(s: Session, l': Link, queue: seq<Packet>, sent: seq<Packet>)
    requires s.toDev != [] && Running(s.dev)
    requires l' == HandlePacket(Completed(s.dev.link, s.toDev[0])) && LinkTo(s.dev.link, l', queue, sent)
    ensures DevFrame(s) == s.(dev := s.dev.(link := l'), toDev := s.toDev[1..], toHost := s.toHost + sent)
  {
    NewlySentIs(s.dev.link.sent, sent);
  }

  lemma FlashWithLink(before: seq<bv8>, d: Boot, l: Link)
    requires FlashInv(before, d) && AtRest(l)
    ensures FlashInv(before, d.(link := l))
  {
    SamePlaceLogInv(d, d.(link := l));
  }

  lemma StageWithLink(st: Setting, d: Boot, n: nat, ph: Stretch, l: Link, ph': Stretch)
    requires Fits(st) && DeviceStage(st, d, n, ph) && AtRest(l) && ModeIn(n, ph') == ModeIn(n, ph)
    ensures DeviceStage(st, d.(link := l), n, ph')
  {
    FlashWithLink(st.before, d, l);
  }

  // The device is running, except after the last answer.
  lemma StageRuns(st: Setting, d: Boot, n: nat, ph: Stretch)
    requires Fits(st) && DeviceStage(st, d, n, ph) && AtRest(d.link)
    ensures Running(d) <==> n != AnswerCount(st.image)
    ensures WellTyped(d)
  {}

  // Assembles a stretch after a frame that the device has handled.
  lemma AtAfterFrame(st: Setting, x: Exchange, s: Session, n: nat, ph: Stretch, l': Link, s': Session, ph': Stretch)
    requires Fits(st) && At(st, x, s, n, ph) && AtRest(l') && s'.dev == s.dev.(link := l') && s'.host == s.host
    requires Occurs(st, x, n, ph') && ModeIn(n, ph') == ModeIn(n, ph) && HostStage(st, x, s.host, n, ph')
    requires WiresAt(x, WiresOf(s'), ph')
    ensures At(st, x, s', n, ph')
  {
    StageWithLink(st, s.dev, n, ph, l', ph');
  }

  lemma AckHandled(s: Session) returns (l': Link, s': Session)
    requires s.toDev != [] && s.toDev[0] == Ack() && Running(s.dev) && AtRest(s.dev.link)
    ensures AtRest(l') && l'.queue == s.dev.link.queue
    ensures s' == DevFrame(s) && s' == s.(dev := s.dev.(link := l'), toDev := s.toDev[1..])
  {
    l' := HandlePacket(Completed(s.dev.link, s.toDev[0]));
    LinkGetsAck(s.dev.link);
    DevFrameIs(s, l', s.dev.link.queue, []);
    s' := DevFrame(s);
    assert s.toHost + [] == s.toHost;
  }

  lemma FrameIsAck(st: Setting, x: Exchange, s: Session, n: nat, ph: Stretch) returns (ph': Stretch)
    requires Fits(st) && Regular(x) && ph.Outstanding? && ph.ahead > 0 && Running(s.dev) && At(st, x, s, n, ph)
    ensures At(st, x, DevFrame(s), n, ph') && Distance(st, x, DevFrame(s), n, ph') < Distance(st, x, s, n, ph)
  {
    ph' := DeviceGetsAck(x, WiresOf(s), ph);
    var l', s' := AckHandled(s);
    AtAfterFrame(st, x, s, n, ph, l', s', ph');
  }

  lemma FrameIsDamaged(st: Setting, x: Exchange, s: Session, n: nat, ph: Stretch)
    requires Fits(st) && Regular(x) && ph == Outstanding(0, true) && Running(s.dev) && At(st, x, s, n, ph)
    ensures At(st, x, DevFrame(s), n, Requested) && Distance(st, x, DevFrame(s), n, Requested) < Distance(st, x, s, n, ph)
  {
    var l' := HandlePacket(Completed(s.dev.link, s.toDev[0]));
    DeviceGetsDamaged(x, WiresOf(s), ph);
    LinkGetsDamaged(s.dev.link, s.toDev[0]);
    DevFrameIs(s, l', [], [x.retx]);
    AtAfterFrame(st, x, s, n, ph, l', DevFrame(s), Requested);
  }

  lemma FrameIsAnswer(st: Setting, x: Exchange, s: Session, n: nat, ph: Stretch)
    requires Fits(st) && Regular(x) && ph == Outstanding(0, false) && Running(s.dev) && At(st, x, s, n, ph)
    ensures At(st, x, DevFrame(s), n, Arrived(false)) && Distance(st, x, DevFrame(s), n, Arrived(false)) < Distance(st, x, s, n, ph)
  {
    var l' := HandlePacket(Completed(s.dev.link, s.toDev[0]));
    DeviceGetsAnswer(x, WiresOf(s), ph);
    LinkGetsPlain(s.dev.link, s.toDev[0]);
    DevFrameIs(s, l', [x.answer], [x.ack]);
    AtAfterFrame(st, x, s, n, ph, l', DevFrame(s), Arrived(false));
  }

  lemma FrameInOutstanding(st: Setting, x: Exchange, s: Session, n: nat, ph: Stretch) returns (ph': Stretch)
    requires Fits(st) && Regular(x) && ph.Outstanding? && Running(s.dev) && At(st, x, s, n, ph)
    ensures At(st, x, DevFrame(s), n, ph') && Distance(st, x, DevFrame(s), n, ph') < Distance(st, x, s, n, ph)
  {
    if ph.ahead > 0 {
      ph' := FrameIsAck(st, x, s, n, ph);
    } else if ph.damaged {
      FrameIsDamaged(st, x, s, n, ph);
      ph' := Requested;
    } else {
      FrameIsAnswer(st, x, s, n, ph);
      ph' := Arrived(false);
    }
  }

  lemma FrameInAsking(st: Setting, x: Exchange, s: Session, n: nat, ph: Stretch) returns (ph': Stretch)
    requires Fits(st) && Regular(x) && ph.Asking? && ph.acks > 0 && Running(s.dev) && At(st, x, s, n, ph)
    ensures At(st, x, DevFrame(s), n, ph') && Distance(st, x, DevFrame(s), n, ph') < Distance(st, x, s, n, ph)
  {
    ph' := DeviceGetsAckEarly(x, WiresOf(s), ph);
    var l', s' := AckHandled(s);
    AtAfterFrame(st, x, s, n, ph, l', s', ph');
  }

  lemma DevFrameMoves(st: Setting, x: Exchange, s: Session, n: nat, ph: Stretch) returns (ph': Stretch)
    requires Fits(st) && Regular(x) && At(st, x, s, n, ph)
    ensures At(st, x, DevFrame(s), n, ph')
    ensures DevFrame(s) == s || Distance(st, x, DevFrame(s), n, ph') < Distance(st, x, s, n, ph)
  {
    StageRuns(st, s.dev, n, ph);
    if ph.Outstanding? {
      ph' := FrameInOutstanding(st, x, s, n, ph);
    } else if ph.Asking? && ph.acks > 0 && n < AnswerCount(st.image) {
      ph' := FrameInAsking(st, x, s, n, ph);
    } else {
      ph' := ph;
    }
  }

  // ----- The device goes through its switch statement -----

  lemma SwitchIs(judge: Judge, s: Session, now: nat, c: Boot, said: seq<Packet>)
    requires WellTyped(s.dev) && Running(s.dev) && s.dev.mode != Sync && Decide(s.dev, now) != TimeOut
    requires c == Switch(judge, s.dev, now) && Said(s.dev, c, said)
    ensures DevSwitch(judge, s, now) == s.(dev := c, toHost := s.toHost + said)
  {
    NewlySentIs(s.dev.link.sent, said);
  }

  lemma IdleSwitch(judge: Judge, s: Session, now: nat)
    requires WellTyped(s.dev) && Waits(s.dev.mode) && s.dev.link.queue == []
    ensures DevSwitch(judge, s, now) == s
  {
    if Running(s.dev) && Decide(s.dev, now) == Idle {
      SwitchIs(judge, s, now, s.dev, []);
    }
  }

  // What the device asks first once it has taken answer n.
  function FirstQuestions(st: Setting, n: nat): seq<Packet>
    requires Fits(st)
  {
    var questions := Questions(st.image, n, FinalVerdict(st));
    if FirstSent(n, |questions|) <= |questions| then questions[..FirstSent(n, |questions|)] else []
  }

  // The device has taken answer n.
  ghost predicate AnswerTaken(st: Setting, d: Boot, c: Boot, n: nat)
    requires Fits(st) && n < AnswerCount(st.image)
  {
    && AtRest(c.link) && c.link.queue == [] && Said(d, c, FirstQuestions(st, n + 1))
    && if n + 1 == AnswerCount(st.image) then DeviceFinished(st.judge, st.before, st.image, c)
       else DeviceAt(st.before, st.image, c, n + 1, AskMode(n + 1, |FirstQuestions(st, n + 1)|))
  }

  lemma ManyAnswers(st: Setting)
    requires Fits(st)
    ensures AnswerCount(st.image) >= 4
  {}

  lemma FirstQuestionsAre(st: Setting, n: nat)
    requires Fits(st) && 1 <= n <= AnswerCount(st.image)
    ensures FirstQuestions(st, n) ==
      if n == 1 then [Res()] else if n <= 3 then []
      else if n < AnswerCount(st.image) then [ReadyForData()] else Report(FinalVerdict(st))
  {
    ManyAnswers(st);
  }

  lemma TakeAnswer0(st: Setting, d: Boot, now: nat)
    requires Fits(st) && DeviceAt(st.before, st.image, d, 0, WaitForFwUpdateReq) && d.link.queue == [Answer(st.image, 0)]
    ensures AnswerTaken(st, d, Switch(st.judge, d, now), 0)
  {
    RequestAnswer(st.image);
    FirstQuestionsAre(st, 1);
    TakeRequest(st.judge, st.before, st.image, d, now);
  }

  lemma TakeAnswer1(st: Setting, d: Boot, now: nat)
    requires Fits(st) && TakenForWhatItIs(st.image, 1) && DeviceAt(st.before, st.image, d, 1, DeviceIdRes) && d.link.queue == [Answer(st.image, 1)]
    ensures AnswerTaken(st, d, Switch(st.judge, d, now), 1)
  {
    FirstQuestionsAre(st, 2);
    TakeDeviceId(st.judge, st.before, st.image, d, now);
  }

  lemma TakeAnswer2(st: Setting, d: Boot, now: nat)
    requires Fits(st) && TakenForWhatItIs(st.image, 2) && DeviceAt(st.before, st.image, d, 2, FwLengthRes) && d.link.queue == [Answer(st.image, 2)]
    ensures AnswerTaken(st, d, Switch(st.judge, d, now), 2)
  {
    FirstQuestionsAre(st, 3);
    TakeLength(st.judge, st.before, st.image, d, now);
  }

  lemma FinishedIsFinalFlash(st: Setting, c: Boot)
    requires Fits(st) && DeviceFinished(st.judge, st.before, st.image, c)
    ensures c.flash == FinalFlash(st.image)
  {
    FinishedFlash(st.judge, st.before, st.image, c);
  }

  lemma TakeMiddleChunk(st: Setting, d: Boot, n: nat, now: nat)
    requires Fits(st) && 3 <= n < AnswerCount(st.image) - 1 && TakenForWhatItIs(st.image, n) && DeviceAt(st.before, st.image, d, n, ReceiveFw)
    requires d.link.queue == [Answer(st.image, n)]
    ensures AnswerTaken(st, d, Switch(st.judge, d, now), n)
  {
    FirstQuestionsAre(st, n + 1);
    TakeChunk(st.judge, st.before, st.image, d, n, now);
  }

  lemma FinalReport(st: Setting, d: Boot, c: Boot)
    requires Fits(st) && DeviceFinished(st.judge, st.before, st.image, c) && Said(d, c, Report(st.judge(c.flash)))
    ensures Said(d, c, FirstQuestions(st, AnswerCount(st.image)))
  {
    ManyAnswers(st);
    FirstQuestionsAre(st, AnswerCount(st.image));
    FinishedIsFinalFlash(st, c);
  }

  lemma FinalAnswerTaken(st: Setting, d: Boot, c: Boot, n: nat)
    requires Fits(st) && n + 1 == AnswerCount(st.image) && DeviceFinished(st.judge, st.before, st.image, c)
    requires AtRest(c.link) && c.link.queue == [] && Said(d, c, FirstQuestions(st, n + 1))
    ensures AnswerTaken(st, d, c, n)
  {}

  lemma FinalChunkTaken(st: Setting, d: Boot, n: nat, now: nat) returns (c: Boot)
    requires Fits(st) && n + 1 == AnswerCount(st.image) && TakenForWhatItIs(st.image, n) && DeviceAt(st.before, st.image, d, n, ReceiveFw)
    requires d.link.queue == [Answer(st.image, n)]
    ensures c == Switch(st.judge, d, now) && DeviceFinished(st.judge, st.before, st.image, c)
    ensures c.link.queue == [] && Said(d, c, Report(st.judge(c.flash)))
  {
    ManyAnswers(st);
    TakeLastChunk(st.judge, st.before, st.image, d, n, now);
    c := Switch(st.judge, d, now);
  }

  lemma TakeFinalChunk(st: Setting, d: Boot, n: nat, now: nat)
    requires Fits(st) && n + 1 == AnswerCount(st.image) && TakenForWhatItIs(st.image, n) && DeviceAt(st.before, st.image, d, n, ReceiveFw)
    requires d.link.queue == [Answer(st.image, n)]
    ensures AnswerTaken(st, d, Switch(st.judge, d, now), n)
  {
    var c := FinalChunkTaken(st, d, n, now);
    FinalReport(st, d, c);
    FinalAnswerTaken(st, d, c, n);
  }

  lemma TakeAnyAnswer(st: Setting, d: Boot, n: nat, now: nat)
    requires Fits(st) && n < AnswerCount(st.image) && DeviceAt(st.before, st.image, d, n, WaitMode(n))
    requires d.link.queue == [Answer(st.image, n)] && TakenForWhatItIs(st.image, n)
    ensures AnswerTaken(st, d, Switch(st.judge, d, now), n)
  {
    if n == 0 {
      TakeAnswer0(st, d, now);
    } else if n == 1 {
      TakeAnswer1(st, d, now);
    } else if n == 2 {
      TakeAnswer2(st, d, now);
    } else if n < AnswerCount(st.image) - 1 {
      TakeMiddleChunk(st, d, n, now);
    } else {
      TakeFinalChunk(st, d, n, now);
    }
  }

  // The exchange about the next answer, as far as the device's turn goes.
  predicate FollowedBy(st: Setting, x: Exchange, y: Exchange, n: nat)
    requires Fits(st) && n < AnswerCount(st.image)
  {
    && x.answer == Answer(st.image, n) && y.ack == x.ack
    && |FirstQuestions(st, n + 1)| == FirstSent(n + 1, |y.questions|) <= |y.questions| <= 2
    && y.questions[..|FirstQuestions(st, n + 1)|] == FirstQuestions(st, n + 1)
    && (n + 1 < AnswerCount(st.image) ==> y.questions != [])
  }

  lemma ExchangesFollow(st: Setting, n: nat)
    requires Fits(st) && n < AnswerCount(st.image)
    ensures FollowedBy(st, ExchangeOf(st, n), ExchangeOf(st, n + 1), n)
  {
    ManyAnswers(st);
    FirstQuestionsAre(st, n + 1);
  }

  lemma TakingIsNoTimeOut(d: Boot, now: nat)
    requires WellTyped(d) && Waits(d.mode) && HasPacket(d)
    ensures Decide(d, now) != TimeOut
  {}

  lemma WaitModeWaits(n: nat)
    ensures Waits(WaitMode(n)) && WaitMode(n) != Sync
  {}

  lemma SwitchInArrived(st: Setting, x: Exchange, s: Session, n: nat, ph: Stretch, y: Exchange, now: nat) returns (ph': Stretch)
    requires Fits(st) && n < AnswerCount(st.image) && ph.Arrived? && At(st, x, s, n, ph) && FollowedBy(st, x, y, n)
    requires TakenForWhatItIs(st.image, n) && FoundInOrder(st, n + 1)
    ensures ph' == Asking(ph.known, |FirstQuestions(st, n + 1)|, 0, 0, 0)
    ensures var s' := DevSwitch(st.judge, s, now);
      At(st, y, s', n + 1, ph') && Distance(st, y, s', n + 1, ph') < Distance(st, x, s, n, ph)
  {
    var c := Switch(st.judge, s.dev, now);
    StageRuns(st, s.dev, n, ph);
    WaitModeWaits(n);
    TakingIsNoTimeOut(s.dev, now);
    TakeAnyAnswer(st, s.dev, n, now);
    SwitchIs(st.judge, s, now, c, FirstQuestions(st, n + 1));
    ph' := DeviceTakesAnswer(x, WiresOf(s), ph, y, |FirstQuestions(st, n + 1)|);
    AtAfterTaking(st, x, s, n, ph, y, c, DevSwitch(st.judge, s, now), ph');
  }

  lemma AtAfterTaking(st: Setting, x: Exchange, s: Session, n: nat, ph: Stretch, y: Exchange, c: Boot, s': Session, ph': Stretch)
    requires Fits(st) && n < AnswerCount(st.image) && ph.Arrived?
    requires HostStage(st, x, s.host, n, ph) && FollowedBy(st, x, y, n) && AnswerTaken(st, s.dev, c, n) && FoundInOrder(st, n + 1)
    requires s'.dev == c && s'.host == s.host && ph' == Asking(ph.known, |FirstQuestions(st, n + 1)|, 0, 0, 0)
    requires WiresAt(y, WiresOf(s'), ph')
    ensures At(st, y, s', n + 1, ph')
  {}

  // The device asks another question.
  ghost predicate AskedNext(st: Setting, d: Boot, n: nat, ph: Stretch, now: nat, question: Packet)
    requires Fits(st) && ph.Asking? && WellTyped(d)
  {
    var c := Switch(st.judge, d, now);
    && d.mode != Sync && Decide(d, now) != TimeOut && AtRest(c.link) && c.link.queue == [] && Said(d, c, [question])
    && DeviceStage(st, c, n, ph.(sent := ph.sent + 1))
  }

  lemma AskAfterRequest(st: Setting, d: Boot, ph: Stretch, now: nat)
    requires Fits(st) && ph.Asking? && ph.sent == 1 && DeviceStage(st, d, 1, ph) && AtRest(d.link) && d.link.queue == []
    ensures WellTyped(d) && AskedNext(st, d, 1, ph, now, IdRequest())
  {
    ManyAnswers(st);
    AskForDeviceId(st.judge, st.before, st.image, d, now);
  }

  lemma AskAfterDeviceId(st: Setting, d: Boot, ph: Stretch, now: nat)
    requires Fits(st) && ph.Asking? && ph.sent == 0 && DeviceStage(st, d, 2, ph) && AtRest(d.link) && d.link.queue == []
    ensures WellTyped(d) && AskedNext(st, d, 2, ph, now, LengthRequest())
  {
    ManyAnswers(st);
    AskForLength(st.judge, st.before, st.image, d, now);
  }

  lemma AskAfterLength(st: Setting, d: Boot, ph: Stretch, now: nat)
    requires Fits(st) && ph.Asking? && ph.sent == 0 && DeviceStage(st, d, 3, ph) && AtRest(d.link) && d.link.queue == []
    ensures WellTyped(d) && AskedNext(st, d, 3, ph, now, ReadyForData())
  {
    ManyAnswers(st);
    EraseForChunks(st.judge, st.before, st.image, d, now);
  }

  // Where in an exchange the device has another question.
  lemma NextQuestion(st: Setting, n: nat, sent: nat)
    requires Fits(st) && 1 <= n < AnswerCount(st.image)
    requires FirstSent(n, QuestionCount(st, n)) <= sent < QuestionCount(st, n)
    ensures n <= 3 && sent == (if n == 1 then 1 else 0)
    ensures Questions(st.image, n, FinalVerdict(st))[sent] == if n == 1 then IdRequest() else if n == 2 then LengthRequest() else ReadyForData()
  {
    ManyAnswers(st);
  }

  lemma AskAnother(st: Setting, d: Boot, n: nat, ph: Stretch, now: nat) returns (question: Packet)
    requires Fits(st) && ph.Asking? && 1 <= n < AnswerCount(st.image) && DeviceStage(st, d, n, ph)
    requires AtRest(d.link) && d.link.queue == []
    requires FirstSent(n, QuestionCount(st, n)) <= ph.sent < QuestionCount(st, n)
    ensures question == Questions(st.image, n, FinalVerdict(st))[ph.sent]
    ensures WellTyped(d) && AskedNext(st, d, n, ph, now, question)
  {
    NextQuestion(st, n, ph.sent);
    if n == 1 {
      AskAfterRequest(st, d, ph, now);
      question := IdRequest();
    } else if n == 2 {
      AskAfterDeviceId(st, d, ph, now);
      question := LengthRequest();
    } else {
      AskAfterLength(st, d, ph, now);
      question := ReadyForData();
    }
  }

  lemma SwitchInAsking(st: Setting, x: Exchange, s: Session, n: nat, ph: Stretch, now: nat) returns (ph': Stretch)
    requires Fits(st) && ph.Asking? && n < AnswerCount(st.image) && At(st, x, s, n, ph)
    requires x.questions == Questions(st.image, n, FinalVerdict(st)) && ph.sent < |x.questions|
    ensures ph' == ph.(sent := ph.sent + 1)
    ensures var s' := DevSwitch(st.judge, s, now);
      At(st, x, s', n, ph') && Distance(st, x, s', n, ph') < Distance(st, x, s, n, ph)
  {
    StageRuns(st, s.dev, n, ph);
    var question := AskAnother(st, s.dev, n, ph, now);
    SwitchIs(st.judge, s, now, Switch(st.judge, s.dev, now), [question]);
    ph' := DeviceAsks(x, WiresOf(s), ph);
    AtAfterAsking(st, x, s, n, ph, Switch(st.judge, s.dev, now), DevSwitch(st.judge, s, now), ph');
  }

  lemma AtAfterAsking(st: Setting, x: Exchange, s: Session, n: nat, ph: Stretch, c: Boot, s': Session, ph': Stretch)
    requires Fits(st) && ph.Asking? && Occurs(st, x, n, ph) && HostStage(st, x, s.host, n, ph) && AtRest(c.link)
    requires DeviceStage(st, c, n, ph') && s'.dev == c && s'.host == s.host
    requires ph' == ph.(sent := ph.sent + 1) && WiresAt(x, WiresOf(s'), ph')
    ensures At(st, x, s', n, ph')
  {}

  // With nothing to take and nothing to ask, the device's turn changes nothing.
  lemma SwitchIdle(st: Setting, x: Exchange, s: Session, n: nat, ph: Stretch, now: nat)
    requires Fits(st) && At(st, x, s, n, ph) && x.questions == Questions(st.image, n, FinalVerdict(st))
    requires !ph.Arrived? && (ph.Asking? ==> ph.sent == |x.questions|)
    ensures DevSwitch(st.judge, s, now) == s
  {
    StageRuns(st, s.dev, n, ph);
    if n < AnswerCount(st.image) {
      WaitModeWaits(n);
      AllAskedWaits(st, n, ph);
      IdleSwitch(st.judge, s, now);
    }
  }

  lemma AllAskedWaits(st: Setting, n: nat, ph: Stretch)
    requires Fits(st) && n < AnswerCount(st.image) && (ph.Asking? ==> n >= 1 && ph.sent == QuestionCount(st, n))
    ensures ModeIn(n, ph) == WaitMode(n)
  {}

  // ----- The host handles a frame -----

  lemma HostGetsPlainFrame(h: Host, p: Packet)
    requires Plain(p)
    ensures HandleFrame(h, p) == Write(h.(packets := h.packets + [p]), Ack())
  {}

  lemma HostGetsAckFrame(h: Host)
    ensures HandleFrame(h, Ack()) == h
  {}

  lemma HostGetsRetxFrame(h: Host)
    ensures HandleFrame(h, Retx()) == Write(h, h.last)
  {}

  // What is under way after the host has written p.
  function Arrives(s: Session, p: Packet, noise: Noise): Packet {
    if Hit(noise, s.budget) then noise.q else p
  }

  lemma QuietHostFrame(s: Session, noise: Noise, host: Host)
    requires s.toHost != [] && host == HandleFrame(s.host, s.toHost[0]) && host.written == s.host.written
    ensures HostFrame(s, noise) == s.(host := host, toHost := s.toHost[1..])
  {
    NewlySentIs(s.host.written, []);
  }

  lemma ReplyingHostFrame(s: Session, noise: Noise, host: Host, p: Packet)
    requires s.toHost != [] && host == HandleFrame(s.host, s.toHost[0]) && host.written == s.host.written + [p]
    ensures HostFrame(s, noise) ==
      if IsControl(p) || !Hit(noise, s.budget) then s.(host := host, toHost := s.toHost[1..], toDev := s.toDev + [p])
      else s.(host := host, toHost := s.toHost[1..], toDev := s.toDev + [noise.q], budget := s.budget - 1)
  {
    NewlySentIs(s.host.written, [p]);
  }

  lemma ReplyWithAck(s: Session, noise: Noise, host: Host)
    requires s.toHost != [] && host == HandleFrame(s.host, s.toHost[0]) && host.written == s.host.written + [Ack()]
    ensures HostFrame(s, noise) == s.(host := host, toHost := s.toHost[1..], toDev := s.toDev + [Ack()])
  {
    ReplyingHostFrame(s, noise, host, Ack());
  }

  // Assembles a stretch after a step of the host.
  lemma AtAfterHost(st: Setting, x: Exchange, s: Session, n: nat, ph: Stretch, s': Session, ph': Stretch)
    requires Fits(st) && At(st, x, s, n, ph) && s'.dev == s.dev
    requires Occurs(st, x, n, ph') && ModeIn(n, ph') == ModeIn(n, ph) && HostStage(st, x, s'.host, n, ph')
    requires WiresAt(x, WiresOf(s'), ph')
    ensures At(st, x, s', n, ph')
  {}

  lemma AnswerResent(s: Session, noise: Noise) returns (sent: Packet, s': Session)
    requires s.toHost != [] && s.toHost[0] == Retx() && Plain(s.host.last)
    ensures sent == Arrives(s, s.host.last, noise) && s' == HostFrame(s, noise)
    ensures s' == s.(host := Write(s.host, s.host.last), toHost := s.toHost[1..], toDev := s.toDev + [sent],
                     budget := if Hit(noise, s.budget) then s.budget - 1 else s.budget)
  {
    HostGetsRetxFrame(s.host);
    ReplyingHostFrame(s, noise, Write(s.host, s.host.last), s.host.last);
    sent := Arrives(s, s.host.last, noise);
    s' := HostFrame(s, noise);
  }

  lemma HostResends(st: Setting, x: Exchange, s: Session, n: nat, ph: Stretch, noise: Noise) returns (ph': Stretch)
    requires Fits(st) && Regular(x) && ph == Requested && At(st, x, s, n, ph)
    ensures At(st, x, HostFrame(s, noise), n, ph')
    ensures Distance(st, x, HostFrame(s, noise), n, ph') < Distance(st, x, s, n, ph)
  {
    HostStillHas(st, x, s, n, ph);
    var sent, s' := AnswerResent(s, noise);
    HostGetsRetx(x, WiresOf(s), ph, sent);
    ph' := Outstanding(0, sent != x.answer);
    AtAfterHost(st, x, s, n, ph, s', ph');
  }

  // What the host repeats on request.
  lemma HostStillHas(st: Setting, x: Exchange, s: Session, n: nat, ph: Stretch)
    requires Fits(st) && ph == Requested && At(st, x, s, n, ph)
    ensures s.host.last == x.answer && Plain(x.answer) && s.toHost == [x.retx]
  {}

  lemma HostNotesAck(st: Setting, x: Exchange, s: Session, n: nat, ph: Stretch, noise: Noise) returns (ph': Stretch)
    requires Fits(st) && Regular(x) && At(st, x, s, n, ph) && (ph == Arrived(false) || (ph.Asking? && !ph.acked))
    ensures ph' == if ph.Arrived? then Arrived(true) else ph.(acked := true)
    ensures At(st, x, HostFrame(s, noise), n, ph')
    ensures Distance(st, x, HostFrame(s, noise), n, ph') < Distance(st, x, s, n, ph)
  {
    if ph.Arrived? {
      HostGetsAck(x, WiresOf(s), ph);
      ph' := Arrived(true);
    } else {
      ph' := HostGetsAckLate(x, WiresOf(s), ph);
    }
    HostGetsAckFrame(s.host);
    QuietHostFrame(s, noise, s.host);
    AtAfterHost(st, x, s, n, ph, HostFrame(s, noise), ph');
  }

  lemma HostQueuesQuestion(st: Setting, x: Exchange, s: Session, n: nat, ph: Stretch, noise: Noise) returns (ph': Stretch)
    requires Fits(st) && Regular(x) && At(st, x, s, n, ph) && ph.Asking? && ph.acked && ph.handled < ph.sent
    ensures At(st, x, HostFrame(s, noise), n, ph')
    ensures Distance(st, x, HostFrame(s, noise), n, ph') < Distance(st, x, s, n, ph)
  {
    ph' := HostGetsQuestion(x, WiresOf(s), ph);
    var p := s.toHost[0];
    HandleFrameValid(s.host, p);
    HostGetsPlainFrame(s.host, p);
    ReplyWithAck(s, noise, Write(s.host.(packets := s.host.packets + [p]), Ack()));
    AtAfterHost(st, x, s, n, ph, HostFrame(s, noise), ph');
  }

  lemma HostFrameMoves(st: Setting, x: Exchange, s: Session, n: nat, ph: Stretch, noise: Noise) returns (ph': Stretch)
    requires Fits(st) && Regular(x) && At(st, x, s, n, ph)
    ensures At(st, x, HostFrame(s, noise), n, ph')
    ensures HostFrame(s, noise) == s || Distance(st, x, HostFrame(s, noise), n, ph') < Distance(st, x, s, n, ph)
  {
    if ph == Requested {
      ph' := HostResends(st, x, s, n, ph, noise);
    } else if ph == Arrived(false) || (ph.Asking? && !ph.acked) {
      ph' := HostNotesAck(st, x, s, n, ph, noise);
    } else if ph.Asking? && ph.handled < ph.sent {
      ph' := HostQueuesQuestion(st, x, s, n, ph, noise);
    } else {
      NothingForHost(x, WiresOf(s), ph);
      ph' := ph;
    }
  }
}
