// Every step of a session, frame by frame, and what holds all along.
module SessionRuns {
  import opened Packets
  import opened Framing
  import opened LittleEndian
  import opened Host
  import opened UpdateMachine
  import opened FlashAudit
  import opened UpdateSafety
  import opened UpdateOutcome
  import opened Transfer
  import opened TransferDevice
  import opened Exchanges
  import opened FrameSession
  import opened SessionPhases
  import opened SessionSteps
  import opened SessionMain
  import opened SessionLost

  // The session is in stretch ph of the exchange about answer n.
  ghost predicate Within(st: Setting, s: Session, n: nat, ph: Stretch)
    requires Fits(st)
  {
    n <= AnswerCount(st.image) && At(st, ExchangeOf(st, n), s, n, ph)
  }

  function Remaining(st: Setting, s: Session, n: nat, ph: Stretch): int
    requires Fits(st)
  {
    Distance(st, ExchangeOf(st, n), s, n, ph)
  }

  lemma ExchangeDetails(st: Setting, n: nat) returns (x: Exchange)
    requires Fits(st) && n <= AnswerCount(st.image)
    ensures x == ExchangeOf(st, n) && Regular(x)
    ensures x.questions == Questions(st.image, n, FinalVerdict(st))
    ensures n < AnswerCount(st.image) ==> x.answer == Answer(st.image, n)
  {
    x := ExchangeOf(st, n);
    ExchangesRegular(st, n);
  }

  lemma RemainingIsNatural(st: Setting, s: Session, n: nat, ph: Stretch)
    requires Fits(st) && Within(st, s, n, ph)
    ensures Remaining(st, s, n, ph) >= 0
  {
    EffortBounds(ExchangeOf(st, n), WiresOf(s), ph);
  }

  lemma WithinIsWellFormed(st: Setting, s: Session, n: nat, ph: Stretch)
    requires Fits(st) && Within(st, s, n, ph)
    ensures WellFormedSession(s, st.image)
  {
    StageRuns(st, s.dev, n, ph);
    StagePlaceInImage(st, ExchangeOf(st, n), s, n, ph);
  }

  lemma WiresSized(x: Exchange, w: Wires, ph: Stretch)
    requires Regular(x) && WiresAt(x, w, ph)
    ensures AllSized(w.toDev) && AllSized(w.toHost)
  {
    if ph.Outstanding? {
      forall i | 0 <= i < |w.toDev| ensures Sized(w.toDev[i]) {
        if i < ph.ahead {
          assert w.toDev[i] == w.toDev[..ph.ahead][i];
        }
      }
    }
  }

  lemma WithinIsTyped(st: Setting, s: Session, n: nat, ph: Stretch)
    requires Fits(st) && Within(st, s, n, ph)
    ensures Typed(s, st.image)
  {
    var x := ExchangeDetails(st, n);
    WithinIsWellFormed(st, s, n, ph);
    WiresSized(x, WiresOf(s), ph);
    StageLog(st, s.dev, n, ph);
  }

  lemma StageLog(st: Setting, d: Boot, n: nat, ph: Stretch)
    requires Fits(st) && DeviceStage(st, d, n, ph)
    ensures LogInv(d)
  {}

  // ----- The four kinds of steps -----

  // s' is in a stretch, and nearer to the end than s, unless it is s.
  ghost predicate Nearer(st: Setting, s: Session, n: nat, ph: Stretch, s': Session, n': nat, ph': Stretch)
    requires Fits(st)
  {
    Within(st, s', n', ph') && (s' == s || Remaining(st, s', n', ph') < Remaining(st, s, n, ph))
  }

  // The same, or the session is lost, which happens with no image that can be transferred.
  ghost predicate Advanced(st: Setting, s: Session, n: nat, ph: Stretch, s': Session, n': nat, ph': Stretch)
    requires Fits(st)
  {
    Nearer(st, s, n, ph, s', n', ph') || (Lost(s', st.image) && !Transferable(st.image))
  }

  lemma DevFrameNearer(st: Setting, s: Session, n: nat, ph: Stretch, s': Session) returns (ph': Stretch)
    requires Fits(st) && Within(st, s, n, ph) && s' == DevFrame(s)
    ensures Nearer(st, s, n, ph, s', n, ph')
  {
    ExchangesRegular(st, n);
    ph' := DevFrameMoves(st, ExchangeOf(st, n), s, n, ph);
  }

  lemma HostFrameNearer(st: Setting, s: Session, n: nat, ph: Stretch, noise: Noise, s': Session) returns (ph': Stretch)
    requires Fits(st) && Within(st, s, n, ph) && s' == HostFrame(s, noise)
    ensures Nearer(st, s, n, ph, s', n, ph')
  {
    ExchangesRegular(st, n);
    ph' := HostFrameMoves(st, ExchangeOf(st, n), s, n, ph, noise);
  }

  // ----- The device's switch statement -----

  lemma SwitchWithin(st: Setting, x: Exchange, s: Session, n: nat, ph: Stretch, now: nat) returns (ph': Stretch)
    requires Fits(st) && At(st, x, s, n, ph) && !ph.Arrived? && WellTyped(s.dev)
    requires x.questions == Questions(st.image, n, FinalVerdict(st))
    ensures var s' := DevSwitch(st.judge, s, now);
      At(st, x, s', n, ph') && (s' == s || Distance(st, x, s', n, ph') < Distance(st, x, s, n, ph))
  {
    if ph.Asking? && n < AnswerCount(st.image) && ph.sent < |x.questions| {
      ph' := SwitchInAsking(st, x, s, n, ph, now);
    } else {
      LastAsksNothing(st, x, s, n, ph);
      SwitchIdle(st, x, s, n, ph, now);
      ph' := ph;
    }
  }

  // After the last answer, all questions are sent at once.
  lemma LastAsksNothing(st: Setting, x: Exchange, s: Session, n: nat, ph: Stretch)
    requires Fits(st) && At(st, x, s, n, ph)
    ensures ph.Asking? && n == AnswerCount(st.image) ==> ph.sent == |x.questions|
  {
    ManyAnswers(st);
  }

  lemma OrderGrows(st: Setting, n: nat)
    requires Fits(st) && n < AnswerCount(st.image) && FoundInOrder(st, n) && TakenForWhatItIs(st.image, n)
    ensures FoundInOrder(st, n + 1)
  {
    DeviceIdAnswer(st.image);
    LengthAnswer(st.image);
    ManyAnswers(st);
    if n + 1 == AnswerCount(st.image) {
      ChunkAnswer(st.image, n);
    }
  }

  lemma TakenAt(st: Setting, x: Exchange, y: Exchange, s: Session, n: nat, ph: Stretch, now: nat, s': Session) returns (ph': Stretch)
    requires Fits(st) && n < AnswerCount(st.image) && At(st, x, s, n, ph) && ph.Arrived? && FollowedBy(st, x, y, n)
    requires TakenForWhatItIs(st.image, n) && s' == DevSwitch(st.judge, s, now)
    ensures At(st, y, s', n + 1, ph') && Distance(st, y, s', n + 1, ph') < Distance(st, x, s, n, ph)
  {
    OrderGrows(st, n);
    ph' := SwitchInArrived(st, x, s, n, ph, y, now);
  }

  // The next exchange, given that it follows x.
  lemma NextIs(st: Setting, x: Exchange, y: Exchange, s: Session, n: nat, ph: Stretch, s': Session, ph': Stretch)
    requires Fits(st) && x == ExchangeOf(st, n) && y == ExchangeOf(st, n + 1) && n + 1 <= AnswerCount(st.image)
    requires At(st, y, s', n + 1, ph') && Distance(st, y, s', n + 1, ph') < Distance(st, x, s, n, ph)
    ensures Nearer(st, s, n, ph, s', n + 1, ph')
  {}

  lemma ExchangePair(st: Setting, n: nat) returns (x: Exchange, y: Exchange)
    requires Fits(st) && n < AnswerCount(st.image)
    ensures x == ExchangeOf(st, n) && y == ExchangeOf(st, n + 1) && FollowedBy(st, x, y, n)
  {
    ExchangesFollow(st, n);
    x, y := ExchangeOf(st, n), ExchangeOf(st, n + 1);
  }

  lemma TakenNearer(st: Setting, s: Session, n: nat, ph: Stretch, now: nat, s': Session) returns (ph': Stretch)
    requires Fits(st) && Within(st, s, n, ph) && ph.Arrived? && n < AnswerCount(st.image) && TakenForWhatItIs(st.image, n)
    requires s' == DevSwitch(st.judge, s, now)
    ensures Nearer(st, s, n, ph, s', n + 1, ph')
  {
    var x, y := ExchangePair(st, n);
    ph' := TakenAt(st, x, y, s, n, ph, now, s');
    NextIs(st, x, y, s, n, ph, s', ph');
  }

  lemma NotTakenNearer(st: Setting, s: Session, n: nat, ph: Stretch, now: nat, s': Session) returns (ph': Stretch)
    requires Fits(st) && Within(st, s, n, ph) && !ph.Arrived? && WellTyped(s.dev) && s' == DevSwitch(st.judge, s, now)
    ensures Nearer(st, s, n, ph, s', n, ph')
  {
    var x := ExchangeDetails(st, n);
    ph' := SwitchWithin(st, x, s, n, ph, now);
  }

  // What the device does with an answer that it does not take for what it is.
  predicate Declined(p: Packet, mode: Mode)
    requires Sized(p)
  {
    DecideOnPacket(mode, p) == Refuse || DecideOnPacket(mode, p) == RefuseLength
  }

  lemma MistakenAnswer(st: Setting, n: nat)
    requires Fits(st) && n < AnswerCount(st.image) && !TakenForWhatItIs(st.image, n)
    ensures !Transferable(st.image)
  {
    TransferableExactlyWhen(st.image);
  }

  lemma DeclinedAnswer(st: Setting, n: nat)
    requires Fits(st) && n < AnswerCount(st.image) && !TakenForWhatItIs(st.image, n) && !IsControl(Answer(st.image, n))
    ensures Waits(WaitMode(n)) && Declined(Answer(st.image, n), WaitMode(n))
  {}

  lemma DeclinedChunk(st: Setting, n: nat)
    requires Fits(st) && 3 <= n < AnswerCount(st.image) && FoundInOrder(st, n)
    requires !TakenForWhatItIs(st.image, n) && !IsControl(Answer(st.image, n))
    ensures n + 1 == AnswerCount(st.image) && |st.image| % 16 == 1 && !HandshakeFails(st.image)
  {
    var k := 16 * (n - 3);
    ChunkAnswer(st.image, n);
    LastChunkIs(st.image, n - 3);
    ControlChunk(st.image, k);
  }

  lemma DeclinedHandshake(st: Setting, n: nat)
    requires Fits(st) && n <= 2 && n < AnswerCount(st.image) && !TakenForWhatItIs(st.image, n)
    ensures 1 <= n && HandshakeFails(st.image)
  {
    RequestAnswer(st.image);
    DeviceIdAnswer(st.image);
    LengthAnswer(st.image);
  }

  // Which images have an answer that is refused, and which answer it is.
  lemma DeclinedImage(st: Setting, n: nat)
    requires Fits(st) && n < AnswerCount(st.image) && FoundInOrder(st, n)
    requires !TakenForWhatItIs(st.image, n) && !IsControl(Answer(st.image, n))
    ensures 1 <= n && IsDeclined(st.image) && (HandshakeFails(st.image) <==> n <= 2) && (n >= 3 ==> n + 1 == AnswerCount(st.image))
  {
    if n >= 3 {
      DeclinedChunk(st, n);
    } else {
      DeclinedHandshake(st, n);
    }
  }

  lemma StartOfLast(st: Setting, n: nat)
    requires Fits(st) && 3 <= n && n + 1 == AnswerCount(st.image)
    ensures Carried(st.image, n) == LastChunkStart(st.image)
  {}

  // What the device has programmed while it waits for answer n.
  lemma ProgrammedSoFar(st: Setting, d: Boot, n: nat)
    requires Fits(st) && 1 <= n && DeviceAt(st.before, st.image, d, n, WaitMode(n)) && (HandshakeFails(st.image) <==> n <= 2)
    requires n >= 3 ==> n + 1 == AnswerCount(st.image)
    ensures LeftAs(d.log, st.image)
  {
    PassedLogTallies(d.log);
    if n >= 3 {
      StartOfLast(st, n);
    } else {
      assert st.image[..Carried(st.image, n)] == [];
    }
  }

  // The device after refusing a packet.
  lemma RefusalIsSaid(judge: Judge, d: Boot, now: nat)
    requires WellTyped(d) && AtRest(d.link) && Waits(d.mode) && HasPacket(d)
    requires Sized(d.link.queue[0]) && Declined(d.link.queue[0], d.mode)
    ensures var c := Switch(judge, d, now);
      Decide(d, now) != TimeOut && AtRest(c.link) && c.mode == Done && c.log == Taken(d).log && Said(d, c, [Nack()])
  {
    SayAtRest(Taken(d).link, Nack());
  }

  lemma RefusedDevice(judge: Judge, d: Boot, now: nat)
    requires LogInv(d) && InLoop(d) && AtRest(d.link) && Waits(d.mode) && HasPacket(d)
    requires Sized(d.link.queue[0]) && Declined(d.link.queue[0], d.mode)
    ensures var c := Switch(judge, d, now);
      && Decide(d, now) != TimeOut && LogInv(c) && AtRest(c.link) && c.mode == Done && !Complete(c.log) && Said(d, c, [Nack()])
  {
    SwitchLogInv(judge, d, now);
    TakenLog(d);
    RefusalIsSaid(judge, d, now);
  }

  lemma RefusedLog(judge: Judge, d: Boot, image: seq<bv8>, now: nat)
    requires WellTyped(d) && Waits(d.mode) && HasPacket(d) && LeftAs(d.log, image)
    requires Sized(d.link.queue[0]) && Declined(d.link.queue[0], d.mode)
    ensures LeftAs(Switch(judge, d, now).log, image)
  {
    PayloadSnoc(d.log, Took(d.link.queue[0]));
  }

  lemma NackSized()
    ensures AllSized([Nack()])
  {}

  // The host waits for the reply to its answer, and hears at most an acknowledgement.
  predicate AwaitsReply(s: Session) {
    Expects(s.host.place) && s.host.packets == [] && (s.toHost == [] || s.toHost == [Ack()])
  }

  lemma RefusedLost(st: Setting, s: Session, now: nat, s': Session)
    requires Fits(st) && Typed(s, st.image) && InLoop(s.dev) && Running(s.dev) && Waits(s.dev.mode) && HasPacket(s.dev)
    requires Sized(s.dev.link.queue[0]) && Declined(s.dev.link.queue[0], s.dev.mode) && s' == DevSwitch(st.judge, s, now)
    requires AwaitsReply(s) && LeftAs(s.dev.log, st.image) && IsDeclined(st.image)
    ensures Lost(s', st.image)
  {
    RefusedDevice(st.judge, s.dev, now);
    RefusedLog(st.judge, s.dev, st.image, now);
    NackSized();
    SwitchIs(st.judge, s, now, Switch(st.judge, s.dev, now), [Nack()]);
  }

  lemma ArrivedAwaits(st: Setting, x: Exchange, s: Session, n: nat, ph: Stretch)
    requires Fits(st) && At(st, x, s, n, ph) && ph.Arrived? && x.ack == Ack()
    ensures AwaitsReply(s) && DeviceAt(st.before, st.image, s.dev, n, WaitMode(n))
  {}

  lemma ArrivedDevice(st: Setting, x: Exchange, s: Session, n: nat, ph: Stretch)
    requires Fits(st) && At(st, x, s, n, ph) && ph.Arrived?
    ensures n < AnswerCount(st.image) && FoundInOrder(st, n) && Plain(x.answer)
    ensures s.dev.link.queue == [x.answer] && s.dev.mode == WaitMode(n) && InLoop(s.dev) && Running(s.dev)
  {
    StageRuns(st, s.dev, n, ph);
    WaitModeWaits(n);
  }

  function AfterSwitch(n: nat, ph: Stretch): nat { if ph.Arrived? then n + 1 else n }

  lemma ArrivedAdvanced(st: Setting, s: Session, n: nat, ph: Stretch, now: nat, s': Session) returns (ph': Stretch)
    requires Fits(st) && Within(st, s, n, ph) && ph.Arrived? && s' == DevSwitch(st.judge, s, now)
    ensures Advanced(st, s, n, ph, s', n + 1, ph')
  {
    var x := ExchangeDetails(st, n);
    ArrivedDevice(st, x, s, n, ph);
    if TakenForWhatItIs(st.image, n) {
      ph' := TakenNearer(st, s, n, ph, now, s');
    } else {
      WithinIsTyped(st, s, n, ph);
      DeclinedAnswer(st, n);
      DeclinedImage(st, n);
      ArrivedAwaits(st, x, s, n, ph);
      ProgrammedSoFar(st, s.dev, n);
      RefusedLost(st, s, now, s');
      MistakenAnswer(st, n);
      ph' := ph;
    }
  }

  lemma DevSwitchAdvanced(st: Setting, s: Session, n: nat, ph: Stretch, now: nat, s': Session) returns (ph': Stretch)
    requires Fits(st) && Within(st, s, n, ph) && WellTyped(s.dev) && s' == DevSwitch(st.judge, s, now)
    ensures Advanced(st, s, n, ph, s', AfterSwitch(n, ph), ph')
  {
    if ph.Arrived? {
      ph' := ArrivedAdvanced(st, s, n, ph, now, s');
    } else {
      ph' := NotTakenNearer(st, s, n, ph, now, s');
    }
  }

  // ----- main -----

  lemma TakenBelow(x: Exchange, w: Wires, ph: Stretch)
    requires WiresAt(x, w, ph)
    ensures ph.Asking? ==> ph.taken <= ph.handled <= |x.questions|
  {}

  // Whether main gives an answer when it is woken.
  predicate GivesAnswer(x: Exchange, ph: Stretch, n: nat, answers: nat) {
    ph.Asking? && ph.taken < ph.handled && n < answers && ph.taken + 1 == |x.questions|
  }

  lemma MainQuietly(st: Setting, x: Exchange, s: Session, n: nat, ph: Stretch, noise: Noise) returns (ph': Stretch)
    requires Fits(st) && At(st, x, s, n, ph) && |st.image| < TWO_32 && PlaceInImage(s.host, st.image)
    requires x.questions == Questions(st.image, n, FinalVerdict(st)) && !GivesAnswer(x, ph, n, AnswerCount(st.image))
    ensures var s' := HostMain(s, st.image, noise);
      At(st, x, s', n, ph') && (s' == s || Distance(st, x, s', n, ph') < Distance(st, x, s, n, ph))
  {
    TakenBelow(x, WiresOf(s), ph);
    if ph.Asking? && ph.taken < ph.handled {
      ph' := MainStepTakes(st, x, s, n, ph, noise);
    } else {
      NothingForMain(st, x, s, n, ph, noise);
      ph' := ph;
    }
  }

  lemma QuietNearer(st: Setting, s: Session, n: nat, ph: Stretch, noise: Noise, s': Session) returns (ph': Stretch)
    requires Fits(st) && Within(st, s, n, ph) && PlaceInImage(s.host, st.image) && s' == HostMain(s, st.image, noise)
    requires !GivesAnswer(ExchangeOf(st, n), ph, n, AnswerCount(st.image))
    ensures Nearer(st, s, n, ph, s', n, ph')
  {
    var x := ExchangeDetails(st, n);
    ph' := MainQuietly(st, x, s, n, ph, noise);
  }

  lemma AnswerNearer(st: Setting, s: Session, n: nat, ph: Stretch, noise: Noise, s': Session) returns (ph': Stretch)
    requires Fits(st) && Within(st, s, n, ph) && PlaceInImage(s.host, st.image) && s' == HostMain(s, st.image, noise)
    requires GivesAnswer(ExchangeOf(st, n), ph, n, AnswerCount(st.image)) && Plain(ExchangeOf(st, n).answer)
    ensures Nearer(st, s, n, ph, s', n, ph')
  {
    var x := ExchangeDetails(st, n);
    ph' := MainStepAnswers(st, x, s, n, ph, noise);
  }

  lemma NotControlIsPlain(x: Exchange)
    requires Regular(x)
    ensures Plain(x.answer) || IsControl(x.answer)
  {}

  // Only the last chunk can look like a control packet.
  lemma OnlyLastIsControl(st: Setting, n: nat)
    requires Fits(st) && n < AnswerCount(st.image) && IsControl(Answer(st.image, n))
    ensures n >= 3 && n + 1 == AnswerCount(st.image)
  {
    RequestAnswer(st.image);
    DeviceIdAnswer(st.image);
    LengthAnswer(st.image);
    ChunkAnswer(st.image, n);
  }

  lemma HarmlessWithAcks(x: Exchange, w: Wires, ph: Stretch, sent: Packet)
    requires Regular(x) && WiresAt(x, w, ph) && ph.Asking? && Harmless(sent)
    ensures AllHarmless(w.toDev + [sent]) && w.queue == []
  {
    ControlsHarmless();
  }

  lemma AskingDeviceReceives(st: Setting, x: Exchange, s: Session, n: nat, ph: Stretch)
    requires Fits(st) && At(st, x, s, n, ph) && ph.Asking? && 3 <= n < AnswerCount(st.image)
    requires ph.taken < ph.handled && ph.taken + 1 == |x.questions|
    ensures s.dev.mode == ReceiveFw && !s.dev.hung && s.toHost == [] && |s.host.packets| == 1
    ensures DeviceAt(st.before, st.image, s.dev, n, WaitMode(n))
  {}

  // Images whose last chunk looks like a control packet are not declined.
  lemma LookAlikeImage(st: Setting, n: nat)
    requires Fits(st) && 3 <= n && n + 1 == AnswerCount(st.image) && FoundInOrder(st, n) && IsControl(Answer(st.image, n))
    ensures !IsDeclined(st.image)
  {
    ControlChunk(st.image, 16 * (n - 3));
    LastChunkIs(st.image, n - 3);
  }

  // The host that has sent the last chunk.
  lemma LastChunkGiven(st: Setting, s: Session, n: nat, taken: nat) returns (h': Host)
    requires Fits(st) && 3 <= n && n + 1 == AnswerCount(st.image) && taken + 1 == QuestionCount(st, n)
    requires s.host.place == AskPlace(st, n, taken) && |s.host.packets| == 1 && PlaceInImage(s.host, st.image)
    requires s.host.packets[0] == Questions(st.image, n, FinalVerdict(st))[taken] && ValidHost(s.host) && s.host.rx == []
    ensures h' == Advance(s.host, st.image) && h'.written == s.host.written + [Answer(st.image, n)] && h'.last == Answer(st.image, n)
    ensures h'.place == AwaitResult && h'.packets == [] && ValidHost(h') && h'.rx == [] && PlaceInImage(h', st.image)
  {
    h' := Advance(s.host, st.image);
    MainAnswers(st, s.host, n, taken);
    MainWrites(s.host, st.image);
    PlaceAtEnd(st);
  }

  // The last chunk looks like a control packet: the session is stuck once main has sent it.
  lemma LookAlikeSent(st: Setting, x: Exchange, s: Session, n: nat, ph: Stretch, noise: Noise)
    requires Fits(st) && At(st, x, s, n, ph) && Typed(s, st.image) && Regular(x)
    requires x.questions == Questions(st.image, n, FinalVerdict(st)) && 3 <= n && n + 1 == AnswerCount(st.image)
    requires GivesAnswer(x, ph, n, AnswerCount(st.image)) && x.answer == Answer(st.image, n) && IsControl(x.answer)
    requires ReportsTruly(st.judge, s.dev)
    ensures Lost(HostMain(s, st.image, noise), st.image)
  {
    TakenBelow(x, WiresOf(s), ph);
    AskingDeviceReceives(st, x, s, n, ph);
    AskingHostHas(st, x, s, n, ph);
    var h' := LastChunkGiven(st, s, n, ph.taken);
    AnsweringHostMain(s, st.image, noise, h', x.answer);
    HarmlessWithAcks(x, WiresOf(s), ph, Arrives(s, x.answer, noise));
    LookAlikeImage(st, n);
    ProgrammedSoFar(st, s.dev, n);
    StuckAfterAnswer(s, h', Arrives(s, x.answer, noise), HostMain(s, st.image, noise), st.image);
  }

  lemma AskingHostHas(st: Setting, x: Exchange, s: Session, n: nat, ph: Stretch)
    requires Fits(st) && At(st, x, s, n, ph) && ph.Asking? && ph.taken < ph.handled && ph.taken + 1 == |x.questions|
    ensures s.host.place == AskPlace(st, n, ph.taken) && s.host.packets == [x.questions[ph.taken]]
  {}

  lemma StuckAfterAnswer(s: Session, host: Host, arrives: Packet, s': Session, image: seq<bv8>)
    requires Typed(s, image) && s.dev.mode == ReceiveFw && !s.dev.hung && s.dev.link.queue == []
    requires AllHarmless(s.toDev + [arrives]) && Sized(arrives) && ValidHost(host) && host.rx == [] && PlaceInImage(host, image)
    requires WellFormed(host.last) && IsControl(host.last) && host.place == AwaitResult && host.packets == []
    requires NoSuccess(s.dev.link) && s.toHost == [] && LeftAs(s.dev.log, image) && !IsDeclined(image)
    requires s' == s.(host := host, toDev := s.toDev + [arrives], budget := s'.budget)
    ensures Lost(s', image)
  {}

  lemma LookAlikeLost(st: Setting, s: Session, n: nat, ph: Stretch, noise: Noise, s': Session)
    requires Fits(st) && Within(st, s, n, ph) && PlaceInImage(s.host, st.image) && s' == HostMain(s, st.image, noise)
    requires GivesAnswer(ExchangeOf(st, n), ph, n, AnswerCount(st.image)) && IsControl(ExchangeOf(st, n).answer)
    requires ReportsTruly(st.judge, s.dev)
    ensures Lost(s', st.image) && !Transferable(st.image)
  {
    var x := ExchangeDetails(st, n);
    OnlyLastIsControl(st, n);
    MistakenAnswer(st, n);
    WithinIsTyped(st, s, n, ph);
    LookAlikeSent(st, x, s, n, ph, noise);
  }

  lemma HostMainAdvanced(st: Setting, s: Session, n: nat, ph: Stretch, noise: Noise, s': Session) returns (ph': Stretch)
    requires Fits(st) && Within(st, s, n, ph) && PlaceInImage(s.host, st.image) && s' == HostMain(s, st.image, noise)
    requires ReportsTruly(st.judge, s.dev)
    ensures Advanced(st, s, n, ph, s', n, ph')
  {
    ExchangesRegular(st, n);
    NotControlIsPlain(ExchangeOf(st, n));
    if !GivesAnswer(ExchangeOf(st, n), ph, n, AnswerCount(st.image)) {
      ph' := QuietNearer(st, s, n, ph, noise, s');
    } else if IsControl(ExchangeOf(st, n).answer) {
      LookAlikeLost(st, s, n, ph, noise, s');
      ph' := ph;
    } else {
      ph' := AnswerNearer(st, s, n, ph, noise, s');
    }
  }

  // Every step keeps the session in a stretch, and brings the end nearer unless it changes nothing; or the
  // session is lost.
  lemma StepAdvances(st: Setting, s: Session, n: nat, ph: Stretch, a: SessionStep) returns (n': nat, ph': Stretch)
    requires Fits(st) && Within(st, s, n, ph) && ReportsTruly(st.judge, s.dev)
    ensures WellFormedSession(s, st.image)
    ensures Advanced(st, s, n, ph, StepOf(st.judge, st.image, s, a), n', ph')
  {
    WithinIsWellFormed(st, s, n, ph);
    var s' := StepOf(st.judge, st.image, s, a);
    n' := if a.DevSwitches? then AfterSwitch(n, ph) else n;
    match a
    case DevHandles => ph' := DevFrameNearer(st, s, n, ph, s');
    case DevSwitches(now) => ph' := DevSwitchAdvanced(st, s, n, ph, now, s');
    case HostHandles(noise) => ph' := HostFrameNearer(st, s, n, ph, noise, s');
    case HostWakes(noise) => ph' := HostMainAdvanced(st, s, n, ph, noise, s');
  }
}
