// Sessions in which any frame may be damaged, in either direction. Two of their runs show what the theorems
// about transfers cannot do without: one damaged acknowledgement of the updater, or one damaged frame of the
// bootloader, can keep any image from being installed.
module NoisySession {
  import opened Packets
  import opened Link
  import opened Framing
  import opened LittleEndian
  import opened Host
  import opened UpdateMachine
  import opened FlashAudit
  import opened UpdateSafety
  import opened UpdateOutcome
  import opened Transfer
  import opened TransferDevice
  import opened Exchanges
  import opened FrameSession
  import opened SessionPhases
  import opened SessionSteps
  import opened SessionMain
  import opened SessionRuns
  import opened TransferRuns

  // What the device sent is under way; a single frame may be hit.
  function NoisyDeviceTo(s: Session, dev: Boot, noise: Noise): Session {
    if |NewlySent(s.dev.link.sent, dev.link.sent)| == 1 && Hit(noise, s.budget)
    then s.(dev := dev, toHost := s.toHost + [noise.q], budget := s.budget - 1)
    else DeviceTo(s, dev)
  }

  function NoisyDevFrame(s: Session, noise: Noise): Session {
    if s.toDev == [] || !Running(s.dev) then s
    else NoisyDeviceTo(s.(toDev := s.toDev[1..]), s.dev.(link := HandlePacket(Completed(s.dev.link, s.toDev[0]))), noise)
  }

  function NoisyDevSwitch(judge: Judge, s: Session, now: nat, noise: Noise): Session
    requires WellTyped(s.dev)
  {
    if !Running(s.dev) || s.dev.mode == Sync || Decide(s.dev, now) == TimeOut then s
    else NoisyDeviceTo(s, Switch(judge, s.dev, now), noise)
  }

  // Here an acknowledgement may be hit, too.
  function NoisyHostFrame(s: Session, noise: Noise): Session {
    if s.toHost == [] then s
    else
      var host := HandleFrame(s.host, s.toHost[0]);
      OnLine(s.(toHost := s.toHost[1..]), host, NewlySent(s.host.written, host.written), true, noise)
  }

  datatype NoisyStep =
    | Handles(noise: Noise)
    | Switches(now: nat, noise: Noise)
    | HostTakes(noise: Noise)
    | MainRuns(noise: Noise)

  function NoisyStepOf(judge: Judge, image: seq<bv8>, s: Session, a: NoisyStep): Session
    requires WellFormedSession(s, image)
  {
    match a
    case Handles(noise) => NoisyDevFrame(s, noise)
    case Switches(now, noise) => NoisyDevSwitch(judge, s, now, noise)
    case HostTakes(noise) => NoisyHostFrame(s, noise)
    case MainRuns(noise) => HostMain(s, image, noise)
  }

  function NoisyRun(st: Setting, start: Session, steps: seq<NoisyStep>): Session {
    if steps == [] then start
    else
      var s := NoisyRun(st, start, steps[..|steps| - 1]);
      if WellFormedSession(s, st.image) then NoisyStepOf(st.judge, st.image, s, steps[|steps| - 1]) else s
  }

  lemma OneMore(st: Setting, start: Session, steps: seq<NoisyStep>, s: Session, a: NoisyStep)
    requires s == NoisyRun(st, start, steps) && WellFormedSession(s, st.image)
    ensures NoisyRun(st, start, steps + [a]) == NoisyStepOf(st.judge, st.image, s, a)
  {
    assert (steps + [a])[..|steps|] == steps;
  }

  // Without noise, the steps are those of FrameSession.
  lemma CleanSteps(judge: Judge, s: Session, now: nat)
    requires WellTyped(s.dev)
    ensures NoisyDevFrame(s, Clean) == DevFrame(s)
    ensures NoisyDevSwitch(judge, s, now, Clean) == DevSwitch(judge, s, now)
    ensures NoisyHostFrame(s, Clean) == HostFrame(s, Clean)
  {}

  // ----- Steps with known frames -----

  lemma HostQueuesFrame(s: Session, noise: Noise) returns (s': Session)
    requires s.toHost != [] && Plain(s.toHost[0])
    ensures s' == NoisyHostFrame(s, noise)
    ensures s' == s.(host := Write(s.host.(packets := s.host.packets + [s.toHost[0]]), Ack()), toHost := s.toHost[1..],
                     toDev := s.toDev + [Arrives(s, Ack(), noise)],
                     budget := if Hit(noise, s.budget) then s.budget - 1 else s.budget)
  {
    HostGetsPlainFrame(s.host, s.toHost[0]);
    NewlySentIs(s.host.written, [Ack()]);
    s' := NoisyHostFrame(s, noise);
  }

  lemma HostAsksAgain(s: Session) returns (s': Session)
    requires s.toHost != [] && WrongCrc(s.toHost[0])
    ensures s' == NoisyHostFrame(s, Clean)
    ensures s' == s.(host := Write(s.host, Retx()), toHost := s.toHost[1..], toDev := s.toDev + [Retx()])
  {
    NewlySentIs(s.host.written, [Retx()]);
    s' := NoisyHostFrame(s, Clean);
  }

  lemma DeviceGetsFrame(s: Session, queue: seq<Packet>, sent: seq<Packet>) returns (s': Session)
    requires s.toDev != [] && Running(s.dev)
    requires LinkTo(s.dev.link, HandlePacket(Completed(s.dev.link, s.toDev[0])), queue, sent)
    ensures s' == NoisyDevFrame(s, Clean)
    ensures s' == s.(dev := s.dev.(link := s'.dev.link), toDev := s.toDev[1..], toHost := s.toHost + sent)
    ensures AtRest(s'.dev.link) && s'.dev.link.queue == queue
  {
    NewlySentIs(s.dev.link.sent, sent);
    s' := NoisyDevFrame(s, Clean);
  }

  lemma DeviceSwitches(judge: Judge, s: Session, now: nat, said: seq<Packet>) returns (s': Session)
    requires WellTyped(s.dev) && Running(s.dev) && s.dev.mode != Sync && Decide(s.dev, now) != TimeOut
    requires Said(s.dev, Switch(judge, s.dev, now), said)
    ensures s' == NoisyDevSwitch(judge, s, now, Clean)
    ensures s' == s.(dev := Switch(judge, s.dev, now), toHost := s.toHost + said)
  {
    NewlySentIs(s.dev.link.sent, said);
    s' := NoisyDevSwitch(judge, s, now, Clean);
  }

  // ----- The same along a run -----

  // The run with these steps has come to s.
  ghost predicate Reached(st: Setting, start: Session, steps: seq<NoisyStep>, s: Session) {
    s == NoisyRun(st, start, steps) && WellFormedSession(s, st.image)
  }

  lemma Extend(st: Setting, start: Session, steps: seq<NoisyStep>, s: Session, a: NoisyStep, s': Session)
    requires Reached(st, start, steps, s) && s' == NoisyStepOf(st.judge, st.image, s, a)
    requires WellTyped(s'.dev) && PlaceInImage(s'.host, st.image)
    ensures Reached(st, start, steps + [a], s')
  {
    OneMore(st, start, steps, s, a);
  }

  lemma ThenHostQueues(st: Setting, start: Session, steps: seq<NoisyStep>, s: Session, noise: Noise)
    returns (longer: seq<NoisyStep>, s': Session)
    requires Reached(st, start, steps, s) && s.toHost != [] && Plain(s.toHost[0])
    ensures Reached(st, start, longer, s')
    ensures s' == s.(host := Write(s.host.(packets := s.host.packets + [s.toHost[0]]), Ack()), toHost := s.toHost[1..],
                     toDev := s.toDev + [Arrives(s, Ack(), noise)],
                     budget := if Hit(noise, s.budget) then s.budget - 1 else s.budget)
  {
    s' := HostQueuesFrame(s, noise);
    longer := steps + [HostTakes(noise)];
    Extend(st, start, steps, s, HostTakes(noise), s');
  }

  lemma ThenHostNotesAck(st: Setting, start: Session, steps: seq<NoisyStep>, s: Session)
    returns (longer: seq<NoisyStep>, s': Session)
    requires Reached(st, start, steps, s) && s.toHost != [] && s.toHost[0] == Ack()
    ensures Reached(st, start, longer, s') && s' == s.(toHost := s.toHost[1..])
  {
    HostGetsAckFrame(s.host);
    NewlySentIs(s.host.written, []);
    s' := NoisyHostFrame(s, Clean);
    longer := steps + [HostTakes(Clean)];
    Extend(st, start, steps, s, HostTakes(Clean), s');
  }

  lemma ThenHostAsksAgain(st: Setting, start: Session, steps: seq<NoisyStep>, s: Session)
    returns (longer: seq<NoisyStep>, s': Session)
    requires Reached(st, start, steps, s) && s.toHost != [] && WrongCrc(s.toHost[0])
    ensures Reached(st, start, longer, s')
    ensures s' == s.(host := Write(s.host, Retx()), toHost := s.toHost[1..], toDev := s.toDev + [Retx()])
  {
    s' := HostAsksAgain(s);
    longer := steps + [HostTakes(Clean)];
    Extend(st, start, steps, s, HostTakes(Clean), s');
  }

  lemma ThenHostRepeats(st: Setting, start: Session, steps: seq<NoisyStep>, s: Session)
    returns (longer: seq<NoisyStep>, s': Session)
    requires Reached(st, start, steps, s) && s.toHost != [] && s.toHost[0] == Retx() && Plain(s.host.last)
    ensures Reached(st, start, longer, s')
    ensures s' == s.(host := Write(s.host, s.host.last), toHost := s.toHost[1..], toDev := s.toDev + [s.host.last])
  {
    var sent: Packet;
    sent, s' := AnswerResent(s, Clean);
    CleanSteps(st.judge, s, 0);
    longer := steps + [HostTakes(Clean)];
    Extend(st, start, steps, s, HostTakes(Clean), s');
  }

  lemma ThenDeviceGets(st: Setting, start: Session, steps: seq<NoisyStep>, s: Session, queue: seq<Packet>,
                    sent: seq<Packet>)
    returns (longer: seq<NoisyStep>, s': Session)
    requires Reached(st, start, steps, s) && s.toDev != [] && Running(s.dev)
    requires LinkTo(s.dev.link, HandlePacket(Completed(s.dev.link, s.toDev[0])), queue, sent)
    ensures Reached(st, start, longer, s')
    ensures s' == s.(dev := s.dev.(link := s'.dev.link), toDev := s.toDev[1..], toHost := s.toHost + sent)
    ensures AtRest(s'.dev.link) && s'.dev.link.queue == queue
  {
    s' := DeviceGetsFrame(s, queue, sent);
    longer := steps + [Handles(Clean)];
    Extend(st, start, steps, s, Handles(Clean), s');
  }

  lemma ThenDeviceSwitches(st: Setting, start: Session, steps: seq<NoisyStep>, s: Session, now: nat, said: seq<Packet>)
    returns (longer: seq<NoisyStep>, s': Session)
    requires Reached(st, start, steps, s) && Running(s.dev) && s.dev.mode != Sync && Decide(s.dev, now) != TimeOut
    requires WellTyped(Switch(st.judge, s.dev, now)) && Said(s.dev, Switch(st.judge, s.dev, now), said)
    ensures Reached(st, start, longer, s')
    ensures s' == s.(dev := Switch(st.judge, s.dev, now), toHost := s.toHost + said)
  {
    s' := DeviceSwitches(st.judge, s, now, said);
    longer := steps + [Switches(now, Clean)];
    Extend(st, start, steps, s, Switches(now, Clean), s');
  }

  // ----- Up to the device's first questions -----

  lemma FirstExchanges(st: Setting) returns (x: Exchange, y: Exchange)
    requires Fits(st)
    ensures x == ExchangeOf(st, 0) && y == ExchangeOf(st, 1) && Regular(x) && Regular(y)
    ensures AnswerCount(st.image) >= 4 && FollowedBy(st, x, y, 0) && |FirstQuestions(st, 1)| == 1
    ensures TakenForWhatItIs(st.image, 0) && FoundInOrder(st, 1)
    ensures y.questions == Questions(st.image, 1, FinalVerdict(st)) == [Res(), IdRequest()]
  {
    ManyAnswers(st);
    RequestAnswer(st.image);
    FirstQuestionsAre(st, 1);
    x, y := ExchangePair(st, 0);
    var x' := ExchangeDetails(st, 0);
    var y' := ExchangeDetails(st, 1);
  }

  lemma StartReached(st: Setting, x: Exchange, dev: Boot, host: Host, budget: nat) returns (s: Session)
    requires Ready(st, dev, host) && x == ExchangeOf(st, 0)
    ensures s == Begun(dev, host, budget, Clean) && s.budget == budget && Reached(st, s, [], s)
    ensures Running(s.dev) && At(st, x, s, 0, Outstanding(1, false))
  {
    s := Begun(dev, host, budget, Clean);
    RunBegins(st, dev, host, budget, Clean);
    WithinIsWellFormed(st, s, 0, Outstanding(1, false));
    ManyAnswers(st);
    StageRuns(st, s.dev, 0, Outstanding(1, false));
  }

  lemma AtIsWellFormed(st: Setting, x: Exchange, s: Session, n: nat, ph: Stretch)
    requires Fits(st) && At(st, x, s, n, ph)
    ensures WellFormedSession(s, st.image)
  {
    StageRuns(st, s.dev, n, ph);
    StagePlaceInImage(st, x, s, n, ph);
  }

  lemma AtWires(st: Setting, x: Exchange, s: Session, n: nat, ph: Stretch) returns (w: Wires)
    requires Fits(st) && At(st, x, s, n, ph)
    ensures w == WiresOf(s) && WiresAt(x, w, ph)
  {
    w := WiresOf(s);
  }

  lemma WiresArrived(x: Exchange, w: Wires)
    requires WiresAt(x, w, Arrived(false))
    ensures w.toHost == [x.ack] && w.toDev == []
  {}

  lemma WiresOneQuestion(x: Exchange, w: Wires)
    requires WiresAt(x, w, Asking(false, 1, 0, 0, 0)) && |x.questions| == 2
    ensures w.toHost == [x.ack, x.questions[0]] && w.toDev == [] && w.packets == []
  {}

  lemma WiresTwoQuestions(x: Exchange, w: Wires)
    requires WiresAt(x, w, Asking(false, 2, 0, 0, 0)) && |x.questions| == 2
    ensures w.toHost == [x.ack, x.questions[0], x.questions[1]] && w.toDev == [] && w.packets == []
  {}

  lemma ThenHandles(st: Setting, start: Session, steps: seq<NoisyStep>, s: Session, s': Session, n: nat, ph: Stretch)
    returns (longer: seq<NoisyStep>)
    requires Fits(st) && Reached(st, start, steps, s) && s' == DevFrame(s) && Within(st, s', n, ph)
    ensures Reached(st, start, longer, s')
  {
    CleanSteps(st.judge, s, 0);
    WithinIsWellFormed(st, s', n, ph);
    longer := steps + [Handles(Clean)];
    Extend(st, start, steps, s, Handles(Clean), s');
  }

  lemma AckGone(st: Setting, x: Exchange, s: Session) returns (s': Session)
    requires Fits(st) && Regular(x) && Running(s.dev) && At(st, x, s, 0, Outstanding(1, false))
    ensures s' == DevFrame(s) && s'.budget == s.budget && Running(s'.dev) && At(st, x, s', 0, Outstanding(0, false))
  {
    var ph := FrameIsAck(st, x, s, 0, Outstanding(1, false));
    s' := DevFrame(s);
    ManyAnswers(st);
    StageRuns(st, s'.dev, 0, ph);
  }

  // The device has queued the request.
  lemma RequestArrives(st: Setting, x: Exchange, dev: Boot, host: Host, budget: nat)
    returns (steps: seq<NoisyStep>, s: Session)
    requires Ready(st, dev, host) && x == ExchangeOf(st, 0) && Regular(x)
    ensures Reached(st, Begun(dev, host, budget, Clean), steps, s) && s.budget == budget
    ensures At(st, x, s, 0, Arrived(false))
  {
    var s0 := StartReached(st, x, dev, host, budget);
    var s1 := AckGone(st, x, s0);
    var steps1 := ThenHandles(st, s0, [], s0, s1, 0, Outstanding(0, false));
    FrameIsAnswer(st, x, s1, 0, Outstanding(0, false));
    s := DevFrame(s1);
    steps := ThenHandles(st, s0, steps1, s1, s, 0, Arrived(false));
  }

  // It takes the request and says so.
  lemma RequestTaken(st: Setting, x: Exchange, y: Exchange, s: Session, now: nat) returns (s': Session)
    requires Fits(st) && AnswerCount(st.image) >= 4 && FollowedBy(st, x, y, 0) && |FirstQuestions(st, 1)| == 1
    requires TakenForWhatItIs(st.image, 0) && FoundInOrder(st, 1) && WellTyped(s.dev) && At(st, x, s, 0, Arrived(false))
    ensures s' == DevSwitch(st.judge, s, now) && s'.budget == s.budget && At(st, y, s', 1, Asking(false, 1, 0, 0, 0))
  {
    var ph := SwitchInArrived(st, x, s, 0, Arrived(false), y, now);
    s' := DevSwitch(st.judge, s, now);
  }

  // It asks for the device id.
  lemma IdAsked(st: Setting, y: Exchange, s: Session, now: nat) returns (s': Session)
    requires Fits(st) && AnswerCount(st.image) >= 4 && WellTyped(s.dev) && At(st, y, s, 1, Asking(false, 1, 0, 0, 0))
    requires y.questions == Questions(st.image, 1, FinalVerdict(st)) == [Res(), IdRequest()]
    ensures s' == DevSwitch(st.judge, s, now) && s'.budget == s.budget && At(st, y, s', 1, Asking(false, 2, 0, 0, 0))
  {
    var ph := SwitchInAsking(st, y, s, 1, Asking(false, 1, 0, 0, 0), now);
    s' := DevSwitch(st.judge, s, now);
  }

  lemma ThenSwitchesTo(st: Setting, start: Session, steps: seq<NoisyStep>, s: Session, now: nat, s': Session)
    returns (longer: seq<NoisyStep>)
    requires Reached(st, start, steps, s) && s' == DevSwitch(st.judge, s, now) && WellFormedSession(s', st.image)
    ensures Reached(st, start, longer, s')
  {
    CleanSteps(st.judge, s, now);
    longer := steps + [Switches(now, Clean)];
    Extend(st, start, steps, s, Switches(now, Clean), s');
  }

  lemma ThenRequestTaken(st: Setting, start: Session, steps: seq<NoisyStep>, x: Exchange, y: Exchange, s: Session, now: nat)
    returns (longer: seq<NoisyStep>, s': Session)
    requires Fits(st) && Reached(st, start, steps, s) && At(st, x, s, 0, Arrived(false))
    requires AnswerCount(st.image) >= 4 && FollowedBy(st, x, y, 0) && |FirstQuestions(st, 1)| == 1
    requires TakenForWhatItIs(st.image, 0) && FoundInOrder(st, 1)
    ensures Reached(st, start, longer, s') && s'.budget == s.budget && At(st, y, s', 1, Asking(false, 1, 0, 0, 0))
  {
    s' := RequestTaken(st, x, y, s, now);
    AtIsWellFormed(st, y, s', 1, Asking(false, 1, 0, 0, 0));
    longer := ThenSwitchesTo(st, start, steps, s, now, s');
  }

  lemma ThenIdAsked(st: Setting, start: Session, steps: seq<NoisyStep>, y: Exchange, s: Session, now: nat)
    returns (longer: seq<NoisyStep>, s': Session)
    requires Fits(st) && Reached(st, start, steps, s) && At(st, y, s, 1, Asking(false, 1, 0, 0, 0))
    requires AnswerCount(st.image) >= 4 && y.questions == Questions(st.image, 1, FinalVerdict(st)) == [Res(), IdRequest()]
    ensures Reached(st, start, longer, s') && s'.budget == s.budget && At(st, y, s', 1, Asking(false, 2, 0, 0, 0))
  {
    s' := IdAsked(st, y, s, now);
    AtIsWellFormed(st, y, s', 1, Asking(false, 2, 0, 0, 0));
    longer := ThenSwitchesTo(st, start, steps, s, now, s');
  }

  // The device has asked for the device id, and the updater has seen nothing yet.
  ghost predicate IdAwaited(st: Setting, s: Session)
    requires Fits(st)
  {
    && DeviceAt(st.before, st.image, s.dev, 1, DeviceIdRes) && s.dev.link.queue == []
    && ValidHost(s.host) && s.host.packets == [] && s.host.place == AwaitUpdateResponse
  }

  lemma AtIsAwaited(st: Setting, y: Exchange, s: Session)
    requires Fits(st) && At(st, y, s, 1, Asking(false, 2, 0, 0, 0)) && y.questions == [Res(), IdRequest()] && y.ack == Ack()
    ensures IdAwaited(st, s) && s.toHost == [Ack(), Res(), IdRequest()] && s.toDev == []
  {
    ManyAnswers(st);
    var w := AtWires(st, y, s, 1, Asking(false, 2, 0, 0, 0));
    WiresTwoQuestions(y, w);
  }

  lemma QuestionsArePlain()
    ensures Plain(Res()) && Plain(IdRequest())
  {
    PlainSingle(BL_PACKET_FW_UPDATE_RES_DATA0);
    PlainSingle(BL_PACKET_DEVICE_ID_REQ_DATA0);
  }

  // ----- A damaged acknowledgement -----

  // The updater's handler acknowledges both questions; the first acknowledgement is hit.
  lemma AcknowledgementHit(st: Setting, start: Session, steps: seq<NoisyStep>, s: Session, q: Packet)
    returns (longer: seq<NoisyStep>, s': Session)
    requires Reached(st, start, steps, s) && s.toHost == [Ack(), Res(), IdRequest()] && s.toDev == []
    requires s.host.packets == [] && s.budget > 0 && WrongCrc(q)
    ensures Reached(st, start, longer, s') && s'.host.place == s.host.place && s'.host.packets == [Res(), IdRequest()]
    ensures s' == s.(host := s'.host, toHost := [], toDev := [q, Ack()], budget := s.budget - 1)
  {
    QuestionsArePlain();
    var steps1, s1 := ThenHostNotesAck(st, start, steps, s);
    var steps2, s2 := ThenHostQueues(st, start, steps1, s1, Damaged(q));
    longer, s' := ThenHostQueues(st, start, steps2, s2, Clean);
  }

  lemma ThenMainTakes(st: Setting, start: Session, steps: seq<NoisyStep>, s: Session)
    returns (longer: seq<NoisyStep>, s': Session)
    requires Fits(st) && Reached(st, start, steps, s) && s.host.packets == [Res(), IdRequest()]
    requires s.host.place == AwaitUpdateResponse
    ensures Reached(st, start, longer, s')
    ensures s' == s.(host := s.host.(packets := [IdRequest()], place := AwaitDeviceIdRequest))
  {
    ManyAnswers(st);
    s' := QuestionTaken(st, s, 1, 0, Clean);
    longer := steps + [MainRuns(Clean)];
    Extend(st, start, steps, s, MainRuns(Clean), s');
  }

  lemma ThenMainAnswers(st: Setting, start: Session, steps: seq<NoisyStep>, s: Session)
    returns (longer: seq<NoisyStep>, s': Session)
    requires Fits(st) && AnswerCount(st.image) >= 4 && Reached(st, start, steps, s)
    requires s.host.packets == [IdRequest()] && s.host.place == AwaitDeviceIdRequest
    ensures Reached(st, start, longer, s') && s'.host.last == Answer(st.image, 1)
    ensures s' == s.(host := s'.host, toDev := s.toDev + [Answer(st.image, 1)])
  {
    var sent: Packet;
    sent, s' := AnswerSent(st, s, 1, 1, Clean);
    longer := steps + [MainRuns(Clean)];
    Extend(st, start, steps, s, MainRuns(Clean), s');
  }

  lemma AtIdWaits(st: Setting, d: Boot)
    requires Fits(st) && DeviceAt(st.before, st.image, d, 1, DeviceIdRes)
    ensures Running(d) && AtRest(d.link) && WellTyped(d)
  {}

  lemma WithLink(st: Setting, d: Boot, n: nat, mode: Mode, l: Link)
    requires Fits(st) && DeviceAt(st.before, st.image, d, n, mode) && AtRest(l)
    ensures DeviceAt(st.before, st.image, d.(link := l), n, mode)
  {
    FlashWithLink(st.before, d, l);
  }

  // The device asks for a retransmission, and queues the device id.
  lemma IdQueued(st: Setting, start: Session, steps: seq<NoisyStep>, s: Session, q: Packet, p: Packet)
    returns (longer: seq<NoisyStep>, s': Session)
    requires Reached(st, start, steps, s) && Running(s.dev) && AtRest(s.dev.link) && s.dev.link.queue == []
    requires s.toDev == [q, Ack(), p] && s.toHost == [] && WrongCrc(q) && Plain(p)
    ensures Reached(st, start, longer, s') && AtRest(s'.dev.link) && s'.dev.link.queue == [p]
    ensures s' == s.(dev := s.dev.(link := s'.dev.link), toDev := [], toHost := [Retx(), Ack()])
  {
    LinkGetsDamaged(s.dev.link, q);
    var steps1, s1 := ThenDeviceGets(st, start, steps, s, [], [Retx()]);
    longer, s' := AckAndIdQueued(st, start, steps1, s1, p);
  }

  lemma AckAndIdQueued(st: Setting, start: Session, steps: seq<NoisyStep>, s: Session, p: Packet)
    returns (longer: seq<NoisyStep>, s': Session)
    requires Reached(st, start, steps, s) && Running(s.dev) && AtRest(s.dev.link) && s.dev.link.queue == []
    requires s.toDev == [Ack(), p] && Plain(p)
    ensures Reached(st, start, longer, s') && AtRest(s'.dev.link) && s'.dev.link.queue == [p]
    ensures s' == s.(dev := s.dev.(link := s'.dev.link), toDev := [], toHost := s.toHost + [Ack()])
  {
    LinkGetsAck(s.dev.link);
    var steps1, s1 := ThenDeviceGets(st, start, steps, s, [], []);
    LinkGetsPlain(s1.dev.link, p);
    longer, s' := ThenDeviceGets(st, start, steps1, s1, [p], [Ack()]);
  }

  // The device takes the device id and asks for the length.
  lemma IdTaken(st: Setting, start: Session, steps: seq<NoisyStep>, s: Session, now: nat)
    returns (longer: seq<NoisyStep>, s': Session)
    requires Fits(st) && Reached(st, start, steps, s) && DeviceAt(st.before, st.image, s.dev, 1, DeviceIdRes)
    requires AnswerCount(st.image) >= 4 && s.dev.link.queue == [Answer(st.image, 1)] && TakenForWhatItIs(st.image, 1)
    ensures Reached(st, start, longer, s') && DeviceAt(st.before, st.image, s'.dev, 2, FwLengthReq)
    ensures s'.dev.link.queue == [] && s' == s.(dev := s'.dev)
  {
    AtIdWaits(st, s.dev);
    TakeDeviceId(st.judge, st.before, st.image, s.dev, now);
    TakingIsNoTimeOut(s.dev, now);
    longer, s' := ThenDeviceSwitches(st, start, steps, s, now, []);
  }

  lemma LengthAsked(st: Setting, start: Session, steps: seq<NoisyStep>, s: Session, now: nat)
    returns (longer: seq<NoisyStep>, s': Session)
    requires Fits(st) && Reached(st, start, steps, s) && DeviceAt(st.before, st.image, s.dev, 2, FwLengthReq)
    requires s.dev.link.queue == []
    ensures Reached(st, start, longer, s') && DeviceAt(st.before, st.image, s'.dev, 2, FwLengthRes)
    ensures s'.dev.link.queue == [] && s' == s.(dev := s'.dev, toHost := s.toHost + [LengthRequest()])
  {
    AskForLength(st.judge, st.before, st.image, s.dev, now);
    longer, s' := ThenDeviceSwitches(st, start, steps, s, now, [LengthRequest()]);
  }

  // The updater repeats the device id, and the device queues it again.
  lemma IdQueuedAgain(st: Setting, start: Session, steps: seq<NoisyStep>, s: Session, p: Packet)
    returns (longer: seq<NoisyStep>, s': Session)
    requires Fits(st) && Reached(st, start, steps, s) && DeviceAt(st.before, st.image, s.dev, 2, FwLengthRes)
    requires s.dev.link.queue == [] && s.toHost != [] && s.toHost[0] == Retx() && s.toDev == []
    requires s.host.last == p && Plain(p)
    ensures Reached(st, start, longer, s') && s'.budget == s.budget
    ensures s'.dev == s.dev.(link := s'.dev.link) && AtRest(s'.dev.link) && s'.dev.link.queue == [p]
  {
    var steps1, s1 := ThenHostRepeats(st, start, steps, s);
    LinkGetsPlain(s1.dev.link, p);
    longer, s' := ThenDeviceGets(st, start, steps1, s1, [p], [Ack()]);
  }

  lemma IdIsNoLength(st: Setting)
    requires Fits(st) && AnswerCount(st.image) >= 4
    ensures Plain(Answer(st.image, 1)) && Declined(Answer(st.image, 1), FwLengthRes)
  {
    DeviceIdAnswer(st.image);
  }

  lemma NotErasedYet(st: Setting, d: Boot)
    requires Fits(st) && DeviceAt(st.before, st.image, d, 2, FwLengthRes)
    ensures d.flash == st.before && LogInv(d) && InLoop(d)
  {
    PassedLogTallies(d.log);
  }

  // The device refuses it.
  lemma IdRefused(st: Setting, start: Session, steps: seq<NoisyStep>, s: Session, p: Packet, now: nat)
    returns (longer: seq<NoisyStep>, s': Session)
    requires Fits(st) && Reached(st, start, steps, s) && DeviceAt(st.before, st.image, s.dev, 2, FwLengthRes)
    requires s.dev.link.queue == [p] && Sized(p) && Declined(p, FwLengthRes)
    ensures Reached(st, start, longer, s') && s'.budget == s.budget
    ensures s'.dev.mode == Done && !Complete(s'.dev.log) && s'.dev.flash == st.before
  {
    NotErasedYet(st, s.dev);
    RefusedDevice(st.judge, s.dev, now);
    longer, s' := ThenDeviceSwitches(st, start, steps, s, now, [Nack()]);
  }

  // From the questions to the device id in the device's queue, with the acknowledgement of the first question hit.
  lemma IdSentAfterHit(st: Setting, start: Session, steps: seq<NoisyStep>, s: Session, q: Packet)
    returns (longer: seq<NoisyStep>, s': Session)
    requires Fits(st) && AnswerCount(st.image) >= 4 && Reached(st, start, steps, s) && IdAwaited(st, s)
    requires s.toHost == [Ack(), Res(), IdRequest()] && s.toDev == [] && s.budget > 0 && WrongCrc(q)
    ensures Reached(st, start, longer, s') && s'.budget == s.budget - 1 && s'.host.last == Answer(st.image, 1)
    ensures DeviceAt(st.before, st.image, s'.dev, 1, DeviceIdRes) && s'.dev.link.queue == [Answer(st.image, 1)]
    ensures s'.toHost == [Retx(), Ack()] && s'.toDev == []
  {
    IdIsNoLength(st);
    AtIdWaits(st, s.dev);
    var steps1, s1 := AcknowledgementHit(st, start, steps, s, q);
    var steps2, s2 := ThenMainTakes(st, start, steps1, s1);
    var steps3, s3 := ThenMainAnswers(st, start, steps2, s2);
    longer, s' := IdQueued(st, start, steps3, s3, q, Answer(st.image, 1));
    WithLink(st, s.dev, 1, DeviceIdRes, s'.dev.link);
  }

  lemma RefusedAfterHit(st: Setting, start: Session, steps: seq<NoisyStep>, s: Session, now: nat)
    returns (longer: seq<NoisyStep>, s': Session)
    requires Fits(st) && AnswerCount(st.image) >= 4 && TakenForWhatItIs(st.image, 1) && Reached(st, start, steps, s)
    requires DeviceAt(st.before, st.image, s.dev, 1, DeviceIdRes) && s.dev.link.queue == [Answer(st.image, 1)]
    requires s.host.last == Answer(st.image, 1) && s.toHost == [Retx(), Ack()] && s.toDev == []
    ensures Reached(st, start, longer, s') && s'.budget == s.budget
    ensures s'.dev.mode == Done && !Complete(s'.dev.log) && s'.dev.flash == st.before
  {
    IdIsNoLength(st);
    var steps1, s1 := IdTaken(st, start, steps, s, now);
    var steps2, s2 := LengthAsked(st, start, steps1, s1, now);
    var steps3, s3 := IdQueuedAgain(st, start, steps2, s2, Answer(st.image, 1));
    WithLink(st, s2.dev, 2, FwLengthRes, s3.dev.link);
    longer, s' := IdRefused(st, start, steps3, s3, Answer(st.image, 1), now);
  }

  // For every image there is a run in which one damaged acknowledgement makes the device queue the device id
  // twice; it refuses the second and ends the update before the erase.
  lemma DamagedAckEndsUpdate(st: Setting, dev: Boot, host: Host, budget: nat, q: Packet, now: nat)
    returns (steps: seq<NoisyStep>, s: Session)
    requires Ready(st, dev, host) && Transferable(st.image) && budget > 0 && WrongCrc(q)
    ensures s == NoisyRun(st, Begun(dev, host, budget, Clean), steps) && s.budget == budget - 1
    ensures s.dev.mode == Done && !Complete(s.dev.log) && s.dev.flash == st.before
  {
    var start := Begun(dev, host, budget, Clean);
    ManyAnswers(st);
    DeviceIdAnswer(st.image);
    var steps1, s1 := QuestionsReached(st, dev, host, budget, now);
    var steps2, s2 := IdSentAfterHit(st, start, steps1, s1, q);
    steps, s := RefusedAfterHit(st, start, steps2, s2, now);
  }

  lemma QuestionsReached(st: Setting, dev: Boot, host: Host, budget: nat, now: nat)
    returns (steps: seq<NoisyStep>, s: Session)
    requires Ready(st, dev, host)
    ensures Reached(st, Begun(dev, host, budget, Clean), steps, s) && s.budget == budget && IdAwaited(st, s)
    ensures s.toHost == [Ack(), Res(), IdRequest()] && s.toDev == []
  {
    var start := Begun(dev, host, budget, Clean);
    var x, y := FirstExchanges(st);
    var steps1, s1 := RequestArrives(st, x, dev, host, budget);
    var steps2, s2 := ThenRequestTaken(st, start, steps1, x, y, s1, now);
    steps, s := ThenIdAsked(st, start, steps2, y, s2, now);
    AtIsAwaited(st, y, s);
  }

  // ----- A damaged frame of the device -----

  lemma SwitchHit(judge: Judge, s: Session, t: Session, q: Packet, now: nat) returns (s': Session)
    requires WellTyped(s.dev) && t == DevSwitch(judge, s, now) && s.budget > 0 && WrongCrc(q)
    requires s.toHost == [Ack()] && t.toHost == [Ack(), Res()]
    ensures s' == NoisyDevSwitch(judge, s, now, Damaged(q)) && s' == t.(toHost := [Ack(), q], budget := s.budget - 1)
  {
    var c := Switch(judge, s.dev, now);
    assert t.toHost == s.toHost + NewlySent(s.dev.link.sent, c.link.sent);
    assert |NewlySent(s.dev.link.sent, c.link.sent)| == 1;
    s' := NoisyDevSwitch(judge, s, now, Damaged(q));
  }

  lemma AnswerHit(st: Setting, start: Session, steps: seq<NoisyStep>, s: Session, t: Session, q: Packet, now: nat)
    returns (longer: seq<NoisyStep>, s': Session)
    requires Reached(st, start, steps, s) && t == DevSwitch(st.judge, s, now) && WellFormedSession(t, st.image)
    requires s.toHost == [Ack()] && t.toHost == [Ack(), Res()] && s.budget > 0 && WrongCrc(q)
    ensures Reached(st, start, longer, s') && s' == t.(toHost := [Ack(), q], budget := s.budget - 1)
  {
    s' := SwitchHit(st.judge, s, t, q, now);
    longer := steps + [Switches(now, Damaged(q))];
    Extend(st, start, steps, s, Switches(now, Damaged(q)), s');
  }

  lemma MainFails(h: Host, image: seq<bv8>)
    requires |image| < TWO_32 && h.packets == [IdRequest()] && h.place == AwaitUpdateResponse
    ensures Advance(h, image) == h.(packets := [], place := Failed)
  {}

  lemma ThenMainFails(st: Setting, start: Session, steps: seq<NoisyStep>, s: Session)
    returns (longer: seq<NoisyStep>, s': Session)
    requires Reached(st, start, steps, s) && s.host.packets == [IdRequest()] && s.host.place == AwaitUpdateResponse
    ensures Reached(st, start, longer, s') && s'.host.place == Failed && s'.dev == s.dev && s'.budget == s.budget
  {
    MainFails(s.host, st.image);
    QuietHostMain(s, st.image, Clean, Advance(s.host, st.image));
    s' := HostMain(s, st.image, Clean);
    longer := steps + [MainRuns(Clean)];
    Extend(st, start, steps, s, MainRuns(Clean), s');
  }

  // The updater asks for a retransmission, but meanwhile gets the next question, which it did not expect.
  lemma UpdaterFails(st: Setting, start: Session, steps: seq<NoisyStep>, s: Session, q: Packet)
    returns (longer: seq<NoisyStep>, s': Session)
    requires Reached(st, start, steps, s) && s.toHost == [Ack(), q, IdRequest()] && WrongCrc(q)
    requires s.host.packets == [] && s.host.place == AwaitUpdateResponse
    ensures Reached(st, start, longer, s') && s'.host.place == Failed && s'.dev == s.dev && s'.budget == s.budget
  {
    QuestionsArePlain();
    var steps1, s1 := ThenHostNotesAck(st, start, steps, s);
    var steps2, s2 := ThenHostAsksAgain(st, start, steps1, s1);
    var steps3, s3 := ThenHostQueues(st, start, steps2, s2, Clean);
    longer, s' := ThenMainFails(st, start, steps3, s3);
  }

  lemma TakenAwaits(st: Setting, x: Exchange, y: Exchange, s: Session, t: Session)
    requires Fits(st) && AnswerCount(st.image) >= 4 && Regular(x) && Regular(y) && y.questions == [Res(), IdRequest()]
    requires At(st, x, s, 0, Arrived(false)) && At(st, y, t, 1, Asking(false, 1, 0, 0, 0))
    ensures s.toHost == [Ack()] && t.toHost == [Ack(), Res()]
    ensures DeviceAt(st.before, st.image, t.dev, 1, DeviceIdReq) && t.dev.link.queue == []
    ensures t.host.packets == [] && t.host.place == AwaitUpdateResponse
  {
    var v := AtWires(st, x, s, 0, Arrived(false));
    WiresArrived(x, v);
    var w := AtWires(st, y, t, 1, Asking(false, 1, 0, 0, 0));
    WiresOneQuestion(y, w);
  }

  lemma ThenIdAskedLate(st: Setting, start: Session, steps: seq<NoisyStep>, s: Session, now: nat)
    returns (longer: seq<NoisyStep>, s': Session)
    requires Fits(st) && Reached(st, start, steps, s) && DeviceAt(st.before, st.image, s.dev, 1, DeviceIdReq)
    requires s.dev.link.queue == []
    ensures Reached(st, start, longer, s') && DeviceAt(st.before, st.image, s'.dev, 1, DeviceIdRes)
    ensures s' == s.(dev := s'.dev, toHost := s.toHost + [IdRequest()])
  {
    AskForDeviceId(st.judge, st.before, st.image, s.dev, now);
    longer, s' := ThenDeviceSwitches(st, start, steps, s, now, [IdRequest()]);
  }

  lemma RequestTakenHit(st: Setting, start: Session, steps: seq<NoisyStep>, x: Exchange, y: Exchange, s: Session,
                    q: Packet, now: nat)
    returns (longer: seq<NoisyStep>, s': Session)
    requires Fits(st) && Reached(st, start, steps, s) && At(st, x, s, 0, Arrived(false))
    requires AnswerCount(st.image) >= 4 && FollowedBy(st, x, y, 0) && |FirstQuestions(st, 1)| == 1
    requires TakenForWhatItIs(st.image, 0) && FoundInOrder(st, 1) && s.budget > 0 && WrongCrc(q)
    requires Regular(x) && Regular(y) && y.questions == [Res(), IdRequest()]
    ensures Reached(st, start, longer, s') && s'.budget == s.budget - 1
    ensures DeviceAt(st.before, st.image, s'.dev, 1, DeviceIdReq) && s'.dev.link.queue == [] && s'.toHost == [Ack(), q]
    ensures s'.host.packets == [] && s'.host.place == AwaitUpdateResponse
  {
    var t := RequestTaken(st, x, y, s, now);
    TakenAwaits(st, x, y, s, t);
    AtIsWellFormed(st, y, t, 1, Asking(false, 1, 0, 0, 0));
    longer, s' := AnswerHit(st, start, steps, s, t, q, now);
  }

  lemma FailsAfterHit(st: Setting, start: Session, steps: seq<NoisyStep>, s: Session, q: Packet, now: nat)
    returns (longer: seq<NoisyStep>, s': Session)
    requires Fits(st) && Reached(st, start, steps, s) && DeviceAt(st.before, st.image, s.dev, 1, DeviceIdReq)
    requires s.dev.link.queue == [] && s.toHost == [Ack(), q] && WrongCrc(q)
    requires s.host.packets == [] && s.host.place == AwaitUpdateResponse
    ensures Reached(st, start, longer, s') && s'.budget == s.budget
    ensures s'.host.place == Failed && DeviceAt(st.before, st.image, s'.dev, 1, DeviceIdRes)
  {
    var steps1, s1 := ThenIdAskedLate(st, start, steps, s, now);
    longer, s' := UpdaterFails(st, start, steps1, s1, q);
  }

  // For every image there is a run in which one damaged frame of the device makes the updater give up while
  // the device still waits for the device id.
  lemma DamagedAnswerEndsUpdate(st: Setting, dev: Boot, host: Host, budget: nat, q: Packet, now: nat)
    returns (steps: seq<NoisyStep>, s: Session)
    requires Ready(st, dev, host) && budget > 0 && WrongCrc(q)
    ensures s == NoisyRun(st, Begun(dev, host, budget, Clean), steps) && s.budget == budget - 1
    ensures s.host.place == Failed && DeviceAt(st.before, st.image, s.dev, 1, DeviceIdRes)
  {
    var start := Begun(dev, host, budget, Clean);
    var x, y := FirstExchanges(st);
    var steps1, s1 := RequestArrives(st, x, dev, host, budget);
    var steps2, s2 := RequestTakenHit(st, start, steps1, x, y, s1, q, now);
    steps, s := FailsAfterHit(st, start, steps2, s2, q, now);
  }
}
