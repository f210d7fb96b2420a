// The steps of the updater's main within a session, and all steps together.
module SessionMain {
  import opened Packets
  import opened LittleEndian
  import opened Host
  import opened Transfer
  import opened Exchanges
  import opened FrameSession
  import opened SessionPhases
  import opened SessionSteps

  // ----- What main makes of a question -----

  lemma MainAnswersIdRequest(h: Host, image: seq<bv8>)
    requires |image| < TWO_32 && h.packets != [] && h.packets[0] == IdRequest() && h.place == AwaitDeviceIdRequest
    ensures Advance(h, image) == Write(h.(packets := h.packets[1..]), DeviceIdPacket(image)).(place := AwaitLengthRequest)
  {}

  lemma MainAnswersLengthRequest(h: Host, image: seq<bv8>)
    requires |image| < TWO_32 && h.packets != [] && h.packets[0] == LengthRequest() && h.place == AwaitLengthRequest
    ensures Advance(h, image) == Write(h.(packets := h.packets[1..]), LengthPacket(image)).(place := LoopHead(image, 0))
  {}

  lemma MainSendsChunk(h: Host, image: seq<bv8>, k: nat)
    requires |image| < TWO_32 && k < |image| && h.packets != [] && h.packets[0] == ReadyForData() && h.place == Transferring(k)
    ensures Advance(h, image) ==
      Write(h.(packets := h.packets[1..]), ChunkPacket(image, k)).(place := LoopHead(image, k + ChunkSizeAt(image, k)))
  {}

  // main answers with answer n.
  predicate Answers(st: Setting, h: Host, h': Host, n: nat)
    requires Fits(st) && n < AnswerCount(st.image)
  {
    h.packets != [] && h' == Write(h.(packets := h.packets[1..]), Answer(st.image, n)).(place := PlaceAfter(st.image, n))
  }

  lemma PlaceBeforeChunk(st: Setting, n: nat)
    requires Fits(st) && 3 <= n < AnswerCount(st.image)
    ensures 16 * (n - 3) < |st.image| && PlaceAfter(st.image, n - 1) == Transferring(16 * (n - 3))
    ensures PlaceAfter(st.image, n) == LoopHead(st.image, 16 * (n - 3) + ChunkSizeAt(st.image, 16 * (n - 3)))
  {}

  lemma PlaceAtEnd(st: Setting)
    requires Fits(st)
    ensures AnswerCount(st.image) >= 4 && PlaceAfter(st.image, AnswerCount(st.image) - 1) == AwaitResult
  {}

  // The last question about an answer, in main.
  lemma MainAnswers(st: Setting, h: Host, n: nat, taken: nat)
    requires Fits(st) && 1 <= n < AnswerCount(st.image) && taken + 1 == QuestionCount(st, n)
    requires h.place == AskPlace(st, n, taken) && h.packets != [] && h.packets[0] == Questions(st.image, n, FinalVerdict(st))[taken]
    ensures Answers(st, h, Advance(h, st.image), n)
  {
    if n == 1 {
      MainAnswersIdRequest(h, st.image);
    } else if n == 2 {
      MainAnswersLengthRequest(h, st.image);
    } else {
      PlaceBeforeChunk(st, n);
      MainSendsChunk(h, st.image, 16 * (n - 3));
    }
  }

  // Any other question, and the report.
  lemma MainTakes(st: Setting, h: Host, n: nat, taken: nat)
    requires Fits(st) && 1 <= n <= AnswerCount(st.image) && taken < QuestionCount(st, n)
    requires n < AnswerCount(st.image) ==> taken + 1 < QuestionCount(st, n)
    requires h.place == AskPlace(st, n, taken) && h.packets != [] && h.packets[0] == Questions(st.image, n, FinalVerdict(st))[taken]
    ensures Advance(h, st.image) == h.(packets := h.packets[1..], place := AskPlace(st, n, taken + 1))
  {}

  // ----- main's steps in a session -----

  lemma QuietHostMain(s: Session, image: seq<bv8>, noise: Noise, host: Host)
    requires |image| < TWO_32 && PlaceInImage(s.host, image) && host == Advance(s.host, image) && host.written == s.host.written
    ensures HostMain(s, image, noise) == s.(host := host)
  {
    NewlySentIs(s.host.written, []);
  }

  lemma AnsweringHostMain(s: Session, image: seq<bv8>, noise: Noise, host: Host, p: Packet)
    requires |image| < TWO_32 && PlaceInImage(s.host, image) && host == Advance(s.host, image)
    requires host.written == s.host.written + [p]
    ensures HostMain(s, image, noise) ==
      if Hit(noise, s.budget) then s.(host := host, toDev := s.toDev + [noise.q], budget := s.budget - 1)
      else s.(host := host, toDev := s.toDev + [p])
  {
    NewlySentIs(s.host.written, [p]);
  }

  lemma StagePlaceInImage(st: Setting, x: Exchange, s: Session, n: nat, ph: Stretch)
    requires Fits(st) && HostStage(st, x, s.host, n, ph)
    ensures |st.image| < TWO_32 && PlaceInImage(s.host, st.image)
  {}

  lemma AnsweredStage(st: Setting, x: Exchange, h: Host, h': Host, n: nat, ph: Stretch, ph': Stretch)
    requires Fits(st) && n < AnswerCount(st.image) && HostStage(st, x, h, n, ph) && Answers(st, h, h', n)
    requires x.answer == Answer(st.image, n) && !ph'.Asking?
    ensures HostStage(st, x, h', n, ph')
  {}

  lemma AnswerSent(st: Setting, s: Session, n: nat, taken: nat, noise: Noise) returns (sent: Packet, s': Session)
    requires Fits(st) && 1 <= n < AnswerCount(st.image) && taken + 1 == QuestionCount(st, n) && PlaceInImage(s.host, st.image)
    requires s.host.place == AskPlace(st, n, taken) && s.host.packets != []
    requires s.host.packets[0] == Questions(st.image, n, FinalVerdict(st))[taken]
    ensures sent == Arrives(s, Answer(st.image, n), noise) && s' == HostMain(s, st.image, noise)
    ensures Answers(st, s.host, s'.host, n)
    ensures s' == s.(host := s'.host, toDev := s.toDev + [sent], budget := if Hit(noise, s.budget) then s.budget - 1 else s.budget)
  {
    MainAnswers(st, s.host, n, taken);
    AnsweringHostMain(s, st.image, noise, Advance(s.host, st.image), Answer(st.image, n));
    sent := Arrives(s, Answer(st.image, n), noise);
    s' := HostMain(s, st.image, noise);
  }

  lemma MainStepAnswers(st: Setting, x: Exchange, s: Session, n: nat, ph: Stretch, noise: Noise) returns (ph': Stretch)
    requires Fits(st) && n < AnswerCount(st.image) && At(st, x, s, n, ph) && PlaceInImage(s.host, st.image)
    requires x.answer == Answer(st.image, n) && x.questions == Questions(st.image, n, FinalVerdict(st)) && Plain(x.answer)
    requires ph.Asking? && ph.taken < ph.handled && ph.taken + 1 == |x.questions|
    ensures var s' := HostMain(s, st.image, noise);
      At(st, x, s', n, ph') && Distance(st, x, s', n, ph') < Distance(st, x, s, n, ph)
  {
    TakenIsFirst(x, WiresOf(s), ph);
    var sent, s' := AnswerSent(st, s, n, ph.taken, noise);
    ph' := HostAnswers(x, WiresOf(s), ph, sent);
    AnsweredStage(st, x, s.host, s'.host, n, ph, ph');
    AtAfterAnswer(st, x, s, n, ph, s', ph');
  }

  lemma TakenIsFirst(x: Exchange, w: Wires, ph: Stretch)
    requires WiresAt(x, w, ph) && ph.Asking? && ph.taken < ph.handled
    ensures w.packets != [] && ph.taken < |x.questions| && w.packets[0] == x.questions[ph.taken]
  {}

  lemma AtAfterAnswer(st: Setting, x: Exchange, s: Session, n: nat, ph: Stretch, s': Session, ph': Stretch)
    requires Fits(st) && n < AnswerCount(st.image) && ph.Asking? && ph.sent == |x.questions|
    requires x.questions == Questions(st.image, n, FinalVerdict(st)) && Plain(x.answer)
    requires At(st, x, s, n, ph) && s'.dev == s.dev && ph'.Outstanding?
    requires HostStage(st, x, s'.host, n, ph') && WiresAt(x, WiresOf(s'), ph')
    ensures At(st, x, s', n, ph')
  {
    AllAskedWaits(st, n, ph);
    AtAfterHost(st, x, s, n, ph, s', ph');
  }

  lemma QuestionTaken(st: Setting, s: Session, n: nat, taken: nat, noise: Noise) returns (s': Session)
    requires Fits(st) && 1 <= n <= AnswerCount(st.image) && taken < QuestionCount(st, n) && PlaceInImage(s.host, st.image)
    requires n < AnswerCount(st.image) ==> taken + 1 < QuestionCount(st, n)
    requires s.host.place == AskPlace(st, n, taken) && s.host.packets != []
    requires s.host.packets[0] == Questions(st.image, n, FinalVerdict(st))[taken]
    ensures s' == HostMain(s, st.image, noise)
    ensures s' == s.(host := s.host.(packets := s.host.packets[1..], place := AskPlace(st, n, taken + 1)))
  {
    MainTakes(st, s.host, n, taken);
    QuietHostMain(s, st.image, noise, Advance(s.host, st.image));
    s' := HostMain(s, st.image, noise);
  }

  lemma MainStepTakes(st: Setting, x: Exchange, s: Session, n: nat, ph: Stretch, noise: Noise) returns (ph': Stretch)
    requires Fits(st) && At(st, x, s, n, ph) && PlaceInImage(s.host, st.image) && |st.image| < TWO_32
    requires x.questions == Questions(st.image, n, FinalVerdict(st))
    requires ph.Asking? && ph.taken < ph.handled && (n < AnswerCount(st.image) ==> ph.taken + 1 < |x.questions|)
    ensures var s' := HostMain(s, st.image, noise);
      At(st, x, s', n, ph') && Distance(st, x, s', n, ph') < Distance(st, x, s, n, ph)
  {
    TakenIsFirst(x, WiresOf(s), ph);
    var s' := QuestionTaken(st, s, n, ph.taken, noise);
    ph' := HostTakesQuestion(x, WiresOf(s), ph);
    TakenStage(st, x, s, n, ph, s'.host, ph');
    AtAfterHost(st, x, s, n, ph, s', ph');
  }

  lemma TakenStage(st: Setting, x: Exchange, s: Session, n: nat, ph: Stretch, h': Host, ph': Stretch)
    requires Fits(st) && At(st, x, s, n, ph) && ph.Asking? && s.host.packets != []
    requires n < AnswerCount(st.image) ==> ph.taken + 1 < |x.questions|
    requires ph' == ph.(taken := ph.taken + 1)
    requires h' == s.host.(packets := s.host.packets[1..], place := AskPlace(st, n, ph.taken + 1))
    ensures Occurs(st, x, n, ph') && ModeIn(n, ph') == ModeIn(n, ph) && HostStage(st, x, h', n, ph')
  {}

  lemma NothingForMain(st: Setting, x: Exchange, s: Session, n: nat, ph: Stretch, noise: Noise)
    requires Fits(st) && At(st, x, s, n, ph) && PlaceInImage(s.host, st.image) && |st.image| < TWO_32
    requires ph.Asking? ==> ph.taken == ph.handled
    ensures HostMain(s, st.image, noise) == s
  {
    QuietHostMain(s, st.image, noise, s.host);
  }
}
