// Where a session can be: which answer is due, where the device and main are, and what is on the wires.
module SessionPhases {
  import opened Packets
  import opened Framing
  import opened LittleEndian
  import Image
  import opened Host
  import opened UpdateMachine
  import opened Transfer
  import opened TransferDevice
  import opened Exchanges
  import opened FrameSession

  // The device's judgement and its flash before the update, and the image to be transferred.
  datatype Setting = Setting(judge: Judge, before: seq<bv8>, image: seq<bv8>)

  predicate Fits(st: Setting) { |st.before| == APP_FLASH_SIZE && 0 < |st.image| < TWO_32 }

  // The flash with the image in it, if it fits.
  function FinalFlash(image: seq<bv8>): seq<bv8> {
    if |image| <= APP_FLASH_SIZE then image + seq(APP_FLASH_SIZE - |image|, _ => 0xff) else []
  }

  function FinalVerdict(st: Setting): Verdict { st.judge(FinalFlash(st.image)) }

  // The exchange about answer n. After the last answer none is due, and the device reports.
  function ExchangeOf(st: Setting, n: nat): Exchange
    requires Fits(st)
  {
    Exchange(if n < AnswerCount(st.image) then Answer(st.image, n) else Nack(),
             Questions(st.image, n, FinalVerdict(st)), Ack(), Retx())
  }

  // How many questions there are about answer n, and how many of them the device sends in the turn in
  // which it takes the answer before.
  function QuestionCount(st: Setting, n: nat): nat
    requires Fits(st)
  {
    |Questions(st.image, n, FinalVerdict(st))|
  }

  function FirstSent(n: nat, questions: nat): nat { if n == 1 then 1 else if n <= 3 then 0 else questions }

  function AskMode(n: nat, sent: nat): Mode {
    if n == 1 && sent <= 1 then DeviceIdReq
    else if n == 2 && sent == 0 then FwLengthReq
    else if n == 3 && sent == 0 then EraseApplication
    else WaitMode(n)
  }

  function ModeIn(n: nat, ph: Stretch): Mode { if ph.Asking? then AskMode(n, ph.sent) else WaitMode(n) }

  ghost predicate DeviceStage(st: Setting, d: Boot, n: nat, ph: Stretch)
    requires Fits(st)
  {
    if n == AnswerCount(st.image) then DeviceFinished(st.judge, st.before, st.image, d)
    else DeviceAt(st.before, st.image, d, n, ModeIn(n, ph))
  }

  // Where main rests after it has taken so many questions about answer n.
  function AskPlace(st: Setting, n: nat, taken: nat): Place
    requires Fits(st) && n >= 1
  {
    if n == 1 && taken == 1 then AwaitDeviceIdRequest
    else if n == AnswerCount(st.image) && taken == 1 then (if FinalVerdict(st) == Genuine then Succeeded else Failed)
    else PlaceAfter(st.image, n - 1)
  }

  predicate HostStage(st: Setting, x: Exchange, h: Host, n: nat, ph: Stretch)
    requires Fits(st)
  {
    && ValidHost(h) && h.rx == []
    && if ph.Asking? then n >= 1 && h.place == AskPlace(st, n, ph.taken)
       else h.last == x.answer && h.place == PlaceAfter(st.image, n)
  }

  // What the device has found in order by the time that answer n is due.
  predicate FoundInOrder(st: Setting, n: nat)
    requires Fits(st)
  {
    && (n >= 2 ==> DeviceIdByte(st.image) == DEVICE_ID_BYTE)
    && (n >= 3 ==> |st.image| <= Image.MAX_FW_LENGTH)
    && (n == AnswerCount(st.image) ==> Transferable(st.image))
  }

  // Which stretches occur in exchange n. An answer that looks like a control packet is never outstanding.
  predicate Occurs(st: Setting, x: Exchange, n: nat, ph: Stretch)
    requires Fits(st)
  {
    && n <= AnswerCount(st.image) && FoundInOrder(st, n)
    && (n == AnswerCount(st.image) ==> ph.Asking?)
    && (!ph.Asking? ==> Plain(x.answer))
    && (ph.Asking? ==>
          && n >= 1 && FirstSent(n, |x.questions|) <= ph.sent
          && (n < AnswerCount(st.image) ==> ph.taken < |x.questions|))
  }

  function WiresOf(s: Session): Wires { Wires(s.dev.link.queue, s.host.packets, s.toDev, s.toHost) }

  // The session s is in stretch ph of exchange x, the one about answer n.
  ghost predicate At(st: Setting, x: Exchange, s: Session, n: nat, ph: Stretch)
    requires Fits(st)
  {
    && Occurs(st, x, n, ph) && AtRest(s.dev.link)
    && DeviceStage(st, s.dev, n, ph) && HostStage(st, x, s.host, n, ph) && WiresAt(x, WiresOf(s), ph)
  }

  // How far it is to the end.
  function Distance(st: Setting, x: Exchange, s: Session, n: nat, ph: Stretch): int
    requires Fits(st)
  {
    40 * (AnswerCount(st.image) - n) + 10 * s.budget + Effort(x, ph)
  }

  // ----- What the packets of an exchange are -----

  predicate Plain(p: Packet) { WellFormed(p) && !IsControl(p) }

  predicate AllPlain(ps: seq<Packet>) { forall i :: 0 <= i < |ps| ==> Plain(ps[i]) }

  predicate Regular(x: Exchange) { WellFormed(x.answer) && AllPlain(x.questions) && x.ack == Ack() && x.retx == Retx() }

  lemma PlainSingle(b: bv8)
    requires b != PACKET_ACK_DATA0 && b != PACKET_RETX_DATA0
    ensures Plain(Single(b))
  {}

  lemma QuestionsPlain(image: seq<bv8>, n: nat, verdict: Verdict)
    ensures AllPlain(Questions(image, n, verdict)) && |Questions(image, n, verdict)| <= 2
  {}

  lemma ExchangesRegular(st: Setting, n: nat)
    requires Fits(st) && n <= AnswerCount(st.image)
    ensures Regular(ExchangeOf(st, n))
  {
    QuestionsPlain(st.image, n, FinalVerdict(st));
    PlainSingle(BL_PACKET_NACK_DATA0);
  }
}
