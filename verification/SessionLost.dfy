// Sessions about images that cannot be transferred: the device has refused an answer, or it waits for a
// chunk that it has taken for a control packet. Neither ever changes.
module SessionLost {
  import opened Packets
  import opened Link
  import opened Framing
  import opened LittleEndian
  import Image
  import opened Host
  import opened UpdateMachine
  import opened FlashAudit
  import opened UpdateSafety
  import opened UpdateOutcome
  import opened Transfer
  import opened Exchanges
  import opened FrameSession
  import opened SessionSteps
  import opened SessionMain

  // What every step keeps, whatever the image.
  ghost predicate Typed(s: Session, image: seq<bv8>) {
    && WellFormedSession(s, image) && ValidHost(s.host) && s.host.rx == []
    && LogInv(s.dev) && AtRest(s.dev.link) && AllSized(s.toDev) && AllSized(s.toHost)
  }

  // The device does not get as far as the erase, or it refuses a last chunk of one byte.
  predicate HandshakeFails(image: seq<bv8>) { DeviceIdByte(image) != DEVICE_ID_BYTE || |image| > Image.MAX_FW_LENGTH }

  predicate IsDeclined(image: seq<bv8>) { HandshakeFails(image) || |image| % 16 == 1 }

  // What the device has programmed by then.
  function StoredPart(image: seq<bv8>): (part: seq<bv8>)
    ensures part <= image
  {
    if image == [] || HandshakeFails(image) then [] else image[..LastChunkStart(image)]
  }

  predicate LeftAs(log: seq<Event>, image: seq<bv8>) {
    Payload(log) == StoredPart(image) && (HasErased(log) <==> !HandshakeFails(image))
  }

  predicate Expects(place: Place) { place != Succeeded && place != Failed }

  // The refusal is on its way to the host, or main is about to take it, or main has given up.
  predicate HearsNack(h: Host, toHost: seq<Packet>) {
    || (Expects(h.place) && h.packets == [] && (toHost == [Ack(), Nack()] || toHost == [Nack()]))
    || (Expects(h.place) && h.packets == [Nack()] && toHost == [])
    || (h.place == Failed && h.packets == [] && toHost == [])
  }

  // The device has stopped before the image was complete.
  predicate Refused(s: Session) {
    && s.dev.mode == Done && !Complete(s.dev.log) && HearsNack(s.host, s.toHost)
    && s.dev.link.sent != [] && s.dev.link.sent[|s.dev.link.sent| - 1] == Nack()
  }

  // A frame that the device does not queue.
  predicate Harmless(p: Packet) { WrongCrc(p) || (WellFormed(p) && IsControl(p)) }

  predicate AllHarmless(ps: seq<Packet>) { forall i :: 0 <= i < |ps| ==> Harmless(ps[i]) }

  // No report of success anywhere.
  predicate NoSuccessHeard(s: Session) {
    && NoSuccess(s.dev.link) && Success() !in s.toHost && Success() !in s.host.packets && AllWellFormed(s.host.packets)
    && (s.host.place == AwaitResult || s.host.place == Failed)
  }

  // The device waits for a chunk, and the host will send none.
  predicate Stuck(s: Session) {
    && s.dev.mode == ReceiveFw && !s.dev.hung && s.dev.link.queue == [] && AllHarmless(s.toDev)
    && WellFormed(s.host.last) && IsControl(s.host.last) && NoSuccessHeard(s)
  }

  ghost predicate Lost(s: Session, image: seq<bv8>) {
    Typed(s, image) && LeftAs(s.dev.log, image) && if IsDeclined(image) then Refused(s) else Stuck(s)
  }

  // ----- A lost session stays lost -----

  lemma ControlsHarmless()
    ensures Harmless(Ack()) && Harmless(Retx())
  {}

  lemma LinkGetsHarmless(l: Link, p: Packet)
    requires AtRest(l) && l.queue == [] && Harmless(p)
    ensures var l' := HandlePacket(Completed(l, p)); AtRest(l') && l'.queue == [] && l.sent <= l'.sent
  {
    if WrongCrc(p) {
      LinkGetsDamaged(l, p);
    } else {
      HandleWellFormed(l, p);
    }
  }

  lemma NewlySentIn(before: seq<Packet>, after: seq<Packet>)
    requires AllSized(after)
    ensures AllSized(NewlySent(before, after)) && (Success() !in after ==> Success() !in NewlySent(before, after))
  {}

  lemma StuckDevFrame(s: Session, image: seq<bv8>)
    requires Lost(s, image) && !IsDeclined(image)
    ensures Lost(DevFrame(s), image)
  {
    if s.toDev != [] && Running(s.dev) {
      var l' := HandlePacket(Completed(s.dev.link, s.toDev[0]));
      LinkGetsHarmless(s.dev.link, s.toDev[0]);
      HandleNoSuccess(Completed(s.dev.link, s.toDev[0]));
      NewlySentIn(s.dev.link.sent, l'.sent);
      SamePlaceLogInv(s.dev, s.dev.(link := l'));
    }
  }

  lemma LostDevFrame(s: Session, image: seq<bv8>)
    requires Lost(s, image)
    ensures Lost(DevFrame(s), image)
  {
    if !IsDeclined(image) {
      StuckDevFrame(s, image);
    }
  }

  lemma LostDevSwitch(judge: Judge, s: Session, image: seq<bv8>, now: nat)
    requires Lost(s, image)
    ensures Lost(DevSwitch(judge, s, now), image)
  {
    if !IsDeclined(image) {
      IdleSwitch(judge, s, now);
    }
  }

  // ----- The host hears of a refusal -----

  lemma NackIsPlain()
    ensures WellFormed(Nack()) && !IsControl(Nack()) && Nack().length == 1 && Nack().data[0] == BL_PACKET_NACK_DATA0
  {}

  lemma HeardFrame(s: Session, noise: Noise) returns (s': Session)
    requires s.toHost != [] && HearsNack(s.host, s.toHost) && ValidHost(s.host) && s.host.rx == []
    ensures s' == HostFrame(s, noise) && s'.dev == s.dev && HearsNack(s'.host, s'.toHost)
    ensures ValidHost(s'.host) && s'.host.rx == [] && s'.host.place == s.host.place
    ensures AllSized(s.toDev) ==> AllSized(s'.toDev)
    ensures AllSized(s'.toHost)
  {
    NackIsPlain();
    s' := HostFrame(s, noise);
    if s.toHost[0] == Ack() {
      HostGetsAckFrame(s.host);
      QuietHostFrame(s, noise, s.host);
    } else {
      HandleFrameValid(s.host, Nack());
      ReplyWithAck(s, noise, Write(s.host.(packets := s.host.packets + [Nack()]), Ack()));
    }
  }

  lemma RefusedStays(s: Session, image: seq<bv8>, s': Session)
    requires Lost(s, image) && IsDeclined(image) && s'.dev == s.dev && HearsNack(s'.host, s'.toHost)
    requires ValidHost(s'.host) && s'.host.rx == [] && s'.host.place == s.host.place && AllSized(s'.toDev) && AllSized(s'.toHost)
    ensures Lost(s', image)
  {}

  lemma RefusedHostFrame(s: Session, image: seq<bv8>, noise: Noise)
    requires Lost(s, image) && IsDeclined(image)
    ensures Lost(HostFrame(s, noise), image)
  {
    if s.toHost != [] {
      var s' := HeardFrame(s, noise);
      RefusedStays(s, image, s');
    }
  }

  // main gives up on a NACK wherever it waits.
  lemma MainHearsNack(h: Host, image: seq<bv8>)
    requires |image| < TWO_32 && PlaceInImage(h, image) && Expects(h.place) && h.packets == [Nack()]
    ensures Advance(h, image) == h.(packets := [], place := Failed)
  {
    NackIsPlain();
    if h.place == AwaitResult {
      MainSucceedsExactlyWhen(h, image);
    } else {
      MainFailsExactlyWhen(h, image);
    }
  }

  lemma RefusedHostMain(s: Session, image: seq<bv8>, noise: Noise)
    requires Lost(s, image) && IsDeclined(image)
    ensures Lost(HostMain(s, image, noise), image)
  {
    if s.host.packets == [Nack()] {
      MainHearsNack(s.host, image);
      QuietHostMain(s, image, noise, s.host.(packets := [], place := Failed));
    } else {
      QuietHostMain(s, image, noise, s.host);
    }
  }

  // ----- The host of a stuck session -----

  // What the handler of a host writes: a control packet, or what it wrote last.
  lemma HandlerWrites(h: Host, p: Packet)
    requires ValidHost(h) && Sized(p) && AllWellFormed(h.packets) && Success() !in h.packets && p != Success()
    ensures var h' := HandleFrame(h, p);
      && ValidHost(h') && h'.rx == h.rx && h'.place == h.place && AllWellFormed(h'.packets) && Success() !in h'.packets
      && (h' == h || exists q :: (q == h.last || q == Ack() || q == Retx()) && h'.written == h.written + [q] && h'.last == q)
  {}

  lemma StuckReply(s: Session, image: seq<bv8>, noise: Noise, host: Host, q: Packet, s': Session)
    requires Lost(s, image) && !IsDeclined(image) && s.toHost != []
    requires ValidHost(host) && host.rx == [] && host.place == s.host.place && host.last == q
    requires AllWellFormed(host.packets) && Success() !in host.packets && Harmless(q) && IsControl(q) && WellFormed(q)
    requires s' == s.(host := host, toHost := s.toHost[1..], toDev := s.toDev + [q])
    ensures Lost(s', image)
  {}

  lemma StuckHostFrame(s: Session, image: seq<bv8>, noise: Noise)
    requires Lost(s, image) && !IsDeclined(image)
    ensures Lost(HostFrame(s, noise), image)
  {
    if s.toHost != [] {
      var h' := HandleFrame(s.host, s.toHost[0]);
      HandlerWrites(s.host, s.toHost[0]);
      if h' == s.host {
        QuietHostFrame(s, noise, h');
      } else {
        ControlsHarmless();
        ReplyingHostFrame(s, noise, h', h'.last);
        StuckReply(s, image, noise, h', h'.last, HostFrame(s, noise));
      }
    }
  }

  // A packet that is not UPDATE_SUCCESSFUL makes main give up.
  lemma OtherThanSuccess(p: Packet)
    requires WellFormed(p) && p != Success()
    ensures p.length != 1 || p.data != Fill([BL_PACKET_UPDATE_SUCCESSFUL_DATA0])
  {}

  lemma StuckMain(h: Host, image: seq<bv8>)
    requires |image| < TWO_32 && ValidHost(h) && AllWellFormed(h.packets) && Success() !in h.packets
    requires h.place == AwaitResult || h.place == Failed
    ensures var h' := Advance(h, image);
      h' == h || (h.packets != [] && h' == h.(packets := h.packets[1..], place := Failed))
  {
    if h.place == AwaitResult && h.packets != [] {
      MainSucceedsExactlyWhen(h, image);
      OtherThanSuccess(h.packets[0]);
    }
  }

  lemma StuckHostMain(s: Session, image: seq<bv8>, noise: Noise)
    requires Lost(s, image) && !IsDeclined(image)
    ensures Lost(HostMain(s, image, noise), image)
  {
    StuckMain(s.host, image);
    QuietHostMain(s, image, noise, Advance(s.host, image));
  }

  // main writes at most one packet.
  lemma MainWrites(h: Host, image: seq<bv8>)
    requires ValidHost(h) && |image| < TWO_32 && PlaceInImage(h, image)
    ensures var h' := Advance(h, image);
      && ValidHost(h') && h'.rx == h.rx && PlaceInImage(h', image)
      && (h'.written == h.written || (Sized(h'.last) && h'.written == h.written + [h'.last]))
  {}

  lemma StepLost(judge: Judge, s: Session, image: seq<bv8>, a: SessionStep)
    requires Lost(s, image)
    ensures Lost(StepOf(judge, image, s, a), image)
  {
    match a
    case DevHandles => LostDevFrame(s, image);
    case DevSwitches(now) => LostDevSwitch(judge, s, image, now);
    case HostHandles(noise) =>
      if IsDeclined(image) {
        RefusedHostFrame(s, image, noise);
      } else {
        StuckHostFrame(s, image, noise);
      }
    case HostWakes(noise) =>
      if IsDeclined(image) {
        RefusedHostMain(s, image, noise);
      } else {
        StuckHostMain(s, image, noise);
      }
  }
}
