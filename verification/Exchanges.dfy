// One exchange of a session, seen on its wires alone: the device's questions to the host, and the host's
// answer to the device. The packets are parameters, so that nothing here depends on what they say.
module Exchanges {
  import opened Packets

  // The answer that is due, the questions that ask for it, and the two control packets.
  datatype Exchange = Exchange(answer: Packet, questions: seq<Packet>, ack: Packet, retx: Packet)

  datatype Stretch =
    | Outstanding(ahead: nat, damaged: bool) // the answer is under way, behind some acknowledgements
    | Requested                             // the device has asked for it again
    | Arrived(known: bool)                  // the device has queued it; `known`: the host has its acknowledgement
    | Asking(acked: bool, sent: nat, handled: nat, taken: nat, acks: nat)
      // so many of the questions have been sent, handled by the host's receive handler, and taken by its main

  // The device's queue, the host's queue, and the frames under way in each direction.
  datatype Wires = Wires(queue: seq<Packet>, packets: seq<Packet>, toDev: seq<Packet>, toHost: seq<Packet>)

  predicate WrongCrc(q: Packet) { Sized(q) && q.crc != PacketCrc(q) }

  function Repeat(p: Packet, k: nat): (ps: seq<Packet>)
    ensures |ps| == k
  {
    seq(k, _ => p)
  }

  // At most two acknowledgements and one answer are under way to the device, at most one packet waits there.
  predicate WiresAt(x: Exchange, w: Wires, ph: Stretch) {
    match ph
    case Outstanding(ahead, damaged) =>
      && w.queue == [] && w.packets == [] && w.toHost == []
      && ahead <= 2 && |w.toDev| == ahead + 1 && w.toDev[..ahead] == Repeat(x.ack, ahead)
      && (if damaged then WrongCrc(w.toDev[ahead]) else w.toDev[ahead] == x.answer)
    case Requested =>
      w.queue == [] && w.packets == [] && w.toDev == [] && w.toHost == [x.retx]
    case Arrived(known) =>
      w.queue == [x.answer] && w.packets == [] && w.toDev == [] && w.toHost == (if known then [] else [x.ack])
    case Asking(acked, sent, handled, taken, acks) =>
      && taken <= handled <= sent <= |x.questions| <= 2 && acks <= handled && (handled > 0 ==> acked)
      && w.queue == [] && w.packets == x.questions[taken..handled]
      && w.toDev == Repeat(x.ack, acks)
      && w.toHost == (if acked then [] else [x.ack]) + x.questions[handled..sent]
  }

  // How far it is to the end of the exchange.
  function Effort(x: Exchange, ph: Stretch): int {
    match ph
    case Outstanding(ahead, damaged) => 20 + ahead + (if damaged then 6 else 0)
    case Requested => 24
    case Arrived(known) => if known then 17 else 18
    case Asking(acked, sent, handled, taken, acks) =>
      28 + (|x.questions| - sent) + 4 * (|x.questions| - handled) + 2 * (|x.questions| - taken) + acks + (if acked then 0 else 1)
  }

  lemma EffortBounds(x: Exchange, w: Wires, ph: Stretch)
    requires WiresAt(x, w, ph)
    ensures 17 <= Effort(x, ph) && (ph.Asking? ==> 28 <= Effort(x, ph) <= 45)
  {}

  // ----- The device handles the first frame -----

  lemma DeviceGetsAck(x: Exchange, w: Wires, ph: Stretch) returns (ph': Stretch)
    requires WiresAt(x, w, ph) && ph.Outstanding? && ph.ahead > 0
    ensures w.toDev[0] == x.ack && ph' == Outstanding(ph.ahead - 1, ph.damaged)
    ensures WiresAt(x, w.(toDev := w.toDev[1..]), ph') && Effort(x, ph') < Effort(x, ph)
  {
    assert w.toDev[0] == w.toDev[..ph.ahead][0];
    assert w.toDev[1..][..ph.ahead - 1] == w.toDev[..ph.ahead][1..];
    ph' := Outstanding(ph.ahead - 1, ph.damaged);
  }

  lemma DeviceGetsAckEarly(x: Exchange, w: Wires, ph: Stretch) returns (ph': Stretch)
    requires WiresAt(x, w, ph) && ph.Asking? && ph.acks > 0
    ensures w.toDev != [] && w.toDev[0] == x.ack && ph' == ph.(acks := ph.acks - 1)
    ensures WiresAt(x, w.(toDev := w.toDev[1..]), ph') && Effort(x, ph') < Effort(x, ph)
  {
    ph' := ph.(acks := ph.acks - 1);
  }

  lemma DeviceGetsDamaged(x: Exchange, w: Wires, ph: Stretch)
    requires WiresAt(x, w, ph) && ph == Outstanding(0, true)
    ensures WrongCrc(w.toDev[0])
    ensures WiresAt(x, w.(toDev := w.toDev[1..], toHost := w.toHost + [x.retx]), Requested)
    ensures Effort(x, Requested) < Effort(x, ph)
  {}

  lemma DeviceGetsAnswer(x: Exchange, w: Wires, ph: Stretch)
    requires WiresAt(x, w, ph) && ph == Outstanding(0, false)
    ensures w.toDev[0] == x.answer
    ensures WiresAt(x, w.(queue := [x.answer], toDev := w.toDev[1..], toHost := w.toHost + [x.ack]), Arrived(false))
    ensures Effort(x, Arrived(false)) < Effort(x, ph)
  {}

  // ----- The device goes through its switch statement -----

  // It takes the answer, and sends the first of the questions that follow.
  lemma DeviceTakesAnswer(x: Exchange, w: Wires, ph: Stretch, y: Exchange, first: nat) returns (ph': Stretch)
    requires WiresAt(x, w, ph) && ph.Arrived? && y.ack == x.ack && first <= |y.questions| <= 2
    ensures ph' == Asking(ph.known, first, 0, 0, 0)
    ensures WiresAt(y, w.(queue := [], toHost := w.toHost + y.questions[..first]), ph')
    ensures Effort(y, ph') - 40 < Effort(x, ph)
  {
    ph' := Asking(ph.known, first, 0, 0, 0);
  }

  lemma DeviceAsks(x: Exchange, w: Wires, ph: Stretch) returns (ph': Stretch)
    requires WiresAt(x, w, ph) && ph.Asking? && ph.sent < |x.questions|
    ensures ph' == ph.(sent := ph.sent + 1)
    ensures WiresAt(x, w.(toHost := w.toHost + [x.questions[ph.sent]]), ph') && Effort(x, ph') < Effort(x, ph)
  {
    ph' := ph.(sent := ph.sent + 1);
    assert x.questions[ph.handled..ph.sent] + [x.questions[ph.sent]] == x.questions[ph.handled..ph.sent + 1];
  }

  // ----- The host handles the first frame -----

  // On a request for retransmission it sends the answer again; budget is what damage costs.
  lemma HostGetsRetx(x: Exchange, w: Wires, ph: Stretch, sent: Packet)
    requires WiresAt(x, w, ph) && ph == Requested && (sent == x.answer || WrongCrc(sent))
    ensures w.toHost[0] == x.retx
    ensures WiresAt(x, w.(toHost := w.toHost[1..], toDev := w.toDev + [sent]), Outstanding(0, sent != x.answer))
    ensures Effort(x, Outstanding(0, sent != x.answer)) - (if sent != x.answer then 10 else 0) < Effort(x, ph)
  {}

  lemma HostGetsAck(x: Exchange, w: Wires, ph: Stretch)
    requires WiresAt(x, w, ph) && ph == Arrived(false)
    ensures w.toHost != [] && w.toHost[0] == x.ack
    ensures WiresAt(x, w.(toHost := w.toHost[1..]), Arrived(true)) && Effort(x, Arrived(true)) < Effort(x, ph)
  {}

  lemma HostGetsAckLate(x: Exchange, w: Wires, ph: Stretch) returns (ph': Stretch)
    requires WiresAt(x, w, ph) && ph.Asking? && !ph.acked
    ensures w.toHost != [] && w.toHost[0] == x.ack && ph' == ph.(acked := true)
    ensures WiresAt(x, w.(toHost := w.toHost[1..]), ph') && Effort(x, ph') < Effort(x, ph)
  {
    ph' := ph.(acked := true);
  }

  lemma HostGetsQuestion(x: Exchange, w: Wires, ph: Stretch) returns (ph': Stretch)
    requires WiresAt(x, w, ph) && ph.Asking? && ph.acked && ph.handled < ph.sent
    ensures w.toHost != [] && w.toHost[0] == x.questions[ph.handled]
    ensures ph' == ph.(handled := ph.handled + 1, acks := ph.acks + 1)
    ensures WiresAt(x, w.(toHost := w.toHost[1..], packets := w.packets + [w.toHost[0]], toDev := w.toDev + [x.ack]), ph')
    ensures Effort(x, ph') < Effort(x, ph)
  {
    ph' := ph.(handled := ph.handled + 1, acks := ph.acks + 1);
    AskingIs(x, w, ph);
    SliceGrows(x.questions, ph.taken, ph.handled);
    SliceShrinks(x.questions, ph.handled, ph.sent);
    RepeatGrows(x.ack, ph.acks);
    AskingFrom(x, w.(toHost := w.toHost[1..], packets := w.packets + [w.toHost[0]], toDev := w.toDev + [x.ack]), ph');
  }

  // The wires while the host has its acknowledgement.
  lemma AskingIs(x: Exchange, w: Wires, ph: Stretch)
    requires WiresAt(x, w, ph) && ph.Asking? && ph.acked
    ensures ph.taken <= ph.handled <= ph.sent <= |x.questions| <= 2 && ph.acks <= ph.handled && w.queue == []
    ensures w.packets == x.questions[ph.taken..ph.handled] && w.toDev == Repeat(x.ack, ph.acks)
    ensures w.toHost == x.questions[ph.handled..ph.sent]
  {}

  lemma AskingFrom(x: Exchange, w: Wires, ph: Stretch)
    requires ph.Asking? && ph.acked
    requires ph.taken <= ph.handled <= ph.sent <= |x.questions| <= 2 && ph.acks <= ph.handled && w.queue == []
    requires w.packets == x.questions[ph.taken..ph.handled] && w.toDev == Repeat(x.ack, ph.acks)
    requires w.toHost == x.questions[ph.handled..ph.sent]
    ensures WiresAt(x, w, ph)
  {}

  lemma SliceGrows(ps: seq<Packet>, a: nat, b: nat)
    requires a <= b < |ps|
    ensures ps[a..b] + [ps[b]] == ps[a..b + 1]
  {}

  lemma SliceShrinks(ps: seq<Packet>, a: nat, b: nat)
    requires a < b <= |ps|
    ensures ps[a..b][0] == ps[a] && ps[a..b][1..] == ps[a + 1..b]
  {}

  lemma RepeatGrows(p: Packet, k: nat)
    ensures Repeat(p, k) + [p] == Repeat(p, k + 1)
  {}

  lemma NothingForHost(x: Exchange, w: Wires, ph: Stretch)
    requires WiresAt(x, w, ph) && ph != Requested && ph != Arrived(false)
    requires ph.Asking? ==> ph.acked && ph.handled == ph.sent
    ensures w.toHost == []
  {}

  // ----- main is woken -----

  // It takes a question that it does not answer.
  lemma HostTakesQuestion(x: Exchange, w: Wires, ph: Stretch) returns (ph': Stretch)
    requires WiresAt(x, w, ph) && ph.Asking? && ph.taken < ph.handled
    ensures w.packets != [] && w.packets[0] == x.questions[ph.taken]
    ensures ph' == ph.(taken := ph.taken + 1)
    ensures WiresAt(x, w.(packets := w.packets[1..]), ph') && Effort(x, ph') < Effort(x, ph)
  {
    ph' := ph.(taken := ph.taken + 1);
  }

  // It takes the last question and answers.
  lemma HostAnswers(x: Exchange, w: Wires, ph: Stretch, sent: Packet) returns (ph': Stretch)
    requires WiresAt(x, w, ph) && ph.Asking? && ph.taken < ph.handled && ph.taken == |x.questions| - 1
    requires sent == x.answer || WrongCrc(sent)
    ensures w.packets == [x.questions[ph.taken]]
    ensures ph' == Outstanding(ph.acks, sent != x.answer)
    ensures WiresAt(x, w.(packets := [], toDev := w.toDev + [sent]), ph')
    ensures Effort(x, ph') - (if sent != x.answer then 10 else 0) < Effort(x, ph)
  {
    ph' := Outstanding(ph.acks, sent != x.answer);
    assert (w.toDev + [sent])[..ph.acks] == w.toDev;
  }
}
