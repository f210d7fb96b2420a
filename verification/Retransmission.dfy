// What a retransmission is worth, in either direction. A frame arrives damaged, the receiver asks for a
// retransmission, and the sender repeats what it sent last; by then that may be another frame.
module Retransmission {
  import opened Packets
  import opened Link
  import opened Framing
  import opened Host
  import opened UpdateMachine
  import opened Exchanges
  import opened FrameSession
  import opened SessionSteps

  // ----- Which packets should arrive, and which do -----

  // `sent` is what the sender has sent from the damaged frame on, up to the time when it is asked to repeat.
  function LastOf(sent: seq<Packet>): Packet
    requires sent != []
  {
    sent[|sent| - 1]
  }

  // All of the frames but the damaged one, and then the repeated one.
  function Arriving(sent: seq<Packet>): seq<Packet>
    requires sent != []
  {
    sent[1..] + [LastOf(sent)]
  }

  predicate AllAre(ps: seq<Packet>, p: Packet) { forall i :: 0 <= i < |ps| ==> ps[i] == p }

  // A control packet for a control packet; or the lost packet itself, with no other command or data sent since.
  predicate MakesUp(sent: seq<Packet>)
    requires sent != []
  {
    if IsControl(sent[0]) then IsControl(LastOf(sent))
    else !IsControl(LastOf(sent)) && AllAre(DataPackets(sent), sent[0])
  }

  lemma DataOne(p: Packet)
    ensures DataPackets([p]) == if IsControl(p) then [] else [p]
  {
    assert DataPackets([]) == [];
  }

  lemma DataSnoc(ps: seq<Packet>, p: Packet)
    ensures DataPackets(ps + [p]) == DataPackets(ps) + (if IsControl(p) then [] else [p])
  {
    assert (ps + [p])[..|ps|] == ps;
  }

  lemma {:induction false} DataOfConcat(a: seq<Packet>, b: seq<Packet>)
    ensures DataPackets(a + b) == DataPackets(a) + DataPackets(b)
  {
    if b == [] {
      assert a + b == a;
    } else {
      var n := |b| - 1;
      DataOfConcat(a, b[..n]);
      assert a + b == (a + b[..n]) + [b[n]] && b == b[..n] + [b[n]];
      DataSnoc(a + b[..n], b[n]);
      DataSnoc(b[..n], b[n]);
    }
  }

  lemma DataOfSent(sent: seq<Packet>)
    requires sent != []
    ensures DataPackets(sent) == (if IsControl(sent[0]) then [] else [sent[0]]) + DataPackets(sent[1..])
  {
    assert sent == [sent[0]] + sent[1..];
    DataOfConcat([sent[0]], sent[1..]);
    DataOne(sent[0]);
  }

  // Moving the first packet to the end changes nothing only if all are the same.
  lemma {:induction false} RotationsAgree(p: Packet, ps: seq<Packet>, q: Packet)
    ensures [p] + ps == ps + [q] <==> q == p && AllAre(ps, p)
  {
    if q == p && AllAre(ps, p) {
      assert [p] + ps == ps + [q];
    }
    if [p] + ps == ps + [q] {
      if ps == [] {
        assert ([p] + ps)[0] == (ps + [q])[0];
      } else {
        assert ps[0] == (ps + [q])[0] == ([p] + ps)[0];
        assert [p] + ps[1..] == ([p] + ps)[1..] == (ps + [q])[1..] == ps[1..] + [q];
        RotationsAgree(p, ps[1..], q);
        assert forall i :: 1 <= i < |ps| ==> ps[i] == ps[1..][i - 1];
      }
    }
  }

  lemma AllAreWithFirst(ps: seq<Packet>, p: Packet)
    ensures AllAre([p] + ps, p) <==> AllAre(ps, p)
  {
    if AllAre([p] + ps, p) {
      assert forall i :: 0 <= i < |ps| ==> ps[i] == ([p] + ps)[i + 1];
    }
  }

  // The packets arrive once and in order exactly if the repeated frame makes up for the lost one.
  lemma MadeUpExactlyWhen(sent: seq<Packet>)
    requires sent != []
    ensures DataPackets(Arriving(sent)) == DataPackets(sent) <==> MakesUp(sent)
  {
    var rest := DataPackets(sent[1..]);
    DataOfSent(sent);
    DataSnoc(sent[1..], LastOf(sent));
    if IsControl(sent[0]) {
      assert DataPackets(sent) == rest;
      if !IsControl(LastOf(sent)) {
        assert |DataPackets(Arriving(sent))| == |rest| + 1;
      }
    } else if IsControl(LastOf(sent)) {
      assert |DataPackets(sent)| == |rest| + 1 && DataPackets(Arriving(sent)) == rest;
    } else {
      RotationsAgree(sent[0], rest, LastOf(sent));
      AllAreWithFirst(rest, sent[0]);
    }
  }

  // ----- The bootloader as receiver -----

  // The frames of a device that has handled these frames.
  function AfterFrames(l: Link, frames: seq<Packet>): Link {
    if frames == [] then l
    else HandlePacket(Completed(AfterFrames(l, frames[..|frames| - 1]), frames[|frames| - 1]))
  }

  lemma AfterOneMore(l: Link, frames: seq<Packet>, p: Packet)
    ensures AfterFrames(l, frames + [p]) == HandlePacket(Completed(AfterFrames(l, frames), p))
  {
    assert (frames + [p])[..|frames|] == frames;
  }

  lemma {:induction false} AfterFirst(l: Link, p: Packet, frames: seq<Packet>)
    ensures AfterFrames(l, [p] + frames) == AfterFrames(HandlePacket(Completed(l, p)), frames)
  {
    if frames == [] {
      AfterOneMore(l, [], p);
      assert [p] + frames == [] + [p];
    } else {
      var front, last := frames[..|frames| - 1], frames[|frames| - 1];
      AfterFirst(l, p, front);
      assert [p] + frames == ([p] + front) + [last];
      AfterOneMore(l, [p] + front, last);
    }
  }

  // One more well-formed frame.
  lemma HandledOneMore(l: Link, data: seq<Packet>, l1: Link, p: Packet, l2: Link)
    requires AtRest(l1) && l1.queue == l.queue + data && WellFormed(p) && l2 == HandlePacket(Completed(l1, p))
    requires IsControl(p) || |l.queue| + |data| < QUEUE_CAPACITY
    ensures AtRest(l2) && l2.queue == l.queue + (data + (if IsControl(p) then [] else [p]))
  {
    HandleWellFormed(l1, p);
  }

  lemma {:induction false} AfterWellFormed(l: Link, frames: seq<Packet>) returns (l': Link)
    requires AtRest(l) && AllWellFormed(frames) && |l.queue| + |DataPackets(frames)| <= QUEUE_CAPACITY
    ensures l' == AfterFrames(l, frames) && AtRest(l') && l'.queue == l.queue + DataPackets(frames)
  {
    l' := AfterFrames(l, frames);
    if frames != [] {
      var front, last := frames[..|frames| - 1], frames[|frames| - 1];
      assert frames == front + [last];
      DataSnoc(front, last);
      var l1 := AfterWellFormed(l, front);
      HandledOneMore(l, DataPackets(front), l1, last, l');
    }
  }

  lemma AfterDamaged(l: Link, q: Packet, frames: seq<Packet>) returns (l': Link)
    requires AtRest(l) && WrongCrc(q) && AllWellFormed(frames) && |l.queue| + |DataPackets(frames)| <= QUEUE_CAPACITY
    ensures l' == AfterFrames(l, [q] + frames) && l'.queue == l.queue + DataPackets(frames)
  {
    AfterFirst(l, q, frames);
    LinkGetsDamaged(l, q);
    l' := AfterWellFormed(HandlePacket(Completed(l, q)), frames);
  }

  lemma ArrivingWellFormed(sent: seq<Packet>)
    requires sent != [] && AllWellFormed(sent)
    ensures AllWellFormed(Arriving(sent)) && |DataPackets(Arriving(sent))| <= |DataPackets(sent[1..])| + 1
  {
    DataSnoc(sent[1..], LastOf(sent));
  }

  // A frame to the device arrives damaged: everything is queued once and in order if and only if the
  // repeated frame makes up for it.
  lemma DeviceRecoversExactlyWhen(l: Link, q: Packet, sent: seq<Packet>)
    requires AtRest(l) && WrongCrc(q) && sent != [] && AllWellFormed(sent)
    requires |l.queue| + |DataPackets(sent[1..])| < QUEUE_CAPACITY
    ensures AfterFrames(l, [q] + Arriving(sent)).queue == l.queue + DataPackets(sent) <==> MakesUp(sent)
  {
    ArrivingWellFormed(sent);
    var l' := AfterDamaged(l, q, Arriving(sent));
    MadeUpExactlyWhen(sent);
    if l.queue + DataPackets(Arriving(sent)) == l.queue + DataPackets(sent) {
      assert (l.queue + DataPackets(Arriving(sent)))[|l.queue|..] == DataPackets(Arriving(sent));
      assert (l.queue + DataPackets(sent))[|l.queue|..] == DataPackets(sent);
    }
  }

  // ----- The updater as receiver -----

  function HostAfterFrames(h: Host, frames: seq<Packet>): Host {
    if frames == [] then h else HandleFrame(HostAfterFrames(h, frames[..|frames| - 1]), frames[|frames| - 1])
  }

  lemma HostAfterOneMore(h: Host, frames: seq<Packet>, p: Packet)
    ensures HostAfterFrames(h, frames + [p]) == HandleFrame(HostAfterFrames(h, frames), p)
  {
    assert (frames + [p])[..|frames|] == frames;
  }

  lemma HostHandles(h: Host, p: Packet)
    ensures WrongCrc(p) ==> HandleFrame(h, p).packets == h.packets
    ensures WellFormed(p) ==> HandleFrame(h, p).packets == h.packets + (if IsControl(p) then [] else [p])
  {}

  lemma {:induction false} HostAfterFirst(h: Host, p: Packet, frames: seq<Packet>)
    ensures HostAfterFrames(h, [p] + frames) == HostAfterFrames(HandleFrame(h, p), frames)
  {
    if frames == [] {
      HostAfterOneMore(h, [], p);
      assert [p] + frames == [] + [p];
    } else {
      var front, last := frames[..|frames| - 1], frames[|frames| - 1];
      HostAfterFirst(h, p, front);
      assert [p] + frames == ([p] + front) + [last];
      HostAfterOneMore(h, [p] + front, last);
    }
  }

  lemma {:induction false} HostAfterWellFormed(h: Host, frames: seq<Packet>)
    requires AllWellFormed(frames)
    ensures HostAfterFrames(h, frames).packets == h.packets + DataPackets(frames)
  {
    if frames != [] {
      var front, last := frames[..|frames| - 1], frames[|frames| - 1];
      assert frames == front + [last];
      DataSnoc(front, last);
      HostAfterWellFormed(h, front);
      HostHandles(HostAfterFrames(h, front), last);
    }
  }

  lemma HostAfterDamaged(h: Host, q: Packet, frames: seq<Packet>) returns (h': Host)
    requires WrongCrc(q) && AllWellFormed(frames)
    ensures h' == HostAfterFrames(h, [q] + frames) && h'.packets == h.packets + DataPackets(frames)
  {
    HostAfterFirst(h, q, frames);
    HostHandles(h, q);
    HostAfterWellFormed(HandleFrame(h, q), frames);
    h' := HostAfterFrames(h, [q] + frames);
  }

  // The same for a frame to the updater.
  lemma HostRecoversExactlyWhen(h: Host, q: Packet, sent: seq<Packet>)
    requires WrongCrc(q) && sent != [] && AllWellFormed(sent)
    ensures HostAfterFrames(h, [q] + Arriving(sent)).packets == h.packets + DataPackets(sent) <==> MakesUp(sent)
  {
    ArrivingWellFormed(sent);
    var h' := HostAfterDamaged(h, q, Arriving(sent));
    MadeUpExactlyWhen(sent);
    if h.packets + DataPackets(Arriving(sent)) == h.packets + DataPackets(sent) {
      assert (h.packets + DataPackets(Arriving(sent)))[|h.packets|..] == DataPackets(Arriving(sent));
      assert (h.packets + DataPackets(sent))[|h.packets|..] == DataPackets(sent);
    }
  }

  // ----- In a session -----

  // The device has asked for a retransmission and taken in all that was under way. The repeated frame adds a
  // packet to its queue unless the updater's last packet is a control packet.
  lemma RepeatQueuedExactlyWhen(s: Session)
    requires Running(s.dev) && AtRest(s.dev.link) && |s.dev.link.queue| < QUEUE_CAPACITY
    requires s.toDev == [] && s.toHost != [] && s.toHost[0] == Retx() && WellFormed(s.host.last)
    ensures DevFrame(HostFrame(s, Clean)).dev.link.queue == s.dev.link.queue <==> IsControl(s.host.last)
  {
    var h := Write(s.host, s.host.last);
    HostGetsRetxFrame(s.host);
    ReplyingHostFrame(s, Clean, h, s.host.last);
    var t := HostFrame(s, Clean);
    assert t == s.(host := h, toHost := s.toHost[1..], toDev := [s.host.last]);
    HandleWellFormed(s.dev.link, s.host.last);
  }
}
