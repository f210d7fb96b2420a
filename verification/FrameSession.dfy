// Bootloader and updater together, frame by frame, from the moment at which the updater has seen
// SYNC_OBSERVED and only its acknowledgement is under way. Frames with commands or data may be damaged on the way to the
// device as long as there is budget left; deadlines are not reached.
module FrameSession {
  import opened Packets
  import opened Exchanges
  import opened Link
  import opened Framing
  import opened Host
  import opened UpdateMachine
  import opened LittleEndian

  // Damaged(q): the frame arrives as q, whose CRC is wrong.
  datatype Noise = Clean | Damaged(q: Packet)

  // The frames under way in each direction, oldest first.
  datatype Session = Session(dev: Boot, host: Host, toDev: seq<Packet>, toHost: seq<Packet>, budget: nat)

  // A frame is hit by noise; damage spends the budget.
  predicate Hit(noise: Noise, budget: nat) { noise.Damaged? && WrongCrc(noise.q) && budget > 0 }

  // The host has written the packets: what is under way then. Only single frames are ever written.
  function OnLine(s: Session, host: Host, written: seq<Packet>, mayHit: bool, noise: Noise): Session {
    if mayHit && |written| == 1 && Hit(noise, s.budget)
    then s.(host := host, toDev := s.toDev + [noise.q], budget := s.budget - 1)
    else s.(host := host, toDev := s.toDev + written)
  }

  function NewlySent(before: seq<Packet>, after: seq<Packet>): seq<Packet> {
    if |before| <= |after| then after[|before|..] else []
  }

  // The device has come to a new state: what it sent is under way.
  function DeviceTo(s: Session, dev: Boot): Session {
    s.(dev := dev, toHost := s.toHost + NewlySent(s.dev.link.sent, dev.link.sent))
  }

  // The device parses and handles a whole frame.
  function DevFrame(s: Session): Session {
    if s.toDev == [] || !Running(s.dev) then s
    else DeviceTo(s.(toDev := s.toDev[1..]), s.dev.(link := HandlePacket(Completed(s.dev.link, s.toDev[0]))))
  }

  // The device goes through its switch statement before the deadline.
  function DevSwitch(judge: Judge, s: Session, now: nat): Session
    requires WellTyped(s.dev)
  {
    if !Running(s.dev) || s.dev.mode == Sync || Decide(s.dev, now) == TimeOut then s
    else DeviceTo(s, Switch(judge, s.dev, now))
  }

  // The host handles a whole frame. A retransmission of a command or of data may be hit again.
  function HostFrame(s: Session, noise: Noise): Session {
    if s.toHost == [] then s
    else
      var host := HandleFrame(s.host, s.toHost[0]);
      var written := NewlySent(s.host.written, host.written);
      OnLine(s.(toHost := s.toHost[1..]), host, written, |written| == 1 && !IsControl(written[0]), noise)
  }

  predicate PlaceInImage(h: Host, image: seq<bv8>) { h.place.Transferring? ==> h.place.byteWritten < |image| }

  // main is woken.
  function HostMain(s: Session, image: seq<bv8>, noise: Noise): Session
    requires |image| < TWO_32 && PlaceInImage(s.host, image)
  {
    var host := Advance(s.host, image);
    OnLine(s, host, NewlySent(s.host.written, host.written), true, noise)
  }

  datatype SessionStep = DevHandles | DevSwitches(now: nat) | HostHandles(noise: Noise) | HostWakes(noise: Noise)

  predicate WellFormedSession(s: Session, image: seq<bv8>) {
    |image| < TWO_32 && WellTyped(s.dev) && PlaceInImage(s.host, image)
  }

  function StepOf(judge: Judge, image: seq<bv8>, s: Session, a: SessionStep): Session
    requires WellFormedSession(s, image)
  {
    match a
    case DevHandles => DevFrame(s)
    case DevSwitches(now) => DevSwitch(judge, s, now)
    case HostHandles(noise) => HostFrame(s, noise)
    case HostWakes(noise) => HostMain(s, image, noise)
  }

  // The session at the time when main sends its update request: the receive handler has already acknowledged
  // SYNC_OBSERVED. A device that reads that frame before the request is sent is one that reads it first from here.
  function Begun(dev: Boot, host: Host, budget: nat, noise: Noise): Session {
    var h := Begin(host);
    OnLine(Session(dev, h, [Ack()], [], budget), h, [UpdateRequest()], true, noise)
  }

  // The device once it has observed the sync sequence, and the host after its sync phase.
  predicate Synchronised(dev: Boot, host: Host) {
    && AtRest(dev.link) && dev.link.queue == [] && !dev.hung
    && dev.mode == WaitForFwUpdateReq && dev.log == []
    && host.packets == [] && ValidHost(host)
  }
}
