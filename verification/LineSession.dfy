// Bootloader and updater together, byte by byte: what a session is on the serial line. Each such session
// follows one of FrameSession frame by frame.
module LineSession {
  import opened Packets
  import opened Link
  import opened Framing
  import opened LittleEndian
  import opened Host
  import opened UpdateMachine
  import opened UpdateRuns
  import opened FrameSession

  // The bytes under way in each direction, oldest first; those in the device's byte ring count as under way.
  datatype Line = Line(dev: Boot, host: Host, toDev: seq<bv8>, toHost: seq<bv8>, budget: nat)

  function Encoded(ps: seq<Packet>): seq<bv8> { if AllSized(ps) then WireAll(ps) else [] }

  predicate TypedLine(l: Line, image: seq<bv8>) {
    |image| < TWO_32 && WellTyped(l.dev) && ValidHost(l.host) && PlaceInImage(l.host, image)
  }

  function LineDeviceTo(l: Line, dev: Boot): Line {
    l.(dev := dev, toHost := l.toHost + Encoded(NewlySent(l.dev.link.sent, dev.link.sent)))
  }

  // comms_update consumes one byte.
  function DevByte(l: Line): Line
    requires Valid(l.dev.link)
  {
    if l.toDev == [] || !Running(l.dev) then l
    else LineDeviceTo(l.(toDev := l.toDev[1..]), l.dev.(link := FeedByte(l.dev.link, l.toDev[0])))
  }

  function DevTurn(judge: Judge, l: Line, now: nat): Line
    requires WellTyped(l.dev)
  {
    if !Running(l.dev) || l.dev.mode == Sync || Decide(l.dev, now) == TimeOut then l
    else LineDeviceTo(l, Switch(judge, l.dev, now))
  }

  // The host has written at most one frame; it may be hit.
  function HostTo(l: Line, host: Host, mayHit: bool, noise: Noise): Line {
    var written := NewlySent(l.host.written, host.written);
    if mayHit && |written| == 1 && Hit(noise, l.budget)
    then l.(host := host, toDev := l.toDev + Encoded([noise.q]), budget := l.budget - 1)
    else l.(host := host, toDev := l.toDev + Encoded(written))
  }

  // A 'data' event with one byte; by Host.EventsMerge, larger events come to the same.
  function HostByte(l: Line, noise: Noise): Line
    requires ValidHost(l.host)
  {
    if l.toHost == [] then l
    else
      var host := OnData(l.host, [l.toHost[0]]);
      var written := NewlySent(l.host.written, host.written);
      HostTo(l.(toHost := l.toHost[1..]), host, |written| == 1 && !IsControl(written[0]), noise)
  }

  function HostWake(l: Line, image: seq<bv8>, noise: Noise): Line
    requires |image| < TWO_32 && PlaceInImage(l.host, image)
  {
    HostTo(l, Advance(l.host, image), true, noise)
  }

  datatype LineStep = DevReads | DevTurns(now: nat) | HostReads(noise: Noise) | HostRuns(noise: Noise)

  function LineStepOf(judge: Judge, image: seq<bv8>, l: Line, a: LineStep): Line
    requires TypedLine(l, image)
  {
    match a
    case DevReads => DevByte(l)
    case DevTurns(now) => DevTurn(judge, l, now)
    case HostReads(noise) => HostByte(l, noise)
    case HostRuns(noise) => HostWake(l, image, noise)
  }

  // The line at the time when main sends its update request.
  function LineBegun(dev: Boot, host: Host, budget: nat, noise: Noise): Line {
    var s := Begun(dev, host, budget, noise);
    Line(dev, s.host, Encoded(s.toDev), [], s.budget)
  }

  // ----- Line and frames -----

  // k's queue and transmissions are those of c, its parser state that of l.
  function WithParser(c: Link, l: Link): Link { c.(phase := l.phase, count := l.count, temp := l.temp) }

  ghost predicate LinkRefines(k: Link, l: Link) {
    AtRest(l) && Valid(k) && SameOutcome(l, k) && k == WithParser(l, k)
  }

  // The line carries the frames of s, apart from their first bytes, which the receivers have already.
  ghost predicate Refines(l: Line, s: Session) {
    && LinkRefines(l.dev.link, s.dev.link) && l.dev == s.dev.(link := l.dev.link)
    && s.host.rx == [] && |l.host.rx| < PACKET_TOTAL_LENGTH && l.host == s.host.(rx := l.host.rx)
    && AllSized(s.toDev) && Pending(l.dev.link) + l.toDev == WireAll(s.toDev)
    && AllSized(s.toHost) && l.host.rx + l.toHost == WireAll(s.toHost)
    && l.budget == s.budget
  }

  lemma SmallConcat(a: seq<Packet>, b: seq<Packet>)
    requires AllSized(a) && AllSized(b)
    ensures AllSized(a + b) && WireAll(a + b) == WireAll(a) + Encoded(b)
  {
    WireOfConcat(a, b);
  }

  lemma WireOfFirst(ps: seq<Packet>)
    requires AllSized(ps) && ps != []
    ensures WireAll(ps) == Wire(ps[0]) + WireAll(ps[1..])
    ensures WireAll(ps)[..PACKET_TOTAL_LENGTH] == Wire(ps[0]) && WireAll(ps)[PACKET_TOTAL_LENGTH..] == WireAll(ps[1..])
  {
    WireOfConcat([ps[0]], ps[1..]);
    assert [ps[0]] + ps[1..] == ps;
    WireOfOne(ps[0]);
  }

  lemma WireOfOne(p: Packet)
    requires Sized(p)
    ensures WireAll([p]) == Wire(p)
  {
    assert [p][..0] == [];
    assert WireAll([p]) == WireAll([]) + Wire(p);
  }

  // A receiver with the first part of a stream: one more byte either stays within the first frame or
  // completes it.
  lemma OneMoreByte(have: seq<bv8>, rest: seq<bv8>, frames: seq<Packet>)
    requires AllSized(frames) && have + rest == WireAll(frames) && |have| < PACKET_TOTAL_LENGTH && rest != []
    ensures frames != [] && (have + [rest[0]]) + rest[1..] == WireAll(frames)
    ensures |have| + 1 == PACKET_TOTAL_LENGTH ==> have + [rest[0]] == Wire(frames[0]) && rest[1..] == WireAll(frames[1..])
  {
    assert have + rest == (have + [rest[0]]) + rest[1..];
    WireOfFirst(frames);
    if |have| + 1 == PACKET_TOTAL_LENGTH {
      assert (have + [rest[0]]) == WireAll(frames)[..PACKET_TOTAL_LENGTH];
      assert rest[1..] == WireAll(frames)[PACKET_TOTAL_LENGTH..];
    }
  }

  lemma SameNewlySent(before: seq<Packet>, after: seq<Packet>)
    requires AllSized(after)
    ensures AllSized(NewlySent(before, after))
  {}

  // ----- The device reads a byte -----

  lemma InsideFrame(l: Line, s: Session)
    requires Refines(l, s) && l.toDev != [] && Running(l.dev) && |Pending(l.dev.link)| < PACKET_TOTAL_LENGTH - 1
    ensures Refines(DevByte(l), s) && |DevByte(l).toDev| < |l.toDev| && DevByte(l).toHost == l.toHost
  {
    FeedInside(l.dev.link, l.toDev[0]);
    OneMoreByte(Pending(l.dev.link), l.toDev, s.toDev);
    assert NewlySent(l.dev.link.sent, l.dev.link.sent) == [];
    assert l.toHost + Encoded([]) == l.toHost;
  }

  lemma CompletedAlike(k: Link, l: Link, p: Packet)
    requires LinkRefines(k, l)
    ensures Completed(k, p) == Completed(l, p)
  {}

  lemma FrameDone(l: Line, s: Session)
    requires Refines(l, s) && l.toDev != [] && Running(l.dev) && |Pending(l.dev.link)| == PACKET_TOTAL_LENGTH - 1
    ensures s.toDev != [] && FeedByte(l.dev.link, l.toDev[0]) == HandlePacket(Completed(s.dev.link, s.toDev[0]))
    ensures l.toDev[1..] == WireAll(s.toDev[1..])
  {
    var k, b := l.dev.link, l.toDev[0];
    PhaseFromPending(k);
    FrameCompletes(k, b);
    OneMoreByte(Pending(k), l.toDev, s.toDev);
    FromWireOfWire(s.toDev[0]);
    CompletedAlike(k, s.dev.link, s.toDev[0]);
  }

  // Both devices have come to the same link between frames.
  lemma DeviceFramesRefine(l: Line, s: Session, k: Link, sent: seq<Packet>, l': Line, s': Session)
    requires Refines(l, s) && s.toDev != [] && l.toDev != [] && l.toDev[1..] == WireAll(s.toDev[1..]) && AtRest(k) && AllSized(sent)
    requires l' == l.(dev := l.dev.(link := k), toDev := l.toDev[1..], toHost := l.toHost + Encoded(sent))
    requires s' == s.(dev := s.dev.(link := k), toDev := s.toDev[1..], toHost := s.toHost + sent)
    ensures Refines(l', s')
  {
    SmallConcat(s.toHost, sent);
    assert (l.host.rx + l.toHost) + Encoded(sent) == l.host.rx + (l.toHost + Encoded(sent));
    assert Pending(k) + l.toDev[1..] == l.toDev[1..];
  }

  lemma EndOfFrame(l: Line, s: Session)
    requires Refines(l, s) && l.toDev != [] && Running(l.dev) && |Pending(l.dev.link)| == PACKET_TOTAL_LENGTH - 1
    requires AtRest(DevFrame(s).dev.link)
    ensures Refines(DevByte(l), DevFrame(s))
  {
    FrameDone(l, s);
    var k := FeedByte(l.dev.link, l.toDev[0]);
    var sent := NewlySent(s.dev.link.sent, k.sent);
    RestSized(k, s.dev.link.sent);
    DeviceFramesRefine(l, s, k, sent, DevByte(l), DevFrame(s));
  }

  lemma RestSized(k: Link, before: seq<Packet>)
    requires AtRest(k)
    ensures AllSized(NewlySent(before, k.sent))
  {}

  // ----- The device's switch statement does not look at the parser -----

  // d with its parser in the state of k.
  function Parsing(d: Boot, k: Link): Boot { d.(link := WithParser(d.link, k)) }

  lemma StoreIgnoresParser(judge: Judge, d: Boot, k: Link, p: Packet, now: nat)
    requires Sized(p)
    ensures Store(judge, Parsing(d, k), p, now) == Parsing(Store(judge, d, p, now), k)
  {
    var c := Rearm(Program(d, ChunkOf(p)), now);
    assert Rearm(Program(Parsing(d, k), ChunkOf(p)), now) == Parsing(c, k);
    assert Conclude(judge, Parsing(c, k)) == Parsing(Conclude(judge, c), k);
  }

  lemma TakenIgnoresParser(d: Boot, k: Link)
    requires HasPacket(d)
    ensures HasPacket(Parsing(d, k)) && Taken(Parsing(d, k)) == Parsing(Taken(d), k)
    ensures Parsing(d, k).link.queue[0] == d.link.queue[0]
  {}

  lemma TakingIgnoresParser(judge: Judge, d: Boot, k: Link, m: Move, now: nat)
    requires WellTyped(d) && WellTyped(Parsing(d, k)) && TakesPacket(m) && HasPacket(d)
    ensures HasPacket(Parsing(d, k)) && Perform(judge, Parsing(d, k), m, now) == Parsing(Perform(judge, d, m, now), k)
  {
    TakenIgnoresParser(d, k);
    if m == StoreChunk {
      TakenWellTyped(d);
      StoreIgnoresParser(judge, Taken(d), k, d.link.queue[0], now);
    }
  }

  lemma PerformIgnoresParser(judge: Judge, d: Boot, k: Link, m: Move, now: nat)
    requires WellTyped(d) && WellTyped(Parsing(d, k)) && (TakesPacket(m) ==> HasPacket(d))
    ensures TakesPacket(m) ==> HasPacket(Parsing(d, k))
    ensures Perform(judge, Parsing(d, k), m, now) == Parsing(Perform(judge, d, m, now), k)
  {
    if TakesPacket(m) {
      TakingIgnoresParser(judge, d, k, m, now);
    }
  }

  lemma DecideIgnoresParser(d: Boot, k: Link, now: nat)
    requires WellTyped(d) && WellTyped(Parsing(d, k))
    ensures Decide(Parsing(d, k), now) == Decide(d, now)
  {}

  lemma TurnRefines(judge: Judge, l: Line, s: Session, now: nat)
    requires Refines(l, s) && WellTyped(s.dev) && WellTyped(l.dev)
    requires AtRest(DevSwitch(judge, s, now).dev.link)
    ensures Refines(DevTurn(judge, l, now), DevSwitch(judge, s, now))
  {
    DecideIgnoresParser(s.dev, l.dev.link, now);
    PerformIgnoresParser(judge, s.dev, l.dev.link, Decide(s.dev, now), now);
    assert l.dev == Parsing(s.dev, l.dev.link);
    if Running(s.dev) && s.dev.mode != Sync && Decide(s.dev, now) != TimeOut {
      DeviceTurnsRefine(l, s, Switch(judge, s.dev, now), DevTurn(judge, l, now), DevSwitch(judge, s, now));
    }
  }

  lemma PendingOfParser(c: Link, k: Link)
    requires AtRest(c) && Valid(k)
    ensures Valid(WithParser(c, k)) && Pending(WithParser(c, k)) == Pending(k)
  {}

  lemma DeviceTurnsRefine(l: Line, s: Session, c: Boot, l': Line, s': Session)
    requires Refines(l, s) && AtRest(c.link)
    requires s' == DeviceTo(s, c) && l' == LineDeviceTo(l, Parsing(c, l.dev.link))
    ensures Refines(l', s')
  {
    PendingOfParser(c.link, l.dev.link);
    var sent := NewlySent(s.dev.link.sent, c.link.sent);
    RestSized(c.link, s.dev.link.sent);
    SmallConcat(s.toHost, sent);
    assert (l.host.rx + l.toHost) + Encoded(sent) == l.host.rx + (l.toHost + Encoded(sent));
  }

  // ----- The host reads a byte -----

  lemma HostInsideFrame(l: Line, s: Session, noise: Noise)
    requires Refines(l, s) && ValidHost(l.host) && l.toHost != [] && |l.host.rx| + 1 < PACKET_TOTAL_LENGTH
    ensures Refines(HostByte(l, noise), s) && |HostByte(l, noise).toHost| < |l.toHost| && HostByte(l, noise).toDev == l.toDev
  {
    OneMoreByte(l.host.rx, l.toHost, s.toHost);
    assert OnData(l.host, [l.toHost[0]]) == l.host.(rx := l.host.rx + [l.toHost[0]]);
    assert NewlySent(l.host.written, l.host.written) == [];
    assert l.toDev + Encoded([]) == l.toDev;
  }

  lemma HostFrameDone(l: Line, s: Session)
    requires Refines(l, s) && ValidHost(l.host) && l.toHost != [] && |l.host.rx| + 1 == PACKET_TOTAL_LENGTH
    ensures s.toHost != [] && OnData(l.host, [l.toHost[0]]) == HandleFrame(s.host, s.toHost[0])
    ensures l.toHost[1..] == WireAll(s.toHost[1..])
  {
    OneMoreByte(l.host.rx, l.toHost, s.toHost);
    FromWireOfWire(s.toHost[0]);
    var filled := l.host.(rx := l.host.rx + [l.toHost[0]]);
    assert filled.rx[..PACKET_TOTAL_LENGTH] == filled.rx;
    assert filled.rx[PACKET_TOTAL_LENGTH..] == [];
    HandleFrameValid(s.host, s.toHost[0]);
    assert HandleFrames(filled) == HandleFrames(HandleFrame(s.host, s.toHost[0]));
  }

  lemma ToDevGrows(l: Line, s: Session, ps: seq<Packet>)
    requires Refines(l, s) && AllSized(ps)
    ensures AllSized(s.toDev + ps) && Pending(l.dev.link) + (l.toDev + Encoded(ps)) == WireAll(s.toDev + ps)
  {
    SmallConcat(s.toDev, ps);
    assert Pending(l.dev.link) + (l.toDev + Encoded(ps)) == (Pending(l.dev.link) + l.toDev) + Encoded(ps);
  }

  // The host of l has come to `host` and that of s to the same, except for its buffer.
  lemma HostToRefines(l: Line, s: Session, rx: seq<bv8>, host: Host, mayHit: bool, noise: Noise)
    requires Refines(l, s) && ValidHost(host) && host.rx == [] && |rx| < PACKET_TOTAL_LENGTH
    requires rx == l.host.rx
    ensures Refines(HostTo(l, host.(rx := rx), mayHit, noise),
                    OnLine(s, host, NewlySent(s.host.written, host.written), mayHit, noise))
  {
    var written := NewlySent(s.host.written, host.written);
    SameNewlySent(s.host.written, host.written);
    ToDevGrows(l, s, written);
    if Hit(noise, l.budget) {
      ToDevGrows(l, s, [noise.q]);
    }
  }

  lemma HostEndOfFrame(l: Line, s: Session, noise: Noise)
    requires Refines(l, s) && ValidHost(l.host) && ValidHost(s.host) && l.toHost != [] && |l.host.rx| + 1 == PACKET_TOTAL_LENGTH
    ensures Refines(HostByte(l, noise), HostFrame(s, noise))
  {
    HostFrameDone(l, s);
    var host := HandleFrame(s.host, s.toHost[0]);
    HandleFrameValid(s.host, s.toHost[0]);
    var l1 := l.(toHost := l.toHost[1..], host := l.host.(rx := []));
    var s1 := s.(toHost := s.toHost[1..]);
    var written := NewlySent(s.host.written, host.written);
    HostToRefines(l1, s1, [], host, |written| == 1 && !IsControl(written[0]), noise);
    assert host.(rx := []) == host;
  }

  // ----- main -----

  lemma AdvanceIgnoresRx(h: Host, image: seq<bv8>, rx: seq<bv8>)
    requires |image| < TWO_32 && PlaceInImage(h, image)
    ensures Advance(h.(rx := rx), image) == Advance(h, image).(rx := rx)
  {}

  lemma MainRefines(l: Line, s: Session, image: seq<bv8>, noise: Noise)
    requires Refines(l, s) && |image| < TWO_32 && PlaceInImage(s.host, image)
    requires ValidHost(Advance(s.host, image)) && Advance(s.host, image).rx == []
    ensures Refines(HostWake(l, image, noise), HostMain(s, image, noise))
  {
    AdvanceIgnoresRx(s.host, image, l.host.rx);
    HostToRefines(l, s, l.host.rx, Advance(s.host, image), true, noise);
  }
}
