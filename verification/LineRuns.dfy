// Whole sessions on the serial line: what holds all along, that they end, and how.
module LineRuns {
  import opened Packets
  import opened Link
  import opened Framing
  import opened LittleEndian
  import opened Host
  import opened UpdateMachine
  import opened UpdateSafety
  import opened UpdateOutcome
  import opened Transfer
  import opened Exchanges
  import opened FrameSession
  import opened SessionPhases
  import opened SessionLost
  import opened SessionRuns
  import opened LineSession

  // ----- Reports stay true -----

  lemma FrameTruth(judge: Judge, s: Session)
    requires LogInv(s.dev) && ReportsTruly(judge, s.dev)
    ensures ReportsTruly(judge, DevFrame(s).dev)
  {
    if s.toDev != [] && Running(s.dev) {
      HandleNoSuccess(Completed(s.dev.link, s.toDev[0]));
    }
  }

  lemma SwitchTruth(judge: Judge, s: Session, now: nat)
    requires LogInv(s.dev) && ReportsTruly(judge, s.dev)
    ensures ReportsTruly(judge, DevSwitch(judge, s, now).dev)
  {
    if Running(s.dev) && s.dev.mode != Sync && Decide(s.dev, now) != TimeOut {
      SwitchReports(judge, s.dev, now);
    }
  }

  lemma StepTruth(judge: Judge, image: seq<bv8>, s: Session, a: SessionStep)
    requires Typed(s, image) && ReportsTruly(judge, s.dev)
    ensures ReportsTruly(judge, StepOf(judge, image, s, a).dev)
  {
    match a
    case DevHandles => FrameTruth(judge, s);
    case DevSwitches(now) => SwitchTruth(judge, s, now);
    case HostHandles(noise) =>
    case HostWakes(noise) =>
  }

  // ----- The flash stays accounted for -----

  lemma FrameFlash(before: seq<bv8>, s: Session)
    requires FlashInv(before, s.dev) && LogInv(DevFrame(s).dev)
    ensures FlashInv(before, DevFrame(s).dev)
  {}

  lemma SwitchFlash(judge: Judge, before: seq<bv8>, s: Session, now: nat)
    requires FlashInv(before, s.dev)
    ensures FlashInv(before, DevSwitch(judge, s, now).dev)
  {
    if Running(s.dev) && s.dev.mode != Sync && Decide(s.dev, now) != TimeOut {
      SwitchFlashInv(judge, before, s.dev, now);
    }
  }

  lemma StepFlash(judge: Judge, before: seq<bv8>, image: seq<bv8>, s: Session, a: SessionStep, s': Session)
    requires Typed(s, image) && FlashInv(before, s.dev) && s' == StepOf(judge, image, s, a) && Typed(s', image)
    ensures FlashInv(before, s'.dev)
  {
    match a
    case DevHandles => FrameFlash(before, s);
    case DevSwitches(now) => SwitchFlash(judge, before, s, now);
    case HostHandles(noise) =>
    case HostWakes(noise) =>
  }

  // ----- Frame steps behind line steps -----

  // s is a session that the line l follows.
  ghost predicate Follows(st: Setting, l: Line, s: Session) {
    Refines(l, s) && Typed(s, st.image) && ReportsTruly(st.judge, s.dev) && FlashInv(st.before, s.dev)
  }

  lemma FollowsIsTyped(st: Setting, l: Line, s: Session)
    requires Follows(st, l, s)
    ensures TypedLine(l, st.image) && (Running(l.dev) <==> Running(s.dev))
  {}

  // Which frame step a line step completes, if any.
  predicate Completes(l: Line, a: LineStep)
    requires Valid(l.dev.link)
  {
    match a
    case DevReads => l.toDev != [] && Running(l.dev) && |Pending(l.dev.link)| == PACKET_TOTAL_LENGTH - 1
    case HostReads(_) => l.toHost != [] && |l.host.rx| + 1 == PACKET_TOTAL_LENGTH
    case _ => true
  }

  function FrameStepOf(a: LineStep): SessionStep {
    match a
    case DevReads => DevHandles
    case DevTurns(now) => DevSwitches(now)
    case HostReads(noise) => HostHandles(noise)
    case HostRuns(noise) => HostWakes(noise)
  }

  lemma IncompleteStep(st: Setting, l: Line, s: Session, a: LineStep)
    requires Follows(st, l, s) && !Completes(l, a)
    ensures TypedLine(l, st.image)
    ensures var l' := LineStepOf(st.judge, st.image, l, a);
      Follows(st, l', s) && (l' == l || |l'.toDev| + |l'.toHost| < |l.toDev| + |l.toHost|)
  {
    FollowsIsTyped(st, l, s);
    match a
    case DevReads =>
      if l.toDev != [] && Running(l.dev) {
        InsideFrame(l, s);
      }
    case HostReads(noise) =>
      if l.toHost != [] {
        HostInsideFrame(l, s, noise);
      }
  }

  lemma DeviceStepRefines(judge: Judge, image: seq<bv8>, l: Line, s: Session, a: LineStep, l': Line, s': Session)
    requires Refines(l, s) && TypedLine(l, image) && Typed(s, image) && Completes(l, a) && (a.DevReads? || a.DevTurns?)
    requires l' == LineStepOf(judge, image, l, a) && s' == StepOf(judge, image, s, FrameStepOf(a)) && Typed(s', image)
    ensures Refines(l', s')
  {
    match a
    case DevReads => EndOfFrame(l, s);
    case DevTurns(now) => TurnRefines(judge, l, s, now);
  }

  lemma MainStepRefines(l: Line, s: Session, image: seq<bv8>, noise: Noise)
    requires Refines(l, s) && TypedLine(l, image) && Typed(s, image)
    ensures Refines(HostWake(l, image, noise), HostMain(s, image, noise))
  {
    MainWrites(s.host, image);
    MainRefines(l, s, image, noise);
  }

  lemma HandlerStepRefines(l: Line, s: Session, image: seq<bv8>, noise: Noise)
    requires Refines(l, s) && TypedLine(l, image) && Typed(s, image) && Completes(l, HostReads(noise))
    ensures Refines(HostByte(l, noise), HostFrame(s, noise))
  {
    HostEndOfFrame(l, s, noise);
  }

  lemma HostStepRefines(judge: Judge, image: seq<bv8>, l: Line, s: Session, a: LineStep, l': Line, s': Session)
    requires Refines(l, s) && TypedLine(l, image) && Typed(s, image) && Completes(l, a) && (a.HostReads? || a.HostRuns?)
    requires l' == LineStepOf(judge, image, l, a) && s' == StepOf(judge, image, s, FrameStepOf(a))
    ensures Refines(l', s')
  {
    match a
    case HostReads(noise) => HandlerStepRefines(l, s, image, noise);
    case HostRuns(noise) => MainStepRefines(l, s, image, noise);
  }

  lemma CompleteStep(st: Setting, l: Line, s: Session, a: LineStep)
    requires Follows(st, l, s) && Completes(l, a)
    requires Typed(StepOf(st.judge, st.image, s, FrameStepOf(a)), st.image)
    ensures TypedLine(l, st.image)
    ensures Follows(st, LineStepOf(st.judge, st.image, l, a), StepOf(st.judge, st.image, s, FrameStepOf(a)))
  {
    FollowsIsTyped(st, l, s);
    var l', s' := LineStepOf(st.judge, st.image, l, a), StepOf(st.judge, st.image, s, FrameStepOf(a));
    StepTruth(st.judge, st.image, s, FrameStepOf(a));
    StepFlash(st.judge, st.before, st.image, s, FrameStepOf(a), s');
    if a.DevReads? || a.DevTurns? {
      DeviceStepRefines(st.judge, st.image, l, s, a, l', s');
    } else {
      HostStepRefines(st.judge, st.image, l, s, a, l', s');
    }
  }

  // A frame step that changes nothing comes from a line step that changes nothing.
  lemma IdleTurn(judge: Judge, l: Line, s: Session, now: nat)
    requires Refines(l, s) && WellTyped(s.dev) && WellTyped(l.dev) && DevSwitch(judge, s, now) == s
    ensures DevTurn(judge, l, now) == l
  {
    DecideIgnoresParser(s.dev, l.dev.link, now);
    PerformIgnoresParser(judge, s.dev, l.dev.link, Decide(s.dev, now), now);
    assert l.dev == Parsing(s.dev, l.dev.link);
    assert NewlySent(l.dev.link.sent, l.dev.link.sent) == [];
    assert l.toHost + Encoded([]) == l.toHost;
  }

  lemma IdleWake(l: Line, s: Session, image: seq<bv8>, noise: Noise)
    requires Refines(l, s) && |image| < TWO_32 && PlaceInImage(s.host, image) && PlaceInImage(l.host, image)
    requires HostMain(s, image, noise) == s
    ensures HostWake(l, image, noise) == l
  {
    AdvanceIgnoresRx(s.host, image, l.host.rx);
    assert Advance(s.host, image) == s.host;
    assert NewlySent(l.host.written, l.host.written) == [];
    assert l.toDev + Encoded([]) == l.toDev;
  }

  lemma DevFrameChanges(l: Line, s: Session)
    requires Refines(l, s) && Completes(l, DevReads) && Running(s.dev)
    ensures DevFrame(s) != s
  {
    FrameDone(l, s);
    assert DevFrame(s).toDev == s.toDev[1..];
  }

  lemma HostFrameChanges(l: Line, s: Session, noise: Noise)
    requires Refines(l, s) && ValidHost(l.host) && Completes(l, HostReads(noise))
    ensures HostFrame(s, noise) != s
  {
    HostFrameDone(l, s);
    assert HostFrame(s, noise).toHost == s.toHost[1..];
  }

  lemma IdleStep(st: Setting, l: Line, s: Session, a: LineStep)
    requires Follows(st, l, s) && Completes(l, a) && StepOf(st.judge, st.image, s, FrameStepOf(a)) == s
    ensures TypedLine(l, st.image) && LineStepOf(st.judge, st.image, l, a) == l
  {
    FollowsIsTyped(st, l, s);
    match a
    case DevReads => DevFrameChanges(l, s);
    case DevTurns(now) => IdleTurn(st.judge, l, s, now);
    case HostReads(noise) => HostFrameChanges(l, s, noise);
    case HostRuns(noise) => IdleWake(l, s, st.image, noise);
  }

  // ----- One step of a line -----

  // How far the line is from the end, in frames and bytes.
  function Weight(st: Setting, l: Line, s: Session, n: nat, ph: Stretch): int
    requires Fits(st)
  {
    200 * Remaining(st, s, n, ph) + |l.toDev| + |l.toHost|
  }

  // At most three frames are under way in each direction: fewer bytes than the device's byte ring holds.
  lemma FewBytes(st: Setting, l: Line, s: Session, n: nat, ph: Stretch)
    requires Fits(st) && Refines(l, s) && Within(st, s, n, ph)
    ensures |s.dev.link.queue| <= 1 && |s.toDev| <= 3 && |s.toHost| <= 3
    ensures |l.toDev| <= 54 && |l.toHost| <= 54
  {
    FewFrames(ExchangeOf(st, n), WiresOf(s), ph);
  }

  lemma FewFrames(x: Exchange, w: Wires, ph: Stretch)
    requires WiresAt(x, w, ph)
    ensures |w.queue| <= 1 && |w.toDev| <= 3 && |w.toHost| <= 3
  {}

  // The line has moved to a session that is nearer to the end, if it has changed at all; or it is lost.
  ghost predicate LineAdvanced(st: Setting, l: Line, s: Session, n: nat, ph: Stretch,
                               l': Line, s': Session, n': nat, ph': Stretch)
    requires Fits(st)
  {
    && Follows(st, l', s')
    && ((Within(st, s', n', ph') && (l' == l || Weight(st, l', s', n', ph') < Weight(st, l, s, n, ph)))
        || (Lost(s', st.image) && !Transferable(st.image)))
  }

  lemma LineAdvances(st: Setting, l: Line, s: Session, n: nat, ph: Stretch, a: LineStep)
    returns (s': Session, n': nat, ph': Stretch)
    requires Fits(st) && Follows(st, l, s) && Within(st, s, n, ph)
    ensures TypedLine(l, st.image)
    ensures LineAdvanced(st, l, s, n, ph, LineStepOf(st.judge, st.image, l, a), s', n', ph')
  {
    FollowsIsTyped(st, l, s);
    if Completes(l, a) {
      s', n', ph' := CompleteAdvances(st, l, s, n, ph, a, LineStepOf(st.judge, st.image, l, a));
    } else {
      IncompleteStep(st, l, s, a);
      s', n', ph' := s, n, ph;
    }
  }

  lemma CompleteAdvances(st: Setting, l: Line, s: Session, n: nat, ph: Stretch, a: LineStep, l': Line)
    returns (s': Session, n': nat, ph': Stretch)
    requires Fits(st) && Follows(st, l, s) && Within(st, s, n, ph) && Completes(l, a) && TypedLine(l, st.image)
    requires l' == LineStepOf(st.judge, st.image, l, a)
    ensures LineAdvanced(st, l, s, n, ph, l', s', n', ph')
  {
    s', n', ph' := FrameAdvances(st, s, n, ph, FrameStepOf(a));
    CompleteStep(st, l, s, a);
    if s' == s {
      IdleStep(st, l, s, a);
    }
    Weigh(st, l, s, n, ph, l', s', n', ph');
  }

  lemma FrameAdvances(st: Setting, s: Session, n: nat, ph: Stretch, a: SessionStep)
    returns (s': Session, n': nat, ph': Stretch)
    requires Fits(st) && Within(st, s, n, ph) && ReportsTruly(st.judge, s.dev)
    ensures WellFormedSession(s, st.image) && s' == StepOf(st.judge, st.image, s, a)
    ensures Advanced(st, s, n, ph, s', n', ph') && Typed(s', st.image)
  {
    n', ph' := StepAdvances(st, s, n, ph, a);
    s' := StepOf(st.judge, st.image, s, a);
    if Within(st, s', n', ph') {
      WithinIsTyped(st, s', n', ph');
    }
  }

  lemma Weigh(st: Setting, l: Line, s: Session, n: nat, ph: Stretch, l': Line, s': Session, n': nat, ph': Stretch)
    requires Fits(st) && Refines(l, s) && Within(st, s, n, ph) && Follows(st, l', s') && Advanced(st, s, n, ph, s', n', ph')
    requires s' == s ==> l' == l
    ensures LineAdvanced(st, l, s, n, ph, l', s', n', ph')
  {
    if Within(st, s', n', ph') {
      FewBytes(st, l', s', n', ph');
    }
  }
}
