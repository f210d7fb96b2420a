// The theorems of TransferRuns for the bootloader's main loop in whole turns and with its deadlines in force:
// they hold as long as every turn comes less than DEFAULT_TIMEOUT_MS ticks after the timer was last armed.
module LoopRuns {
  import opened Packets
  import opened Link
  import opened SimpleTimer
  import Image
  import opened UpdateMachine
  import opened UpdateRuns
  import opened Exchanges
  import opened FrameSession
  import opened SessionPhases
  import opened LineSession
  import opened LineRuns
  import opened TransferRuns
  import opened LoopSession

  // The line, and the time of the latest turn that armed the device's timer.
  datatype Loop = Loop(line: Line, armedAt: nat)

  // The device takes a turn, after so many more bytes; the updater's handler gets a byte; main is woken.
  datatype LoopStep = Turns(k: nat, now: nat) | Hears(noise: Noise) | Wakes(noise: Noise)

  function HostStepOf(a: LoopStep): LineStep
    requires !a.Turns?
  {
    match a
    case Hears(noise) => HostReads(noise)
    case Wakes(noise) => HostRuns(noise)
  }

  function LoopStepOf(judge: Judge, image: seq<bv8>, x: Loop, a: LoopStep): Loop
    requires TypedLine(x.line, image)
  {
    match a
    case Turns(k, now) =>
      var l := LoopTurn(judge, x.line, k, now);
      Loop(l, if l.dev.arms > x.line.dev.arms then now else x.armedAt)
    case _ => x.(line := LineStepOf(judge, image, x.line, HostStepOf(a)))
  }

  function LoopRun(st: Setting, start: Loop, steps: seq<LoopStep>): Loop {
    if steps == [] then start
    else
      var x := LoopRun(st, start, steps[..|steps| - 1]);
      if TypedLine(x.line, st.image) then LoopStepOf(st.judge, st.image, x, steps[|steps| - 1]) else x
  }

  // A turn before the deadline; the clock has 32 bits.
  predicate InTime(x: Loop, a: LoopStep) {
    a.Turns? && Running(x.line.dev) ==> a.now < x.armedAt + DEFAULT_TIMEOUT_MS && a.now < TICKS
  }

  predicate Prompt(st: Setting, start: Loop, steps: seq<LoopStep>) {
    steps == []
    || (Prompt(st, start, steps[..|steps| - 1]) && InTime(LoopRun(st, start, steps[..|steps| - 1]), steps[|steps| - 1]))
  }

  // ----- The timer -----

  // The device is in or after the transfer, has no bytes left over, and its timer was armed at that time.
  predicate OnTime(x: Loop) {
    && x.line.dev.mode != Sync && x.line.dev.rx == [] && x.armedAt < TICKS
    && x.line.dev.timer == TimerState(DEFAULT_TIMEOUT_MS, x.armedAt + DEFAULT_TIMEOUT_MS, false, false)
  }

  // What a move does to the timer and the bytes received.
  predicate ArmsOrNot(d: Boot, c: Boot, now: nat) {
    && c.rx == d.rx
    && ((c.timer == d.timer && c.arms == d.arms) || (c.timer == Reset(d.timer, now) && c.arms == d.arms + 1))
  }

  lemma StoreArms(judge: Judge, d: Boot, p: Packet, now: nat)
    requires Sized(p)
    ensures ArmsOrNot(d, Store(judge, d, p, now), now)
  {}

  lemma PerformArms(judge: Judge, d: Boot, m: Move, now: nat)
    requires WellTyped(d) && (TakesPacket(m) ==> HasPacket(d)) && m != TimeOut
    ensures ArmsOrNot(d, Perform(judge, d, m, now), now)
  {
    if m == StoreChunk {
      TakenWellTyped(d);
      StoreArms(judge, Taken(d), d.link.queue[0], now);
    }
  }

  lemma NoTimeOut(d: Boot, armedAt: nat, now: nat)
    requires WellTyped(d) && d.timer == TimerState(DEFAULT_TIMEOUT_MS, armedAt + DEFAULT_TIMEOUT_MS, false, false)
    requires now < armedAt + DEFAULT_TIMEOUT_MS
    ensures Decide(d, now) != TimeOut
  {}

  lemma OnTimeAfter(x: Loop, d: Boot, c: Boot, now: nat, x': Loop)
    requires OnTime(x) && now < TICKS && d.timer == x.line.dev.timer && d.arms == x.line.dev.arms && d.rx == []
    requires ArmsOrNot(d, c, now) && c.mode != Sync && x'.line.dev == c
    requires x'.armedAt == if c.arms > x.line.dev.arms then now else x.armedAt
    ensures OnTime(x')
  {}

  // ----- Lines that occur in transfers -----

  // The session that a line follows, and where it is.
  datatype Spot = Spot(s: Session, n: nat, ph: Stretch)

  ghost predicate Located(st: Setting, l: Line, o: Spot)
    requires Fits(st)
  {
    InStretch(st, l, o.s, o.n, o.ph) || IsLost(st, l, o.s)
  }

  lemma FollowsNotHalted(st: Setting, l: Line, s: Session)
    requires Follows(st, l, s)
    ensures !l.dev.link.halted
  {}

  lemma LocatedIsTyped(st: Setting, l: Line, o: Spot)
    requires Fits(st) && Located(st, l, o)
    ensures TypedLine(l, st.image) && !l.dev.link.halted
  {
    FollowsIsTyped(st, l, o.s);
    FollowsNotHalted(st, l, o.s);
  }

  lemma LocatedStep(st: Setting, l: Line, o: Spot, a: LineStep, l': Line) returns (o': Spot)
    requires Fits(st) && Located(st, l, o) && TypedLine(l, st.image) && l' == LineStepOf(st.judge, st.image, l, a)
    ensures Located(st, l', o')
  {
    var s', n', ph' := RunGoesOn(st, l, o.s, o.n, o.ph, a);
    o' := Spot(s', n', ph');
  }

  lemma LineRunMore(st: Setting, l: Line, steps: seq<LineStep>, a: LineStep, l': Line)
    requires l' == LineRun(st, l, steps) && TypedLine(l', st.image)
    ensures LineRun(st, l, steps + [a]) == LineStepOf(st.judge, st.image, l', a)
  {
    LineRunSnoc(st, l, steps, a);
  }

  lemma {:induction false} LineRunConcat(st: Setting, l: Line, a: seq<LineStep>, b: seq<LineStep>)
    ensures LineRun(st, l, a + b) == LineRun(st, LineRun(st, l, a), b)
  {
    if b == [] {
      assert a + b == a;
    } else {
      var n := |b| - 1;
      LineRunConcat(st, l, a, b[..n]);
      assert (a + b)[..|a + b| - 1] == a + b[..n];
    }
  }

  // ----- A turn as steps of the line -----

  // The device of `read` has the first k bytes of l.
  predicate HasRead(l: Line, k: nat, read: Line)
    requires Valid(l.dev.link) && k <= |l.toDev|
  {
    Running(Fed(l, k)) && read == LineDeviceTo(l.(toDev := l.toDev[k..]), Fed(l, k))
  }

  lemma NextByte(l: Line, j: nat, k: nat, read: Line)
    requires Valid(l.dev.link) && k == j + 1 <= |l.toDev| && HasRead(l, j, read)
    requires !DevByte(read).dev.link.halted
    ensures HasRead(l, k, DevByte(read))
  {
    OneMoreRead(l, j, read);
  }

  lemma NextByteIsStep(st: Setting, l: Line, j: nat, k: nat, read: Line, o: Spot, steps: seq<LineStep>)
    returns (read': Line, o': Spot, longer: seq<LineStep>)
    requires Fits(st) && Valid(l.dev.link) && k == j + 1 <= |l.toDev| && HasRead(l, j, read)
    requires read == LineRun(st, l, steps) && Located(st, read, o)
    ensures HasRead(l, k, read') && read' == LineRun(st, l, longer) && Located(st, read', o')
  {
    LocatedIsTyped(st, read, o);
    read' := DevByte(read);
    longer := steps + [DevReads];
    LineRunMore(st, l, steps, DevReads, read);
    o' := LocatedStep(st, read, o, DevReads, read');
    LocatedIsTyped(st, read', o');
    NextByte(l, j, k, read);
  }

  lemma NothingRead(l: Line, k: nat)
    requires Valid(l.dev.link) && Running(l.dev) && k == 0
    ensures HasRead(l, k, l)
  {
    assert l.toDev[..0] == [] && l.toDev[0..] == l.toDev && Fed(l, 0) == l.dev;
    NoMove(l);
  }

  lemma {:induction false} BytesAreSteps(st: Setting, l: Line, o: Spot, k: nat)
    returns (read: Line, o': Spot, steps: seq<LineStep>)
    requires Fits(st) && Located(st, l, o) && Valid(l.dev.link) && Running(l.dev) && k <= |l.toDev|
    ensures HasRead(l, k, read) && read == LineRun(st, l, steps) && Located(st, read, o')
    decreases k
  {
    if k == 0 {
      NothingRead(l, k);
      read, o', steps := l, o, [];
    } else {
      var j := k - 1;
      var before, o1, shorter := BytesAreSteps(st, l, o, j);
      read, o', steps := NextByteIsStep(st, l, j, k, before, o1, shorter);
    }
  }

  lemma SwitchStaysOut(judge: Judge, d: Boot, now: nat)
    requires WellTyped(d) && Running(d) && d.mode != Sync
    ensures Switch(judge, d, now).mode != Sync && WellTyped(Switch(judge, d, now))
  {
    SwitchRank(judge, d, now);
    PerformWellTyped(judge, d, Decide(d, now), now);
  }

  lemma SwitchOnTime(judge: Judge, x: Loop, d: Boot, now: nat, x': Loop)
    requires OnTime(x) && WellTyped(d) && Running(d) && d == x.line.dev.(link := d.link)
    requires now < x.armedAt + DEFAULT_TIMEOUT_MS && now < TICKS
    requires x'.line.dev == Switch(judge, d, now)
    requires x'.armedAt == if Switch(judge, d, now).arms > x.line.dev.arms then now else x.armedAt
    ensures Decide(d, now) != TimeOut && WellTyped(Switch(judge, d, now)) && OnTime(x')
  {
    NoTimeOut(d, x.armedAt, now);
    SwitchStaysOut(judge, d, now);
    PerformArms(judge, d, Decide(d, now), now);
    OnTimeAfter(x, d, Switch(judge, d, now), now, x');
  }

  // A turn in time is a turn of LineSession once its bytes have been read.
  lemma TurnInTime(judge: Judge, x: Loop, k: nat, now: nat, read: Line, l': Line)
    requires OnTime(x) && WellTyped(x.line.dev) && k <= |x.line.toDev| && HasRead(x.line, k, read) && WellTyped(read.dev)
    requires now < x.armedAt + DEFAULT_TIMEOUT_MS && now < TICKS && l' == LoopTurn(judge, x.line, k, now)
    ensures l' == DevTurn(judge, read, now)
    ensures OnTime(Loop(l', if l'.dev.arms > x.line.dev.arms then now else x.armedAt))
  {
    var d := Fed(x.line, k);
    NoTimeOut(d, x.armedAt, now);
    SwitchStaysOut(judge, d, now);
    ReadsMany(x.line, k);
    TurnInBytes(judge, x.line, k, now);
    SwitchOnTime(judge, x, d, now, Loop(l', if l'.dev.arms > x.line.dev.arms then now else x.armedAt));
  }

  lemma TurnIsSteps(st: Setting, x: Loop, o: Spot, k: nat, now: nat, l': Line) returns (o': Spot, more: seq<LineStep>)
    requires Fits(st) && Located(st, x.line, o) && TypedLine(x.line, st.image) && OnTime(x) && Running(x.line.dev)
    requires now < x.armedAt + DEFAULT_TIMEOUT_MS && now < TICKS && k <= |x.line.toDev|
    requires l' == LoopTurn(st.judge, x.line, k, now)
    ensures l' == LineRun(st, x.line, more) && Located(st, l', o')
    ensures OnTime(Loop(l', if l'.dev.arms > x.line.dev.arms then now else x.armedAt))
  {
    var read, o1, steps := BytesAreSteps(st, x.line, o, k);
    LocatedIsTyped(st, read, o1);
    TurnInTime(st.judge, x, k, now, read, l');
    more := steps + [DevTurns(now)];
    LineRunMore(st, x.line, steps, DevTurns(now), read);
    o' := LocatedStep(st, read, o1, DevTurns(now), l');
  }

  lemma SameOnTime(x: Loop, l: Line)
    requires OnTime(x) && l.dev == x.line.dev
    ensures OnTime(x.(line := l))
  {}

  lemma OneStep(st: Setting, l: Line, o: Spot, a: LineStep, l': Line) returns (o': Spot)
    requires Fits(st) && Located(st, l, o) && TypedLine(l, st.image) && l' == LineStepOf(st.judge, st.image, l, a)
    ensures l' == LineRun(st, l, [a]) && Located(st, l', o')
  {
    LineRunMore(st, l, [], a, l);
    assert [] + [a] == [a];
    o' := LocatedStep(st, l, o, a, l');
  }

  lemma TurnTakesWhatIsThere(judge: Judge, l: Line, k: nat, now: nat) returns (n: nat)
    requires WellTyped(l.dev)
    ensures n <= |l.toDev| && LoopTurn(judge, l, k, now) == LoopTurn(judge, l, n, now)
  {
    n := Image.Min(k, |l.toDev|);
  }

  lemma LoopTurnIsSteps(st: Setting, x: Loop, o: Spot, k: nat, now: nat, x': Loop) returns (o': Spot, more: seq<LineStep>)
    requires Fits(st) && Located(st, x.line, o) && TypedLine(x.line, st.image) && OnTime(x) && InTime(x, Turns(k, now))
    requires x' == LoopStepOf(st.judge, st.image, x, Turns(k, now))
    ensures x'.line == LineRun(st, x.line, more) && Located(st, x'.line, o') && OnTime(x')
  {
    if Running(x.line.dev) {
      var n := TurnTakesWhatIsThere(st.judge, x.line, k, now);
      o', more := TurnIsSteps(st, x, o, n, now, x'.line);
    } else {
      o', more := o, [];
    }
  }

  lemma HostStepKeepsDevice(judge: Judge, image: seq<bv8>, l: Line, a: LineStep)
    requires TypedLine(l, image) && (a.HostReads? || a.HostRuns?)
    ensures LineStepOf(judge, image, l, a).dev == l.dev
  {}

  lemma HostStepIsStep(st: Setting, x: Loop, o: Spot, a: LineStep, l': Line) returns (o': Spot)
    requires Fits(st) && Located(st, x.line, o) && TypedLine(x.line, st.image) && OnTime(x) && (a.HostReads? || a.HostRuns?)
    requires l' == LineStepOf(st.judge, st.image, x.line, a)
    ensures l' == LineRun(st, x.line, [a]) && Located(st, l', o') && OnTime(x.(line := l'))
  {
    o' := OneStep(st, x.line, o, a, l');
    HostStepKeepsDevice(st.judge, st.image, x.line, a);
    SameOnTime(x, l');
  }

  lemma HostLoopStep(judge: Judge, image: seq<bv8>, x: Loop, a: LoopStep) returns (b: LineStep, l': Line)
    requires TypedLine(x.line, image) && !a.Turns?
    ensures (b.HostReads? || b.HostRuns?) && l' == LineStepOf(judge, image, x.line, b)
    ensures LoopStepOf(judge, image, x, a) == x.(line := l')
  {
    b := HostStepOf(a);
    l' := LineStepOf(judge, image, x.line, b);
  }

  // Each step of the loop, if it is in time, is a number of steps of the line.
  lemma LoopStepIsSteps(st: Setting, x: Loop, o: Spot, a: LoopStep, x': Loop) returns (o': Spot, more: seq<LineStep>)
    requires Fits(st) && Located(st, x.line, o) && TypedLine(x.line, st.image) && OnTime(x) && InTime(x, a)
    requires x' == LoopStepOf(st.judge, st.image, x, a)
    ensures x'.line == LineRun(st, x.line, more) && Located(st, x'.line, o') && OnTime(x')
  {
    if a.Turns? {
      o', more := LoopTurnIsSteps(st, x, o, a.k, a.now, x');
    } else {
      var b, l' := HostLoopStep(st.judge, st.image, x, a);
      o' := HostStepIsStep(st, x, o, b, l');
      more := [b];
    }
  }
}
