// Whole transfers with the bootloader's main loop in turns and its deadlines in force.
module LoopTransfers {
  import opened Packets
  import opened SimpleTimer
  import Image
  import opened Host
  import opened UpdateMachine
  import opened UpdateRuns
  import opened Transfer
  import opened Exchanges
  import opened FrameSession
  import opened SessionPhases
  import opened LineSession
  import opened LineRuns
  import opened TransferRuns
  import opened LoopSession
  import opened LoopRuns

  // A device that has just observed the sync sequence, in a turn at this time.
  ghost predicate ReadyAt(st: Setting, dev: Boot, host: Host, armedAt: nat) {
    && Ready(st, dev, host) && dev.rx == [] && armedAt < TICKS
    && dev.timer == TimerState(DEFAULT_TIMEOUT_MS, armedAt + DEFAULT_TIMEOUT_MS, false, false)
  }

  function LoopBegun(dev: Boot, host: Host, budget: nat, noise: Noise, armedAt: nat): Loop {
    Loop(LineBegun(dev, host, budget, noise), armedAt)
  }

  // ----- Runs of the loop are runs of the line -----

  // The loop has come to a line that some run of the line comes to.
  ghost predicate Follower(st: Setting, start: Line, x: Loop, o: Spot, lines: seq<LineStep>)
    requires Fits(st)
  {
    x.line == LineRun(st, start, lines) && Located(st, x.line, o) && OnTime(x)
  }

  lemma StartsOnTime(st: Setting, dev: Boot, host: Host, budget: nat, noise: Noise, armedAt: nat)
    requires ReadyAt(st, dev, host, armedAt)
    ensures OnTime(LoopBegun(dev, host, budget, noise, armedAt))
  {}

  lemma LoopStarts(st: Setting, dev: Boot, host: Host, budget: nat, noise: Noise, armedAt: nat) returns (o: Spot)
    requires ReadyAt(st, dev, host, armedAt)
    ensures Follower(st, LineBegun(dev, host, budget, noise), LoopBegun(dev, host, budget, noise, armedAt), o, [])
    ensures o == Spot(Begun(dev, host, budget, noise), 0, Outstanding(1, Hit(noise, budget)))
    ensures InStretch(st, LineBegun(dev, host, budget, noise), o.s, o.n, o.ph)
  {
    RunBegins(st, dev, host, budget, noise);
    StartsOnTime(st, dev, host, budget, noise, armedAt);
    o := Spot(Begun(dev, host, budget, noise), 0, Outstanding(1, Hit(noise, budget)));
  }

  lemma FollowerStep(st: Setting, start: Line, x: Loop, o: Spot, lines: seq<LineStep>, a: LoopStep, x': Loop)
    returns (o': Spot, longer: seq<LineStep>)
    requires Fits(st) && Follower(st, start, x, o, lines) && TypedLine(x.line, st.image) && InTime(x, a)
    requires x' == LoopStepOf(st.judge, st.image, x, a)
    ensures Follower(st, start, x', o', longer)
  {
    var more: seq<LineStep>;
    o', more := LoopStepIsSteps(st, x, o, a, x');
    longer := lines + more;
    LineRunConcat(st, start, lines, more);
  }

  lemma {:induction false} LoopIsLine(st: Setting, dev: Boot, host: Host, budget: nat, noise: Noise, armedAt: nat,
                    steps: seq<LoopStep>)
    returns (o: Spot, lines: seq<LineStep>, x: Loop)
    requires ReadyAt(st, dev, host, armedAt) && Prompt(st, LoopBegun(dev, host, budget, noise, armedAt), steps)
    ensures x == LoopRun(st, LoopBegun(dev, host, budget, noise, armedAt), steps)
    ensures Follower(st, LineBegun(dev, host, budget, noise), x, o, lines) && TypedLine(x.line, st.image)
  {
    var start := LoopBegun(dev, host, budget, noise, armedAt);
    if steps == [] {
      o := LoopStarts(st, dev, host, budget, noise, armedAt);
      lines, x := [], start;
    } else {
      var front, a := steps[..|steps| - 1], steps[|steps| - 1];
      var o1, shorter, before := LoopIsLine(st, dev, host, budget, noise, armedAt, front);
      x := LoopStepOf(st.judge, st.image, before, a);
      o, lines := FollowerStep(st, start.line, before, o1, shorter, a, x);
    }
    LocatedIsTyped(st, x.line, o);
  }

  // ----- Delivery and success -----

  // With deadlines in force: every frame is queued once and in order, the packet ring never overflows, and the
  // flash holds a prefix of the image.
  lemma LoopInOrder(st: Setting, dev: Boot, host: Host, budget: nat, noise: Noise, armedAt: nat, steps: seq<LoopStep>)
    requires ReadyAt(st, dev, host, armedAt) && Prompt(st, LoopBegun(dev, host, budget, noise, armedAt), steps)
    requires Transferable(st.image)
    ensures InOrder(st, LoopRun(st, LoopBegun(dev, host, budget, noise, armedAt), steps).line)
  {
    var o, lines, x := LoopIsLine(st, dev, host, budget, noise, armedAt, steps);
    QueuedOnceInOrder(st, dev, host, budget, noise, lines);
  }

  lemma LoopSuccessOnlyIf(st: Setting, dev: Boot, host: Host, budget: nat, noise: Noise, armedAt: nat, steps: seq<LoopStep>)
    requires ReadyAt(st, dev, host, armedAt) && Prompt(st, LoopBegun(dev, host, budget, noise, armedAt), steps)
    ensures var d := LoopRun(st, LoopBegun(dev, host, budget, noise, armedAt), steps).line.dev;
      Success() in d.link.sent ==> Succeeds(st, d)
  {
    var o, lines, x := LoopIsLine(st, dev, host, budget, noise, armedAt, steps);
    SuccessOnlyIf(st, dev, host, budget, noise, lines);
  }

  // ----- Standstill -----

  // No step in time changes the line any more.
  ghost predicate LoopAtRest(st: Setting, x: Loop)
    requires TypedLine(x.line, st.image)
  {
    forall a: LoopStep :: InTime(x, a) ==> LoopStepOf(st.judge, st.image, x, a).line == x.line
  }

  lemma TurnReads(judge: Judge, l: Line, now: nat)
    requires WellTyped(l.dev) && Running(l.dev) && l.toDev != []
    ensures LoopTurn(judge, l, |l.toDev|, now) != l
  {}

  lemma TurnWithoutBytes(judge: Judge, x: Loop)
    requires WellTyped(x.line.dev) && Running(x.line.dev) && OnTime(x)
    ensures LoopTurn(judge, x.line, 0, x.armedAt) == DevTurn(judge, x.line, x.armedAt)
  {
    NothingRead(x.line, 0);
    TurnInTime(judge, x, 0, x.armedAt, x.line, LoopTurn(judge, x.line, 0, x.armedAt));
  }

  lemma TurnChangesNothing(st: Setting, x: Loop, k: nat)
    requires TypedLine(x.line, st.image) && OnTime(x) && LoopAtRest(st, x)
    ensures LoopTurn(st.judge, x.line, k, x.armedAt) == x.line
  {
    assert InTime(x, Turns(k, x.armedAt));
    assert LoopStepOf(st.judge, st.image, x, Turns(k, x.armedAt)).line == LoopTurn(st.judge, x.line, k, x.armedAt);
  }

  lemma HostStepAtRest(st: Setting, x: Loop)
    requires TypedLine(x.line, st.image) && LoopAtRest(st, x)
    ensures x.line.toHost == [] && !CanWake(x.line.host)
  {
    assert LoopStepOf(st.judge, st.image, x, Hears(Clean)).line == x.line;
    assert LoopStepOf(st.judge, st.image, x, Wakes(Clean)).line == x.line;
    if x.line.toHost != [] {
      HostByteShortens(x.line);
    }
    if CanWake(x.line.host) {
      WakingMoves(x.line, st.image);
    }
  }

  lemma QuietDevice(judge: Judge, l: Line, now: nat)
    requires WellTyped(l.dev) && DevTurn(judge, l, now) == l
    ensures !CanTake(l.dev) && !CanAsk(l.dev)
  {
    if CanTake(l.dev) {
      TakingMoves(judge, l, now);
    }
    if CanAsk(l.dev) {
      AskingMoves(judge, l, now);
    }
  }

  lemma TurnAtRest(st: Setting, x: Loop)
    requires TypedLine(x.line, st.image) && OnTime(x) && LoopAtRest(st, x) && Running(x.line.dev)
    ensures x.line.toDev == [] && !CanTake(x.line.dev) && !CanAsk(x.line.dev)
  {
    TurnChangesNothing(st, x, |x.line.toDev|);
    if x.line.toDev != [] {
      TurnReads(st.judge, x.line, x.armedAt);
    }
    TurnChangesNothing(st, x, 0);
    TurnWithoutBytes(st.judge, x);
    QuietDevice(st.judge, x.line, x.armedAt);
  }

  lemma AtRestMeansNothingToDo(st: Setting, x: Loop)
    requires TypedLine(x.line, st.image) && OnTime(x) && LoopAtRest(st, x)
    ensures NothingToDo(x.line)
  {
    HostStepAtRest(st, x);
    if Running(x.line.dev) {
      TurnAtRest(st, x);
    }
  }

  // A transfer that has come to a standstill has come to its end.
  lemma LoopEndsWell(st: Setting, dev: Boot, host: Host, budget: nat, noise: Noise, armedAt: nat, steps: seq<LoopStep>)
    requires ReadyAt(st, dev, host, armedAt) && Prompt(st, LoopBegun(dev, host, budget, noise, armedAt), steps)
    requires Transferable(st.image)
    ensures var x := LoopRun(st, LoopBegun(dev, host, budget, noise, armedAt), steps);
      TypedLine(x.line, st.image) && (LoopAtRest(st, x) ==> Ended(st, x.line.dev, x.line.host.place))
  {
    var o, lines, x := LoopIsLine(st, dev, host, budget, noise, armedAt, steps);
    if LoopAtRest(st, x) {
      AtRestMeansNothingToDo(st, x);
      NothingToDoIsTheEnd(st, x.line, o.s, o.n, o.ph);
    }
  }

  // And so has one with an image that cannot be transferred.
  lemma LoopUntransferableEnds(st: Setting, dev: Boot, host: Host, budget: nat, noise: Noise, armedAt: nat,
                    steps: seq<LoopStep>)
    requires ReadyAt(st, dev, host, armedAt) && Prompt(st, LoopBegun(dev, host, budget, noise, armedAt), steps)
    requires !Transferable(st.image)
    ensures var x := LoopRun(st, LoopBegun(dev, host, budget, noise, armedAt), steps);
      TypedLine(x.line, st.image) && (LoopAtRest(st, x) ==> NotInstalled(st, x.line.dev, x.line.host.place))
  {
    var o, lines, x := LoopIsLine(st, dev, host, budget, noise, armedAt, steps);
    if LoopAtRest(st, x) {
      AtRestMeansNothingToDo(st, x);
      if InStretch(st, x.line, o.s, o.n, o.ph) {
        EndOnlyIfTransferable(st, x.line, o.s, o.n, o.ph);
      }
      LostEnds(st, x.line, o.s);
    }
  }

  // Success is reported exactly for those images that can be transferred and are genuine once in flash.
  lemma LoopSuccessExactlyWhen(st: Setting, dev: Boot, host: Host, budget: nat, noise: Noise, armedAt: nat,
                    steps: seq<LoopStep>)
    requires ReadyAt(st, dev, host, armedAt) && Prompt(st, LoopBegun(dev, host, budget, noise, armedAt), steps)
    requires TypedLine(LoopRun(st, LoopBegun(dev, host, budget, noise, armedAt), steps).line, st.image)
    requires LoopAtRest(st, LoopRun(st, LoopBegun(dev, host, budget, noise, armedAt), steps))
    ensures Success() in LoopRun(st, LoopBegun(dev, host, budget, noise, armedAt), steps).line.dev.link.sent
       <==> Transferable(st.image) && FinalVerdict(st) == Genuine
  {
    LoopSuccessOnlyIf(st, dev, host, budget, noise, armedAt, steps);
    if Transferable(st.image) {
      LoopEndsWell(st, dev, host, budget, noise, armedAt, steps);
    }
  }

  // ----- Standstill is reached -----

  function WeightAt(st: Setting, l: Line, o: Spot): int
    requires Fits(st)
  {
    Weight(st, l, o.s, o.n, o.ph)
  }

  ghost predicate Placed(st: Setting, l: Line, o: Spot)
    requires Fits(st)
  {
    InStretch(st, l, o.s, o.n, o.ph)
  }

  // The same line, or one nearer to the end.
  ghost predicate Onward(st: Setting, l: Line, o: Spot, l': Line, o': Spot)
    requires Fits(st)
  {
    (l' == l && o' == o) || WeightAt(st, l', o') < WeightAt(st, l, o)
  }

  lemma LineStepPays(st: Setting, l: Line, o: Spot, a: LineStep, l': Line) returns (o': Spot)
    requires Fits(st) && Transferable(st.image) && Placed(st, l, o) && TypedLine(l, st.image)
    requires l' == LineStepOf(st.judge, st.image, l, a)
    ensures Placed(st, l', o') && Onward(st, l, o, l', o')
  {
    if l' == l {
      o' := o;
    } else {
      var s', n', ph' := OneMoreStep(st, l, o.s, o.n, o.ph, a, l');
      o' := Spot(s', n', ph');
    }
  }

  lemma {:induction false} LinesPay(st: Setting, l: Line, o: Spot, lines: seq<LineStep>) returns (l': Line, o': Spot)
    requires Fits(st) && Transferable(st.image) && Placed(st, l, o)
    ensures l' == LineRun(st, l, lines) && Placed(st, l', o') && Onward(st, l, o, l', o')
  {
    if lines == [] {
      l', o' := l, o;
    } else {
      var front, a := lines[..|lines| - 1], lines[|lines| - 1];
      var l1, o1 := LinesPay(st, l, o, front);
      LocatedIsTyped(st, l1, o1);
      l' := LineStepOf(st.judge, st.image, l1, a);
      o' := LineStepPays(st, l1, o1, a, l');
    }
  }

  lemma LoopStepPays(st: Setting, x: Loop, o: Spot, a: LoopStep, x': Loop) returns (o': Spot)
    requires Fits(st) && Transferable(st.image) && Placed(st, x.line, o) && TypedLine(x.line, st.image)
    requires OnTime(x) && InTime(x, a) && x' == LoopStepOf(st.judge, st.image, x, a)
    ensures Placed(st, x'.line, o') && Onward(st, x.line, o, x'.line, o') && OnTime(x')
  {
    var o1, more := LoopStepIsSteps(st, x, o, a, x');
    var l': Line;
    l', o' := LinesPay(st, x.line, o, more);
  }

  // The number of steps that have changed the line.
  function LoopChanges(st: Setting, start: Loop, steps: seq<LoopStep>): nat {
    if steps == [] then 0
    else
      var front := steps[..|steps| - 1];
      LoopChanges(st, start, front) + (if LoopRun(st, start, steps).line == LoopRun(st, start, front).line then 0 else 1)
  }

  lemma StartWeight(st: Setting, dev: Boot, host: Host, budget: nat, noise: Noise, armedAt: nat) returns (o: Spot)
    requires ReadyAt(st, dev, host, armedAt) && Transferable(st.image)
    ensures Placed(st, LineBegun(dev, host, budget, noise), o) && OnTime(LoopBegun(dev, host, budget, noise, armedAt))
    ensures WeightAt(st, LineBegun(dev, host, budget, noise), o) <= MostChanges(st, budget)
  {
    o := LoopStarts(st, dev, host, budget, noise, armedAt);
    InitialWeight(st, dev, host, budget, noise);
  }

  // What the changes so far have cost.
  ghost predicate Paid(st: Setting, x: Loop, o: Spot, changes: nat, budget: nat)
    requires Fits(st)
  {
    Placed(st, x.line, o) && OnTime(x) && WeightAt(st, x.line, o) + changes <= MostChanges(st, budget)
  }

  lemma {:induction false} LoopPays(st: Setting, dev: Boot, host: Host, budget: nat, noise: Noise, armedAt: nat,
                    steps: seq<LoopStep>)
    returns (o: Spot, x: Loop)
    requires ReadyAt(st, dev, host, armedAt) && Prompt(st, LoopBegun(dev, host, budget, noise, armedAt), steps)
    requires Transferable(st.image)
    ensures x == LoopRun(st, LoopBegun(dev, host, budget, noise, armedAt), steps)
    ensures Paid(st, x, o, LoopChanges(st, LoopBegun(dev, host, budget, noise, armedAt), steps), budget)
  {
    var start := LoopBegun(dev, host, budget, noise, armedAt);
    if steps == [] {
      o := StartWeight(st, dev, host, budget, noise, armedAt);
      x := start;
    } else {
      var front, a := steps[..|steps| - 1], steps[|steps| - 1];
      var o1, before := LoopPays(st, dev, host, budget, noise, armedAt, front);
      LocatedIsTyped(st, before.line, o1);
      x := LoopStepOf(st.judge, st.image, before, a);
      o := LoopStepPays(st, before, o1, a, x);
    }
  }

  lemma PaidIsBounded(st: Setting, x: Loop, o: Spot, changes: nat, budget: nat)
    requires Fits(st) && Paid(st, x, o, changes, budget)
    ensures changes <= MostChanges(st, budget) && WeightAt(st, x.line, o) >= 0
  {
    WeightIsNatural(st, x.line, o.s, o.n, o.ph);
  }

  // No transfer goes on for ever.
  lemma LoopTransferEnds(st: Setting, dev: Boot, host: Host, budget: nat, noise: Noise, armedAt: nat, steps: seq<LoopStep>)
    requires ReadyAt(st, dev, host, armedAt) && Prompt(st, LoopBegun(dev, host, budget, noise, armedAt), steps)
    requires Transferable(st.image)
    ensures LoopChanges(st, LoopBegun(dev, host, budget, noise, armedAt), steps) <= MostChanges(st, budget)
  {
    var o, x := LoopPays(st, dev, host, budget, noise, armedAt, steps);
    PaidIsBounded(st, x, o, LoopChanges(st, LoopBegun(dev, host, budget, noise, armedAt), steps), budget);
  }

  lemma LoopRunMore(st: Setting, start: Loop, steps: seq<LoopStep>, x: Loop, a: LoopStep)
    requires x == LoopRun(st, start, steps) && TypedLine(x.line, st.image) && Prompt(st, start, steps) && InTime(x, a)
    ensures LoopRun(st, start, steps + [a]) == LoopStepOf(st.judge, st.image, x, a) && Prompt(st, start, steps + [a])
  {
    assert (steps + [a])[..|steps|] == steps;
  }

  lemma StepOnward(st: Setting, x: Loop, o: Spot) returns (a: LoopStep, x': Loop, o': Spot)
    requires Fits(st) && Transferable(st.image) && Placed(st, x.line, o) && OnTime(x)
    requires TypedLine(x.line, st.image) && !LoopAtRest(st, x)
    ensures InTime(x, a) && x' == LoopStepOf(st.judge, st.image, x, a) && Placed(st, x'.line, o') && OnTime(x')
    ensures 0 <= WeightAt(st, x'.line, o') < WeightAt(st, x.line, o)
  {
    a :| InTime(x, a) && LoopStepOf(st.judge, st.image, x, a).line != x.line;
    x' := LoopStepOf(st.judge, st.image, x, a);
    o' := LoopStepPays(st, x, o, a, x');
    WeightIsNatural(st, x'.line, o'.s, o'.n, o'.ph);
  }

  // The loop has come to a standstill.
  ghost predicate Rests(st: Setting, x: Loop) { TypedLine(x.line, st.image) && LoopAtRest(st, x) }

  lemma {:induction false} LoopCanRest(st: Setting, start: Loop, steps: seq<LoopStep>, x: Loop, o: Spot, weight: nat)
    returns (all: seq<LoopStep>)
    requires Fits(st) && Transferable(st.image) && x == LoopRun(st, start, steps) && Prompt(st, start, steps)
    requires Placed(st, x.line, o) && OnTime(x) && WeightAt(st, x.line, o) <= weight
    ensures steps <= all && Prompt(st, start, all) && Rests(st, LoopRun(st, start, all))
    decreases weight
  {
    LocatedIsTyped(st, x.line, o);
    if LoopAtRest(st, x) {
      all := steps;
    } else {
      var a, x', o' := StepOnward(st, x, o);
      LoopRunMore(st, start, steps, x, a);
      var rest := weight - 1;
      all := LoopCanRest(st, start, steps + [a], x', o', rest);
    }
  }

  // However a transfer has gone so far, it can be carried on to its end, in time.
  lemma LoopCanFinish(st: Setting, dev: Boot, host: Host, budget: nat, noise: Noise, armedAt: nat, steps: seq<LoopStep>)
    returns (all: seq<LoopStep>)
    requires ReadyAt(st, dev, host, armedAt) && Prompt(st, LoopBegun(dev, host, budget, noise, armedAt), steps)
    requires Transferable(st.image)
    ensures var start := LoopBegun(dev, host, budget, noise, armedAt); var x := LoopRun(st, start, all);
      steps <= all && Prompt(st, start, all) && Rests(st, x) && Ended(st, x.line.dev, x.line.host.place)
  {
    var o, x := LoopPays(st, dev, host, budget, noise, armedAt, steps);
    PaidIsBounded(st, x, o, LoopChanges(st, LoopBegun(dev, host, budget, noise, armedAt), steps), budget);
    all := LoopCanRest(st, LoopBegun(dev, host, budget, noise, armedAt), steps, x, o, WeightAt(st, x.line, o));
    LoopEndsWell(st, dev, host, budget, noise, armedAt, all);
  }

  // ----- The device is the main loop of UpdateRuns -----

  lemma ByteArrives(judge: Judge, flash: seq<bv8>, start: nat, actions: seq<Action>, d: Boot, b: bv8)
    requires |flash| == APP_FLASH_SIZE && d == Run(judge, flash, start, actions)
    ensures Run(judge, flash, start, actions + [Arrive(b)]) == d.(rx := d.rx + [b])
  {
    RunOneMore(judge, flash, start, actions, Arrive(b));
  }

  lemma {:induction false} BytesArrive(judge: Judge, flash: seq<bv8>, start: nat, actions: seq<Action>, d: Boot,
                    bytes: seq<bv8>)
    returns (longer: seq<Action>, d': Boot)
    requires |flash| == APP_FLASH_SIZE && d == Run(judge, flash, start, actions)
    ensures actions <= longer && d' == Run(judge, flash, start, longer) && d' == d.(rx := d.rx + bytes)
    decreases |bytes|
  {
    if bytes == [] {
      longer, d' := actions, d;
      assert d.rx + [] == d.rx;
    } else {
      var front, b := bytes[..|bytes| - 1], bytes[|bytes| - 1];
      var shorter, d1 := BytesArrive(judge, flash, start, actions, d, front);
      ByteArrives(judge, flash, start, shorter, d1, b);
      longer, d' := shorter + [Arrive(b)], d1.(rx := d1.rx + [b]);
      assert (d.rx + front) + [b] == d.rx + bytes;
    }
  }

  lemma TurnIsRun(judge: Judge, flash: seq<bv8>, start: nat, actions: seq<Action>, l: Line, k: nat, now: nat)
    returns (longer: seq<Action>)
    requires |flash| == APP_FLASH_SIZE && l.dev == Run(judge, flash, start, actions)
    ensures actions <= longer && LoopTurn(judge, l, k, now).dev == Run(judge, flash, start, longer)
  {
    if Running(l.dev) {
      var bytes := l.toDev[..Image.Min(k, |l.toDev|)];
      var arrived, d := BytesArrive(judge, flash, start, actions, l.dev, bytes);
      RunOneMore(judge, flash, start, arrived, Go(now));
      longer := arrived + [Go(now)];
    } else {
      longer := actions;
    }
  }

  lemma LoopStepIsRun(st: Setting, flash: seq<bv8>, start: nat, actions: seq<Action>, x: Loop, a: LoopStep)
    returns (longer: seq<Action>)
    requires |flash| == APP_FLASH_SIZE && TypedLine(x.line, st.image) && x.line.dev == Run(st.judge, flash, start, actions)
    ensures actions <= longer && LoopStepOf(st.judge, st.image, x, a).line.dev == Run(st.judge, flash, start, longer)
  {
    if a.Turns? {
      longer := TurnIsRun(st.judge, flash, start, actions, x.line, a.k, a.now);
    } else {
      HostStepKeepsDevice(st.judge, st.image, x.line, HostStepOf(a));
      longer := actions;
    }
  }

  // Whatever the updater and the line do, the device is always in a state of the main loop's runs: the same run,
  // continued with the bytes and turns of the loop.
  lemma {:induction false} LoopDeviceIsRun(st: Setting, flash: seq<bv8>, start: nat, actions: seq<Action>, x: Loop,
                    steps: seq<LoopStep>)
    returns (longer: seq<Action>)
    requires |flash| == APP_FLASH_SIZE && x.line.dev == Run(st.judge, flash, start, actions)
    ensures actions <= longer && LoopRun(st, x, steps).line.dev == Run(st.judge, flash, start, longer)
  {
    if steps == [] {
      longer := actions;
    } else {
      var front, a := steps[..|steps| - 1], steps[|steps| - 1];
      var shorter := LoopDeviceIsRun(st, flash, start, actions, x, front);
      var before := LoopRun(st, x, front);
      longer := shorter;
      if TypedLine(before.line, st.image) {
        longer := LoopStepIsRun(st, flash, start, shorter, before, a);
      }
    }
  }
}
