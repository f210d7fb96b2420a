// Bootloader and updater on the line, with the bootloader's main loop in whole turns: a turn takes in the bytes
// that have arrived since the turn before, and then goes through the switch statement, deadlines included.
// LineSession cuts such a turn into single bytes.
module LoopSession {
  import opened Packets
  import opened Link
  import opened Framing
  import Image
  import opened UpdateMachine
  import opened UpdateRuns
  import opened FrameSession
  import opened LineSession

  // One turn, after k more bytes have arrived. A device that has left its loop takes no turns.
  function LoopTurn(judge: Judge, l: Line, k: nat, now: nat): Line
    requires WellTyped(l.dev)
  {
    if !Running(l.dev) then l
    else
      var n := Image.Min(k, |l.toDev|);
      LineDeviceTo(l.(toDev := l.toDev[n..]), Turn(judge, l.dev.(rx := l.dev.rx + l.toDev[..n]), now))
  }

  // The device reads k bytes.
  function ReadBytes(l: Line, k: nat): (l': Line)
    requires Valid(l.dev.link)
    ensures Valid(l'.dev.link)
  {
    if k == 0 then l
    else
      var before := ReadBytes(l, k - 1);
      DevByteValid(before);
      DevByte(before)
  }

  lemma DevByteValid(l: Line)
    requires Valid(l.dev.link)
    ensures Valid(DevByte(l).dev.link)
  {
    if l.toDev != [] {
      FeedByteValid(l.dev.link, l.toDev[0]);
    }
  }

  // ----- What is sent -----

  lemma FeedByteSends(l: Link, b: bv8)
    requires Valid(l)
    ensures l.sent <= FeedByte(l, b).sent
  {}

  lemma {:induction false} FeedSends(l: Link, bytes: seq<bv8>)
    requires Valid(l)
    ensures l.sent <= Feed(l, bytes).sent
  {
    if bytes != [] {
      FeedSends(l, bytes[..|bytes| - 1]);
      FeedByteSends(Feed(l, bytes[..|bytes| - 1]), bytes[|bytes| - 1]);
    }
  }

  lemma StoreSends(judge: Judge, d: Boot, p: Packet, now: nat)
    requires Sized(p)
    ensures d.link.sent <= Store(judge, d, p, now).link.sent
  {}

  lemma PerformSends(judge: Judge, d: Boot, m: Move, now: nat)
    requires WellTyped(d) && (TakesPacket(m) ==> HasPacket(d))
    ensures d.link.sent <= Perform(judge, d, m, now).link.sent
  {
    if m == StoreChunk {
      TakenWellTyped(d);
      StoreSends(judge, Taken(d), d.link.queue[0], now);
    }
  }

  lemma NewlySentInParts(a: seq<Packet>, b: seq<Packet>, c: seq<Packet>)
    requires a <= b <= c && AllSized(c)
    ensures Encoded(NewlySent(a, c)) == Encoded(NewlySent(a, b)) + Encoded(NewlySent(b, c))
  {
    assert NewlySent(a, c) == NewlySent(a, b) + NewlySent(b, c);
    SmallConcat(NewlySent(a, b), NewlySent(b, c));
  }

  // Two moves of the device in succession are one.
  lemma TwoMoves(l: Line, d: Boot, c: Boot)
    requires l.dev.link.sent <= d.link.sent <= c.link.sent && AllSized(c.link.sent)
    ensures LineDeviceTo(LineDeviceTo(l, d), c) == LineDeviceTo(l, c)
  {
    NewlySentInParts(l.dev.link.sent, d.link.sent, c.link.sent);
    var x, y := Encoded(NewlySent(l.dev.link.sent, d.link.sent)), Encoded(NewlySent(d.link.sent, c.link.sent));
    assert (l.toHost + x) + y == l.toHost + (x + y);
  }

  lemma NoMove(l: Line)
    ensures LineDeviceTo(l, l.dev) == l
  {
    assert NewlySent(l.dev.link.sent, l.dev.link.sent) == [];
    assert l.toHost + Encoded([]) == l.toHost;
  }

  // ----- Reading byte by byte -----

  // The device with so many bytes of the line fed to its parser.
  function Fed(l: Line, k: nat): (d: Boot)
    requires Valid(l.dev.link) && k <= |l.toDev|
    ensures Valid(d.link)
  {
    l.dev.(link := Feed(l.dev.link, l.toDev[..k]))
  }

  lemma FedOneMore(l: Line, k: nat)
    requires Valid(l.dev.link) && k < |l.toDev|
    ensures Fed(l, k + 1) == l.dev.(link := FeedByte(Fed(l, k).link, l.toDev[k]))
    ensures l.dev.link.sent <= Fed(l, k).link.sent <= Fed(l, k + 1).link.sent
    ensures Running(Fed(l, k + 1)) ==> Running(Fed(l, k))
  {
    assert l.toDev[..k + 1] == l.toDev[..k] + [l.toDev[k]];
    FeedSnoc(l.dev.link, l.toDev[..k], l.toDev[k]);
    FeedSends(l.dev.link, l.toDev[..k]);
    FeedByteSends(Fed(l, k).link, l.toDev[k]);
  }

  lemma OneMoreRead(l: Line, k: nat, l': Line)
    requires Valid(l.dev.link) && k < |l.toDev| && Running(Fed(l, k))
    requires l' == LineDeviceTo(l.(toDev := l.toDev[k..]), Fed(l, k))
    ensures DevByte(l') == LineDeviceTo(l.(toDev := l.toDev[k + 1..]), Fed(l, k + 1))
  {
    FedOneMore(l, k);
    TwoMoves(l.(toDev := l.toDev[k + 1..]), Fed(l, k), Fed(l, k + 1));
    assert l.toDev[k..][1..] == l.toDev[k + 1..];
  }

  lemma {:induction false} ReadsMany(l: Line, k: nat)
    requires Valid(l.dev.link) && k <= |l.toDev| && Running(Fed(l, k))
    ensures ReadBytes(l, k) == LineDeviceTo(l.(toDev := l.toDev[k..]), Fed(l, k))
  {
    if k == 0 {
      assert l.toDev[0..] == l.toDev && Fed(l, 0) == l.dev;
      NoMove(l);
    } else {
      FedOneMore(l, k - 1);
      ReadsMany(l, k - 1);
      OneMoreRead(l, k - 1, ReadBytes(l, k - 1));
    }
  }

  // ----- A turn is its bytes, one by one, and then its switch statement -----

  lemma TurnIsSwitch(judge: Judge, l: Line, k: nat, now: nat)
    requires WellTyped(l.dev) && l.dev.mode != Sync && l.dev.rx == [] && k <= |l.toDev| && Running(Fed(l, k))
    ensures WellTyped(Fed(l, k))
    ensures Turn(judge, l.dev.(rx := l.dev.rx + l.toDev[..k]), now) == Switch(judge, Fed(l, k), now)
  {
    assert l.dev.rx + l.toDev[..k] == l.toDev[..k];
    assert Drained(l.dev.(rx := l.toDev[..k])) == Fed(l, k);
    FedRunsAll(l, k);
  }

  lemma FedRunsAll(l: Line, k: nat)
    requires Valid(l.dev.link) && k <= |l.toDev| && Running(Fed(l, k))
    ensures Running(l.dev)
  {
    if l.dev.link.halted {
      FeedHalted(l.dev.link, l.toDev[..k]);
    }
  }

  lemma TurnInBytes(judge: Judge, l: Line, k: nat, now: nat)
    requires WellTyped(l.dev) && l.dev.mode != Sync && l.dev.rx == [] && k <= |l.toDev| && Running(Fed(l, k))
    requires WellTyped(Fed(l, k)) && Decide(Fed(l, k), now) != TimeOut && WellTyped(Switch(judge, Fed(l, k), now))
    ensures ReadBytes(l, k).dev == Fed(l, k)
    ensures LoopTurn(judge, l, k, now) == DevTurn(judge, ReadBytes(l, k), now)
  {
    var l1 := l.(toDev := l.toDev[k..]);
    var c := Switch(judge, Fed(l, k), now);
    ReadsMany(l, k);
    FedRunsAll(l, k);
    TurnIsSwitch(judge, l, k, now);
    FeedSends(l.dev.link, l.toDev[..k]);
    PerformSends(judge, Fed(l, k), Decide(Fed(l, k), now), now);
    TwoMoves(l1, Fed(l, k), c);
  }
}
