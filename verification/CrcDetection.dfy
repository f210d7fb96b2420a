// Which transmission errors CRC-8 detects. An error is the sequence of flipped bits of a frame; the
// receiver's check passes exactly when the register ends at 0 on message and CRC together.
module CrcDetection {
  import opened GaloisField
  import opened Crc8
  import opened CrcPolynomial

  // ----- Stepping is linear and loses nothing -----

  lemma StepBitAdd(a: bv8, b: bv8)
    ensures StepBit(Add(a, b)) == Add(StepBit(a), StepBit(b))
  {}

  lemma StepBitNonzero(r: bv8)
    ensures StepBit(r) == 0 <==> r == 0
  {}

  lemma {:induction false} StepsNonzero(r: bv8, n: nat)
    ensures Steps(r, n) == 0 <==> r == 0
  {
    if n > 0 {
      StepsNonzero(r, n - 1);
      StepBitNonzero(Steps(r, n - 1));
    }
  }

  lemma {:induction false} StepsOfSum(r: bv8, m: nat, n: nat)
    ensures Steps(r, m + n) == Steps(Steps(r, m), n)
    decreases n
  {
    if n > 0 {
      StepsOfSum(r, m, n - 1);
    }
  }

  // ----- The receiver's check -----

  lemma {:induction false} RegisterAdds(a: bv8, b: bv8, p: Bits, e: Bits)
    requires |p| == |e|
    ensures Register(Add(a, b), Flipped(p, e)) == Add(Register(a, p), Register(b, e))
  {
    if p != [] {
      var n := |p| - 1;
      RegisterAdds(a, b, p[..n], e[..n]);
      assert Flipped(p, e)[..n] == Flipped(p[..n], e[..n]);
      FeedAdds(Register(a, p[..n]), Register(b, e[..n]), p[n], e[n]);
    }
  }

  // The bits p with those flipped that are set in e.
  function Flipped(p: Bits, e: Bits): (bits: Bits)
    requires |p| == |e|
    ensures |bits| == |p|
  {
    seq(|p|, k requires 0 <= k < |p| && |p| == |e| => Xor(p[k], e[k]))
  }

  lemma FeedAdds(r: bv8, s: bv8, a: bool, b: bool)
    ensures Feed(Add(r, s), Xor(a, b)) == Add(Feed(r, a), Feed(s, b))
  {
    AddZero(0x80);
    AddZero(0);
    assert TopBit(Xor(a, b)) == Add(TopBit(a), TopBit(b));
    AddSwap(r, s, TopBit(a), TopBit(b));
    StepBitAdd(Add(r, TopBit(a)), Add(s, TopBit(b)));
  }

  // The check that comms_update and the host make on a frame: the last byte is the CRC of the others.
  predicate FrameChecks(frame: seq<bv8>) {
    |frame| >= 1 && frame[|frame| - 1] == Crc(frame[..|frame| - 1])
  }

  // A message followed by its CRC leaves 0, and a message followed by anything else does not.
  lemma ResidueOfFrame(frame: seq<bv8>)
    requires |frame| >= 1
    ensures FrameChecks(frame) <==> Crc(frame) == 0
  {
    var c, r := frame[|frame| - 1], Crc(frame[..|frame| - 1]);
    StepsNonzero(Add(r, c), 8);
    SumIsZero(r, c);
  }

  lemma SumIsZero(a: bv8, b: bv8)
    ensures Add(a, b) == 0 <==> a == b
  {}

  // An error that turns one good frame into another of the same length is one whose own register is 0.
  lemma UndetectedExactlyWhen(frame: seq<bv8>, received: seq<bv8>, e: Bits)
    requires FrameChecks(frame) && |received| == |frame| && |e| == 8 * |frame|
    requires MessageBits(received) == Flipped(MessageBits(frame), e)
    ensures FrameChecks(received) <==> Register(0, e) == 0
  {
    ResidueOfFrame(frame);
    ResidueOfFrame(received);
    CrcIsRegister(0, frame);
    CrcIsRegister(0, received);
    AddZero(0);
    RegisterAdds(0, 0, MessageBits(frame), e);
    AddZero(Register(0, e));
  }

  // ----- An odd number of flips -----

  function OddBits(e: Bits): bool {
    if e == [] then false else Xor(OddBits(e[..|e| - 1]), e[|e| - 1])
  }

  function OddByte(r: bv8): bool {
    var r4 := r ^ (r >> 4);
    var r2 := r4 ^ (r4 >> 2);
    (r2 ^ (r2 >> 1)) & 1 != 0
  }

  lemma FeedKeepsParity(r: bv8, bit: bool)
    ensures OddByte(Feed(r, bit)) == Xor(OddByte(r), bit)
  {}

  lemma {:induction false} RegisterParity(e: Bits)
    ensures OddByte(Register(0, e)) == OddBits(e)
  {
    if e != [] {
      RegisterParity(e[..|e| - 1]);
      FeedKeepsParity(Register(0, e[..|e| - 1]), e[|e| - 1]);
    }
  }

  lemma DetectsOddErrors(e: Bits)
    requires OddBits(e)
    ensures Register(0, e) != 0
  {
    RegisterParity(e);
  }

  // ----- A burst of at most eight bits -----

  function Zeros(n: nat): (bits: Bits)
    ensures |bits| == n
  {
    seq(n, _ => false)
  }

  lemma {:induction false} RegisterOfZeros(r: bv8, n: nat)
    ensures Register(r, Zeros(n)) == Steps(r, n)
    decreases n
  {
    if n > 0 {
      RegisterOfZeros(r, n - 1);
      assert Zeros(n)[..n - 1] == Zeros(n - 1);
      AddZero(Register(r, Zeros(n - 1)));
    }
  }

  lemma ZeroSteps(n: nat)
    ensures Steps(0, n) == 0
  {
    StepsNonzero(0, n);
  }

  // A byte's worth of bits at place s, and nothing set before or after it.
  lemma DetectsByteAnywhere(before: nat, b: bv8, after: nat)
    requires b != 0
    ensures Register(0, Zeros(before) + BitsOf(b) + Zeros(after)) != 0
  {
    RegisterOfConcat(0, Zeros(before) + BitsOf(b), Zeros(after));
    RegisterOfConcat(0, Zeros(before), BitsOf(b));
    RegisterOfZeros(0, before);
    ZeroSteps(before);
    RegisterOfByte(0, b);
    AddZero(b);
    StepsNonzero(b, 8);
    RegisterOfZeros(Steps(b, 8), after);
    StepsNonzero(Steps(b, 8), after);
  }

  function Weight(bit: bool, value: bv8): bv8 { if bit then value else 0 }

  function ByteFrom(w: Bits): bv8
    requires |w| == 8
  {
    Weight(w[0], 0x80) | Weight(w[1], 0x40) | Weight(w[2], 0x20) | Weight(w[3], 0x10)
    | Weight(w[4], 0x08) | Weight(w[5], 0x04) | Weight(w[6], 0x02) | Weight(w[7], 0x01)
  }

  // All set bits lie within eight consecutive places.
  ghost predicate IsBurst(e: Bits, s: nat) {
    && (exists k: nat :: k < |e| && e[k])
    && forall k: nat :: k < |e| && e[k] ==> s <= k < s + 8
  }

  lemma BurstAsByte(e: Bits, s: nat, before: nat)
    requires IsBurst(e, s) && before + 8 <= |e| && (before == s || (before < s && before + 8 == |e|))
    ensures e == Zeros(before) + e[before..before + 8] + Zeros(|e| - before - 8)
  {}

  lemma SomeBitSet(w: Bits, k: nat)
    requires |w| == 8 && k < 8 && w[k]
    ensures BitsOf(ByteFrom(w)) == w && ByteFrom(w) != 0
  {}

  // A burst is one nonzero byte among zeros.
  lemma BurstIsByte(e: Bits, s: nat) returns (before: nat, b: bv8)
    requires IsBurst(e, s) && |e| >= 8
    ensures b != 0 && before + 8 <= |e| && e == Zeros(before) + BitsOf(b) + Zeros(|e| - before - 8)
  {
    before := if s + 8 <= |e| then s else |e| - 8;
    var w := e[before..before + 8];
    var k: nat :| k < |e| && e[k];
    assert w[k - before] == e[k];
    SomeBitSet(w, k - before);
    BurstAsByte(e, s, before);
    b := ByteFrom(w);
  }

  lemma DetectsBursts(e: Bits, s: nat)
    requires IsBurst(e, s) && |e| >= 8
    ensures Register(0, e) != 0
  {
    var before, b := BurstIsByte(e, s);
    DetectsByteAnywhere(before, b, |e| - before - 8);
  }

  // ----- Two flips -----

  function TwoBits(i: nat, d: nat, after: nat): Bits
    requires d > 0
  {
    Zeros(i) + [true] + Zeros(d - 1) + [true] + Zeros(after)
  }

  lemma RegisterOfTwoBits(i: nat, d: nat, after: nat)
    requires d > 0
    ensures Register(0, TwoBits(i, d, after)) == 0 <==> Steps(0x80, d) == 0x80
  {
    var a := Zeros(i) + [true];
    var b := a + Zeros(d - 1);
    var c := b + [true];
    RegisterOfZeros(0, i);
    ZeroSteps(i);
    assert a[..i] == Zeros(i);
    AddZero(0x80);
    assert Register(0, a) == StepBit(0x80);
    RegisterOfConcat(0, a, Zeros(d - 1));
    RegisterOfZeros(StepBit(0x80), d - 1);
    OneStep(0x80);
    StepsOfSum(0x80, 1, d - 1);
    assert Register(0, b) == Steps(0x80, d);
    assert c[..|c| - 1] == b;
    assert Register(0, c) == StepBit(Add(Steps(0x80, d), 0x80));
    RegisterOfConcat(0, c, Zeros(after));
    RegisterOfZeros(Register(0, c), after);
    StepsNonzero(Register(0, c), after);
    StepBitNonzero(Add(Steps(0x80, d), 0x80));
    SumIsZero(Steps(0x80, d), 0x80);
  }

  lemma OneStep(r: bv8)
    ensures Steps(r, 1) == StepBit(r)
  {}

  // x has order 127 modulo g: 127 steps lead back ...
  lemma HalfCycle()
    ensures Steps(0x80, 64) == 0xbf
  {
    assert Steps(0x80, 8) == 0x89;
    StepsOfSum(0x80, 0, 8);
    assert Steps(0x89, 8) == 0xb6;
    StepsOfSum(0x80, 8, 8);
    assert Steps(0xb6, 8) == 0x0b;
    StepsOfSum(0x80, 16, 8);
    assert Steps(0x0b, 8) == 0x31;
    StepsOfSum(0x80, 24, 8);
    assert Steps(0x31, 8) == 0x97;
    StepsOfSum(0x80, 32, 8);
    assert Steps(0x97, 8) == 0xec;
    StepsOfSum(0x80, 40, 8);
    assert Steps(0xec, 8) == 0x8a;
    StepsOfSum(0x80, 48, 8);
    assert Steps(0x8a, 8) == 0xbf;
    StepsOfSum(0x80, 56, 8);
  }

  lemma FullCycle()
    ensures Steps(0x80, 127) == 0x80
  {
    HalfCycle();
    assert Steps(0xbf, 8) == 0x34;
    StepsOfSum(0x80, 64, 8);
    assert Steps(0x34, 8) == 0x8c;
    StepsOfSum(0x80, 72, 8);
    assert Steps(0x8c, 8) == 0xad;
    StepsOfSum(0x80, 80, 8);
    assert Steps(0xad, 8) == 0x4a;
    StepsOfSum(0x80, 88, 8);
    assert Steps(0x4a, 8) == 0xf1;
    StepsOfSum(0x80, 96, 8);
    assert Steps(0xf1, 8) == 0xd9;
    StepsOfSum(0x80, 104, 8);
    assert Steps(0xd9, 8) == 0x01;
    StepsOfSum(0x80, 112, 8);
    assert Steps(0x01, 7) == 0x80;
    StepsOfSum(0x80, 120, 7);
  }

  // ... so any number of steps counts modulo 127 ...
  lemma {:induction false} StepsMultiple(r: bv8, d: nat, q: nat, m: nat)
    requires Steps(r, d) == r
    ensures Steps(r, q * d + m) == Steps(r, m)
    decreases q
  {
    if q > 0 {
      assert q * d + m == d + ((q - 1) * d + m);
      StepsOfSum(r, d, (q - 1) * d + m);
      StepsMultiple(r, d, q - 1, m);
    }
  }

  lemma StepsModulo(r: bv8, d: nat, n: nat)
    requires d > 0 && Steps(r, d) == r
    ensures Steps(r, n) == Steps(r, n % d)
  {
    StepsMultiple(r, d, n / d, n % d);
  }

  // ... and no smaller number leads back: 127 is prime, so it would bring the order down to 1.
  lemma {:induction false} NoShorterCycle(d: nat)
    requires 0 < d < 127
    ensures Steps(0x80, d) != 0x80
    decreases d
  {
    if d == 1 {
      OneStep(0x80);
    } else if Steps(0x80, d) == 0x80 {
      FullCycle();
      StepsModulo(0x80, d, 127);
      Prime127(d);
      NoShorterCycle(127 % d);
    }
  }

  lemma Prime127(d: nat)
    requires 1 < d < 127
    ensures 0 < 127 % d < d
  {}

  lemma StepsReturnExactlyWhen(d: nat)
    ensures Steps(0x80, d) == 0x80 <==> d % 127 == 0
  {
    FullCycle();
    StepsModulo(0x80, 127, d);
    if d % 127 != 0 {
      NoShorterCycle(d % 127);
    }
  }

  // Two flips d places apart escape the check exactly when d is a multiple of 127.
  lemma DetectsTwoFlips(i: nat, d: nat, after: nat)
    requires d > 0
    ensures Register(0, TwoBits(i, d, after)) != 0 <==> d % 127 != 0
  {
    RegisterOfTwoBits(i, d, after);
    StepsReturnExactlyWhen(d);
  }

  // ----- Frames -----

  ghost predicate IsTwoFlips(e: Bits) {
    exists i: nat, d: nat, after: nat :: d > 0 && d % 127 != 0 && e == TwoBits(i, d, after)
  }

  // An odd number of flips, a burst of at most eight bits, or two flips whose distance is no multiple of 127.
  ghost predicate IsDetectable(e: Bits) { OddBits(e) || (exists s: nat :: IsBurst(e, s)) || IsTwoFlips(e) }

  // A good frame hit by an odd number of flips, by a burst of at most eight bits, or by two flips whose
  // distance is no multiple of 127 fails the receiver's check.
  lemma CorruptedFrameFails(frame: seq<bv8>, received: seq<bv8>, e: Bits)
    requires FrameChecks(frame) && |received| == |frame| && |e| == 8 * |frame|
    requires MessageBits(received) == Flipped(MessageBits(frame), e)
    requires IsDetectable(e)
    ensures !FrameChecks(received)
  {
    UndetectedExactlyWhen(frame, received, e);
    if OddBits(e) {
      DetectsOddErrors(e);
    } else if s: nat :| IsBurst(e, s) {
      DetectsBursts(e, s);
    } else {
      var i: nat, d: nat, after: nat :| d > 0 && d % 127 != 0 && e == TwoBits(i, d, after);
      DetectsTwoFlips(i, d, after);
    }
  }
}
