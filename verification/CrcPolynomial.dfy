// CRC-8 as a remainder of polynomials over GF(2). A polynomial is its coefficients as a sequence of
// bits, highest power first.
module CrcPolynomial {
  import opened GaloisField
  import opened Crc8

  type Bits = seq<bool>

  function Xor(a: bool, b: bool): bool { a != b }

  // Bit k of a byte, counted from the most significant.
  function BitAt(b: bv8, k: nat): bool
    requires k < 8
  {
    match k
    case 0 => b & 0x80 != 0
    case 1 => b & 0x40 != 0
    case 2 => b & 0x20 != 0
    case 3 => b & 0x10 != 0
    case 4 => b & 0x08 != 0
    case 5 => b & 0x04 != 0
    case 6 => b & 0x02 != 0
    case 7 => b & 0x01 != 0
  }

  function BitsOf(b: bv8): (bits: Bits)
    ensures |bits| == 8
  {
    seq(8, k requires 0 <= k < 8 => BitAt(b, k))
  }

  function MessageBits(data: seq<bv8>): (bits: Bits)
    ensures |bits| == 8 * |data|
  {
    if data == [] then [] else MessageBits(data[..|data| - 1]) + BitsOf(data[|data| - 1])
  }

  // ----- The register, fed one bit at a time -----

  function TopBit(bit: bool): bv8 { if bit then 0x80 else 0 }

  function Feed(r: bv8, bit: bool): bv8 { StepBit(Add(r, TopBit(bit))) }

  function Register(r: bv8, bits: Bits): bv8 {
    if bits == [] then r else Feed(Register(r, bits[..|bits| - 1]), bits[|bits| - 1])
  }

  lemma {:induction false} RegisterOfConcat(r: bv8, a: Bits, b: Bits)
    ensures Register(r, a + b) == Register(Register(r, a), b)
  {
    if b == [] {
      assert a + b == a;
    } else {
      var n := |b| - 1;
      assert (a + b)[..|a + b| - 1] == a + b[..n];
      RegisterOfConcat(r, a, b[..n]);
    }
  }

  // Adding a byte and stepping is feeding its top bit and adding the rest, one place up.
  lemma FeedTop(r: bv8, b: bv8)
    ensures StepBit(Add(r, b)) == Add(Feed(r, b & 0x80 != 0), b << 1)
  {}

  function ShiftedLeft(b: bv8, n: nat): bv8
    decreases n
  {
    if n == 0 then b else ShiftedLeft(b, n - 1) << 1
  }

  lemma TopOfShifted(b: bv8, n: nat)
    requires n < 8
    ensures ShiftedLeft(b, n) & 0x80 != 0 <==> BitAt(b, n)
    ensures ShiftedLeft(b, 8) == 0
  {}

  lemma {:induction false} FeedPrefix(r: bv8, b: bv8, n: nat)
    requires n <= 8
    ensures Steps(Add(r, b), n) == Add(Register(r, BitsOf(b)[..n]), ShiftedLeft(b, n))
  {
    if n > 0 {
      FeedPrefix(r, b, n - 1);
      FeedTop(Register(r, BitsOf(b)[..n - 1]), ShiftedLeft(b, n - 1));
      TopOfShifted(b, n - 1);
      assert BitsOf(b)[..n][..n - 1] == BitsOf(b)[..n - 1];
    }
  }

  lemma RegisterOfByte(r: bv8, b: bv8)
    ensures Register(r, BitsOf(b)) == Steps(Add(r, b), 8)
  {
    FeedPrefix(r, b, 8);
    TopOfShifted(b, 0);
    assert BitsOf(b)[..8] == BitsOf(b);
    AddZero(Register(r, BitsOf(b)));
  }

  lemma AddZero(a: bv8)
    ensures Add(a, 0) == a && Add(0, a) == a && Add(a, a) == 0
  {}

  // The byte-wise loop is the bit-serial register.
  lemma {:induction false} CrcIsRegister(r: bv8, data: seq<bv8>)
    ensures CrcFrom(r, data) == Register(r, MessageBits(data))
  {
    if data != [] {
      var n := |data| - 1;
      CrcIsRegister(r, data[..n]);
      RegisterOfConcat(r, MessageBits(data[..n]), BitsOf(data[n]));
      RegisterOfByte(CrcFrom(r, data[..n]), data[n]);
    }
  }

  // ----- Division by g = x^8 + x^2 + x + 1 -----

  function Coefficient(p: Bits, k: int): bool { if 0 <= k < |p| then p[k] else false }

  // The coefficient at place k of q * g, the places counted from the highest power of the product.
  function ProductWithG(q: Bits, k: int): bool {
    Xor(Xor(Coefficient(q, k), Coefficient(q, k - 6)), Xor(Coefficient(q, k - 7), Coefficient(q, k - 8)))
  }

  // p * x^8 == q * g + r, with r of degree below 8.
  ghost predicate Divides(p: Bits, q: Bits, r: bv8) {
    |q| == |p| &&
    forall k {:trigger ProductWithG(q, k)} :: 0 <= k < |p| + 8 ==>
      Coefficient(p, k) == Xor(ProductWithG(q, k), k >= |p| && BitAt(r, k - |p|))
  }

  ghost predicate IsRemainder(p: Bits, r: bv8) { exists q: Bits :: Divides(p, q, r) }

  // The quotient: the bits that leave the register.
  function Quotient(p: Bits): (q: Bits)
    ensures |q| == |p|
  {
    if p == [] then []
    else
      var n := |p| - 1;
      Quotient(p[..n]) + [Xor(BitAt(Register(0, p[..n]), 0), p[n])]
  }

  // What feeding a bit does to the bits of the register: a shift, and g's low bits if a bit leaves.
  lemma FeedBits(r: bv8, bit: bool, j: nat)
    requires j < 8
    ensures BitAt(Feed(r, bit), j)
         == Xor(j < 7 && BitAt(r, j + 1), j >= 5 && Xor(BitAt(r, 0), bit))
  {}

  lemma ProductOfExtended(q: Bits, c: bool, k: int)
    ensures ProductWithG(q + [c], k)
         == Xor(ProductWithG(q, k), c && (k == |q| || k == |q| + 6 || k == |q| + 7 || k == |q| + 8))
  {}

  // One more coefficient of the dividend: one more of the quotient, and the register fed with it.
  lemma DividesExtended(p: Bits, q: Bits, r: bv8, bit: bool)
    requires Divides(p, q, r)
    ensures Divides(p + [bit], q + [Xor(BitAt(r, 0), bit)], Feed(r, bit))
  {
    var n, c := |p|, Xor(BitAt(r, 0), bit);
    var p', q', r' := p + [bit], q + [c], Feed(r, bit);
    forall k | 0 <= k < n + 9
      ensures Coefficient(p', k) == Xor(ProductWithG(q', k), k >= n + 1 && BitAt(r', k - n - 1))
    {
      ProductOfExtended(q, c, k);
      if k < n + 8 {
        assert Coefficient(p, k) == Xor(ProductWithG(q, k), k >= n && BitAt(r, k - n));
      }
      if k > n {
        FeedBits(r, bit, k - n - 1);
      }
    }
  }

  lemma {:induction false} RegisterIsRemainder(p: Bits)
    ensures Divides(p, Quotient(p), Register(0, p))
  {
    if p == [] {
      assert forall k :: 0 <= k < 8 ==> !BitAt(0, k);
    } else {
      var n := |p| - 1;
      RegisterIsRemainder(p[..n]);
      DividesExtended(p[..n], Quotient(p[..n]), Register(0, p[..n]), p[n]);
      assert p == p[..n] + [p[n]];
    }
  }

  // Division leaves no choice: the quotient is determined from its highest coefficient down ...
  lemma {:induction false} SameQuotient(p: Bits, q: Bits, r: bv8, q': Bits, r': bv8, n: nat)
    requires Divides(p, q, r) && Divides(p, q', r') && n <= |p|
    ensures q[..n] == q'[..n]
  {
    if n > 0 {
      SameQuotient(p, q, r, q', r', n - 1);
      var k := n - 1;
      assert forall i :: 0 <= i < k ==> q[i] == q[..k][i] && q'[i] == q'[..k][i];
      assert Coefficient(p, k) == Xor(ProductWithG(q, k), false) == Xor(ProductWithG(q', k), false);
      assert q[k] == q'[k];
      assert q[..n] == q[..k] + [q[k]] && q'[..n] == q'[..k] + [q'[k]];
    }
  }

  // ... and the remainder with it.
  lemma SameRemainder(p: Bits, q: Bits, r: bv8, q': Bits, r': bv8)
    requires Divides(p, q, r) && Divides(p, q', r')
    ensures q == q' && r == r'
  {
    SameQuotient(p, q, r, q', r', |p|);
    assert q == q[..|p|] && q' == q'[..|p|];
    forall j: nat | j < 8 ensures BitAt(r, j) == BitAt(r', j) {
      var k := |p| + j;
      assert Coefficient(p, k) == Xor(ProductWithG(q, k), BitAt(r, j));
      assert Coefficient(p, k) == Xor(ProductWithG(q', k), BitAt(r', j));
    }
    SameBits(r, r');
  }

  lemma SameBits(a: bv8, b: bv8)
    requires forall j: nat :: j < 8 ==> BitAt(a, j) == BitAt(b, j)
    ensures a == b
  {
    assert BitAt(a, 0) == BitAt(b, 0) && BitAt(a, 1) == BitAt(b, 1) && BitAt(a, 2) == BitAt(b, 2);
    assert BitAt(a, 3) == BitAt(b, 3) && BitAt(a, 4) == BitAt(b, 4) && BitAt(a, 5) == BitAt(b, 5);
    assert BitAt(a, 6) == BitAt(b, 6) && BitAt(a, 7) == BitAt(b, 7);
  }

  // CRC-8 is the remainder of the message times x^8 modulo g, for messages of every length.
  lemma CrcIsRemainder(data: seq<bv8>, r: bv8)
    ensures IsRemainder(MessageBits(data), r) <==> r == Crc(data)
  {
    var p := MessageBits(data);
    CrcIsRegister(0, data);
    RegisterIsRemainder(p);
    if IsRemainder(p, r) {
      var q: Bits :| Divides(p, q, r);
      SameRemainder(p, q, r, Quotient(p), Register(0, p));
    }
  }
}
