// The field GF(2^8) of FIPS 197 section 4: the shift-and-xor multiplication of aes.c, and the
// algebra that the rest of the cipher rests on.
//
// Addition is kept behind the name `Add` (rather than written as `^`) so that proofs about the
// cipher can treat it as an uninterpreted operation and never reason about single bits.
module GaloisField {

  // Addition in the field (section 4.1).
  function Add(a: bv8, b: bv8): bv8 { a ^ b }

  // Multiplication by x modulo x^8 + x^4 + x^3 + x + 1 (section 4.2.1), written without a branch.
  function Xtime(a: bv8): bv8 { (a << 1) ^ ((0 - (a >> 7)) & 0x1b) }

  // `p` if the lowest bit of `b` is set, 0 otherwise.
  function Select(b: bv8, p: bv8): bv8 { if b & 1 != 0 then p else 0 }

  function Half(b: bv8): bv8 { b >> 1 }

  // a times x^n.
  function TimesPower(a: bv8, n: nat): bv8 { if n == 0 then a else Xtime(TimesPower(a, n - 1)) }

  function Shifted(b: bv8, n: nat): bv8 { if n == 0 then b else Half(Shifted(b, n - 1)) }

  // The part of the product contributed by the n lowest bits of b.
  function PartialProduct(a: bv8, b: bv8, n: nat): bv8 {
    if n == 0 then 0
    else Add(PartialProduct(a, b, n - 1), Select(Shifted(b, n - 1), TimesPower(a, n - 1)))
  }

  // The product in the field.
  function Mul(a: bv8, b: bv8): bv8 { PartialProduct(a, b, 8) }

  lemma XtimeBranches(x: bv8)
    ensures Xtime(x) == if x & 0x80 != 0 then (x << 1) ^ 0x1b else x << 1
  {}

  lemma SelectBranches(r: bv8, b: bv8, p: bv8)
    ensures Add(r, Select(b, p)) == if b & 1 != 0 then r ^ p else r
  {}

  method GfMult(multiplicand: bv8, multiplier: bv8) returns (result: bv8)
    ensures result == Mul(multiplicand, multiplier)
  {
    var a, b := multiplicand, multiplier;
    result := 0;
    for i := 0 to 8
      invariant a == TimesPower(multiplicand, i) && b == Shifted(multiplier, i)
      invariant result == PartialProduct(multiplicand, multiplier, i)
    {
      ghost var sum := Add(result, Select(b, a));
      SelectBranches(result, b, a);
      if b & 1 != 0 {
        result := result ^ a;
      }
      assert result == sum;
      ghost var doubled := Xtime(a);
      XtimeBranches(a);
      var shiftEscapesField := a & 0x80;
      a := a << 1;
      if shiftEscapesField != 0 {
        a := a ^ 0x1b;
      }
      assert a == doubled;
      b := b >> 1;
    }
  }

  // ----- Addition -----

  lemma AddCancels(a: bv8, k: bv8)
    ensures Add(Add(a, k), k) == a
    ensures Add(k, Add(k, a)) == a
  {}

  lemma AddCommutes(a: bv8, b: bv8)
    ensures Add(a, b) == Add(b, a)
  {}

  lemma AddAssociates(a: bv8, b: bv8, c: bv8)
    ensures Add(Add(a, b), c) == Add(a, Add(b, c))
  {}

  lemma AddSwap(a: bv8, b: bv8, c: bv8, d: bv8)
    ensures Add(Add(a, b), Add(c, d)) == Add(Add(a, c), Add(b, d))
  {
    AddAssociates(a, b, Add(c, d));
    AddAssociates(b, c, d);
    AddCommutes(b, c);
    AddAssociates(c, b, d);
    AddAssociates(a, c, Add(b, d));
  }

  // ----- Multiplication is linear in both arguments -----

  lemma XtimeAdd(x: bv8, y: bv8)
    ensures Xtime(Add(x, y)) == Add(Xtime(x), Xtime(y))
  {}

  lemma SelectAdd(b: bv8, x: bv8, y: bv8)
    ensures Select(b, Add(x, y)) == Add(Select(b, x), Select(b, y))
  {}

  lemma SelectorAdd(b: bv8, c: bv8, x: bv8)
    ensures Select(Add(b, c), x) == Add(Select(b, x), Select(c, x))
  {}

  lemma HalfAdd(x: bv8, y: bv8)
    ensures Half(Add(x, y)) == Add(Half(x), Half(y))
  {}

  lemma {:induction false} TimesPowerAdd(x: bv8, y: bv8, n: nat)
    ensures TimesPower(Add(x, y), n) == Add(TimesPower(x, n), TimesPower(y, n))
  {
    if n > 0 {
      TimesPowerAdd(x, y, n - 1);
      XtimeAdd(TimesPower(x, n - 1), TimesPower(y, n - 1));
    }
  }

  lemma {:induction false} ShiftedAdd(x: bv8, y: bv8, n: nat)
    ensures Shifted(Add(x, y), n) == Add(Shifted(x, n), Shifted(y, n))
  {
    if n > 0 {
      ShiftedAdd(x, y, n - 1);
      HalfAdd(Shifted(x, n - 1), Shifted(y, n - 1));
    }
  }

  lemma {:induction false} PartialProductAddLeft(x: bv8, y: bv8, b: bv8, n: nat)
    ensures PartialProduct(Add(x, y), b, n) == Add(PartialProduct(x, b, n), PartialProduct(y, b, n))
  {
    if n == 0 {
      AddCancels(0, 0);
    } else {
      var s, px, py := Shifted(b, n - 1), TimesPower(x, n - 1), TimesPower(y, n - 1);
      PartialProductAddLeft(x, y, b, n - 1);
      TimesPowerAdd(x, y, n - 1);
      SelectAdd(s, px, py);
      AddSwap(PartialProduct(x, b, n - 1), PartialProduct(y, b, n - 1), Select(s, px), Select(s, py));
    }
  }

  lemma {:induction false} PartialProductAddRight(a: bv8, x: bv8, y: bv8, n: nat)
    ensures PartialProduct(a, Add(x, y), n) == Add(PartialProduct(a, x, n), PartialProduct(a, y, n))
  {
    if n == 0 {
      AddCancels(0, 0);
    } else {
      var p, sx, sy := TimesPower(a, n - 1), Shifted(x, n - 1), Shifted(y, n - 1);
      PartialProductAddRight(a, x, y, n - 1);
      ShiftedAdd(x, y, n - 1);
      SelectorAdd(sx, sy, p);
      AddSwap(PartialProduct(a, x, n - 1), PartialProduct(a, y, n - 1), Select(sx, p), Select(sy, p));
    }
  }

  lemma MulDistributes(a: bv8, x: bv8, y: bv8)
    ensures Mul(a, Add(x, y)) == Add(Mul(a, x), Mul(a, y))
    ensures Mul(Add(x, y), a) == Add(Mul(x, a), Mul(y, a))
  {
    PartialProductAddRight(a, x, y, 8);
    PartialProductAddLeft(x, y, a, 8);
  }

  // ----- What characterises the product -----
  //
  // Section 4.2 defines the product by three laws: 1 is neutral, multiplying by x is `Xtime`, and the
  // product distributes over addition. `Mul` obeys them, and no other operation does.

  lemma Unfold(a: bv8, b: bv8, n: nat)
    ensures TimesPower(a, n + 1) == Xtime(TimesPower(a, n))
    ensures Shifted(b, n + 1) == Half(Shifted(b, n))
    ensures PartialProduct(a, b, n + 1) == Add(PartialProduct(a, b, n), Select(Shifted(b, n), TimesPower(a, n)))
  {}

  // `p` if b has a bit of the mask m set, 0 otherwise.
  function Masked(b: bv8, m: bv8, p: bv8): bv8 { if b & m != 0 then p else 0 }

  function Sum8(t0: bv8, t1: bv8, t2: bv8, t3: bv8, t4: bv8, t5: bv8, t6: bv8, t7: bv8): bv8 {
    t0 ^ t1 ^ t2 ^ t3 ^ t4 ^ t5 ^ t6 ^ t7
  }

  // The product, one term per bit of b.
  function EightTerms(a: bv8, b: bv8): bv8 {
    var a1 := Xtime(a); var a2 := Xtime(a1); var a3 := Xtime(a2); var a4 := Xtime(a3);
    var a5 := Xtime(a4); var a6 := Xtime(a5); var a7 := Xtime(a6);
    Sum8(Masked(b, 1, a), Masked(b, 2, a1), Masked(b, 4, a2), Masked(b, 8, a3),
         Masked(b, 0x10, a4), Masked(b, 0x20, a5), Masked(b, 0x40, a6), Masked(b, 0x80, a7))
  }

  lemma SelectIsMasked(b: bv8, p: bv8)
    ensures var b1 := Half(b); var b2 := Half(b1); var b3 := Half(b2); var b4 := Half(b3);
      var b5 := Half(b4); var b6 := Half(b5); var b7 := Half(b6);
      && Select(b, p) == Masked(b, 1, p) && Select(b1, p) == Masked(b, 2, p)
      && Select(b2, p) == Masked(b, 4, p) && Select(b3, p) == Masked(b, 8, p)
      && Select(b4, p) == Masked(b, 0x10, p) && Select(b5, p) == Masked(b, 0x20, p)
      && Select(b6, p) == Masked(b, 0x40, p) && Select(b7, p) == Masked(b, 0x80, p)
  {}

  lemma AddedOneByOne(t0: bv8, t1: bv8, t2: bv8, t3: bv8, t4: bv8, t5: bv8, t6: bv8, t7: bv8)
    ensures Add(Add(Add(Add(Add(Add(Add(Add(0, t0), t1), t2), t3), t4), t5), t6), t7) == Sum8(t0, t1, t2, t3, t4, t5, t6, t7)
  {}

  lemma MulUnrolled(a: bv8, b: bv8)
    ensures Mul(a, b) == EightTerms(a, b)
  {
    var a1 := Xtime(a); var a2 := Xtime(a1); var a3 := Xtime(a2); var a4 := Xtime(a3);
    var a5 := Xtime(a4); var a6 := Xtime(a5); var a7 := Xtime(a6);
    Unfold(a, b, 0); Unfold(a, b, 1); Unfold(a, b, 2); Unfold(a, b, 3);
    Unfold(a, b, 4); Unfold(a, b, 5); Unfold(a, b, 6); Unfold(a, b, 7);
    SelectIsMasked(b, a); SelectIsMasked(b, a1); SelectIsMasked(b, a2); SelectIsMasked(b, a3);
    SelectIsMasked(b, a4); SelectIsMasked(b, a5); SelectIsMasked(b, a6); SelectIsMasked(b, a7);
    AddedOneByOne(Masked(b, 1, a), Masked(b, 2, a1), Masked(b, 4, a2), Masked(b, 8, a3),
      Masked(b, 0x10, a4), Masked(b, 0x20, a5), Masked(b, 0x40, a6), Masked(b, 0x80, a7));
  }

  lemma MulOneLeft(b: bv8)
    ensures Mul(1, b) == b
  {
    MulUnrolled(1, b);
  }

  lemma MulOneRight(a: bv8)
    ensures Mul(a, 1) == a
  {
    MulUnrolled(a, 1);
  }

  lemma PowersOfX()
    ensures TimesPower(1, 0) == 1 && TimesPower(1, 1) == 2 && TimesPower(1, 2) == 4 && TimesPower(1, 3) == 8
    ensures TimesPower(1, 4) == 0x10 && TimesPower(1, 5) == 0x20 && TimesPower(1, 6) == 0x40
    ensures TimesPower(1, 7) == 0x80 && TimesPower(1, 8) == 0x1b
  {}

  // The single set bit of x^k, for k < 8, is bit k.
  lemma {:induction false} ShiftedPower(one: bv8, k: nat, n: nat)
    requires one == 1 && k < 8
    ensures Shifted(TimesPower(one, k), n) == if n <= k then TimesPower(one, k - n) else 0
  {
    PowersOfX();
    if n > 0 {
      ShiftedPower(one, k, n - 1);
    }
  }

  lemma {:induction false} SelectPower(one: bv8, a: bv8, k: nat, n: nat)
    requires one == 1 && k < 8
    ensures PartialProduct(a, TimesPower(one, k), n) == if n <= k then 0 else TimesPower(a, k)
  {
    if n > 0 {
      SelectPower(one, a, k, n - 1);
      ShiftedPower(one, k, n - 1);
      PowersOfX();
    }
  }

  // a times x^8, one doubling at a time.
  function Doubled8(a: bv8): bv8 { Xtime(Xtime(Xtime(Xtime(Xtime(Xtime(Xtime(Xtime(a)))))))) }

  lemma EighthPower(a: bv8)
    ensures TimesPower(a, 8) == Doubled8(a)
  {
    Unfold(a, 0, 0); Unfold(a, 0, 1); Unfold(a, 0, 2); Unfold(a, 0, 3);
    Unfold(a, 0, 4); Unfold(a, 0, 5); Unfold(a, 0, 6); Unfold(a, 0, 7);
  }

  lemma FoldBack(a: bv8)
    ensures EightTerms(a, 0x1b) == Doubled8(a)
  {}

  // The product with x^8, which has been reduced to 0x1b.
  lemma MulByEighth(a: bv8, eighth: bv8)
    requires eighth == 0x1b
    ensures Mul(a, eighth) == TimesPower(a, 8)
  {
    MulUnrolled(a, eighth);
    FoldBack(a);
    EighthPower(a);
  }

  lemma EighthPowerOfOne(one: bv8, k: nat)
    requires one == 1 && k == 8
    ensures TimesPower(one, k) == 0x1b
  {
    PowersOfX();
  }

  // Multiplying by x^k is doubling k times.
  lemma MulByPower(one: bv8, a: bv8, k: nat)
    requires one == 1 && k <= 8
    ensures Mul(a, TimesPower(one, k)) == TimesPower(a, k)
  {
    if k < 8 {
      SelectPower(one, a, k, 8);
    } else {
      EighthPowerOfOne(one, k);
      MulByEighth(a, TimesPower(one, k));
    }
  }

  // Multiplying by x commutes with multiplying by a: first for the elements that are sums of powers of x ...
  lemma {:induction false} MulXtimeOfSum(one: bv8, a: bv8, b: bv8, n: nat)
    requires one == 1 && n <= 8
    ensures Mul(a, Xtime(PartialProduct(one, b, n))) == Xtime(Mul(a, PartialProduct(one, b, n)))
  {
    if n == 0 {
      MulZero(a);
    } else {
      var p, x := PartialProduct(one, b, n - 1), TimesPower(one, n - 1);
      var q := Select(Shifted(b, n - 1), x);
      MulXtimeOfSum(one, a, b, n - 1);
      XtimeOfSelected(one, a, Shifted(b, n - 1), n - 1);
      XtimeAdd(p, q);
      MulDistributes(a, p, q);
      MulDistributes(a, Xtime(p), Xtime(q));
      XtimeAdd(Mul(a, p), Mul(a, q));
    }
  }

  lemma XtimeOfSelected(one: bv8, a: bv8, s: bv8, k: nat)
    requires one == 1 && k < 8
    ensures var q := Select(s, TimesPower(one, k)); Mul(a, Xtime(q)) == Xtime(Mul(a, q))
  {
    MulZero(a);
    MulByPower(one, a, k);
    MulByPower(one, a, k + 1);
  }

  // ... and then for all of them.
  lemma MulXtime(a: bv8, b: bv8)
    ensures Mul(a, Xtime(b)) == Xtime(Mul(a, b))
  {
    MulXtimeOfSum(1, a, b, 8);
    MulOneLeft(b);
  }

  lemma MulZero(a: bv8)
    ensures Mul(a, 0) == 0 && Xtime(0) == 0
  {
    MulDistributes(a, 0, 0);
    AddCancels(0, 0);
    AddCancels(Mul(a, 0), Mul(a, 0));
  }

  // ----- The laws of section 4.2 leave no freedom -----

  ghost predicate IsAdditive(f: bv8 -> bv8) {
    forall x: bv8, y: bv8 {:trigger f(Add(x, y))} :: f(Add(x, y)) == Add(f(x), f(y))
  }

  // A map that respects addition and multiplication by x ...
  ghost predicate IsLinear(f: bv8 -> bv8) {
    && IsAdditive(f)
    && forall y: bv8 {:trigger f(Xtime(y))} :: f(Xtime(y)) == Xtime(f(y))
  }

  // ... is multiplication by its value at 1.
  lemma LinearIsMultiplication(f: bv8 -> bv8, b: bv8)
    requires IsLinear(f)
    ensures f(b) == Mul(f(1), b)
  {
    forall k: nat ensures f(TimesPower(1, k)) == TimesPower(f(1), k) {
      LinearOfPower(f, 1, k);
    }
    AdditiveOfSum(f, 1, f(1), b, 8);
    MulOneLeft(b);
  }

  lemma {:induction false} LinearOfPower(f: bv8 -> bv8, y: bv8, k: nat)
    requires IsLinear(f)
    ensures f(TimesPower(y, k)) == TimesPower(f(y), k)
  {
    if k > 0 {
      LinearOfPower(f, y, k - 1);
    }
  }

  lemma {:induction false} AdditiveOfSum(f: bv8 -> bv8, one: bv8, a: bv8, b: bv8, n: nat)
    requires IsAdditive(f)
    requires forall k: nat {:trigger TimesPower(one, k)} :: f(TimesPower(one, k)) == TimesPower(a, k)
    ensures f(PartialProduct(one, b, n)) == PartialProduct(a, b, n)
  {
    if n == 0 {
      AdditiveAtZero(f);
    } else {
      AdditiveOfSum(f, one, a, b, n - 1);
      AdditiveOfNext(f, PartialProduct(one, b, n - 1), PartialProduct(a, b, n - 1), Shifted(b, n - 1),
                     TimesPower(one, n - 1), TimesPower(a, n - 1));
    }
  }

  lemma AdditiveOfNext(f: bv8 -> bv8, sum: bv8, image: bv8, s: bv8, x: bv8, y: bv8)
    requires IsAdditive(f) && f(sum) == image && f(x) == y
    ensures f(Add(sum, Select(s, x))) == Add(image, Select(s, y))
  {
    AdditiveAtZero(f);
  }

  lemma AdditiveAtZero(f: bv8 -> bv8)
    requires IsAdditive(f)
    ensures f(0) == 0
  {
    assert Add(0, 0) == 0;
    assert f(Add(0, 0)) == Add(f(0), f(0));
    AddCancels(f(0), f(0));
  }

  // Hence any operation with a neutral 1 that is linear in its second argument is the product, ...
  lemma MulIsTheOnlyProduct(product: (bv8, bv8) -> bv8, a: bv8, b: bv8)
    requires product(a, 1) == a
    requires IsLinear(y => product(a, y))
    ensures product(a, b) == Mul(a, b)
  {
    LinearIsMultiplication(y => product(a, y), b);
  }

  // ... and the product is commutative and associative.
  lemma {:induction false} PartialProductXtime(a: bv8, b: bv8, n: nat)
    ensures PartialProduct(Xtime(a), b, n) == Xtime(PartialProduct(a, b, n))
  {
    if n > 0 {
      var s, x := Shifted(b, n - 1), TimesPower(a, n - 1);
      PartialProductXtime(a, b, n - 1);
      XtimeTimesPower(a, n - 1);
      XtimeAdd(PartialProduct(a, b, n - 1), Select(s, x));
      assert Xtime(Select(s, x)) == Select(s, Xtime(x));
    }
  }

  lemma {:induction false} XtimeTimesPower(a: bv8, n: nat)
    ensures TimesPower(Xtime(a), n) == Xtime(TimesPower(a, n))
  {
    if n > 0 {
      XtimeTimesPower(a, n - 1);
    }
  }

  function MultiplesOf(a: bv8): bv8 -> bv8 { y => Mul(y, a) }

  function NestedMultiples(a: bv8, b: bv8): bv8 -> bv8 { y => Mul(a, Mul(b, y)) }

  lemma MultiplesOfIsLinear(a: bv8)
    ensures IsLinear(MultiplesOf(a))
  {
    forall y: bv8 ensures Mul(Xtime(y), a) == Xtime(Mul(y, a)) {
      PartialProductXtime(y, a, 8);
    }
    forall x: bv8, y: bv8 ensures Mul(Add(x, y), a) == Add(Mul(x, a), Mul(y, a)) {
      MulDistributes(a, x, y);
    }
  }

  lemma NestedMultiplesIsLinear(a: bv8, b: bv8)
    ensures IsLinear(NestedMultiples(a, b))
  {
    forall y: bv8 ensures Mul(a, Mul(b, Xtime(y))) == Xtime(Mul(a, Mul(b, y))) {
      MulXtime(b, y);
      MulXtime(a, Mul(b, y));
    }
    forall x: bv8, y: bv8 ensures Mul(a, Mul(b, Add(x, y))) == Add(Mul(a, Mul(b, x)), Mul(a, Mul(b, y))) {
      MulDistributes(b, x, y);
      MulDistributes(a, Mul(b, x), Mul(b, y));
    }
  }

  lemma MulCommutes(a: bv8, b: bv8)
    ensures Mul(a, b) == Mul(b, a)
  {
    MultiplesOfIsLinear(a);
    LinearIsMultiplication(MultiplesOf(a), b);
    MulOneLeft(a);
  }

  lemma MulAssociates(a: bv8, b: bv8, c: bv8)
    ensures Mul(a, Mul(b, c)) == Mul(Mul(a, b), c)
  {
    NestedMultiplesIsLinear(a, b);
    LinearIsMultiplication(NestedMultiples(a, b), c);
    MulOneRight(b);
  }
}
