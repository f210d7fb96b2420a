// Columns of the cipher state: four bytes, and the circulant matrices of FIPS 197 sections 5.1.3
// and 5.3.3 that mix them.
module Columns {
  import opened GaloisField

  datatype Word = Word(b0: bv8, b1: bv8, b2: bv8, b3: bv8)

  function AddWords(a: Word, b: Word): Word {
    Word(Add(a.b0, b.b0), Add(a.b1, b.b1), Add(a.b2, b.b2), Add(a.b3, b.b3))
  }

  lemma AddWordsCancels(a: Word, k: Word)
    ensures AddWords(AddWords(a, k), k) == a
    ensures AddWords(k, AddWords(k, a)) == a
  {
    AddCancels(a.b0, k.b0);
    AddCancels(a.b1, k.b1);
    AddCancels(a.b2, k.b2);
    AddCancels(a.b3, k.b3);
  }

  function Sum4(a: bv8, b: bv8, c: bv8, d: bv8): bv8 { Add(Add(a, b), Add(c, d)) }

  lemma XorIsSum4(a: bv8, b: bv8, c: bv8, d: bv8)
    ensures a ^ b ^ c ^ d == Sum4(a, b, c, d)
  {}

  // One row of a matrix product.
  function MatrixRow(k0: bv8, k1: bv8, k2: bv8, k3: bv8, w: Word): bv8 {
    Sum4(Mul(k0, w.b0), Mul(k1, w.b1), Mul(k2, w.b2), Mul(k3, w.b3))
  }

  // The product with the circulant matrix whose first row is k0 k1 k2 k3.
  function Circulant(k0: bv8, k1: bv8, k2: bv8, k3: bv8, w: Word): Word {
    Word(MatrixRow(k0, k1, k2, k3, w), MatrixRow(k3, k0, k1, k2, w),
         MatrixRow(k2, k3, k0, k1, w), MatrixRow(k1, k2, k3, k0, w))
  }

  function MixColumn(w: Word): Word { Circulant(2, 3, 1, 1, w) }

  function InvMixColumn(w: Word): Word { Circulant(0x0e, 0x0b, 0x0d, 0x09, w) }

  // ----- Sums of four -----

  lemma Sum4Rotates(a: bv8, b: bv8, c: bv8, d: bv8)
    ensures Sum4(a, b, c, d) == Sum4(d, a, b, c)
  {
    AddCommutes(Add(a, b), Add(c, d));
    AddCommutes(c, d);
    AddSwap(d, c, a, b);
    AddCommutes(c, b);
  }

  lemma Sum4Adds(a0: bv8, a1: bv8, a2: bv8, a3: bv8, b0: bv8, b1: bv8, b2: bv8, b3: bv8)
    ensures Add(Sum4(a0, a1, a2, a3), Sum4(b0, b1, b2, b3)) == Sum4(Add(a0, b0), Add(a1, b1), Add(a2, b2), Add(a3, b3))
  {
    AddSwap(Add(a0, a1), Add(a2, a3), Add(b0, b1), Add(b2, b3));
    AddSwap(a0, a1, b0, b1);
    AddSwap(a2, a3, b2, b3);
  }

  // Adding sixteen elements by rows or by columns.
  lemma Sum4Transposes(a: Word, b: Word, c: Word, d: Word)
    ensures Sum4(Sum4(a.b0, a.b1, a.b2, a.b3), Sum4(b.b0, b.b1, b.b2, b.b3),
                 Sum4(c.b0, c.b1, c.b2, c.b3), Sum4(d.b0, d.b1, d.b2, d.b3))
         == Sum4(Sum4(a.b0, b.b0, c.b0, d.b0), Sum4(a.b1, b.b1, c.b1, d.b1),
                 Sum4(a.b2, b.b2, c.b2, d.b2), Sum4(a.b3, b.b3, c.b3, d.b3))
  {
    Sum4Adds(a.b0, a.b1, a.b2, a.b3, b.b0, b.b1, b.b2, b.b3);
    Sum4Adds(c.b0, c.b1, c.b2, c.b3, d.b0, d.b1, d.b2, d.b3);
    Sum4Adds(Add(a.b0, b.b0), Add(a.b1, b.b1), Add(a.b2, b.b2), Add(a.b3, b.b3),
             Add(c.b0, d.b0), Add(c.b1, d.b1), Add(c.b2, d.b2), Add(c.b3, d.b3));
  }

  // ----- Composing two circulant matrices -----

  function Products(j: bv8, k0: bv8, k1: bv8, k2: bv8, k3: bv8, w: Word): Word {
    Word(Mul(j, Mul(k0, w.b0)), Mul(j, Mul(k1, w.b1)), Mul(j, Mul(k2, w.b2)), Mul(j, Mul(k3, w.b3)))
  }

  lemma MulOfRow(j: bv8, k0: bv8, k1: bv8, k2: bv8, k3: bv8, w: Word)
    ensures var p := Products(j, k0, k1, k2, k3, w);
            Mul(j, MatrixRow(k0, k1, k2, k3, w)) == Sum4(p.b0, p.b1, p.b2, p.b3)
  {
    MulDistributes(j, Add(Mul(k0, w.b0), Mul(k1, w.b1)), Add(Mul(k2, w.b2), Mul(k3, w.b3)));
    MulDistributes(j, Mul(k0, w.b0), Mul(k1, w.b1));
    MulDistributes(j, Mul(k2, w.b2), Mul(k3, w.b3));
  }

  // What the row j of one matrix makes of a byte that the other matrix multiplied by k0, k3, k2, k1.
  function Coefficient(j0: bv8, j1: bv8, j2: bv8, j3: bv8, k0: bv8, k1: bv8, k2: bv8, k3: bv8, x: bv8): bv8 {
    Sum4(Mul(j0, Mul(k0, x)), Mul(j1, Mul(k1, x)), Mul(j2, Mul(k2, x)), Mul(j3, Mul(k3, x)))
  }

  lemma RowOfCirculant(j0: bv8, j1: bv8, j2: bv8, j3: bv8, k0: bv8, k1: bv8, k2: bv8, k3: bv8, w: Word)
    ensures MatrixRow(j0, j1, j2, j3, Circulant(k0, k1, k2, k3, w))
         == Sum4(Coefficient(j0, j1, j2, j3, k0, k3, k2, k1, w.b0), Coefficient(j0, j1, j2, j3, k1, k0, k3, k2, w.b1),
                 Coefficient(j0, j1, j2, j3, k2, k1, k0, k3, w.b2), Coefficient(j0, j1, j2, j3, k3, k2, k1, k0, w.b3))
  {
    MulOfRow(j0, k0, k1, k2, k3, w);
    MulOfRow(j1, k3, k0, k1, k2, w);
    MulOfRow(j2, k2, k3, k0, k1, w);
    MulOfRow(j3, k1, k2, k3, k0, w);
    Sum4Transposes(Products(j0, k0, k1, k2, k3, w), Products(j1, k3, k0, k1, k2, w),
                   Products(j2, k2, k3, k0, k1, w), Products(j3, k1, k2, k3, k0, w));
  }

  // Row r of the product of the two matrices is row r of the identity, as far as the byte x can tell.
  ghost predicate UnitRow(r: nat, j0: bv8, j1: bv8, j2: bv8, j3: bv8, k0: bv8, k1: bv8, k2: bv8, k3: bv8, x: bv8) {
    && Coefficient(j0, j1, j2, j3, k0, k3, k2, k1, x) == (if r == 0 then x else 0)
    && Coefficient(j0, j1, j2, j3, k1, k0, k3, k2, x) == (if r == 1 then x else 0)
    && Coefficient(j0, j1, j2, j3, k2, k1, k0, k3, x) == (if r == 2 then x else 0)
    && Coefficient(j0, j1, j2, j3, k3, k2, k1, k0, x) == (if r == 3 then x else 0)
  }

  lemma CoefficientRotates(j0: bv8, j1: bv8, j2: bv8, j3: bv8, k0: bv8, k1: bv8, k2: bv8, k3: bv8, x: bv8)
    ensures Coefficient(j3, j0, j1, j2, k3, k0, k1, k2, x) == Coefficient(j0, j1, j2, j3, k0, k1, k2, k3, x)
  {
    Sum4Rotates(Mul(j0, Mul(k0, x)), Mul(j1, Mul(k1, x)), Mul(j2, Mul(k2, x)), Mul(j3, Mul(k3, x)));
  }

  lemma NextUnitRow(r: nat, j0: bv8, j1: bv8, j2: bv8, j3: bv8, k0: bv8, k1: bv8, k2: bv8, k3: bv8, x: bv8)
    requires r < 3 && UnitRow(r, j0, j1, j2, j3, k0, k1, k2, k3, x)
    ensures UnitRow(r + 1, j3, j0, j1, j2, k0, k1, k2, k3, x)
  {
    CoefficientRotates(j0, j1, j2, j3, k3, k2, k1, k0, x);
    CoefficientRotates(j0, j1, j2, j3, k0, k3, k2, k1, x);
    CoefficientRotates(j0, j1, j2, j3, k1, k0, k3, k2, x);
    CoefficientRotates(j0, j1, j2, j3, k2, k1, k0, k3, x);
  }

  // A circulant product inherits its other rows from the first.
  lemma UnitRows(j0: bv8, j1: bv8, j2: bv8, j3: bv8, k0: bv8, k1: bv8, k2: bv8, k3: bv8, x: bv8)
    requires UnitRow(0, j0, j1, j2, j3, k0, k1, k2, k3, x)
    ensures UnitRow(1, j3, j0, j1, j2, k0, k1, k2, k3, x)
    ensures UnitRow(2, j2, j3, j0, j1, k0, k1, k2, k3, x)
    ensures UnitRow(3, j1, j2, j3, j0, k0, k1, k2, k3, x)
  {
    NextUnitRow(0, j0, j1, j2, j3, k0, k1, k2, k3, x);
    NextUnitRow(1, j3, j0, j1, j2, k0, k1, k2, k3, x);
    NextUnitRow(2, j2, j3, j0, j1, k0, k1, k2, k3, x);
  }

  lemma Sum4OfOne(x: bv8)
    ensures Sum4(x, 0, 0, 0) == x && Sum4(0, x, 0, 0) == x && Sum4(0, 0, x, 0) == x && Sum4(0, 0, 0, x) == x
  {}

  lemma CirculantInverse(j0: bv8, j1: bv8, j2: bv8, j3: bv8, k0: bv8, k1: bv8, k2: bv8, k3: bv8, w: Word)
    requires UnitRow(0, j0, j1, j2, j3, k0, k1, k2, k3, w.b0)
    requires UnitRow(0, j0, j1, j2, j3, k0, k1, k2, k3, w.b1)
    requires UnitRow(0, j0, j1, j2, j3, k0, k1, k2, k3, w.b2)
    requires UnitRow(0, j0, j1, j2, j3, k0, k1, k2, k3, w.b3)
    ensures Circulant(j0, j1, j2, j3, Circulant(k0, k1, k2, k3, w)) == w
  {
    UnitRows(j0, j1, j2, j3, k0, k1, k2, k3, w.b0);
    UnitRows(j0, j1, j2, j3, k0, k1, k2, k3, w.b1);
    UnitRows(j0, j1, j2, j3, k0, k1, k2, k3, w.b2);
    UnitRows(j0, j1, j2, j3, k0, k1, k2, k3, w.b3);
    RowOfCirculant(j0, j1, j2, j3, k0, k1, k2, k3, w);
    RowOfCirculant(j3, j0, j1, j2, k0, k1, k2, k3, w);
    RowOfCirculant(j2, j3, j0, j1, k0, k1, k2, k3, w);
    RowOfCirculant(j1, j2, j3, j0, k0, k1, k2, k3, w);
    Sum4OfOne(w.b0);
    Sum4OfOne(w.b1);
    Sum4OfOne(w.b2);
    Sum4OfOne(w.b3);
  }

  // ----- MixColumns and its inverse -----

  // A coefficient of the product matrix is itself an element of the field.
  lemma CoefficientIsMultiple(j0: bv8, j1: bv8, j2: bv8, j3: bv8, k0: bv8, k1: bv8, k2: bv8, k3: bv8, x: bv8)
    ensures Coefficient(j0, j1, j2, j3, k0, k1, k2, k3, x)
         == Mul(Sum4(Mul(j0, k0), Mul(j1, k1), Mul(j2, k2), Mul(j3, k3)), x)
  {
    MulAssociates(j0, k0, x);
    MulAssociates(j1, k1, x);
    MulAssociates(j2, k2, x);
    MulAssociates(j3, k3, x);
    MulDistributes(x, Mul(j0, k0), Mul(j1, k1));
    MulDistributes(x, Mul(j2, k2), Mul(j3, k3));
    MulDistributes(x, Add(Mul(j0, k0), Mul(j1, k1)), Add(Mul(j2, k2), Mul(j3, k3)));
  }

  // The first row of the product of two circulant matrices.
  function ProductRow(j0: bv8, j1: bv8, j2: bv8, j3: bv8, k0: bv8, k1: bv8, k2: bv8, k3: bv8): Word {
    Word(Sum4(Mul(j0, k0), Mul(j1, k3), Mul(j2, k2), Mul(j3, k1)),
         Sum4(Mul(j0, k1), Mul(j1, k0), Mul(j2, k3), Mul(j3, k2)),
         Sum4(Mul(j0, k2), Mul(j1, k1), Mul(j2, k0), Mul(j3, k3)),
         Sum4(Mul(j0, k3), Mul(j1, k2), Mul(j2, k1), Mul(j3, k0)))
  }

  lemma UnitRowFromProduct(j0: bv8, j1: bv8, j2: bv8, j3: bv8, k0: bv8, k1: bv8, k2: bv8, k3: bv8, x: bv8)
    requires ProductRow(j0, j1, j2, j3, k0, k1, k2, k3) == Word(1, 0, 0, 0)
    ensures UnitRow(0, j0, j1, j2, j3, k0, k1, k2, k3, x)
  {
    CoefficientIsMultiple(j0, j1, j2, j3, k0, k3, k2, k1, x);
    CoefficientIsMultiple(j0, j1, j2, j3, k1, k0, k3, k2, x);
    CoefficientIsMultiple(j0, j1, j2, j3, k2, k1, k0, k3, x);
    CoefficientIsMultiple(j0, j1, j2, j3, k3, k2, k1, k0, x);
    MulOneLeft(x);
    MulZero(x);
    MulCommutes(0, x);
  }

  lemma Sum4SwapsPairs(a: bv8, b: bv8, c: bv8, d: bv8)
    ensures Sum4(a, b, c, d) == Sum4(b, a, d, c)
    ensures Sum4(a, b, c, d) == Sum4(d, c, b, a)
  {
    AddCommutes(a, b);
    AddCommutes(c, d);
    AddCommutes(Add(a, b), Add(c, d));
  }

  lemma Sum4SwapsOpposites(a: bv8, b: bv8, c: bv8, d: bv8)
    ensures Sum4(a, b, c, d) == Sum4(a, d, c, b)
    ensures Sum4(a, b, c, d) == Sum4(c, b, a, d)
  {
    AddSwap(a, b, c, d);
    AddSwap(a, d, c, b);
    AddCommutes(b, d);
    AddSwap(c, b, a, d);
    AddCommutes(a, c);
  }

  // Circulant matrices commute.
  lemma ProductRowCommutes(j0: bv8, j1: bv8, j2: bv8, j3: bv8, k0: bv8, k1: bv8, k2: bv8, k3: bv8)
    ensures ProductRow(j0, j1, j2, j3, k0, k1, k2, k3) == ProductRow(k0, k1, k2, k3, j0, j1, j2, j3)
  {
    MulCommutes(j0, k0); MulCommutes(j0, k1); MulCommutes(j0, k2); MulCommutes(j0, k3);
    MulCommutes(j1, k0); MulCommutes(j1, k1); MulCommutes(j1, k2); MulCommutes(j1, k3);
    MulCommutes(j2, k0); MulCommutes(j2, k1); MulCommutes(j2, k2); MulCommutes(j2, k3);
    MulCommutes(j3, k0); MulCommutes(j3, k1); MulCommutes(j3, k2); MulCommutes(j3, k3);
    Sum4SwapsOpposites(Mul(j0, k0), Mul(j1, k3), Mul(j2, k2), Mul(j3, k1));
    Sum4SwapsPairs(Mul(j0, k1), Mul(j1, k0), Mul(j2, k3), Mul(j3, k2));
    Sum4SwapsOpposites(Mul(j0, k2), Mul(j1, k1), Mul(j2, k0), Mul(j3, k3));
    Sum4SwapsPairs(Mul(j0, k3), Mul(j1, k2), Mul(j2, k1), Mul(j3, k0));
  }

  lemma TwiceAndThrice(k: bv8)
    ensures Mul(k, 1) == k && Mul(k, 2) == Xtime(k) && Mul(k, 3) == Add(Xtime(k), k)
  {
    MulOneRight(k);
    MulXtime(k, 1);
    MulDistributes(k, 2, 1);
  }

  lemma InvMixTimesMix()
    ensures ProductRow(0x0e, 0x0b, 0x0d, 0x09, 2, 3, 1, 1) == Word(1, 0, 0, 0)
  {
    TwiceAndThrice(0x0e);
    TwiceAndThrice(0x0b);
    TwiceAndThrice(0x0d);
    TwiceAndThrice(0x09);
  }

  lemma InvMixInvertsMix(w: Word)
    ensures InvMixColumn(MixColumn(w)) == w
  {
    InvMixTimesMix();
    ProductInverts(0x0e, 0x0b, 0x0d, 0x09, 2, 3, 1, 1, w);
  }

  lemma MixInvertsInvMix(w: Word)
    ensures MixColumn(InvMixColumn(w)) == w
  {
    InvMixTimesMix();
    ProductRowCommutes(0x0e, 0x0b, 0x0d, 0x09, 2, 3, 1, 1);
    ProductInverts(2, 3, 1, 1, 0x0e, 0x0b, 0x0d, 0x09, w);
  }

  lemma ProductInverts(j0: bv8, j1: bv8, j2: bv8, j3: bv8, k0: bv8, k1: bv8, k2: bv8, k3: bv8, w: Word)
    requires ProductRow(j0, j1, j2, j3, k0, k1, k2, k3) == Word(1, 0, 0, 0)
    ensures Circulant(j0, j1, j2, j3, Circulant(k0, k1, k2, k3, w)) == w
  {
    UnitRowFromProduct(j0, j1, j2, j3, k0, k1, k2, k3, w.b0);
    UnitRowFromProduct(j0, j1, j2, j3, k0, k1, k2, k3, w.b1);
    UnitRowFromProduct(j0, j1, j2, j3, k0, k1, k2, k3, w.b2);
    UnitRowFromProduct(j0, j1, j2, j3, k0, k1, k2, k3, w.b3);
    CirculantInverse(j0, j1, j2, j3, k0, k1, k2, k3, w);
  }
}
