// The two substitution tables of aes.c, checked against each other and against the definition of the
// S-box in FIPS 197 section 5.1.1.
module AesTables {
  import opened GaloisField
  import opened Aes

  // The n-th of sixteen values.
  function Pick(n: bv8, v0: bv8, v1: bv8, v2: bv8, v3: bv8, v4: bv8, v5: bv8, v6: bv8, v7: bv8,
                v8: bv8, v9: bv8, va: bv8, vb: bv8, vc: bv8, vd: bv8, ve: bv8, vf: bv8): bv8 {
    if n & 8 == 0 then
      if n & 4 == 0 then
        if n & 2 == 0 then (if n & 1 == 0 then v0 else v1) else (if n & 1 == 0 then v2 else v3)
      else
        if n & 2 == 0 then (if n & 1 == 0 then v4 else v5) else (if n & 1 == 0 then v6 else v7)
    else
      if n & 4 == 0 then
        if n & 2 == 0 then (if n & 1 == 0 then v8 else v9) else (if n & 1 == 0 then va else vb)
      else
        if n & 2 == 0 then (if n & 1 == 0 then vc else vd) else (if n & 1 == 0 then ve else vf)
  }

  // The rows of sbox_encrypt.
  function EncryptRow0(x: bv8): bv8 { Pick(x, 0x63, 0x7c, 0x77, 0x7b, 0xf2, 0x6b, 0x6f, 0xc5, 0x30, 0x01, 0x67, 0x2b, 0xfe, 0xd7, 0xab, 0x76) }
  function EncryptRow1(x: bv8): bv8 { Pick(x, 0xca, 0x82, 0xc9, 0x7d, 0xfa, 0x59, 0x47, 0xf0, 0xad, 0xd4, 0xa2, 0xaf, 0x9c, 0xa4, 0x72, 0xc0) }
  function EncryptRow2(x: bv8): bv8 { Pick(x, 0xb7, 0xfd, 0x93, 0x26, 0x36, 0x3f, 0xf7, 0xcc, 0x34, 0xa5, 0xe5, 0xf1, 0x71, 0xd8, 0x31, 0x15) }
  function EncryptRow3(x: bv8): bv8 { Pick(x, 0x04, 0xc7, 0x23, 0xc3, 0x18, 0x96, 0x05, 0x9a, 0x07, 0x12, 0x80, 0xe2, 0xeb, 0x27, 0xb2, 0x75) }
  function EncryptRow4(x: bv8): bv8 { Pick(x, 0x09, 0x83, 0x2c, 0x1a, 0x1b, 0x6e, 0x5a, 0xa0, 0x52, 0x3b, 0xd6, 0xb3, 0x29, 0xe3, 0x2f, 0x84) }
  function EncryptRow5(x: bv8): bv8 { Pick(x, 0x53, 0xd1, 0x00, 0xed, 0x20, 0xfc, 0xb1, 0x5b, 0x6a, 0xcb, 0xbe, 0x39, 0x4a, 0x4c, 0x58, 0xcf) }
  function EncryptRow6(x: bv8): bv8 { Pick(x, 0xd0, 0xef, 0xaa, 0xfb, 0x43, 0x4d, 0x33, 0x85, 0x45, 0xf9, 0x02, 0x7f, 0x50, 0x3c, 0x9f, 0xa8) }
  function EncryptRow7(x: bv8): bv8 { Pick(x, 0x51, 0xa3, 0x40, 0x8f, 0x92, 0x9d, 0x38, 0xf5, 0xbc, 0xb6, 0xda, 0x21, 0x10, 0xff, 0xf3, 0xd2) }
  function EncryptRow8(x: bv8): bv8 { Pick(x, 0xcd, 0x0c, 0x13, 0xec, 0x5f, 0x97, 0x44, 0x17, 0xc4, 0xa7, 0x7e, 0x3d, 0x64, 0x5d, 0x19, 0x73) }
  function EncryptRow9(x: bv8): bv8 { Pick(x, 0x60, 0x81, 0x4f, 0xdc, 0x22, 0x2a, 0x90, 0x88, 0x46, 0xee, 0xb8, 0x14, 0xde, 0x5e, 0x0b, 0xdb) }
  function EncryptRowA(x: bv8): bv8 { Pick(x, 0xe0, 0x32, 0x3a, 0x0a, 0x49, 0x06, 0x24, 0x5c, 0xc2, 0xd3, 0xac, 0x62, 0x91, 0x95, 0xe4, 0x79) }
  function EncryptRowB(x: bv8): bv8 { Pick(x, 0xe7, 0xc8, 0x37, 0x6d, 0x8d, 0xd5, 0x4e, 0xa9, 0x6c, 0x56, 0xf4, 0xea, 0x65, 0x7a, 0xae, 0x08) }
  function EncryptRowC(x: bv8): bv8 { Pick(x, 0xba, 0x78, 0x25, 0x2e, 0x1c, 0xa6, 0xb4, 0xc6, 0xe8, 0xdd, 0x74, 0x1f, 0x4b, 0xbd, 0x8b, 0x8a) }
  function EncryptRowD(x: bv8): bv8 { Pick(x, 0x70, 0x3e, 0xb5, 0x66, 0x48, 0x03, 0xf6, 0x0e, 0x61, 0x35, 0x57, 0xb9, 0x86, 0xc1, 0x1d, 0x9e) }
  function EncryptRowE(x: bv8): bv8 { Pick(x, 0xe1, 0xf8, 0x98, 0x11, 0x69, 0xd9, 0x8e, 0x94, 0x9b, 0x1e, 0x87, 0xe9, 0xce, 0x55, 0x28, 0xdf) }
  function EncryptRowF(x: bv8): bv8 { Pick(x, 0x8c, 0xa1, 0x89, 0x0d, 0xbf, 0xe6, 0x42, 0x68, 0x41, 0x99, 0x2d, 0x0f, 0xb0, 0x54, 0xbb, 0x16) }

  // The rows of sbox_decrypt.
  function DecryptRow0(x: bv8): bv8 { Pick(x, 0x52, 0x09, 0x6a, 0xd5, 0x30, 0x36, 0xa5, 0x38, 0xbf, 0x40, 0xa3, 0x9e, 0x81, 0xf3, 0xd7, 0xfb) }
  function DecryptRow1(x: bv8): bv8 { Pick(x, 0x7c, 0xe3, 0x39, 0x82, 0x9b, 0x2f, 0xff, 0x87, 0x34, 0x8e, 0x43, 0x44, 0xc4, 0xde, 0xe9, 0xcb) }
  function DecryptRow2(x: bv8): bv8 { Pick(x, 0x54, 0x7b, 0x94, 0x32, 0xa6, 0xc2, 0x23, 0x3d, 0xee, 0x4c, 0x95, 0x0b, 0x42, 0xfa, 0xc3, 0x4e) }
  function DecryptRow3(x: bv8): bv8 { Pick(x, 0x08, 0x2e, 0xa1, 0x66, 0x28, 0xd9, 0x24, 0xb2, 0x76, 0x5b, 0xa2, 0x49, 0x6d, 0x8b, 0xd1, 0x25) }
  function DecryptRow4(x: bv8): bv8 { Pick(x, 0x72, 0xf8, 0xf6, 0x64, 0x86, 0x68, 0x98, 0x16, 0xd4, 0xa4, 0x5c, 0xcc, 0x5d, 0x65, 0xb6, 0x92) }
  function DecryptRow5(x: bv8): bv8 { Pick(x, 0x6c, 0x70, 0x48, 0x50, 0xfd, 0xed, 0xb9, 0xda, 0x5e, 0x15, 0x46, 0x57, 0xa7, 0x8d, 0x9d, 0x84) }
  function DecryptRow6(x: bv8): bv8 { Pick(x, 0x90, 0xd8, 0xab, 0x00, 0x8c, 0xbc, 0xd3, 0x0a, 0xf7, 0xe4, 0x58, 0x05, 0xb8, 0xb3, 0x45, 0x06) }
  function DecryptRow7(x: bv8): bv8 { Pick(x, 0xd0, 0x2c, 0x1e, 0x8f, 0xca, 0x3f, 0x0f, 0x02, 0xc1, 0xaf, 0xbd, 0x03, 0x01, 0x13, 0x8a, 0x6b) }
  function DecryptRow8(x: bv8): bv8 { Pick(x, 0x3a, 0x91, 0x11, 0x41, 0x4f, 0x67, 0xdc, 0xea, 0x97, 0xf2, 0xcf, 0xce, 0xf0, 0xb4, 0xe6, 0x73) }
  function DecryptRow9(x: bv8): bv8 { Pick(x, 0x96, 0xac, 0x74, 0x22, 0xe7, 0xad, 0x35, 0x85, 0xe2, 0xf9, 0x37, 0xe8, 0x1c, 0x75, 0xdf, 0x6e) }
  function DecryptRowA(x: bv8): bv8 { Pick(x, 0x47, 0xf1, 0x1a, 0x71, 0x1d, 0x29, 0xc5, 0x89, 0x6f, 0xb7, 0x62, 0x0e, 0xaa, 0x18, 0xbe, 0x1b) }
  function DecryptRowB(x: bv8): bv8 { Pick(x, 0xfc, 0x56, 0x3e, 0x4b, 0xc6, 0xd2, 0x79, 0x20, 0x9a, 0xdb, 0xc0, 0xfe, 0x78, 0xcd, 0x5a, 0xf4) }
  function DecryptRowC(x: bv8): bv8 { Pick(x, 0x1f, 0xdd, 0xa8, 0x33, 0x88, 0x07, 0xc7, 0x31, 0xb1, 0x12, 0x10, 0x59, 0x27, 0x80, 0xec, 0x5f) }
  function DecryptRowD(x: bv8): bv8 { Pick(x, 0x60, 0x51, 0x7f, 0xa9, 0x19, 0xb5, 0x4a, 0x0d, 0x2d, 0xe5, 0x7a, 0x9f, 0x93, 0xc9, 0x9c, 0xef) }
  function DecryptRowE(x: bv8): bv8 { Pick(x, 0xa0, 0xe0, 0x3b, 0x4d, 0xae, 0x2a, 0xf5, 0xb0, 0xc8, 0xeb, 0xbb, 0x3c, 0x83, 0x53, 0x99, 0x61) }
  function DecryptRowF(x: bv8): bv8 { Pick(x, 0x17, 0x2b, 0x04, 0x7e, 0xba, 0x77, 0xd6, 0x26, 0xe1, 0x69, 0x14, 0x63, 0x55, 0x21, 0x0c, 0x7d) }

  // sbox_encrypt[x], in row x / 16.
  function EncryptEntry(x: bv8): bv8 {
    if x & 0x80 == 0 then
      if x & 0x40 == 0 then
        if x & 0x20 == 0 then (if x & 0x10 == 0 then EncryptRow0(x) else EncryptRow1(x))
        else (if x & 0x10 == 0 then EncryptRow2(x) else EncryptRow3(x))
      else
        if x & 0x20 == 0 then (if x & 0x10 == 0 then EncryptRow4(x) else EncryptRow5(x))
        else (if x & 0x10 == 0 then EncryptRow6(x) else EncryptRow7(x))
    else
      if x & 0x40 == 0 then
        if x & 0x20 == 0 then (if x & 0x10 == 0 then EncryptRow8(x) else EncryptRow9(x))
        else (if x & 0x10 == 0 then EncryptRowA(x) else EncryptRowB(x))
      else
        if x & 0x20 == 0 then (if x & 0x10 == 0 then EncryptRowC(x) else EncryptRowD(x))
        else (if x & 0x10 == 0 then EncryptRowE(x) else EncryptRowF(x))
  }

  // sbox_decrypt[x].
  function DecryptEntry(x: bv8): bv8 {
    Pick(x >> 4,
      DecryptRow0(x), DecryptRow1(x), DecryptRow2(x), DecryptRow3(x),
      DecryptRow4(x), DecryptRow5(x), DecryptRow6(x), DecryptRow7(x),
      DecryptRow8(x), DecryptRow9(x), DecryptRowA(x), DecryptRowB(x),
      DecryptRowC(x), DecryptRowD(x), DecryptRowE(x), DecryptRowF(x))
  }

  // ----- The two tables are each other's inverse -----

  lemma DecryptEighth0(x: bv8)
    requires x >> 5 == 0
    ensures DecryptEntry(EncryptEntry(x)) == x
  {}

  lemma DecryptEighth1(x: bv8)
    requires x >> 5 == 1
    ensures DecryptEntry(EncryptEntry(x)) == x
  {}

  lemma DecryptEighth2(x: bv8)
    requires x >> 5 == 2
    ensures DecryptEntry(EncryptEntry(x)) == x
  {}

  lemma DecryptEighth3(x: bv8)
    requires x >> 5 == 3
    ensures DecryptEntry(EncryptEntry(x)) == x
  {}

  lemma DecryptEighth4(x: bv8)
    requires x >> 5 == 4
    ensures DecryptEntry(EncryptEntry(x)) == x
  {}

  lemma DecryptEighth5(x: bv8)
    requires x >> 5 == 5
    ensures DecryptEntry(EncryptEntry(x)) == x
  {}

  lemma DecryptEighth6(x: bv8)
    requires x >> 5 == 6
    ensures DecryptEntry(EncryptEntry(x)) == x
  {}

  lemma DecryptEighth7(x: bv8)
    requires x >> 5 == 7
    ensures DecryptEntry(EncryptEntry(x)) == x
  {}

  lemma EncryptEighth0(x: bv8)
    requires x >> 5 == 0
    ensures EncryptEntry(DecryptEntry(x)) == x
  {}

  lemma EncryptEighth1(x: bv8)
    requires x >> 5 == 1
    ensures EncryptEntry(DecryptEntry(x)) == x
  {}

  lemma EncryptEighth2(x: bv8)
    requires x >> 5 == 2
    ensures EncryptEntry(DecryptEntry(x)) == x
  {}

  lemma EncryptEighth3(x: bv8)
    requires x >> 5 == 3
    ensures EncryptEntry(DecryptEntry(x)) == x
  {}

  lemma EncryptEighth4(x: bv8)
    requires x >> 5 == 4
    ensures EncryptEntry(DecryptEntry(x)) == x
  {}

  lemma EncryptEighth5(x: bv8)
    requires x >> 5 == 5
    ensures EncryptEntry(DecryptEntry(x)) == x
  {}

  lemma EncryptEighth6(x: bv8)
    requires x >> 5 == 6
    ensures EncryptEntry(DecryptEntry(x)) == x
  {}

  lemma EncryptEighth7(x: bv8)
    requires x >> 5 == 7
    ensures EncryptEntry(DecryptEntry(x)) == x
  {}

  lemma TablesInvert()
    ensures Inverts(DecryptEntry, EncryptEntry)
    ensures Inverts(EncryptEntry, DecryptEntry)
  {
    forall x: bv8 ensures DecryptEntry(EncryptEntry(x)) == x && EncryptEntry(DecryptEntry(x)) == x {
      EntryInverts(x);
    }
  }

  lemma EntryInverts(x: bv8)
    ensures DecryptEntry(EncryptEntry(x)) == x && EncryptEntry(DecryptEntry(x)) == x
  {
    var eighth := x >> 5;
    if eighth == 0 {
      DecryptEighth0(x);
      EncryptEighth0(x);
    } else if eighth == 1 {
      DecryptEighth1(x);
      EncryptEighth1(x);
    } else if eighth == 2 {
      DecryptEighth2(x);
      EncryptEighth2(x);
    } else if eighth == 3 {
      DecryptEighth3(x);
      EncryptEighth3(x);
    } else if eighth == 4 {
      DecryptEighth4(x);
      EncryptEighth4(x);
    } else if eighth == 5 {
      DecryptEighth5(x);
      EncryptEighth5(x);
    } else if eighth == 6 {
      DecryptEighth6(x);
      EncryptEighth6(x);
    } else {
      DecryptEighth7(x);
      EncryptEighth7(x);
    }
  }

  // ----- The encryption table is the S-box -----

  // The affine transformation of section 5.1.1: b + b<<<1 + b<<<2 + b<<<3 + b<<<4 + {63}.
  function Affine(b: bv8): bv8 {
    b ^ ((b << 1) | (b >> 7)) ^ ((b << 2) | (b >> 6)) ^ ((b << 3) | (b >> 5)) ^ ((b << 4) | (b >> 4)) ^ 0x63
  }

  // Its inverse (section 5.3.2).
  function InvAffine(b: bv8): bv8 {
    ((b << 1) | (b >> 7)) ^ ((b << 3) | (b >> 5)) ^ ((b << 6) | (b >> 2)) ^ 0x05
  }

  lemma AffineInverts(b: bv8)
    ensures Affine(InvAffine(b)) == b
  {}

  lemma InverseInRow0(x: bv8, entry: bv8)
    requires x >> 4 == 0 && x != 0 && entry == EncryptRow0(x)
    ensures EightTerms(InvAffine(entry), x) == 1
  {}

  lemma InverseInRow1(x: bv8, entry: bv8)
    requires x >> 4 == 1 && entry == EncryptRow1(x)
    ensures EightTerms(InvAffine(entry), x) == 1
  {}

  lemma InverseInRow2(x: bv8, entry: bv8)
    requires x >> 4 == 2 && entry == EncryptRow2(x)
    ensures EightTerms(InvAffine(entry), x) == 1
  {}

  lemma InverseInRow3(x: bv8, entry: bv8)
    requires x >> 4 == 3 && entry == EncryptRow3(x)
    ensures EightTerms(InvAffine(entry), x) == 1
  {}

  lemma InverseInRow4(x: bv8, entry: bv8)
    requires x >> 4 == 4 && entry == EncryptRow4(x)
    ensures EightTerms(InvAffine(entry), x) == 1
  {}

  lemma InverseInRow5(x: bv8, entry: bv8)
    requires x >> 4 == 5 && entry == EncryptRow5(x)
    ensures EightTerms(InvAffine(entry), x) == 1
  {}

  lemma InverseInRow6(x: bv8, entry: bv8)
    requires x >> 4 == 6 && entry == EncryptRow6(x)
    ensures EightTerms(InvAffine(entry), x) == 1
  {}

  lemma InverseInRow7(x: bv8, entry: bv8)
    requires x >> 4 == 7 && entry == EncryptRow7(x)
    ensures EightTerms(InvAffine(entry), x) == 1
  {}

  lemma InverseInRow8(x: bv8, entry: bv8)
    requires x >> 4 == 8 && entry == EncryptRow8(x)
    ensures EightTerms(InvAffine(entry), x) == 1
  {}

  lemma InverseInRow9(x: bv8, entry: bv8)
    requires x >> 4 == 9 && entry == EncryptRow9(x)
    ensures EightTerms(InvAffine(entry), x) == 1
  {}

  lemma InverseInRowA(x: bv8, entry: bv8)
    requires x >> 4 == 10 && entry == EncryptRowA(x)
    ensures EightTerms(InvAffine(entry), x) == 1
  {}

  lemma InverseInRowB(x: bv8, entry: bv8)
    requires x >> 4 == 11 && entry == EncryptRowB(x)
    ensures EightTerms(InvAffine(entry), x) == 1
  {}

  lemma InverseInRowC(x: bv8, entry: bv8)
    requires x >> 4 == 12 && entry == EncryptRowC(x)
    ensures EightTerms(InvAffine(entry), x) == 1
  {}

  lemma InverseInRowD(x: bv8, entry: bv8)
    requires x >> 4 == 13 && entry == EncryptRowD(x)
    ensures EightTerms(InvAffine(entry), x) == 1
  {}

  lemma InverseInRowE(x: bv8, entry: bv8)
    requires x >> 4 == 14 && entry == EncryptRowE(x)
    ensures EightTerms(InvAffine(entry), x) == 1
  {}

  lemma InverseInRowF(x: bv8, entry: bv8)
    requires x >> 4 == 15 && entry == EncryptRowF(x)
    ensures EightTerms(InvAffine(entry), x) == 1
  {}

  lemma InverseInField(x: bv8, entry: bv8)
    requires x != 0 && entry == EncryptEntry(x)
    ensures EightTerms(InvAffine(entry), x) == 1
  {
    var row := x >> 4;
    if row == 0 {
      InverseInRow0(x, entry);
    } else if row == 1 {
      InverseInRow1(x, entry);
    } else if row == 2 {
      InverseInRow2(x, entry);
    } else if row == 3 {
      InverseInRow3(x, entry);
    } else if row == 4 {
      InverseInRow4(x, entry);
    } else if row == 5 {
      InverseInRow5(x, entry);
    } else if row == 6 {
      InverseInRow6(x, entry);
    } else if row == 7 {
      InverseInRow7(x, entry);
    } else if row == 8 {
      InverseInRow8(x, entry);
    } else if row == 9 {
      InverseInRow9(x, entry);
    } else if row == 10 {
      InverseInRowA(x, entry);
    } else if row == 11 {
      InverseInRowB(x, entry);
    } else if row == 12 {
      InverseInRowC(x, entry);
    } else if row == 13 {
      InverseInRowD(x, entry);
    } else if row == 14 {
      InverseInRowE(x, entry);
    } else {
      InverseInRowF(x, entry);
    }
  }

  // Every element but 0 has a multiplicative inverse: the table entry with its affine part removed.
  lemma InverseExists(x: bv8)
    requires x != 0
    ensures Mul(x, InvAffine(EncryptEntry(x))) == 1
  {
    var inverse := InvAffine(EncryptEntry(x));
    InverseInField(x, EncryptEntry(x));
    MulUnrolled(inverse, x);
    MulCommutes(inverse, x);
  }

  // The entry at x is the affine transformation of the multiplicative inverse of x (of 0, for 0).
  lemma EntryIsSbox(x: bv8, y: bv8)
    requires if x == 0 then y == 0 else Mul(x, y) == 1
    ensures EncryptEntry(x) == Affine(y)
  {
    if x != 0 {
      var inverse := InvAffine(EncryptEntry(x));
      InverseExists(x);
      MulCommutes(x, y);
      MulAssociates(y, x, inverse);
      MulOneLeft(inverse);
      MulOneRight(y);
      AffineInverts(EncryptEntry(x));
    }
  }
}
