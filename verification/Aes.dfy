// The AES block cipher of aes.c: the round steps and both directions of the block function, which
// change a 4x4 array in place, against the Cipher and InvCipher of FIPS 197 sections 5.1 and 5.3.
//
// The substitution tables are parameters here, as they are of AES_SubBytes; the tables of the
// program are in AesTables.
module Aes {
  import opened Columns

  const NUM_ROUND_KEYS_128: nat := 11
  const AES_BLOCK_SIZE: nat := 16

  // A block as four columns.
  datatype Block = Block(c0: Word, c1: Word, c2: Word, c3: Word)

  // The block whose first byte is bytes[p].
  function BlockAt(bytes: seq<bv8>, p: nat): Block
    requires p + AES_BLOCK_SIZE <= |bytes|
  {
    Block(Word(bytes[p], bytes[p + 1], bytes[p + 2], bytes[p + 3]),
          Word(bytes[p + 4], bytes[p + 5], bytes[p + 6], bytes[p + 7]),
          Word(bytes[p + 8], bytes[p + 9], bytes[p + 10], bytes[p + 11]),
          Word(bytes[p + 12], bytes[p + 13], bytes[p + 14], bytes[p + 15]))
  }

  function Bytes(b: Block): (bytes: seq<bv8>)
    ensures |bytes| == AES_BLOCK_SIZE
  {
    [b.c0.b0, b.c0.b1, b.c0.b2, b.c0.b3, b.c1.b0, b.c1.b1, b.c1.b2, b.c1.b3,
     b.c2.b0, b.c2.b1, b.c2.b2, b.c2.b3, b.c3.b0, b.c3.b1, b.c3.b2, b.c3.b3]
  }

  lemma BytesOfBlockAt(bytes: seq<bv8>, p: nat)
    requires p + AES_BLOCK_SIZE <= |bytes|
    ensures Bytes(BlockAt(bytes, p)) == bytes[p..p + AES_BLOCK_SIZE]
  {}

  lemma BlockAtOfBytes(b: Block)
    ensures BlockAt(Bytes(b), 0) == b
  {}

  lemma BytesInjective(a: Block, b: Block)
    requires Bytes(a) == Bytes(b)
    ensures a == b
  {
    BlockAtOfBytes(a);
    BlockAtOfBytes(b);
  }

  // A substitution table.
  type Table = bv8 -> bv8

  // ----- The round steps -----

  function AddRoundKey(s: Block, k: Block): Block {
    Block(AddWords(s.c0, k.c0), AddWords(s.c1, k.c1), AddWords(s.c2, k.c2), AddWords(s.c3, k.c3))
  }

  function SubWord(table: Table, w: Word): Word { Word(table(w.b0), table(w.b1), table(w.b2), table(w.b3)) }

  function SubBytes(table: Table, s: Block): Block {
    Block(SubWord(table, s.c0), SubWord(table, s.c1), SubWord(table, s.c2), SubWord(table, s.c3))
  }

  // Row r moves r columns to the left (section 5.1.2) ...
  function ShiftRows(s: Block): Block {
    Block(Word(s.c0.b0, s.c1.b1, s.c2.b2, s.c3.b3), Word(s.c1.b0, s.c2.b1, s.c3.b2, s.c0.b3),
          Word(s.c2.b0, s.c3.b1, s.c0.b2, s.c1.b3), Word(s.c3.b0, s.c0.b1, s.c1.b2, s.c2.b3))
  }

  // ... or r columns to the right (section 5.3.1).
  function InvShiftRows(s: Block): Block {
    Block(Word(s.c0.b0, s.c3.b1, s.c2.b2, s.c1.b3), Word(s.c1.b0, s.c0.b1, s.c3.b2, s.c2.b3),
          Word(s.c2.b0, s.c1.b1, s.c0.b2, s.c3.b3), Word(s.c3.b0, s.c2.b1, s.c1.b2, s.c0.b3))
  }

  function MixColumns(s: Block): Block {
    Block(MixColumn(s.c0), MixColumn(s.c1), MixColumn(s.c2), MixColumn(s.c3))
  }

  function InvMixColumns(s: Block): Block {
    Block(InvMixColumn(s.c0), InvMixColumn(s.c1), InvMixColumn(s.c2), InvMixColumn(s.c3))
  }

  // ----- Cipher and InvCipher -----

  // The initial key addition and n full rounds.
  function CipherRounds(table: Table, w: seq<Block>, s: Block, n: nat): Block
    requires |w| == NUM_ROUND_KEYS_128 && n < NUM_ROUND_KEYS_128 - 1
  {
    if n == 0 then AddRoundKey(s, w[0])
    else AddRoundKey(MixColumns(ShiftRows(SubBytes(table, CipherRounds(table, w, s, n - 1)))), w[n])
  }

  function Cipher(table: Table, w: seq<Block>, s: Block): Block
    requires |w| == NUM_ROUND_KEYS_128
  {
    AddRoundKey(ShiftRows(SubBytes(table, CipherRounds(table, w, s, 9))), w[10])
  }

  function InvCipherRounds(inverse: Table, w: seq<Block>, s: Block, n: nat): Block
    requires |w| == NUM_ROUND_KEYS_128 && n < NUM_ROUND_KEYS_128 - 1
  {
    if n == 0 then AddRoundKey(s, w[10])
    else InvMixColumns(AddRoundKey(SubBytes(inverse, InvShiftRows(InvCipherRounds(inverse, w, s, n - 1))), w[10 - n]))
  }

  function InvCipher(inverse: Table, w: seq<Block>, s: Block): Block
    requires |w| == NUM_ROUND_KEYS_128
  {
    AddRoundKey(SubBytes(inverse, InvShiftRows(InvCipherRounds(inverse, w, s, 9))), w[0])
  }

  // ----- Every step can be undone -----

  ghost predicate Inverts(inverse: Table, table: Table) { forall x: bv8 :: inverse(table(x)) == x }

  lemma AddRoundKeyCancels(s: Block, k: Block)
    ensures AddRoundKey(AddRoundKey(s, k), k) == s
  {
    AddWordsCancels(s.c0, k.c0);
    AddWordsCancels(s.c1, k.c1);
    AddWordsCancels(s.c2, k.c2);
    AddWordsCancels(s.c3, k.c3);
  }

  lemma SubBytesInverts(inverse: Table, table: Table, s: Block)
    requires Inverts(inverse, table)
    ensures SubBytes(inverse, SubBytes(table, s)) == s
  {}

  lemma ShiftRowsInverts(s: Block)
    ensures InvShiftRows(ShiftRows(s)) == s
    ensures ShiftRows(InvShiftRows(s)) == s
  {}

  lemma MixColumnsInverts(s: Block)
    ensures InvMixColumns(MixColumns(s)) == s
    ensures MixColumns(InvMixColumns(s)) == s
  {
    InvMixInvertsMix(s.c0); MixInvertsInvMix(s.c0);
    InvMixInvertsMix(s.c1); MixInvertsInvMix(s.c1);
    InvMixInvertsMix(s.c2); MixInvertsInvMix(s.c2);
    InvMixInvertsMix(s.c3); MixInvertsInvMix(s.c3);
  }

  // Substitution and shift, taken back.
  lemma UnsubstituteShifted(inverse: Table, table: Table, s: Block)
    requires Inverts(inverse, table)
    ensures SubBytes(inverse, InvShiftRows(ShiftRows(SubBytes(table, s)))) == s
  {
    ShiftRowsInverts(SubBytes(table, s));
    SubBytesInverts(inverse, table, s);
  }

  lemma SubstituteUnshifted(inverse: Table, table: Table, s: Block)
    requires Inverts(table, inverse)
    ensures ShiftRows(SubBytes(table, SubBytes(inverse, InvShiftRows(s)))) == s
  {
    SubBytesInverts(table, inverse, InvShiftRows(s));
    ShiftRowsInverts(s);
  }

  // ----- Decryption undoes encryption -----

  // After its round n, InvCipher has reached the middle of round 10 - n of Cipher.
  lemma {:induction false} InvCipherRetraces(inverse: Table, table: Table, w: seq<Block>, s: Block, n: nat)
    requires |w| == NUM_ROUND_KEYS_128 && n <= 9 && Inverts(inverse, table)
    ensures InvCipherRounds(inverse, w, Cipher(table, w, s), n)
         == ShiftRows(SubBytes(table, CipherRounds(table, w, s, 9 - n)))
  {
    if n == 0 {
      AddRoundKeyCancels(ShiftRows(SubBytes(table, CipherRounds(table, w, s, 9))), w[10]);
    } else {
      InvCipherRetraces(inverse, table, w, s, n - 1);
      var before := ShiftRows(SubBytes(table, CipherRounds(table, w, s, 9 - n)));
      UnsubstituteShifted(inverse, table, CipherRounds(table, w, s, 10 - n));
      AddRoundKeyCancels(MixColumns(before), w[10 - n]);
      MixColumnsInverts(before);
    }
  }

  lemma DecryptInvertsEncrypt(inverse: Table, table: Table, w: seq<Block>, s: Block)
    requires |w| == NUM_ROUND_KEYS_128 && Inverts(inverse, table)
    ensures InvCipher(inverse, w, Cipher(table, w, s)) == s
  {
    InvCipherRetraces(inverse, table, w, s, 9);
    UnsubstituteShifted(inverse, table, CipherRounds(table, w, s, 0));
    AddRoundKeyCancels(s, w[0]);
  }

  lemma {:induction false} CipherRetraces(inverse: Table, table: Table, w: seq<Block>, s: Block, n: nat)
    requires |w| == NUM_ROUND_KEYS_128 && n <= 9 && Inverts(table, inverse)
    ensures CipherRounds(table, w, InvCipher(inverse, w, s), n)
         == SubBytes(inverse, InvShiftRows(InvCipherRounds(inverse, w, s, 9 - n)))
  {
    var before := SubBytes(inverse, InvShiftRows(InvCipherRounds(inverse, w, s, 9 - n)));
    if n == 0 {
      AddRoundKeyCancels(before, w[0]);
    } else {
      CipherRetraces(inverse, table, w, s, n - 1);
      assert InvCipherRounds(inverse, w, s, 10 - n) == InvMixColumns(AddRoundKey(before, w[n]));
      SubstituteUnshifted(inverse, table, InvCipherRounds(inverse, w, s, 10 - n));
      MixColumnsInverts(AddRoundKey(before, w[n]));
      AddRoundKeyCancels(before, w[n]);
    }
  }

  lemma EncryptInvertsDecrypt(inverse: Table, table: Table, w: seq<Block>, s: Block)
    requires |w| == NUM_ROUND_KEYS_128 && Inverts(table, inverse)
    ensures Cipher(table, w, InvCipher(inverse, w, s)) == s
  {
    CipherRetraces(inverse, table, w, s, 9);
    SubstituteUnshifted(inverse, table, InvCipherRounds(inverse, w, s, 0));
    AddRoundKeyCancels(s, w[10]);
  }
}
