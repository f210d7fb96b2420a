// The device's cipher evaluated on one block, round by round: a known answer, and enough to see that one more
// encryption of a MAC is not always that MAC.
module CipherSample {
  import opened GaloisField
  import opened Columns
  import opened Aes
  import opened AesTables
  import opened KeySchedule
  import opened CbcMac
  import opened Validation

  // ----- MixColumns by doubling -----

  function Doubling(w: Word): Word {
    Word(Sum4(Xtime(w.b0), Add(Xtime(w.b1), w.b1), w.b2, w.b3), Sum4(w.b0, Xtime(w.b1), Add(Xtime(w.b2), w.b2), w.b3),
         Sum4(w.b0, w.b1, Xtime(w.b2), Add(Xtime(w.b3), w.b3)), Sum4(Add(Xtime(w.b0), w.b0), w.b1, w.b2, Xtime(w.b3)))
  }

  lemma SmallMultiples(x: bv8)
    ensures Mul(1, x) == x && Mul(2, x) == Xtime(x) && Mul(3, x) == Add(Xtime(x), x)
  {
    MulOneRight(x);
    MulXtime(x, 1);
    MulDistributes(x, 2, 1);
    MulCommutes(1, x);
    MulCommutes(2, x);
    MulCommutes(3, x);
    assert Xtime(1) == 2 && Add(2, 1) == 3;
  }

  lemma MixByDoubling(w: Word)
    ensures MixColumn(w) == Doubling(w)
  {
    SmallMultiples(w.b0);
    SmallMultiples(w.b1);
    SmallMultiples(w.b2);
    SmallMultiples(w.b3);
  }

  function MixedByDoubling(s: Block): Block { Block(Doubling(s.c0), Doubling(s.c1), Doubling(s.c2), Doubling(s.c3)) }

  lemma MixBlockByDoubling(s: Block)
    ensures MixColumns(s) == MixedByDoubling(s)
  {
    MixByDoubling(s.c0);
    MixByDoubling(s.c1);
    MixByDoubling(s.c2);
    MixByDoubling(s.c3);
  }

  // ----- The round keys -----

  const KEY_0 := Block(Word(0x00, 0x11, 0x22, 0x33), Word(0x44, 0x55, 0x66, 0x77),
                       Word(0x88, 0x99, 0xaa, 0xbb), Word(0xcc, 0xdd, 0xee, 0xff))
  const KEY_1 := Block(Word(0xc0, 0x39, 0x34, 0x78), Word(0x84, 0x6c, 0x52, 0x0f),
                       Word(0x0c, 0xf5, 0xf8, 0xb4), Word(0xc0, 0x28, 0x16, 0x4b))
  const KEY_2 := Block(Word(0xf6, 0x7e, 0x87, 0xc2), Word(0x72, 0x12, 0xd5, 0xcd),
                       Word(0x7e, 0xe7, 0x2d, 0x79), Word(0xbe, 0xcf, 0x3b, 0x32))
  const KEY_3 := Block(Word(0x78, 0x9c, 0xa4, 0x6c), Word(0x0a, 0x8e, 0x71, 0xa1),
                       Word(0x74, 0x69, 0x5c, 0xd8), Word(0xca, 0xa6, 0x67, 0xea))
  const KEY_4 := Block(Word(0x54, 0x19, 0x23, 0x18), Word(0x5e, 0x97, 0x52, 0xb9),
                       Word(0x2a, 0xfe, 0x0e, 0x61), Word(0xe0, 0x58, 0x69, 0x8b))
  const KEY_5 := Block(Word(0x2e, 0xe0, 0x1e, 0xf9), Word(0x70, 0x77, 0x4c, 0x40),
                       Word(0x5a, 0x89, 0x42, 0x21), Word(0xba, 0xd1, 0x2b, 0xaa))
  const KEY_6 := Block(Word(0x30, 0x11, 0xb2, 0x0d), Word(0x40, 0x66, 0xfe, 0x4d),
                       Word(0x1a, 0xef, 0xbc, 0x6c), Word(0xa0, 0x3e, 0x97, 0xc6))
  const KEY_7 := Block(Word(0xc2, 0x99, 0x06, 0xed), Word(0x82, 0xff, 0xf8, 0xa0),
                       Word(0x98, 0x10, 0x44, 0xcc), Word(0x38, 0x2e, 0xd3, 0x0a))
  const KEY_8 := Block(Word(0x73, 0xff, 0x61, 0xea), Word(0xf1, 0x00, 0x99, 0x4a),
                       Word(0x69, 0x10, 0xdd, 0x86), Word(0x51, 0x3e, 0x0e, 0x8c))
  const KEY_9 := Block(Word(0xda, 0x54, 0x05, 0x3b), Word(0x2b, 0x54, 0x9c, 0x71),
                       Word(0x42, 0x44, 0x41, 0xf7), Word(0x13, 0x7a, 0x4f, 0x7b))
  const KEY_10 := Block(Word(0x36, 0xd0, 0x24, 0x46), Word(0x1d, 0x84, 0xb8, 0x37),
                        Word(0x5f, 0xc0, 0xf9, 0xc0), Word(0x4c, 0xba, 0xb6, 0xbb))

  lemma Key0Is(n: nat)
    requires n == 0
    ensures RoundKey(EncryptEntry, SECRET_KEY, n) == KEY_0
  {}

  lemma Key1Follows(n: nat)
    requires n == 0
    ensures NextRoundKey(EncryptEntry, KEY_0, n) == KEY_1
  {
    RconIsRoundConstant(n);
  }

  lemma Key2Follows(n: nat)
    requires n == 1
    ensures NextRoundKey(EncryptEntry, KEY_1, n) == KEY_2
  {
    RconIsRoundConstant(n);
  }

  lemma Key3Follows(n: nat)
    requires n == 2
    ensures NextRoundKey(EncryptEntry, KEY_2, n) == KEY_3
  {
    RconIsRoundConstant(n);
  }

  lemma Key4Follows(n: nat)
    requires n == 3
    ensures NextRoundKey(EncryptEntry, KEY_3, n) == KEY_4
  {
    RconIsRoundConstant(n);
  }

  lemma Key5Follows(n: nat)
    requires n == 4
    ensures NextRoundKey(EncryptEntry, KEY_4, n) == KEY_5
  {
    RconIsRoundConstant(n);
  }

  lemma Key6Follows(n: nat)
    requires n == 5
    ensures NextRoundKey(EncryptEntry, KEY_5, n) == KEY_6
  {
    RconIsRoundConstant(n);
  }

  lemma Key7Follows(n: nat)
    requires n == 6
    ensures NextRoundKey(EncryptEntry, KEY_6, n) == KEY_7
  {
    RconIsRoundConstant(n);
  }

  lemma Key8Follows(n: nat)
    requires n == 7
    ensures NextRoundKey(EncryptEntry, KEY_7, n) == KEY_8
  {
    RconIsRoundConstant(n);
  }

  lemma Key9Follows(n: nat)
    requires n == 8
    ensures NextRoundKey(EncryptEntry, KEY_8, n) == KEY_9
  {
    RconIsRoundConstant(n);
  }

  lemma Key10Follows(n: nat)
    requires n == 9
    ensures NextRoundKey(EncryptEntry, KEY_9, n) == KEY_10
  {
    RconIsRoundConstant(n);
  }

  lemma Key2Is(n: nat)
    requires n == 2
    ensures RoundKey(EncryptEntry, SECRET_KEY, n) == KEY_2 && RoundKey(EncryptEntry, SECRET_KEY, n - 1) == KEY_1
  {
    var m, k := n - 1, n - 2;
    Key0Is(k);
    Key1Follows(k);
    Key2Follows(m);
  }

  lemma Key4Is(n: nat)
    requires n == 4
    ensures RoundKey(EncryptEntry, SECRET_KEY, n) == KEY_4 && RoundKey(EncryptEntry, SECRET_KEY, n - 1) == KEY_3
  {
    var m, k := n - 1, n - 2;
    Key2Is(k);
    Key3Follows(k);
    Key4Follows(m);
  }

  lemma Key6Is(n: nat)
    requires n == 6
    ensures RoundKey(EncryptEntry, SECRET_KEY, n) == KEY_6 && RoundKey(EncryptEntry, SECRET_KEY, n - 1) == KEY_5
  {
    var m, k := n - 1, n - 2;
    Key4Is(k);
    Key5Follows(k);
    Key6Follows(m);
  }

  lemma Key8Is(n: nat)
    requires n == 8
    ensures RoundKey(EncryptEntry, SECRET_KEY, n) == KEY_8 && RoundKey(EncryptEntry, SECRET_KEY, n - 1) == KEY_7
  {
    var m, k := n - 1, n - 2;
    Key6Is(k);
    Key7Follows(k);
    Key8Follows(m);
  }

  lemma Key10Is(n: nat)
    requires n == 10
    ensures RoundKey(EncryptEntry, SECRET_KEY, n) == KEY_10 && RoundKey(EncryptEntry, SECRET_KEY, n - 1) == KEY_9
  {
    var m, k := n - 1, n - 2;
    Key8Is(k);
    Key9Follows(k);
    Key10Follows(m);
  }

  // ----- The table, a column at a time -----

  function Entries(b0: bv8, b1: bv8, b2: bv8, b3: bv8): Word {
    Word(EncryptEntry(b0), EncryptEntry(b1), EncryptEntry(b2), EncryptEntry(b3))
  }

  // ----- The rounds -----

  // The state after the initial key addition and after each full round, from a block of bytes 0x10.
  const STATE_0 := Block(Word(0x10, 0x01, 0x32, 0x23), Word(0x54, 0x45, 0x76, 0x67),
                         Word(0x98, 0x89, 0xba, 0xab), Word(0xdc, 0xcd, 0xfe, 0xef))
  const STATE_1 := Block(Word(0xd6, 0xf7, 0x19, 0x02), Word(0xab, 0xe9, 0xd2, 0x3f),
                         Word(0xfa, 0x32, 0xd1, 0xf1), Word(0x09, 0x7c, 0x3a, 0x5a))
  const STATE_2 := Block(Word(0xa3, 0x48, 0xca, 0x84), Word(0x24, 0xda, 0x16, 0x26),
                         Word(0xb5, 0xf8, 0x3c, 0x20), Word(0x10, 0x7b, 0xdb, 0xb5))
  const STATE_3 := Block(Word(0xab, 0xcb, 0x50, 0x7f), Word(0x43, 0xb5, 0x8e, 0xbd),
                         Word(0x25, 0x95, 0x42, 0x1c), Word(0x43, 0xb6, 0xb3, 0xcf))
  const STATE_4 := Block(Word(0x52, 0x34, 0x49, 0x48), Word(0xab, 0xbc, 0xd5, 0x6f),
                         Word(0xaf, 0xd2, 0x57, 0xc9), Word(0x70, 0xcb, 0xe1, 0x80))
  const STATE_5 := Block(Word(0x17, 0x0a, 0x81, 0x46), Word(0xda, 0x25, 0x86, 0x0f),
                         Word(0x1a, 0x2b, 0xb1, 0xc5), Word(0xee, 0x68, 0x18, 0xe3))
  const STATE_6 := Block(Word(0x53, 0xcd, 0xc5, 0xd3), Word(0x11, 0x7e, 0xf7, 0x5c),
                         Word(0xf0, 0xa5, 0xd9, 0x34), Word(0xbb, 0xb2, 0xa1, 0xca))
  const STATE_7 := Block(Word(0x4c, 0xa2, 0xee, 0xef), Word(0xc3, 0x41, 0xb2, 0xc5),
                         Word(0x2e, 0x49, 0x76, 0x46), Word(0x5b, 0x05, 0x7c, 0xca))
  const STATE_8 := Block(Word(0xf3, 0xf7, 0x27, 0xc2), Word(0x2f, 0xb7, 0xd6, 0xb6),
                         Word(0x38, 0x29, 0x26, 0xc1), Word(0x00, 0x70, 0x8d, 0x7e))
  const STATE_9 := Block(Word(0x24, 0xe1, 0x5a, 0x8f), Word(0x8d, 0xd2, 0xf9, 0xfc),
                         Word(0x3d, 0xe0, 0x46, 0xff), Word(0xe3, 0xb0, 0x3b, 0xb0))
  const SUBSTITUTED_1 := Block(Word(0xca, 0x7c, 0x23, 0x26), Word(0x20, 0x6e, 0x38, 0x85),
                               Word(0x46, 0xa7, 0xf4, 0x62), Word(0x86, 0xbd, 0xbb, 0xdf))
  const SUBSTITUTED_2 := Block(Word(0xf6, 0x68, 0xd4, 0x77), Word(0x62, 0x1e, 0xb5, 0x75),
                               Word(0x2d, 0x23, 0x3e, 0xa1), Word(0x01, 0x10, 0x80, 0xbe))
  const SUBSTITUTED_3 := Block(Word(0x0a, 0x52, 0x74, 0x5f), Word(0x36, 0x57, 0x47, 0xf7),
                               Word(0xd5, 0x41, 0xeb, 0xb7), Word(0xca, 0x21, 0xb9, 0xd5))
  const SUBSTITUTED_4 := Block(Word(0x62, 0x1f, 0x53, 0xd2), Word(0x1a, 0xd5, 0x19, 0x7a),
                               Word(0x3f, 0x2a, 0x2c, 0x9c), Word(0x1a, 0x4e, 0x6d, 0x8a))
  const SUBSTITUTED_5 := Block(Word(0x00, 0x18, 0x3b, 0x52), Word(0x62, 0x65, 0x03, 0xa8),
                               Word(0x79, 0xb5, 0x5b, 0xdd), Word(0x51, 0x1f, 0xf8, 0xcd))
  const SUBSTITUTED_6 := Block(Word(0xf0, 0x67, 0x0c, 0x5a), Word(0x57, 0x3f, 0x44, 0x76),
                               Word(0xa2, 0xf1, 0xc8, 0xa6), Word(0x28, 0x45, 0xad, 0x11))
  const SUBSTITUTED_7 := Block(Word(0xed, 0xbd, 0xa6, 0x66), Word(0x82, 0xf3, 0x68, 0x4a),
                               Word(0x8c, 0x06, 0x35, 0x18), Word(0xea, 0x37, 0x32, 0x74))
  const SUBSTITUTED_8 := Block(Word(0x29, 0x3a, 0x28, 0xdf), Word(0x2e, 0x83, 0x37, 0xa6),
                               Word(0x31, 0x3b, 0x38, 0x5a), Word(0x39, 0x6b, 0x10, 0x74))
  const SUBSTITUTED_9 := Block(Word(0x0d, 0x68, 0xcc, 0x25), Word(0x15, 0xa9, 0xf6, 0x4e),
                               Word(0x07, 0xa5, 0xf7, 0x78), Word(0x63, 0x51, 0x5d, 0xf3))

  lemma Entries1()
    ensures Entries(0x10, 0x01, 0x32, 0x23) == Word(0xca, 0x7c, 0x23, 0x26)
    ensures Entries(0x54, 0x45, 0x76, 0x67) == Word(0x20, 0x6e, 0x38, 0x85)
    ensures Entries(0x98, 0x89, 0xba, 0xab) == Word(0x46, 0xa7, 0xf4, 0x62)
    ensures Entries(0xdc, 0xcd, 0xfe, 0xef) == Word(0x86, 0xbd, 0xbb, 0xdf)
  {}

  lemma Substitution1()
    ensures SubBytes(EncryptEntry, STATE_0) == SUBSTITUTED_1
  {
    Entries1();
  }

  lemma Mixing1()
    ensures AddRoundKey(MixedByDoubling(ShiftRows(SUBSTITUTED_1)), KEY_1) == STATE_1
  {}

  lemma Entries2()
    ensures Entries(0xd6, 0xf7, 0x19, 0x02) == Word(0xf6, 0x68, 0xd4, 0x77)
    ensures Entries(0xab, 0xe9, 0xd2, 0x3f) == Word(0x62, 0x1e, 0xb5, 0x75)
    ensures Entries(0xfa, 0x32, 0xd1, 0xf1) == Word(0x2d, 0x23, 0x3e, 0xa1)
    ensures Entries(0x09, 0x7c, 0x3a, 0x5a) == Word(0x01, 0x10, 0x80, 0xbe)
  {}

  lemma Substitution2()
    ensures SubBytes(EncryptEntry, STATE_1) == SUBSTITUTED_2
  {
    Entries2();
  }

  lemma Mixing2()
    ensures AddRoundKey(MixedByDoubling(ShiftRows(SUBSTITUTED_2)), KEY_2) == STATE_2
  {}

  lemma Entries3()
    ensures Entries(0xa3, 0x48, 0xca, 0x84) == Word(0x0a, 0x52, 0x74, 0x5f)
    ensures Entries(0x24, 0xda, 0x16, 0x26) == Word(0x36, 0x57, 0x47, 0xf7)
    ensures Entries(0xb5, 0xf8, 0x3c, 0x20) == Word(0xd5, 0x41, 0xeb, 0xb7)
    ensures Entries(0x10, 0x7b, 0xdb, 0xb5) == Word(0xca, 0x21, 0xb9, 0xd5)
  {}

  lemma Substitution3()
    ensures SubBytes(EncryptEntry, STATE_2) == SUBSTITUTED_3
  {
    Entries3();
  }

  lemma Mixing3()
    ensures AddRoundKey(MixedByDoubling(ShiftRows(SUBSTITUTED_3)), KEY_3) == STATE_3
  {}

  lemma Entries4()
    ensures Entries(0xab, 0xcb, 0x50, 0x7f) == Word(0x62, 0x1f, 0x53, 0xd2)
    ensures Entries(0x43, 0xb5, 0x8e, 0xbd) == Word(0x1a, 0xd5, 0x19, 0x7a)
    ensures Entries(0x25, 0x95, 0x42, 0x1c) == Word(0x3f, 0x2a, 0x2c, 0x9c)
    ensures Entries(0x43, 0xb6, 0xb3, 0xcf) == Word(0x1a, 0x4e, 0x6d, 0x8a)
  {}

  lemma Substitution4()
    ensures SubBytes(EncryptEntry, STATE_3) == SUBSTITUTED_4
  {
    Entries4();
  }

  lemma Mixing4()
    ensures AddRoundKey(MixedByDoubling(ShiftRows(SUBSTITUTED_4)), KEY_4) == STATE_4
  {}

  lemma Entries5()
    ensures Entries(0x52, 0x34, 0x49, 0x48) == Word(0x00, 0x18, 0x3b, 0x52)
    ensures Entries(0xab, 0xbc, 0xd5, 0x6f) == Word(0x62, 0x65, 0x03, 0xa8)
    ensures Entries(0xaf, 0xd2, 0x57, 0xc9) == Word(0x79, 0xb5, 0x5b, 0xdd)
    ensures Entries(0x70, 0xcb, 0xe1, 0x80) == Word(0x51, 0x1f, 0xf8, 0xcd)
  {}

  lemma Substitution5()
    ensures SubBytes(EncryptEntry, STATE_4) == SUBSTITUTED_5
  {
    Entries5();
  }

  lemma Mixing5()
    ensures AddRoundKey(MixedByDoubling(ShiftRows(SUBSTITUTED_5)), KEY_5) == STATE_5
  {}

  lemma Entries6()
    ensures Entries(0x17, 0x0a, 0x81, 0x46) == Word(0xf0, 0x67, 0x0c, 0x5a)
    ensures Entries(0xda, 0x25, 0x86, 0x0f) == Word(0x57, 0x3f, 0x44, 0x76)
    ensures Entries(0x1a, 0x2b, 0xb1, 0xc5) == Word(0xa2, 0xf1, 0xc8, 0xa6)
    ensures Entries(0xee, 0x68, 0x18, 0xe3) == Word(0x28, 0x45, 0xad, 0x11)
  {}

  lemma Substitution6()
    ensures SubBytes(EncryptEntry, STATE_5) == SUBSTITUTED_6
  {
    Entries6();
  }

  lemma Mixing6()
    ensures AddRoundKey(MixedByDoubling(ShiftRows(SUBSTITUTED_6)), KEY_6) == STATE_6
  {}

  lemma Entries7()
    ensures Entries(0x53, 0xcd, 0xc5, 0xd3) == Word(0xed, 0xbd, 0xa6, 0x66)
    ensures Entries(0x11, 0x7e, 0xf7, 0x5c) == Word(0x82, 0xf3, 0x68, 0x4a)
    ensures Entries(0xf0, 0xa5, 0xd9, 0x34) == Word(0x8c, 0x06, 0x35, 0x18)
    ensures Entries(0xbb, 0xb2, 0xa1, 0xca) == Word(0xea, 0x37, 0x32, 0x74)
  {}

  lemma Substitution7()
    ensures SubBytes(EncryptEntry, STATE_6) == SUBSTITUTED_7
  {
    Entries7();
  }

  lemma Mixing7()
    ensures AddRoundKey(MixedByDoubling(ShiftRows(SUBSTITUTED_7)), KEY_7) == STATE_7
  {}

  lemma Entries8()
    ensures Entries(0x4c, 0xa2, 0xee, 0xef) == Word(0x29, 0x3a, 0x28, 0xdf)
    ensures Entries(0xc3, 0x41, 0xb2, 0xc5) == Word(0x2e, 0x83, 0x37, 0xa6)
    ensures Entries(0x2e, 0x49, 0x76, 0x46) == Word(0x31, 0x3b, 0x38, 0x5a)
    ensures Entries(0x5b, 0x05, 0x7c, 0xca) == Word(0x39, 0x6b, 0x10, 0x74)
  {}

  lemma Substitution8()
    ensures SubBytes(EncryptEntry, STATE_7) == SUBSTITUTED_8
  {
    Entries8();
  }

  lemma Mixing8()
    ensures AddRoundKey(MixedByDoubling(ShiftRows(SUBSTITUTED_8)), KEY_8) == STATE_8
  {}

  lemma Entries9()
    ensures Entries(0xf3, 0xf7, 0x27, 0xc2) == Word(0x0d, 0x68, 0xcc, 0x25)
    ensures Entries(0x2f, 0xb7, 0xd6, 0xb6) == Word(0x15, 0xa9, 0xf6, 0x4e)
    ensures Entries(0x38, 0x29, 0x26, 0xc1) == Word(0x07, 0xa5, 0xf7, 0x78)
    ensures Entries(0x00, 0x70, 0x8d, 0x7e) == Word(0x63, 0x51, 0x5d, 0xf3)
  {}

  lemma Substitution9()
    ensures SubBytes(EncryptEntry, STATE_8) == SUBSTITUTED_9
  {
    Entries9();
  }

  lemma Mixing9()
    ensures AddRoundKey(MixedByDoubling(ShiftRows(SUBSTITUTED_9)), KEY_9) == STATE_9
  {}

  // The keys of a device, or of any schedule that is the same.
  ghost predicate IsDeviceSchedule(w: seq<Block>) {
    |w| == NUM_ROUND_KEYS_128 && forall n: nat {:trigger w[n]} :: n < |w| ==> w[n] == RoundKey(EncryptEntry, SECRET_KEY, n)
  }

  const SAMPLE := Block(Word(0x10, 0x10, 0x10, 0x10), Word(0x10, 0x10, 0x10, 0x10),
                        Word(0x10, 0x10, 0x10, 0x10), Word(0x10, 0x10, 0x10, 0x10))

  lemma Reaches0(w: seq<Block>, n: nat)
    requires IsDeviceSchedule(w) && n == 0
    ensures CipherRounds(EncryptEntry, w, SAMPLE, n) == STATE_0
  {
    Key0Is(n);
  }

  lemma Reaches1(w: seq<Block>, n: nat)
    requires IsDeviceSchedule(w) && n == 1
    ensures CipherRounds(EncryptEntry, w, SAMPLE, n) == STATE_1
  {
    Reaches0(w, n - 1);
    Key2Is(n + 1);
    Substitution1();
    MixBlockByDoubling(ShiftRows(SUBSTITUTED_1));
    Mixing1();
  }

  lemma Reaches2(w: seq<Block>, n: nat)
    requires IsDeviceSchedule(w) && n == 2
    ensures CipherRounds(EncryptEntry, w, SAMPLE, n) == STATE_2
  {
    Reaches1(w, n - 1);
    Key2Is(n);
    Substitution2();
    MixBlockByDoubling(ShiftRows(SUBSTITUTED_2));
    Mixing2();
  }

  lemma Reaches3(w: seq<Block>, n: nat)
    requires IsDeviceSchedule(w) && n == 3
    ensures CipherRounds(EncryptEntry, w, SAMPLE, n) == STATE_3
  {
    Reaches2(w, n - 1);
    Key4Is(n + 1);
    Substitution3();
    MixBlockByDoubling(ShiftRows(SUBSTITUTED_3));
    Mixing3();
  }

  lemma Reaches4(w: seq<Block>, n: nat)
    requires IsDeviceSchedule(w) && n == 4
    ensures CipherRounds(EncryptEntry, w, SAMPLE, n) == STATE_4
  {
    Reaches3(w, n - 1);
    Key4Is(n);
    Substitution4();
    MixBlockByDoubling(ShiftRows(SUBSTITUTED_4));
    Mixing4();
  }

  lemma Reaches5(w: seq<Block>, n: nat)
    requires IsDeviceSchedule(w) && n == 5
    ensures CipherRounds(EncryptEntry, w, SAMPLE, n) == STATE_5
  {
    Reaches4(w, n - 1);
    Key6Is(n + 1);
    Substitution5();
    MixBlockByDoubling(ShiftRows(SUBSTITUTED_5));
    Mixing5();
  }

  lemma Reaches6(w: seq<Block>, n: nat)
    requires IsDeviceSchedule(w) && n == 6
    ensures CipherRounds(EncryptEntry, w, SAMPLE, n) == STATE_6
  {
    Reaches5(w, n - 1);
    Key6Is(n);
    Substitution6();
    MixBlockByDoubling(ShiftRows(SUBSTITUTED_6));
    Mixing6();
  }

  lemma Reaches7(w: seq<Block>, n: nat)
    requires IsDeviceSchedule(w) && n == 7
    ensures CipherRounds(EncryptEntry, w, SAMPLE, n) == STATE_7
  {
    Reaches6(w, n - 1);
    Key8Is(n + 1);
    Substitution7();
    MixBlockByDoubling(ShiftRows(SUBSTITUTED_7));
    Mixing7();
  }

  lemma Reaches8(w: seq<Block>, n: nat)
    requires IsDeviceSchedule(w) && n == 8
    ensures CipherRounds(EncryptEntry, w, SAMPLE, n) == STATE_8
  {
    Reaches7(w, n - 1);
    Key8Is(n);
    Substitution8();
    MixBlockByDoubling(ShiftRows(SUBSTITUTED_8));
    Mixing8();
  }

  lemma Reaches9(w: seq<Block>, n: nat)
    requires IsDeviceSchedule(w) && n == 9
    ensures CipherRounds(EncryptEntry, w, SAMPLE, n) == STATE_9
  {
    Reaches8(w, n - 1);
    Key10Is(n + 1);
    Substitution9();
    MixBlockByDoubling(ShiftRows(SUBSTITUTED_9));
    Mixing9();
  }

  const SUBSTITUTED_10 := Block(Word(0x36, 0xf8, 0xbe, 0x73), Word(0x5d, 0xb5, 0x99, 0xb0),
                                Word(0x27, 0xe1, 0x5a, 0x16), Word(0x11, 0xe7, 0xe2, 0xe7))
  const RESULT := Block(Word(0x00, 0x65, 0x7e, 0xa1), Word(0x40, 0x65, 0x5a, 0x44),
                        Word(0x78, 0x27, 0x47, 0x70), Word(0x5d, 0x42, 0x2f, 0xad))

  lemma Entries10()
    ensures Entries(0x24, 0xe1, 0x5a, 0x8f) == Word(0x36, 0xf8, 0xbe, 0x73)
    ensures Entries(0x8d, 0xd2, 0xf9, 0xfc) == Word(0x5d, 0xb5, 0x99, 0xb0)
    ensures Entries(0x3d, 0xe0, 0x46, 0xff) == Word(0x27, 0xe1, 0x5a, 0x16)
    ensures Entries(0xe3, 0xb0, 0x3b, 0xb0) == Word(0x11, 0xe7, 0xe2, 0xe7)
  {}

  lemma Substitution10()
    ensures SubBytes(EncryptEntry, STATE_9) == SUBSTITUTED_10
  {
    Entries10();
  }

  // The last round mixes no columns.
  lemma LastAddition()
    ensures AddRoundKey(ShiftRows(SUBSTITUTED_10), KEY_10) == RESULT
  {}

  lemma ReachesResult(w: seq<Block>, n: nat)
    requires IsDeviceSchedule(w) && n == 9
    ensures Cipher(EncryptEntry, w, SAMPLE) == RESULT
  {
    Reaches9(w, n);
    Key10Is(n + 1);
    Substitution10();
    LastAddition();
  }

  // The ciphertext of sixteen bytes 0x10 under the compiled-in key, as any AES-128 gives it.
  lemma SampleIs()
    ensures Bytes(DeviceCipher(BlockAt(Repeat(0x10, 16), 0))) ==
      [0x00, 0x65, 0x7e, 0xa1, 0x40, 0x65, 0x5a, 0x44, 0x78, 0x27, 0x47, 0x70, 0x5d, 0x42, 0x2f, 0xad]
  {
    assert BlockAt(Repeat(0x10, 16), 0) == SAMPLE;
    ReachesResult(DeviceKeys(), 9);
  }

  lemma SampleIsNotZero()
    ensures DeviceCipher(SAMPLE) != ZERO_BLOCK
  {
    ReachesResult(DeviceKeys(), 9);
  }
}
