// The routines of aes.c in the form the program runs them: every step overwrites its block.
//
// A block is the sixteen bytes that AES_Block_t occupies: row r of column c is byte 4*c + r. A key
// schedule is eleven blocks in a row, and a pointer to a round key is the offset of its first byte.
module AesInPlace {
  import opened GaloisField
  import opened Columns
  import opened Aes

  const SCHEDULE_SIZE: nat := AES_BLOCK_SIZE * NUM_ROUND_KEYS_128

  ghost function BlockOf(state: array<bv8>): Block
    requires state.Length == AES_BLOCK_SIZE
    reads state
  {
    BlockAt(state[..], 0)
  }

  function ScheduleAt(bytes: seq<bv8>): (w: seq<Block>)
    requires |bytes| == SCHEDULE_SIZE
    ensures |w| == NUM_ROUND_KEYS_128
  {
    seq(NUM_ROUND_KEYS_128, k requires 0 <= k < NUM_ROUND_KEYS_128 => BlockAt(bytes, AES_BLOCK_SIZE * k))
  }

  // ----- The round steps -----

  method DoSubBytes(state: array<bv8>, table: Table)
    requires state.Length == AES_BLOCK_SIZE
    modifies state
    ensures BlockOf(state) == SubBytes(table, old(BlockOf(state)))
  {
    for col := 0 to 4
      invariant forall i :: 0 <= i < 16 ==> state[i] == if i < 4 * col then table(old(state[i])) else old(state[i])
    {
      for row := 0 to 4
        invariant forall i :: 0 <= i < 16 ==>
          state[i] == if i < 4 * col + row then table(old(state[i])) else old(state[i])
      {
        var index := state[4 * col + row];
        state[4 * col + row] := table(index);
      }
    }
  }

  // The bytes of row r are those at r, r + 4, r + 8 and r + 12; row 0 stays.
  method DoShiftRows(state: array<bv8>)
    requires state.Length == AES_BLOCK_SIZE
    modifies state
    ensures BlockOf(state) == ShiftRows(old(BlockOf(state)))
  {
    ghost var s := state[..];

    var temp0 := state[1];
    state[1] := state[5];
    state[5] := state[9];
    state[9] := state[13];
    state[13] := temp0;
    ghost var s1 := s[1 := s[5]][5 := s[9]][9 := s[13]][13 := s[1]];
    assert state[..] == s1;

    temp0 := state[2];
    var temp1 := state[6];
    state[2] := state[10];
    state[6] := state[14];
    state[10] := temp0;
    state[14] := temp1;
    ghost var s2 := s1[2 := s[10]][6 := s[14]][10 := s[2]][14 := s[6]];
    assert state[..] == s2;

    temp0 := state[15];
    state[15] := state[11];
    state[11] := state[7];
    state[7] := state[3];
    state[3] := temp0;
    assert state[..] == s2[15 := s[11]][11 := s[7]][7 := s[3]][3 := s[15]];
  }

  method DoInvShiftRows(state: array<bv8>)
    requires state.Length == AES_BLOCK_SIZE
    modifies state
    ensures BlockOf(state) == InvShiftRows(old(BlockOf(state)))
  {
    ghost var s := state[..];

    var temp0 := state[13];
    state[13] := state[9];
    state[9] := state[5];
    state[5] := state[1];
    state[1] := temp0;
    ghost var s1 := s[13 := s[9]][9 := s[5]][5 := s[1]][1 := s[13]];
    assert state[..] == s1;

    temp0 := state[2];
    var temp1 := state[6];
    state[2] := state[10];
    state[6] := state[14];
    state[10] := temp0;
    state[14] := temp1;
    ghost var s2 := s1[2 := s[10]][6 := s[14]][10 := s[2]][14 := s[6]];
    assert state[..] == s2;

    temp0 := state[3];
    state[3] := state[7];
    state[7] := state[11];
    state[11] := state[15];
    state[15] := temp0;
    assert state[..] == s2[3 := s[7]][7 := s[11]][11 := s[15]][15 := s[3]];
  }

  method DoMixColumns(state: array<bv8>)
    requires state.Length == AES_BLOCK_SIZE
    modifies state
    ensures BlockOf(state) == MixColumns(old(BlockOf(state)))
  {
    for i := 0 to 4
      invariant forall c {:trigger ColumnAt(state[..], c)} :: 0 <= c < 4 ==>
        ColumnAt(state[..], c) == if c < i then MixColumn(old(ColumnAt(state[..], c))) else old(ColumnAt(state[..], c))
    {
      ghost var column := ColumnAt(state[..], i);
      var temp0, temp1, temp2, temp3 := MixedColumn(state[4 * i], state[4 * i + 1], state[4 * i + 2], state[4 * i + 3]);
      assert Word(temp0, temp1, temp2, temp3) == MixColumn(column);
      DoStoreColumn(state, i, Word(temp0, temp1, temp2, temp3));
    }
    BlockIsColumns(state[..]);
    BlockIsColumns(old(state[..]));
  }

  function ColumnAt(bytes: seq<bv8>, c: nat): Word
    requires |bytes| == AES_BLOCK_SIZE && c < 4
  {
    Word(bytes[4 * c], bytes[4 * c + 1], bytes[4 * c + 2], bytes[4 * c + 3])
  }

  lemma BlockIsColumns(bytes: seq<bv8>)
    requires |bytes| == AES_BLOCK_SIZE
    ensures BlockAt(bytes, 0) == Block(ColumnAt(bytes, 0), ColumnAt(bytes, 1), ColumnAt(bytes, 2), ColumnAt(bytes, 3))
  {}

  method DoStoreColumn(state: array<bv8>, i: nat, temp: Word)
    requires state.Length == AES_BLOCK_SIZE && i < 4
    modifies state
    ensures forall c {:trigger ColumnAt(state[..], c)} :: 0 <= c < 4 ==>
      ColumnAt(state[..], c) == if c == i then temp else old(ColumnAt(state[..], c))
  {
    state[4 * i] := temp.b0;
    state[4 * i + 1] := temp.b1;
    state[4 * i + 2] := temp.b2;
    state[4 * i + 3] := temp.b3;
  }

  method MixedColumn(a: bv8, b: bv8, c: bv8, d: bv8) returns (t0: bv8, t1: bv8, t2: bv8, t3: bv8)
    ensures Word(t0, t1, t2, t3) == MixColumn(Word(a, b, c, d))
  {
    var a2 := GfMult(0x02, a);
    var b2 := GfMult(0x02, b);
    var c2 := GfMult(0x02, c);
    var d2 := GfMult(0x02, d);
    var a3 := GfMult(0x03, a);
    var b3 := GfMult(0x03, b);
    var c3 := GfMult(0x03, c);
    var d3 := GfMult(0x03, d);
    t0 := a2 ^ b3 ^ c ^ d;
    t1 := a ^ b2 ^ c3 ^ d;
    t2 := a ^ b ^ c2 ^ d3;
    t3 := a3 ^ b ^ c ^ d2;
    XorIsSum4(a2, b3, c, d);
    XorIsSum4(a, b2, c3, d);
    XorIsSum4(a, b, c2, d3);
    XorIsSum4(a3, b, c, d2);
    MulOneLeft(a);
    MulOneLeft(b);
    MulOneLeft(c);
    MulOneLeft(d);
  }

  method DoInvMixColumns(state: array<bv8>)
    requires state.Length == AES_BLOCK_SIZE
    modifies state
    ensures BlockOf(state) == InvMixColumns(old(BlockOf(state)))
  {
    for i := 0 to 4
      invariant forall c {:trigger ColumnAt(state[..], c)} :: 0 <= c < 4 ==>
        ColumnAt(state[..], c)
          == if c < i then InvMixColumn(old(ColumnAt(state[..], c))) else old(ColumnAt(state[..], c))
    {
      ghost var column := ColumnAt(state[..], i);
      var temp0 := InvMixedByte(0x0e, 0x0b, 0x0d, 0x09, state[4 * i], state[4 * i + 1], state[4 * i + 2], state[4 * i + 3]);
      var temp1 := InvMixedByte(0x09, 0x0e, 0x0b, 0x0d, state[4 * i], state[4 * i + 1], state[4 * i + 2], state[4 * i + 3]);
      var temp2 := InvMixedByte(0x0d, 0x09, 0x0e, 0x0b, state[4 * i], state[4 * i + 1], state[4 * i + 2], state[4 * i + 3]);
      var temp3 := InvMixedByte(0x0b, 0x0d, 0x09, 0x0e, state[4 * i], state[4 * i + 1], state[4 * i + 2], state[4 * i + 3]);
      assert Word(temp0, temp1, temp2, temp3) == InvMixColumn(column);
      DoStoreColumn(state, i, Word(temp0, temp1, temp2, temp3));
    }
    BlockIsColumns(state[..]);
    BlockIsColumns(old(state[..]));
  }

  method InvMixedByte(k0: bv8, k1: bv8, k2: bv8, k3: bv8, a: bv8, b: bv8, c: bv8, d: bv8) returns (t: bv8)
    ensures t == MatrixRow(k0, k1, k2, k3, Word(a, b, c, d))
  {
    var ka := GfMult(k0, a);
    var kb := GfMult(k1, b);
    var kc := GfMult(k2, c);
    var kd := GfMult(k3, d);
    XorIsSum4(ka, kb, kc, kd);
    t := ka ^ kb ^ kc ^ kd;
  }

  // The round key is the block of `keys` that starts at byte p.
  method DoAddRoundKey(state: array<bv8>, keys: array<bv8>, p: nat)
    requires state.Length == AES_BLOCK_SIZE && p + AES_BLOCK_SIZE <= keys.Length && state != keys
    modifies state
    ensures BlockOf(state) == AddRoundKey(old(BlockOf(state)), BlockAt(keys[..], p))
  {
    ghost var s, k := state[..], keys[..];
    ghost var sum := seq(AES_BLOCK_SIZE, i requires 0 <= i < AES_BLOCK_SIZE => Add(s[i], k[p + i]));
    for col := 0 to 4
      invariant keys[..] == k
      invariant forall i :: 0 <= i < 16 ==> state[i] == if i < 4 * col then sum[i] else s[i]
    {
      for row := 0 to 4
        invariant keys[..] == k
        invariant forall i :: 0 <= i < 16 ==> state[i] == if i < 4 * col + row then sum[i] else s[i]
      {
        var i := 4 * col + row;
        state[i] := state[i] ^ keys[p + i];
      }
    }
    assert state[..] == sum;
    AddRoundKeyBytewise(s, k, p, sum);
  }

  lemma AddRoundKeyBytewise(s: seq<bv8>, k: seq<bv8>, p: nat, sum: seq<bv8>)
    requires |s| == |sum| == AES_BLOCK_SIZE && p + AES_BLOCK_SIZE <= |k|
    requires forall i :: 0 <= i < AES_BLOCK_SIZE ==> sum[i] == Add(s[i], k[p + i])
    ensures BlockAt(sum, 0) == AddRoundKey(BlockAt(s, 0), BlockAt(k, p))
  {}

  // ----- The block function -----

  method EncryptBlock(state: array<bv8>, keys: array<bv8>, table: Table)
    requires state.Length == AES_BLOCK_SIZE && keys.Length == SCHEDULE_SIZE && state != keys
    modifies state
    ensures BlockOf(state) == Cipher(table, ScheduleAt(keys[..]), old(BlockOf(state)))
  {
    ghost var w, s := ScheduleAt(keys[..]), BlockOf(state);
    var roundKey := 0;
    DoAddRoundKey(state, keys, roundKey);
    roundKey := roundKey + AES_BLOCK_SIZE;
    for i := 1 to NUM_ROUND_KEYS_128
      invariant roundKey == AES_BLOCK_SIZE * i
      invariant BlockOf(state) == if i < NUM_ROUND_KEYS_128 then CipherRounds(table, w, s, i - 1) else Cipher(table, w, s)
    {
      DoSubBytes(state, table);
      DoShiftRows(state);
      if i < NUM_ROUND_KEYS_128 - 1 {
        DoMixColumns(state);
      }
      DoAddRoundKey(state, keys, roundKey);
      roundKey := roundKey + AES_BLOCK_SIZE;
      assert BlockAt(keys[..], AES_BLOCK_SIZE * i) == w[i];
    }
  }

  // The state after n iterations of the decryption loop, which mixes the columns of a round before
  // the shift and substitution of the next one.
  ghost function DecryptLoop(inverse: Table, w: seq<Block>, s: Block, n: nat): Block
    requires |w| == NUM_ROUND_KEYS_128 && n < NUM_ROUND_KEYS_128
  {
    if n == 0 then s
    else SubBytes(inverse, InvShiftRows(InvCipherRounds(inverse, w, s, n - 1)))
  }

  method DecryptBlock(state: array<bv8>, keys: array<bv8>, inverse: Table)
    requires state.Length == AES_BLOCK_SIZE && keys.Length == SCHEDULE_SIZE && state != keys
    modifies state
    ensures BlockOf(state) == InvCipher(inverse, ScheduleAt(keys[..]), old(BlockOf(state)))
  {
    ghost var w, s := ScheduleAt(keys[..]), BlockOf(state);
    var roundKey := AES_BLOCK_SIZE * (NUM_ROUND_KEYS_128 - 1);
    for i := 1 to NUM_ROUND_KEYS_128
      invariant roundKey == AES_BLOCK_SIZE * (NUM_ROUND_KEYS_128 - i)
      invariant BlockOf(state) == DecryptLoop(inverse, w, s, i - 1)
    {
      assert BlockAt(keys[..], roundKey) == w[NUM_ROUND_KEYS_128 - i];
      DoAddRoundKey(state, keys, roundKey);
      roundKey := roundKey - AES_BLOCK_SIZE;
      if i != 1 {
        DoInvMixColumns(state);
      }
      DoInvShiftRows(state);
      DoSubBytes(state, inverse);
    }
    assert BlockAt(keys[..], roundKey) == w[0];
    DoAddRoundKey(state, keys, roundKey);
  }
}
