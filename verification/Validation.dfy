// validate_fw_image of bootloader.c: the loop over the image in flash, against the MAC of Image.
module Validation {
  import opened GaloisField
  import opened Columns
  import opened Aes
  import opened AesTables
  import opened AesInPlace
  import opened KeySchedule
  import opened CbcMac
  import opened Image
  import opened LittleEndian
  import opened MacLoop

  // The key compiled into the bootloader, which is also the key of the signer.
  const SECRET_KEY := Block(Word(0x00, 0x11, 0x22, 0x33), Word(0x44, 0x55, 0x66, 0x77),
                            Word(0x88, 0x99, 0xaa, 0xbb), Word(0xcc, 0xdd, 0xee, 0xff))

  function DeviceKeys(): (w: seq<Block>)
    ensures |w| == NUM_ROUND_KEYS_128
  {
    ExpandKey(EncryptEntry, SECRET_KEY)
  }

  function DeviceCipher(b: Block): Block { Cipher(EncryptEntry, DeviceKeys(), b) }

  lemma DeviceCipherInjective()
    ensures Injective(DeviceCipher)
  {
    TablesInvert();
    forall x: Block, y: Block | DeviceCipher(x) == DeviceCipher(y) ensures x == y {
      DecryptInvertsEncrypt(DecryptEntry, EncryptEntry, DeviceKeys(), x);
      DecryptInvertsEncrypt(DecryptEntry, EncryptEntry, DeviceKeys(), y);
    }
  }

  // ----- One chaining step -----

  method XorInto(state: array<bv8>, previous: array<bv8>)
    requires state.Length == AES_BLOCK_SIZE && previous.Length == AES_BLOCK_SIZE && state != previous
    modifies state
    ensures BlockOf(state) == AddBlocks(old(BlockOf(state)), BlockOf(previous))
  {
    ghost var s, k := state[..], previous[..];
    ghost var sum := seq(AES_BLOCK_SIZE, i requires 0 <= i < AES_BLOCK_SIZE => Add(s[i], k[i]));
    for i := 0 to AES_BLOCK_SIZE
      invariant previous[..] == k
      invariant forall j :: 0 <= j < AES_BLOCK_SIZE ==> state[j] == if j < i then sum[j] else s[j]
    {
      state[i] := state[i] ^ previous[i];
    }
    assert state[..] == sum;
    AddRoundKeyBytewise(s, k, 0, sum);
  }

  method CopyBlock(state: array<bv8>, previous: array<bv8>)
    requires state.Length == AES_BLOCK_SIZE && previous.Length == AES_BLOCK_SIZE && state != previous
    modifies previous
    ensures previous[..] == state[..]
  {
    for i := 0 to AES_BLOCK_SIZE
      invariant forall j :: 0 <= j < i ==> previous[j] == state[j]
    {
      previous[i] := state[i];
    }
  }

  // The routines below compute with the round keys in `keys`; their contracts speak of the block
  // cipher e that those keys make of AES.
  ghost predicate Implements(e: BlockCipher, w: seq<Block>)
    requires |w| == NUM_ROUND_KEYS_128
  {
    forall b: Block {:trigger Cipher(EncryptEntry, w, b)} :: e(b) == Cipher(EncryptEntry, w, b)
  }

  ghost predicate Buffers(e: BlockCipher, state: array<bv8>, previous: array<bv8>, keys: array<bv8>)
    reads keys
  {
    && state.Length == AES_BLOCK_SIZE && previous.Length == AES_BLOCK_SIZE && keys.Length == SCHEDULE_SIZE
    && state != previous && state != keys && previous != keys
    && Implements(e, ScheduleAt(keys[..]))
  }

  method AesCbcMacStep(ghost e: BlockCipher, state: array<bv8>, previous: array<bv8>, keys: array<bv8>)
    requires Buffers(e, state, previous, keys)
    modifies state, previous
    ensures BlockOf(state) == e(AddBlocks(old(BlockOf(state)), old(BlockOf(previous))))
    ensures BlockOf(previous) == BlockOf(state)
  {
    XorInto(state, previous);
    EncryptBlock(state, keys, EncryptEntry);
    CopyBlock(state, previous);
  }

  // Copies n bytes of the image to the front of the state.
  method LoadBytes(m: Memory, p: nat, state: array<bv8>, n: nat)
    requires state.Length == AES_BLOCK_SIZE && n <= AES_BLOCK_SIZE
    modifies state
    ensures state[..] == m.Read(p, n) + old(state[n..])
  {
    for i := 0 to n
      invariant forall j :: 0 <= j < AES_BLOCK_SIZE ==> state[j] == if j < i then m.At(p + j) else old(state[j])
    {
      state[i] := m.At(p + i);
    }
  }

  method FillBytes(state: array<bv8>, p: nat, value: bv8)
    requires state.Length == AES_BLOCK_SIZE && p <= AES_BLOCK_SIZE
    modifies state
    ensures state[..] == old(state[..p]) + Repeat(value, AES_BLOCK_SIZE - p)
  {
    for i := p to AES_BLOCK_SIZE
      invariant forall j :: 0 <= j < AES_BLOCK_SIZE ==> state[j] == if p <= j < i then value else old(state[j])
    {
      state[i] := value;
    }
  }

  method SameBytes(m: Memory, p: nat, state: array<bv8>) returns (same: bool)
    requires state.Length == AES_BLOCK_SIZE
    ensures same == (m.Read(p, AES_BLOCK_SIZE) == state[..])
  {
    for i := 0 to AES_BLOCK_SIZE
      invariant forall j :: 0 <= j < i ==> m.At(p + j) == state[j]
    {
      if m.At(p + i) != state[i] {
        assert m.Read(p, AES_BLOCK_SIZE)[i] != state[..][i];
        return false;
      }
    }
    same := true;
  }

  // ----- The loop -----

  method AbsorbInfo(ghost e: BlockCipher, m: Memory, state: array<bv8>, previous: array<bv8>, keys: array<bv8>)
    requires Buffers(e, state, previous, keys) && BlockOf(previous) == ZERO_BLOCK
    modifies state, previous
    ensures BlockOf(previous) == BlockOf(state) == MacUpTo(e, m, 0)
  {
    LoadBytes(m, FWINFO_OFFSET, state, AES_BLOCK_SIZE);
    AesCbcMacStep(e, state, previous, keys);
    MacOfInfo(e, m);
  }

  method AbsorbBlock(ghost e: BlockCipher, m: Memory, offset: nat,
                     state: array<bv8>, previous: array<bv8>, keys: array<bv8>)
    requires IsStop(offset) && offset != FWINFO_OFFSET && IsStop(offset + AES_BLOCK_SIZE)
    requires Buffers(e, state, previous, keys)
    modifies state, previous
    ensures old(BlockOf(previous)) == MacUpTo(e, m, offset) ==>
      BlockOf(previous) == BlockOf(state) == MacUpTo(e, m, offset + AES_BLOCK_SIZE)
  {
    LoadBytes(m, offset, state, AES_BLOCK_SIZE);
    AesCbcMacStep(e, state, previous, keys);
    MacOfNextBlock(e, m, offset);
  }

  method LoadLastBlock(m: Memory, offset: nat, bytesToPad: nat, state: array<bv8>)
    requires state.Length == AES_BLOCK_SIZE && bytesToPad < AES_BLOCK_SIZE
    modifies state
    ensures state[..] == LastBlock(m, offset, bytesToPad)
  {
    LoadBytes(m, offset, state, AES_BLOCK_SIZE - bytesToPad);
    FillBytes(state, AES_BLOCK_SIZE - bytesToPad, bytesToPad as bv8);
  }

  method AbsorbLastBlock(ghost e: BlockCipher, m: Memory, offset: nat, bytesToPad: nat,
                         state: array<bv8>, previous: array<bv8>, keys: array<bv8>)
    requires IsStop(offset) && offset != FWINFO_OFFSET && offset < Length(m) <= offset + AES_BLOCK_SIZE
    requires bytesToPad == BytesToPad(Length(m))
    requires Buffers(e, state, previous, keys)
    modifies state, previous
    ensures old(BlockOf(previous)) == MacUpTo(e, m, offset) ==> BlockOf(previous) == BlockOf(state) == ImageMac(e, m)
  {
    LoadLastBlock(m, offset, bytesToPad, state);
    AesCbcMacStep(e, state, previous, keys);
    MacOfLastBlock(e, m, offset);
  }

  // The MAC that the buffers hold when the loop is at `offset`.
  function MacAt(e: BlockCipher, m: Memory, offset: nat): Block
    requires IsStop(offset)
  {
    if offset < Length(m) then MacUpTo(e, m, offset) else ImageMac(e, m)
  }

  lemma MacAtSkipped(e: BlockCipher, m: Memory)
    requires FWINFO_OFFSET < Length(m)
    ensures IsStop(FWINFO_OFFSET) && IsStop(BODY_OFFSET) && MacAt(e, m, BODY_OFFSET) == MacAt(e, m, FWINFO_OFFSET)
  {
    MacOfSkipped(e, m);
  }

  // Chains the block at the offset: a whole one, or the last one with its padding.
  method AbsorbNext(ghost e: BlockCipher, m: Memory, offset: nat, bytesToPad: nat,
                    state: array<bv8>, previous: array<bv8>, keys: array<bv8>)
    requires IsStop(offset) && offset != FWINFO_OFFSET && offset < Length(m) && bytesToPad == BytesToPad(Length(m))
    requires Buffers(e, state, previous, keys)
    modifies state, previous
    ensures IsStop(offset + AES_BLOCK_SIZE)
    ensures old(BlockOf(previous)) == MacAt(e, m, offset) ==>
      BlockOf(previous) == BlockOf(state) == MacAt(e, m, offset + AES_BLOCK_SIZE)
  {
    NextStop(offset);
    if Length(m) - offset > AES_BLOCK_SIZE {
      AbsorbBlock(e, m, offset, state, previous, keys);
    } else {
      if bytesToPad == 16 {
        assert false; // the padding is never a whole block
      } else {
        AbsorbLastBlock(e, m, offset, bytesToPad, state, previous, keys);
      }
    }
  }

  // The loop has come to this offset in n of its turns.
  ghost predicate AtOffset(length: nat, offset: nat, n: nat, turns: nat) {
    && n <= turns && offset == OffsetAfter(n) && IsStop(offset)
    && forall k: nat {:trigger OffsetAfter(k)} :: k < n ==> OffsetAfter(k) < length
  }

  lemma NextTurn(length: nat, offset: nat, n: nat, turns: nat)
    requires AtOffset(length, offset, n, turns) && offset < length && n < turns
    ensures AtOffset(length, NextOffset(offset), n + 1, turns)
    ensures length <= LONGEST_LOOP ==>
      NextOffset(offset) == if offset == FWINFO_OFFSET then BODY_OFFSET else offset + AES_BLOCK_SIZE
  {
    OffsetsAreAligned(n + 1);
    if length <= LONGEST_LOOP {
      NoWrap(offset, length);
    }
  }

  lemma LoopHasEnded(length: nat, offset: nat, n: nat, turns: nat)
    requires length < TWO_32 && AtOffset(length, offset, n, turns) && (offset >= length || n == turns)
    ensures offset >= length <==> EndsWithin(length, turns)
    ensures offset >= length ==> length <= LONGEST_LOOP
  {
    LoopEndsExactlyWhen(length);
  }

  // Chains the image after the info block; the offset is a 32-bit variable. The loop may go on for ever, so
  // it is followed for a given number of turns; the outcome says whether it has come to its end by then.
  method AbsorbImage(ghost e: BlockCipher, m: Memory, turns: nat,
                     state: array<bv8>, previous: array<bv8>, keys: array<bv8>)
    returns (ended: bool)
    requires Buffers(e, state, previous, keys) && BlockOf(previous) == BlockOf(state) == MacAt(e, m, 0)
    modifies state, previous
    ensures ended <==> EndsWithin(Length(m), turns)
    ensures ended ==> BlockOf(state) == ImageMac(e, m)
  {
    var length := Length(m);
    var bytesToPad := BytesToPad(length);
    var offset: nat, n: nat := 0, 0;
    while offset < length && n < turns
      invariant AtOffset(length, offset, n, turns)
      invariant length <= LONGEST_LOOP ==> BlockOf(previous) == BlockOf(state) == MacAt(e, m, offset)
      decreases turns - n
    {
      NextTurn(length, offset, n, turns);
      n := n + 1;
      if offset == FWINFO_OFFSET {
        MacAtSkipped(e, m);
        offset := Add32(offset, 2 * AES_BLOCK_SIZE);
        continue;
      }
      AbsorbNext(e, m, offset, bytesToPad, state, previous, keys);
      offset := Add32(offset, AES_BLOCK_SIZE);
    }
    LoopHasEnded(length, offset, n, turns);
    ended := offset >= length;
  }

  // ----- The whole check -----

  method SetUpKeys() returns (roundKey: array<bv8>)
    ensures fresh(roundKey) && roundKey.Length == SCHEDULE_SIZE && ScheduleAt(roundKey[..]) == DeviceKeys()
  {
    var key := new bv8[] [0x00, 0x11, 0x22, 0x33, 0x44, 0x55, 0x66, 0x77, 0x88, 0x99, 0xaa, 0xbb, 0xcc, 0xdd, 0xee, 0xff];
    roundKey := new bv8[SCHEDULE_SIZE];
    assert BlockAt(key[..], 0) == SECRET_KEY;
    KeySchedule128(key, roundKey, EncryptEntry);
  }

  lemma ZeroState(state: array<bv8>)
    requires state.Length == AES_BLOCK_SIZE && forall i :: 0 <= i < AES_BLOCK_SIZE ==> state[i] == 0
    ensures BlockOf(state) == ZERO_BLOCK
  {}

  method ComputeMac(ghost e: BlockCipher, m: Memory, turns: nat) returns (ended: bool, state: array<bv8>)
    requires Implements(e, DeviceKeys())
    ensures fresh(state) && state.Length == AES_BLOCK_SIZE
    ensures ended <==> EndsWithin(Length(m), turns)
    ensures ended ==> BlockOf(state) == ImageMac(e, m)
  {
    var roundKey := SetUpKeys();
    state := new bv8[AES_BLOCK_SIZE](_ => 0);
    var previous := new bv8[AES_BLOCK_SIZE](_ => 0);
    ZeroState(previous);
    AbsorbInfo(e, m, state, previous, roundKey);
    if Length(m) == 0 {
      MacOfEmpty(e, m);
    }
    ended := AbsorbImage(e, m, turns, state, previous, roundKey);
  }

  lemma StateBytes(state: array<bv8>)
    requires state.Length == AES_BLOCK_SIZE
    ensures Bytes(BlockOf(state)) == state[..]
  {
    BytesOfBlockAt(state[..], 0);
  }

  // The image is checked in at most so many turns of the loop, if it comes to the loop.
  ghost predicate CheckedWithin(m: Memory, turns: nat) {
    Sentinel(m) != FIRMWARE_INFO_SENTINEL || DeviceId(m) != DEVICE_ID || EndsWithin(Length(m), turns)
  }

  // The device's check of the image in flash, where e is the device's cipher, followed for a given number of
  // turns of its loop.
  method ValidateFwImage(ghost e: BlockCipher, m: Memory, turns: nat) returns (ended: bool, ok: bool)
    requires Implements(e, DeviceKeys())
    ensures ended <==> CheckedWithin(m, turns)
    ensures ended ==> ok == Accepts(e, m)
  {
    if Sentinel(m) != FIRMWARE_INFO_SENTINEL {
      return true, false;
    }
    if DeviceId(m) != DEVICE_ID {
      return true, false;
    }
    var state: array<bv8>;
    ended, state := ComputeMac(e, m, turns);
    ok := SameBytes(m, SIGNATURE_OFFSET, state);
    StateBytes(state);
  }

  lemma DeviceCipherImplemented()
    ensures Implements(DeviceCipher, DeviceKeys())
  {}

  // Expanding the compiled-in key and encrypting in place comes to the device's cipher.
  method EncryptWithDeviceKey(state: array<bv8>)
    requires state.Length == AES_BLOCK_SIZE
    modifies state
    ensures BlockOf(state) == DeviceCipher(old(BlockOf(state)))
  {
    var roundKey := SetUpKeys();
    EncryptBlock(state, roundKey, EncryptEntry);
  }
}
