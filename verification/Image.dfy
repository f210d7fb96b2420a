// The firmware image as the bootloader reads it: the info block, the signature slot, the message that
// the MAC covers, and the decision whether to accept.
module Image {
  import opened Aes
  import opened CbcMac
  import opened LittleEndian

  // Offsets from MAIN_APP_START_ADDRESS.
  const FWINFO_OFFSET: nat := 0x1b0
  const SIGNATURE_OFFSET: nat := 0x1c0
  const BODY_OFFSET: nat := 0x1d0

  const FIRMWARE_INFO_SENTINEL: nat := 0xdeadc0de
  const DEVICE_ID: nat := 0x42
  const MAX_FW_LENGTH: nat := 0x38000

  // The address space from MAIN_APP_START_ADDRESS on: the application's flash, and whatever the bus
  // answers beyond it.
  datatype Memory = Memory(cells: seq<bv8>, rest: nat -> bv8) {
    function At(i: nat): bv8 { if i < |cells| then cells[i] else rest(i) }

    function Read(p: nat, n: nat): (bytes: seq<bv8>)
      ensures |bytes| == n
    {
      seq(n, i requires 0 <= i => At(p + i))
    }
  }

  function Field(m: Memory, p: nat): (n: nat)
    ensures n < TWO_32
  {
    Le32(m.At(p), m.At(p + 1), m.At(p + 2), m.At(p + 3))
  }

  // The fields of firmware_info_t.
  function Sentinel(m: Memory): nat { Field(m, FWINFO_OFFSET) }
  function DeviceId(m: Memory): nat { Field(m, FWINFO_OFFSET + 4) }
  function Version(m: Memory): nat { Field(m, FWINFO_OFFSET + 8) }
  function Length(m: Memory): (n: nat)
    ensures n < TWO_32
  {
    Field(m, FWINFO_OFFSET + 12)
  }
  function Signature(m: Memory): seq<bv8> { m.Read(SIGNATURE_OFFSET, AES_BLOCK_SIZE) }

  function Min(a: nat, b: nat): nat { if a <= b then a else b }

  // The info block, then the image up to `end` without the info block and the signature slot.
  function MessageUpTo(m: Memory, end: nat): (message: seq<bv8>) {
    m.Read(FWINFO_OFFSET, AES_BLOCK_SIZE) + m.Read(0, Min(end, FWINFO_OFFSET))
    + (if BODY_OFFSET < end then m.Read(BODY_OFFSET, end - BODY_OFFSET) else [])
  }

  // What the MAC covers.
  function AuthMessage(m: Memory): seq<bv8> { MessageUpTo(m, Length(m)) }

  function MacBlocks(m: Memory): seq<Block> { Blocks(PadPartial(AuthMessage(m))) }

  function ImageMac(e: BlockCipher, m: Memory): Block { Mac(e, ZERO_BLOCK, MacBlocks(m)) }

  predicate Accepts(e: BlockCipher, m: Memory) {
    && Sentinel(m) == FIRMWARE_INFO_SENTINEL
    && DeviceId(m) == DEVICE_ID
    && Bytes(ImageMac(e, m)) == Signature(m)
  }

  // ----- From image to blocks and back -----

  // Where byte i of the image is in the message.
  function Position(i: nat): nat {
    if FWINFO_OFFSET <= i < SIGNATURE_OFFSET then i - FWINFO_OFFSET
    else if i < FWINFO_OFFSET then i + 0x10
    else if BODY_OFFSET <= i then i - 0x10
    else 0
  }

  predicate InSignature(i: nat) { SIGNATURE_OFFSET <= i < BODY_OFFSET }

  lemma MessageAt(m: Memory, end: nat, i: nat)
    requires FWINFO_OFFSET <= i < SIGNATURE_OFFSET || (i < end && !InSignature(i))
    ensures Position(i) < |MessageUpTo(m, end)|
    ensures MessageUpTo(m, end)[Position(i)] == m.At(i)
  {}

  // Two images have the same message exactly when they have the same length and the same bytes, the
  // signature slot apart.
  ghost predicate SameAuthenticated(m: Memory, m': Memory) {
    forall i: nat :: FWINFO_OFFSET <= i < SIGNATURE_OFFSET || (i < Length(m) && !InSignature(i)) ==> m.At(i) == m'.At(i)
  }

  lemma LengthFromInfo(m: Memory, m': Memory)
    requires forall i: nat :: FWINFO_OFFSET <= i < SIGNATURE_OFFSET ==> m.At(i) == m'.At(i)
    ensures Length(m) == Length(m') && Sentinel(m) == Sentinel(m') && DeviceId(m) == DeviceId(m')
  {}

  lemma SameMessage(m: Memory, m': Memory)
    requires SameAuthenticated(m, m')
    ensures AuthMessage(m) == AuthMessage(m')
  {
    LengthFromInfo(m, m');
    SameRead(m, m', FWINFO_OFFSET, AES_BLOCK_SIZE);
    SameRead(m, m', 0, Min(Length(m), FWINFO_OFFSET));
    if BODY_OFFSET < Length(m) {
      SameRead(m, m', BODY_OFFSET, Length(m) - BODY_OFFSET);
    }
  }

  lemma SameRead(m: Memory, m': Memory, p: nat, n: nat)
    requires forall i: nat :: p <= i < p + n ==> m.At(i) == m'.At(i)
    ensures m.Read(p, n) == m'.Read(p, n)
  {}

  lemma SameMessageSameBytes(m: Memory, m': Memory)
    requires AuthMessage(m) == AuthMessage(m') && Length(m) == Length(m')
    ensures SameAuthenticated(m, m')
  {
    forall i: nat | FWINFO_OFFSET <= i < SIGNATURE_OFFSET || (i < Length(m) && !InSignature(i))
      ensures m.At(i) == m'.At(i)
    {
      MessageAt(m, Length(m), i);
      MessageAt(m', Length(m), i);
    }
  }

  lemma MacBlocksStartWithInfo(m: Memory)
    ensures |MacBlocks(m)| >= 1 && Bytes(MacBlocks(m)[0]) == m.Read(FWINFO_OFFSET, AES_BLOCK_SIZE)
  {
    var padded := PadPartial(AuthMessage(m));
    assert padded[..AES_BLOCK_SIZE] == m.Read(FWINFO_OFFSET, AES_BLOCK_SIZE);
    BytesOfBlockAt(padded, 0);
  }

  lemma SameFirstBlock(m: Memory, m': Memory)
    requires MacBlocks(m) <= MacBlocks(m')
    ensures Length(m) == Length(m')
  {
    MacBlocksStartWithInfo(m);
    MacBlocksStartWithInfo(m');
    var info, info' := m.Read(FWINFO_OFFSET, AES_BLOCK_SIZE), m'.Read(FWINFO_OFFSET, AES_BLOCK_SIZE);
    assert info == info';
    assert info[12] == m.At(FWINFO_OFFSET + 12) && info[13] == m.At(FWINFO_OFFSET + 13);
    assert info[14] == m.At(FWINFO_OFFSET + 14) && info[15] == m.At(FWINFO_OFFSET + 15);
    assert info'[12] == m'.At(FWINFO_OFFSET + 12) && info'[13] == m'.At(FWINFO_OFFSET + 13);
    assert info'[14] == m'.At(FWINFO_OFFSET + 14) && info'[15] == m'.At(FWINFO_OFFSET + 15);
  }

  lemma MessageLength(m: Memory, m': Memory)
    requires Length(m) == Length(m')
    ensures |AuthMessage(m)| == |AuthMessage(m')|
  {}

  // The blocks determine the image, and no image's blocks are a proper prefix of another's: the
  // first block carries the length, and the length fixes how many blocks follow.
  lemma BlocksPrefixFree(m: Memory, m': Memory)
    requires MacBlocks(m) <= MacBlocks(m')
    ensures MacBlocks(m) == MacBlocks(m') && SameAuthenticated(m, m')
  {
    SameFirstBlock(m, m');
    MessageLength(m, m');
    PaddedPrefix(AuthMessage(m), AuthMessage(m'));
    SameMessageSameBytes(m, m');
  }

  lemma BlocksDetermineImage(m: Memory, m': Memory)
    ensures MacBlocks(m) == MacBlocks(m') <==> SameAuthenticated(m, m')
  {
    if MacBlocks(m) == MacBlocks(m') {
      BlocksPrefixFree(m, m');
    }
    if SameAuthenticated(m, m') {
      SameMessage(m, m');
    }
  }
}
