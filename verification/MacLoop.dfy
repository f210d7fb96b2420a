// The verification loop of validate_fw_image as arithmetic on the message: what each iteration adds to
// the MAC, for any block cipher.
module MacLoop {
  import opened Aes
  import opened CbcMac
  import opened Image
  import opened LittleEndian

  // ----- The message grows block by block -----

  // A boundary that the loop stops at: block-aligned, and never inside the part it skips.
  predicate IsStop(p: nat) { p % AES_BLOCK_SIZE == 0 && p != SIGNATURE_OFFSET }

  lemma MessageGrows(m: Memory, p: nat, n: nat)
    requires IsStop(p) && p != FWINFO_OFFSET && n <= AES_BLOCK_SIZE
    ensures MessageUpTo(m, p + n) == MessageUpTo(m, p) + m.Read(p, n)
  {}

  lemma MessageAligned(m: Memory, p: nat)
    requires IsStop(p)
    ensures |MessageUpTo(m, p)| % AES_BLOCK_SIZE == 0
  {}

  // The MAC of the part of the image that precedes the offset p.
  function MacUpTo(e: BlockCipher, m: Memory, p: nat): Block
    requires IsStop(p)
  {
    MessageAligned(m, p);
    Mac(e, ZERO_BLOCK, Blocks(MessageUpTo(m, p)))
  }

  // One step of chaining takes the MAC of a message to that of the message and one block more.
  lemma OneMoreBlock(e: BlockCipher, message: seq<bv8>, block: seq<bv8>, longer: seq<bv8>)
    requires |message| % AES_BLOCK_SIZE == 0 && |block| == AES_BLOCK_SIZE && longer == message + block
    ensures |longer| % AES_BLOCK_SIZE == 0
    ensures Mac(e, ZERO_BLOCK, Blocks(longer))
         == e(AddBlocks(BlockAt(block, 0), Mac(e, ZERO_BLOCK, Blocks(message))))
  {
    BlocksOfConcat(message, block);
    assert Blocks(block) == [BlockAt(block, 0)];
    MacOfSnoc(e, ZERO_BLOCK, Blocks(message), BlockAt(block, 0));
  }

  lemma MacOfInfo(e: BlockCipher, m: Memory)
    ensures MacUpTo(e, m, 0) == e(AddBlocks(BlockAt(m.Read(FWINFO_OFFSET, AES_BLOCK_SIZE), 0), ZERO_BLOCK))
  {
    var info := m.Read(FWINFO_OFFSET, AES_BLOCK_SIZE);
    assert MessageUpTo(m, 0) == [] + info;
    OneMoreBlock(e, [], info, MessageUpTo(m, 0));
    assert Blocks([]) == [];
  }

  lemma NextStop(p: nat)
    requires IsStop(p) && p != FWINFO_OFFSET
    ensures IsStop(p + AES_BLOCK_SIZE)
  {}

  lemma MacOfNextBlock(e: BlockCipher, m: Memory, p: nat)
    requires IsStop(p) && p != FWINFO_OFFSET && IsStop(p + AES_BLOCK_SIZE)
    ensures MacUpTo(e, m, p + AES_BLOCK_SIZE)
         == e(AddBlocks(BlockAt(m.Read(p, AES_BLOCK_SIZE), 0), MacUpTo(e, m, p)))
  {
    MessageAligned(m, p);
    MessageGrows(m, p, AES_BLOCK_SIZE);
    OneMoreBlock(e, MessageUpTo(m, p), m.Read(p, AES_BLOCK_SIZE), MessageUpTo(m, p + AES_BLOCK_SIZE));
  }

  // The number of bytes that complete the last block.
  function BytesToPad(length: nat): (p: nat)
    ensures p < AES_BLOCK_SIZE
  {
    if length % AES_BLOCK_SIZE != 0 then AES_BLOCK_SIZE - length % AES_BLOCK_SIZE else 0
  }

  function LastBlock(m: Memory, p: nat, pad: nat): (bytes: seq<bv8>)
    requires pad < AES_BLOCK_SIZE
    ensures |bytes| == AES_BLOCK_SIZE
  {
    m.Read(p, AES_BLOCK_SIZE - pad) + Repeat(pad as bv8, pad)
  }

  lemma MacOfLastBlock(e: BlockCipher, m: Memory, p: nat)
    requires IsStop(p) && p != FWINFO_OFFSET && p < Length(m) <= p + AES_BLOCK_SIZE
    ensures ImageMac(e, m)
         == e(AddBlocks(BlockAt(LastBlock(m, p, BytesToPad(Length(m))), 0), MacUpTo(e, m, p)))
  {
    MessageAligned(m, p);
    PaddedMessage(m, p);
    OneMoreBlock(e, MessageUpTo(m, p), LastBlock(m, p, BytesToPad(Length(m))), PadPartial(AuthMessage(m)));
  }

  lemma PaddedMessage(m: Memory, p: nat)
    requires IsStop(p) && p != FWINFO_OFFSET && p < Length(m) <= p + AES_BLOCK_SIZE
    ensures PadPartial(AuthMessage(m)) == MessageUpTo(m, p) + LastBlock(m, p, BytesToPad(Length(m)))
  {
    var length := Length(m);
    PadOfLast(p, length);
    PaddedAt(m, p, length, BytesToPad(length), MessageUpTo(m, p), MessageUpTo(m, length));
  }

  lemma PaddedAt(m: Memory, p: nat, length: nat, pad: nat, message: seq<bv8>, whole: seq<bv8>)
    requires IsStop(p) && p != FWINFO_OFFSET && p < length && pad < AES_BLOCK_SIZE && length == p + AES_BLOCK_SIZE - pad
    requires message == MessageUpTo(m, p) && whole == MessageUpTo(m, length)
    ensures PadPartial(whole) == message + LastBlock(m, p, pad)
  {
    MessageAligned(m, p);
    MessageGrows(m, p, AES_BLOCK_SIZE - pad);
    PaddedLast(message, m.Read(p, AES_BLOCK_SIZE - pad), whole, pad);
  }

  lemma PadOfLast(p: nat, length: nat)
    requires p % AES_BLOCK_SIZE == 0 && p < length <= p + AES_BLOCK_SIZE
    ensures BytesToPad(length) == AES_BLOCK_SIZE - (length - p)
  {}

  lemma PaddedLast(message: seq<bv8>, last: seq<bv8>, whole: seq<bv8>, pad: nat)
    requires |message| % AES_BLOCK_SIZE == 0 && 0 < |last| <= AES_BLOCK_SIZE
    requires whole == message + last && pad == AES_BLOCK_SIZE - |last|
    ensures PadPartial(whole) == message + (last + Repeat(pad as bv8, pad))
  {
    assert |whole| % AES_BLOCK_SIZE == |last| % AES_BLOCK_SIZE;
    if pad == 0 {
      assert PadPartial(whole) == whole;
    } else {
      assert PaddingLength(|whole|) == pad;
      assert PadPartial(whole) == (message + last) + Repeat(pad as bv8, pad);
    }
  }

  // The info block and the signature slot add nothing to the message where they stand.
  lemma MacOfSkipped(e: BlockCipher, m: Memory)
    ensures MacUpTo(e, m, BODY_OFFSET) == MacUpTo(e, m, FWINFO_OFFSET)
    ensures FWINFO_OFFSET < Length(m) <= BODY_OFFSET ==> ImageMac(e, m) == MacUpTo(e, m, FWINFO_OFFSET)
  {
    MessageAligned(m, FWINFO_OFFSET);
    MessageAligned(m, BODY_OFFSET);
    assert MessageUpTo(m, BODY_OFFSET) == MessageUpTo(m, FWINFO_OFFSET);
    if FWINFO_OFFSET < Length(m) <= BODY_OFFSET {
      assert AuthMessage(m) == MessageUpTo(m, FWINFO_OFFSET);
    }
  }

  lemma MacOfEmpty(e: BlockCipher, m: Memory)
    requires Length(m) == 0
    ensures MacUpTo(e, m, 0) == ImageMac(e, m)
  {
    MessageAligned(m, 0);
    assert AuthMessage(m) == MessageUpTo(m, 0);
  }

  // ----- When the loop ends -----

  function Add32(a: nat, b: nat): (sum: nat)
    ensures sum < TWO_32
  {
    (a + b) % TWO_32
  }

  // What one iteration does to the 32-bit offset.
  function NextOffset(offset: nat): nat {
    Add32(offset, if offset == FWINFO_OFFSET then 2 * AES_BLOCK_SIZE else AES_BLOCK_SIZE)
  }

  function OffsetAfter(n: nat): nat { if n == 0 then 0 else NextOffset(OffsetAfter(n - 1)) }

  lemma NoWrap(offset: nat, length: nat)
    requires IsStop(offset) && offset < length <= LONGEST_LOOP
    ensures Add32(offset, AES_BLOCK_SIZE) == offset + AES_BLOCK_SIZE
    ensures offset == FWINFO_OFFSET ==> Add32(offset, 2 * AES_BLOCK_SIZE) == BODY_OFFSET
  {}

  // Above this length the offset wraps to 0 before it can reach the end of the image.
  const LONGEST_LOOP: nat := 0xffff_fff0

  lemma {:induction false} OffsetsAreAligned(n: nat)
    ensures OffsetAfter(n) % AES_BLOCK_SIZE == 0 && OffsetAfter(n) < TWO_32
    ensures IsStop(OffsetAfter(n))
  {
    if n > 0 {
      OffsetsAreAligned(n - 1);
    }
  }

  // So many turns are enough for every image whose loop ends.
  const ENOUGH_TURNS: nat := 0x1000_0000

  lemma {:induction false} OffsetReaches(n: nat, length: nat) returns (last: nat)
    requires length <= LONGEST_LOOP && n <= ENOUGH_TURNS && OffsetAfter(n) >= AES_BLOCK_SIZE * n
    ensures OffsetAfter(last) >= length && last <= ENOUGH_TURNS
    decreases length - OffsetAfter(n)
  {
    if OffsetAfter(n) >= length {
      last := n;
    } else {
      var next := n + 1;
      OffsetsAreAligned(n);
      assert OffsetAfter(next) == NextOffset(OffsetAfter(n)) >= OffsetAfter(n) + AES_BLOCK_SIZE;
      last := OffsetReaches(next, length);
    }
  }

  // The loop comes to the end of an image with this length field within so many turns.
  ghost predicate EndsWithin(length: nat, turns: nat) { exists n: nat :: n <= turns && OffsetAfter(n) >= length }

  // The loop over an image of the given length field ends if and only if the length is small enough.
  lemma LoopEndsExactlyWhen(length: nat)
    requires length < TWO_32
    ensures (exists n: nat :: OffsetAfter(n) >= length) <==> length <= LONGEST_LOOP
    ensures EndsWithin(length, ENOUGH_TURNS) <==> length <= LONGEST_LOOP
  {
    if length <= LONGEST_LOOP {
      var last := OffsetReaches(0, length);
    } else {
      forall n: nat ensures OffsetAfter(n) < length {
        OffsetsAreAligned(n);
      }
    }
  }
}
