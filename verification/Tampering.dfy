// What the device rejects: any change inside one authenticated block that keeps the length field, and any change
// of the signature. And what it need not reject: a change of the length field.
module Tampering {
  import opened Aes
  import opened CbcMac
  import opened Image
  import opened LittleEndian

  // The byte of the image that byte j of the message comes from.
  function Origin(j: nat): nat {
    if j < AES_BLOCK_SIZE then FWINFO_OFFSET + j
    else if j < FWINFO_OFFSET + AES_BLOCK_SIZE then j - AES_BLOCK_SIZE
    else j + AES_BLOCK_SIZE
  }

  lemma MessageByte(m: Memory, end: nat, j: nat)
    requires j < |MessageUpTo(m, end)|
    ensures MessageUpTo(m, end)[j] == m.At(Origin(j))
  {}

  // The aligned block that starts at image offset p is authenticated: it is the info block, or it lies
  // outside the signature slot and begins before the end of the image.
  predicate IsAuthenticatedBlock(m: Memory, p: nat) {
    p % AES_BLOCK_SIZE == 0 && (p == FWINFO_OFFSET || (p != SIGNATURE_OFFSET && p < Length(m)))
  }

  // m' is m with bytes of the aligned block at p changed, the length field apart.
  ghost predicate ChangedWithin(m: Memory, m': Memory, p: nat) {
    && Length(m') == Length(m)
    && forall i: nat :: i < p || p + AES_BLOCK_SIZE <= i ==> m'.At(i) == m.At(i)
  }

  lemma OriginInBlock(m: Memory, p: nat, j: nat)
    requires IsAuthenticatedBlock(m, p) && p <= Origin(j) < p + AES_BLOCK_SIZE
    ensures Position(p) <= j < Position(p) + AES_BLOCK_SIZE
  {}

  lemma MessagesDifferWithin(m: Memory, m': Memory, p: nat)
    requires IsAuthenticatedBlock(m, p) && ChangedWithin(m, m', p)
    ensures |AuthMessage(m)| == |AuthMessage(m')|
    ensures forall j :: 0 <= j < |AuthMessage(m)| && !(Position(p) <= j < Position(p) + AES_BLOCK_SIZE) ==>
      AuthMessage(m)[j] == AuthMessage(m')[j]
  {
    MessageLength(m, m');
    forall j | 0 <= j < |AuthMessage(m)| && !(Position(p) <= j < Position(p) + AES_BLOCK_SIZE)
      ensures AuthMessage(m)[j] == AuthMessage(m')[j]
    {
      MessageByte(m, Length(m), j);
      MessageByte(m', Length(m'), j);
      if p <= Origin(j) < p + AES_BLOCK_SIZE {
        OriginInBlock(m, p, j);
      }
    }
  }

  lemma BlockIndex(m: Memory, p: nat)
    requires IsAuthenticatedBlock(m, p)
    ensures Position(p) == AES_BLOCK_SIZE * (Position(p) / AES_BLOCK_SIZE)
    ensures Position(p) / AES_BLOCK_SIZE < |MacBlocks(m)|
  {
    MessageAt(m, Length(m), p);
    assert Position(p) % AES_BLOCK_SIZE == 0;
    assert Position(p) < |PadPartial(AuthMessage(m))|;
  }

  // Only one of the blocks under the MAC changes.
  lemma OneBlockChanges(m: Memory, m': Memory, p: nat) returns (k: nat)
    requires IsAuthenticatedBlock(m, p) && ChangedWithin(m, m', p)
    ensures k < |MacBlocks(m)| == |MacBlocks(m')|
    ensures MacBlocks(m') == MacBlocks(m)[k := MacBlocks(m')[k]]
  {
    k := Position(p) / AES_BLOCK_SIZE;
    BlockIndex(m, p);
    MessagesDifferWithin(m, m', p);
    OneBlockDiffers(AuthMessage(m), AuthMessage(m'), k);
  }

  lemma SignatureKept(m: Memory, m': Memory, p: nat)
    requires IsAuthenticatedBlock(m, p) && ChangedWithin(m, m', p)
    ensures Signature(m') == Signature(m)
  {
    SameRead(m, m', SIGNATURE_OFFSET, AES_BLOCK_SIZE);
  }

  lemma ChangedByteShows(m: Memory, m': Memory, p: nat, changed: nat)
    requires IsAuthenticatedBlock(m, p)
    requires p <= changed < p + AES_BLOCK_SIZE && (changed < Length(m) || p == FWINFO_OFFSET)
    requires m'.At(changed) != m.At(changed)
    ensures MacBlocks(m) != MacBlocks(m')
  {
    assert FWINFO_OFFSET <= changed < SIGNATURE_OFFSET || (changed < Length(m) && !InSignature(changed));
    BlocksDetermineImage(m, m');
  }

  lemma ChangedBlockChangesMac(e: BlockCipher, m: Memory, m': Memory, p: nat, changed: nat)
    requires Injective(e)
    requires IsAuthenticatedBlock(m, p) && ChangedWithin(m, m', p)
    requires p <= changed < p + AES_BLOCK_SIZE && (changed < Length(m) || p == FWINFO_OFFSET)
    requires m'.At(changed) != m.At(changed)
    ensures ImageMac(e, m') != ImageMac(e, m)
  {
    var k := OneBlockChanges(m, m', p);
    ChangedByteShows(m, m', p, changed);
    if ImageMac(e, m') == ImageMac(e, m) {
      MacDetectsOneBlock(e, ZERO_BLOCK, MacBlocks(m), MacBlocks(m'), k);
    }
  }

  lemma OtherMacRejected(e: BlockCipher, m: Memory, m': Memory)
    requires Accepts(e, m) && Signature(m) == Signature(m') && ImageMac(e, m') != ImageMac(e, m)
    ensures !Accepts(e, m')
  {
    if Bytes(ImageMac(e, m)) == Bytes(ImageMac(e, m')) {
      BytesInjective(ImageMac(e, m), ImageMac(e, m'));
    }
  }

  // If the device accepts an image, it rejects every image that differs from it inside exactly one
  // authenticated block and has the same length field. LengthChangeAccepted says why the length is in here.
  lemma ChangedBlockRejected(e: BlockCipher, m: Memory, m': Memory, p: nat, changed: nat)
    requires Injective(e) && Accepts(e, m)
    requires IsAuthenticatedBlock(m, p) && ChangedWithin(m, m', p)
    requires p <= changed < p + AES_BLOCK_SIZE && (changed < Length(m) || p == FWINFO_OFFSET)
    requires m'.At(changed) != m.At(changed)
    ensures !Accepts(e, m')
  {
    SignatureKept(m, m', p);
    ChangedBlockChangesMac(e, m, m', p, changed);
    OtherMacRejected(e, m, m');
  }

  // It also rejects every image that differs from an accepted one in the signature only.
  lemma ChangedSignatureRejected(e: BlockCipher, m: Memory, m': Memory)
    requires Accepts(e, m) && SameAuthenticated(m, m') && Signature(m') != Signature(m)
    ensures !Accepts(e, m')
  {
    SameMessage(m, m');
  }

  // ----- The length field -----

  // An info block with the lowest byte of the length open.
  function InfoWith(low: bv8): (info: seq<bv8>)
    ensures |info| == AES_BLOCK_SIZE
  {
    [0xde, 0xc0, 0xad, 0xde, 0x42, 0, 0, 0, 0, 0, 0, 0, low, 1, 0, 0]
  }

  // The fields, read from the info block.
  lemma InfoFields(m: Memory, info: seq<bv8>)
    requires m.Read(FWINFO_OFFSET, AES_BLOCK_SIZE) == info
    ensures Sentinel(m) == Le32(info[0], info[1], info[2], info[3])
    ensures DeviceId(m) == Le32(info[4], info[5], info[6], info[7])
    ensures Length(m) == Le32(info[12], info[13], info[14], info[15])
  {
    assert forall i :: 0 <= i < AES_BLOCK_SIZE ==> m.At(FWINFO_OFFSET + i) == info[i];
  }

  lemma InfoValues(low: bv8) returns (info: seq<bv8>)
    ensures info == InfoWith(low) && |info| == AES_BLOCK_SIZE
    ensures Le32(info[0], info[1], info[2], info[3]) == FIRMWARE_INFO_SENTINEL
    ensures Le32(info[4], info[5], info[6], info[7]) == DEVICE_ID
    ensures Le32(info[12], info[13], info[14], info[15]) == 0x100 + low as int
  {
    info := InfoWith(low);
  }

  lemma InfoOf(m: Memory, low: bv8)
    requires m.Read(FWINFO_OFFSET, AES_BLOCK_SIZE) == InfoWith(low)
    ensures Sentinel(m) == FIRMWARE_INFO_SENTINEL && DeviceId(m) == DEVICE_ID && Length(m) == 0x100 + low as int
  {
    var info := InfoValues(low);
    InfoFields(m, info);
  }

  // What precedes the info block, the info block, the signature, and the body.
  function InParts(before: seq<bv8>, info: seq<bv8>, signature: seq<bv8>, body: seq<bv8>, rest: nat -> bv8): Memory {
    Memory(before + info + signature + body, rest)
  }

  lemma PartsOf(before: seq<bv8>, info: seq<bv8>, signature: seq<bv8>, body: seq<bv8>, rest: nat -> bv8, n: nat)
    returns (m: Memory)
    requires |before| == FWINFO_OFFSET && |info| == |signature| == AES_BLOCK_SIZE && n <= |body|
    ensures m == InParts(before, info, signature, body, rest) && Signature(m) == signature
    ensures m.Read(0, FWINFO_OFFSET) == before && m.Read(FWINFO_OFFSET, AES_BLOCK_SIZE) == info
    ensures m.Read(BODY_OFFSET, n) == body[..n]
  {
    m := InParts(before, info, signature, body, rest);
  }

  lemma OneByteDiffers(before: seq<bv8>, info: seq<bv8>, info': seq<bv8>, signature: seq<bv8>, body: seq<bv8>,
                       rest: nat -> bv8, i: nat)
    requires |before| == FWINFO_OFFSET && |info| == |info'| == AES_BLOCK_SIZE && info' == info[12 := info'[12]]
    requires i != FWINFO_OFFSET + 12
    ensures InParts(before, info', signature, body, rest).At(i) == InParts(before, info, signature, body, rest).At(i)
  {}

  // An image of nothing but zeros before its info block.
  function Zeros(): (zeros: seq<bv8>)
    ensures |zeros| == FWINFO_OFFSET
  {
    Repeat(0, FWINFO_OFFSET)
  }

  lemma MessageIs(m: Memory, info: seq<bv8>, body: seq<bv8>, n: nat)
    requires m.Read(0, FWINFO_OFFSET) == Zeros() && m.Read(FWINFO_OFFSET, AES_BLOCK_SIZE) == info
    requires n <= |body| && m.Read(BODY_OFFSET, n) == body[..n] && Length(m) == BODY_OFFSET + n && n > 0
    ensures AuthMessage(m) == info + Zeros() + body[..n]
  {}

  // The device accepts an image whose signature is the MAC of as many bytes of its body as it announces.
  lemma AcceptedWith(e: BlockCipher, low: bv8, message: seq<bv8>, mac: Block, body: seq<bv8>, rest: nat -> bv8, n: nat)
    returns (m: Memory)
    requires 0 < n <= |body| && 0x100 + low as int == BODY_OFFSET + n
    requires message == InfoWith(low) + Zeros() + body[..n] && mac == Mac(e, ZERO_BLOCK, Blocks(PadPartial(message)))
    ensures m == InParts(Zeros(), InfoWith(low), Bytes(mac), body, rest)
    ensures Length(m) == BODY_OFFSET + n && Accepts(e, m)
  {
    m := PartsOf(Zeros(), InfoWith(low), Bytes(mac), body, rest, n);
    InfoOf(m, low);
    MessageIs(m, InfoWith(low), body, n);
  }

  lemma SumsEqual(x: Block, pre: Block, post: Block, y: Block)
    requires y == AddBlocks(AddBlocks(x, pre), post)
    ensures AddBlocks(y, post) == AddBlocks(x, pre)
  {
    AddRoundKeyCancels(AddBlocks(x, pre), post);
  }

  // After any full blocks there is a last block that gives them the MAC of another message that ends in x.
  lemma LastBlockOf(e: BlockCipher, front: seq<bv8>, other: seq<bv8>, x: Block)
    returns (y: Block, short: seq<bv8>, long: seq<bv8>, mac: Block)
    requires |front| % AES_BLOCK_SIZE == 0 && |other| % AES_BLOCK_SIZE == 0
    ensures short == front + Bytes(x) && long == other + Bytes(y)
    ensures mac == Mac(e, ZERO_BLOCK, Blocks(PadPartial(short))) && mac == Mac(e, ZERO_BLOCK, Blocks(PadPartial(long)))
  {
    var pre, post := Mac(e, ZERO_BLOCK, Blocks(front)), Mac(e, ZERO_BLOCK, Blocks(other));
    y, mac := AddBlocks(AddBlocks(x, pre), post), e(AddBlocks(x, pre));
    short, long := front + Bytes(x), other + Bytes(y);
    MacOfLast(e, front, x);
    MacOfLast(e, other, y);
    SumsEqual(x, pre, post, y);
  }

  lemma TwoBlocks(front: seq<bv8>, x: seq<bv8>, y: seq<bv8>) returns (body: seq<bv8>)
    requires |x| == |y| == AES_BLOCK_SIZE
    ensures body == x + y && |body| == 32 && front + x == front + body[..16] && front + x + y == front + body[..32]
  {
    body := x + y;
    assert body[..16] == x;
    assert front + x + y == front + body[..32];
  }

  // Of two messages with the same body of two blocks, the whole of the second can be given the MAC of the first
  // without its last block.
  lemma MacsEqual(e: BlockCipher, front: seq<bv8>, front': seq<bv8>)
    returns (body: seq<bv8>, short: seq<bv8>, long: seq<bv8>, mac: Block)
    requires |front| % AES_BLOCK_SIZE == 0 && |front'| % AES_BLOCK_SIZE == 0
    ensures |body| == 32 && short == front + body[..16] && long == front' + body[..32]
    ensures mac == Mac(e, ZERO_BLOCK, Blocks(PadPartial(short))) && mac == Mac(e, ZERO_BLOCK, Blocks(PadPartial(long)))
  {
    var x := ZERO_BLOCK;
    var y: Block;
    y, short, long, mac := LastBlockOf(e, front, front' + Bytes(x), x);
    body := TwoBlocks(front, Bytes(x), Bytes(y));
    var same := TwoBlocks(front', Bytes(x), Bytes(y));
  }

  lemma LengthChangeShows(low: bv8, low': bv8, mac: Block, body: seq<bv8>, rest: nat -> bv8, m: Memory, m': Memory, i: nat)
    requires m == InParts(Zeros(), InfoWith(low), Bytes(mac), body, rest)
    requires m' == InParts(Zeros(), InfoWith(low'), Bytes(mac), body, rest)
    requires i != FWINFO_OFFSET + 12
    ensures m'.At(i) == m.At(i)
  {
    OneByteDiffers(Zeros(), InfoWith(low), InfoWith(low'), Bytes(mac), body, rest, i);
  }

  // For every cipher there are two accepted images that differ in nothing but one byte of the length field.
  lemma LengthChangeAccepted(e: BlockCipher, rest: nat -> bv8) returns (m: Memory, m': Memory)
    ensures Accepts(e, m) && Accepts(e, m') && Length(m) == 0x1e0 && Length(m') == 0x1f0
    ensures forall i: nat :: i != FWINFO_OFFSET + 12 ==> m'.At(i) == m.At(i)
  {
    var low, low': bv8 := 0xe0, 0xf0;
    var body, short, long, mac := MacsEqual(e, InfoWith(low) + Zeros(), InfoWith(low') + Zeros());
    m := AcceptedWith(e, low, short, mac, body, rest, 16);
    m' := AcceptedWith(e, low', long, mac, body, rest, 32);
    forall i: nat | i != FWINFO_OFFSET + 12 ensures m'.At(i) == m.At(i) {
      LengthChangeShows(low, low', mac, body, rest, m, m', i);
    }
  }

  // ----- Exactly which blocks are protected against any change -----

  // m' is m with authenticated bytes of the aligned block at p changed, whatever they are.
  ghost predicate AltersBlock(m: Memory, m': Memory, p: nat) {
    && IsAuthenticatedBlock(m, p) && !SameAuthenticated(m, m')
    && forall i: nat :: i < p || p + AES_BLOCK_SIZE <= i ==> m'.At(i) == m.At(i)
  }

  ghost predicate Protects(e: BlockCipher, p: nat) {
    forall m: Memory, m': Memory :: Accepts(e, m) && AltersBlock(m, m', p) ==> !Accepts(e, m')
  }

  lemma InfoKept(m: Memory, m': Memory, p: nat)
    requires AltersBlock(m, m', p) && p != FWINFO_OFFSET
    ensures ChangedWithin(m, m', p)
  {
    forall i: nat | FWINFO_OFFSET <= i < SIGNATURE_OFFSET ensures m.At(i) == m'.At(i) {
      assert i < p || p + AES_BLOCK_SIZE <= i;
    }
    LengthFromInfo(m, m');
  }

  lemma AlteredByte(m: Memory, m': Memory, p: nat) returns (changed: nat)
    requires AltersBlock(m, m', p)
    ensures p <= changed < p + AES_BLOCK_SIZE && (changed < Length(m) || p == FWINFO_OFFSET)
    ensures m'.At(changed) != m.At(changed)
  {
    changed :| (FWINFO_OFFSET <= changed < SIGNATURE_OFFSET || (changed < Length(m) && !InSignature(changed)))
      && m.At(changed) != m'.At(changed);
  }

  // Every change within a block other than the info block is rejected. Of the info block this is false, because of
  // the length.
  lemma ProtectsExactlyWhen(e: BlockCipher, p: nat)
    requires Injective(e)
    ensures Protects(e, p) <==> p != FWINFO_OFFSET
  {
    if p == FWINFO_OFFSET {
      var m, m' := LengthChangeAccepted(e, (i: nat) => 0);
      if SameAuthenticated(m, m') {
        LengthFromInfo(m, m');
      }
      assert AltersBlock(m, m', p);
    } else {
      forall m: Memory, m': Memory | Accepts(e, m) && AltersBlock(m, m', p) ensures !Accepts(e, m') {
        InfoKept(m, m', p);
        var changed := AlteredByte(m, m', p);
        ChangedBlockRejected(e, m, m', p, changed);
      }
    }
  }
}
