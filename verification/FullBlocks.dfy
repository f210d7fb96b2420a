// Images that end in a full block: by its last block such an image can be given any MAC, so the disagreement
// between the signer's padding and the device's does happen.
module FullBlocks {
  import opened Aes
  import opened AesTables
  import opened CbcMac
  import opened Image
  import opened Signer
  import opened SigningAgreement
  import opened Validation
  import opened CipherSample

  function WithLastBlock(image: seq<bv8>, b: Block): (changed: seq<bv8>)
    requires |image| >= AES_BLOCK_SIZE
    ensures |changed| == |image|
  {
    image[..|image| - AES_BLOCK_SIZE] + Bytes(b)
  }

  // Images with a body of one or more full blocks.
  predicate EndsInFullBlock(image: seq<bv8>) { BODY_OFFSET < |image| && |image| % AES_BLOCK_SIZE == 0 }

  // What the signer signs of a stamped image before its last block.
  function FrontOf(stamped: seq<bv8>): (front: seq<bv8>)
    requires EndsInFullBlock(stamped)
    ensures |front| % AES_BLOCK_SIZE == 0
  {
    SigningImage(stamped[..|stamped| - AES_BLOCK_SIZE])
  }

  function SignedFront(image: seq<bv8>, version: nat): (front: seq<bv8>)
    requires CanSign(image, version) && EndsInFullBlock(image)
    ensures |front| % AES_BLOCK_SIZE == 0
  {
    FrontOf(Stamped(image, version))
  }

  lemma ByteWithLast(image: seq<bv8>, b: Block, i: nat)
    requires |image| >= AES_BLOCK_SIZE && i < |image|
    ensures WithLastBlock(image, b)[i] ==
      if i < |image| - AES_BLOCK_SIZE then image[i] else Bytes(b)[i - (|image| - AES_BLOCK_SIZE)]
  {}

  // Version and length are stamped before the last block.
  lemma StampedWithLastByte(image: seq<bv8>, changed: seq<bv8>, version: nat, b: Block, i: nat)
    requires CanSign(image, version) && EndsInFullBlock(image) && i < |image| && changed == WithLastBlock(image, b)
    ensures CanSign(changed, version) && Stamped(changed, version)[i] == WithLastBlock(Stamped(image, version), b)[i]
  {
    StampedByte(image, version, i);
    StampedByte(changed, version, i);
    ByteWithLast(image, b, i);
    ByteWithLast(Stamped(image, version), b, i);
  }

  lemma StampedWithLastBlock(image: seq<bv8>, version: nat, b: Block)
    requires CanSign(image, version) && EndsInFullBlock(image)
    ensures Stamped(WithLastBlock(image, b), version) == WithLastBlock(Stamped(image, version), b)
  {
    var changed := WithLastBlock(image, b);
    forall i | 0 <= i < |image|
      ensures Stamped(changed, version)[i] == WithLastBlock(Stamped(image, version), b)[i]
    {
      StampedWithLastByte(image, changed, version, b, i);
    }
  }

  lemma SigningLastBlock(stamped: seq<bv8>, b: Block)
    requires EndsInFullBlock(stamped)
    ensures SigningImage(WithLastBlock(stamped, b)) == FrontOf(stamped) + Bytes(b)
  {
    var front := stamped[..|stamped| - AES_BLOCK_SIZE];
    assert WithLastBlock(stamped, b)[BODY_OFFSET..] == front[BODY_OFFSET..] + Bytes(b);
  }

  lemma SignedWithLastBlock(image: seq<bv8>, version: nat, b: Block)
    requires CanSign(image, version) && EndsInFullBlock(image)
    ensures SigningImage(Stamped(WithLastBlock(image, b), version)) == SignedFront(image, version) + Bytes(b)
  {
    StampedWithLastBlock(image, version, b);
    SigningLastBlock(Stamped(image, version), b);
  }

  // The MAC that the device computes, from the last block.
  lemma MacFromLastBlock(e: BlockCipher, image: seq<bv8>, version: nat, b: Block, m: Memory)
    requires CanSign(image, version) && EndsInFullBlock(image)
    requires StartsWith(m, Signed(e, WithLastBlock(image, b), version))
    ensures ImageMac(e, m) == e(AddBlocks(b, Mac(e, ZERO_BLOCK, Blocks(SignedFront(image, version)))))
  {
    var stamped := Stamped(WithLastBlock(image, b), version);
    SignedInfo(WithLastBlock(image, b), version, SignatureOf(e, stamped), m);
    SplicedMessage(stamped, SignatureOf(e, stamped), m);
    SignedWithLastBlock(image, version, b);
    MacOfLast(e, SignedFront(image, version), b);
  }

  // The last block that gives the image the MAC of the block `pre`.
  function LastBlockFor(e: BlockCipher, image: seq<bv8>, version: nat, pre: Block): Block
    requires CanSign(image, version) && EndsInFullBlock(image)
  {
    AddBlocks(pre, Mac(e, ZERO_BLOCK, Blocks(SignedFront(image, version))))
  }

  lemma AnyMacOccurs(e: BlockCipher, image: seq<bv8>, version: nat, pre: Block, m: Memory)
    requires CanSign(image, version) && EndsInFullBlock(image)
    requires StartsWith(m, Signed(e, WithLastBlock(image, LastBlockFor(e, image, version, pre)), version))
    ensures ImageMac(e, m) == e(pre)
  {
    MacFromLastBlock(e, image, version, LastBlockFor(e, image, version, pre), m);
    AddRoundKeyCancels(pre, Mac(e, ZERO_BLOCK, Blocks(SignedFront(image, version))));
  }

  // A MAC that is no fixed point gives, for every image of full blocks, another with only the last block
  // changed that is rejected after signing.
  lemma RejectedAfterSigning(e: BlockCipher, image: seq<bv8>, version: nat, pre: Block, m: Memory)
    requires CanSign(image, version) && EndsInFullBlock(image) && !IsFixedPoint(e, e(pre))
    requires StartsWith(m, Signed(e, WithLastBlock(image, LastBlockFor(e, image, version, pre)), version))
    ensures !Accepts(e, m)
  {
    AnyMacOccurs(e, image, version, pre, m);
    SignedAccepted(e, WithLastBlock(image, LastBlockFor(e, image, version, pre)), version, m);
  }

  lemma ZeroIsNoFixedPoint()
    ensures !IsFixedPoint(DeviceCipher, ZERO_BLOCK)
  {
    SampleIsNotZero();
    assert AddBlocks(PADDING_BLOCK, ZERO_BLOCK) == SAMPLE;
  }

  lemma ZeroIsEncrypted() returns (pre: Block)
    ensures DeviceCipher(pre) == ZERO_BLOCK
  {
    pre := InvCipher(DecryptEntry, DeviceKeys(), ZERO_BLOCK);
    TablesInvert();
    EncryptInvertsDecrypt(DecryptEntry, EncryptEntry, DeviceKeys(), ZERO_BLOCK);
  }

  lemma InfoBeforeLastBlock(image: seq<bv8>, b: Block)
    requires EndsInFullBlock(image)
    ensures CarriesInfo(WithLastBlock(image, b)) <==> CarriesInfo(image)
  {}

  // So the device does reject images that were signed for it: among the images of full blocks that agree up to
  // the last block, whatever they carry, there is one that no memory is accepted with.
  lemma SomeSignedImageIsRejected(image: seq<bv8>, version: nat) returns (changed: seq<bv8>)
    requires CanSign(image, version) && EndsInFullBlock(image)
    ensures CanSign(changed, version) && EndsInFullBlock(changed)
    ensures |changed| == |image| && changed[..|image| - AES_BLOCK_SIZE] == image[..|image| - AES_BLOCK_SIZE]
    ensures CarriesInfo(changed) <==> CarriesInfo(image)
    ensures forall m: Memory :: StartsWith(m, Signed(DeviceCipher, changed, version)) ==> !Accepts(DeviceCipher, m)
  {
    var pre := ZeroIsEncrypted();
    ZeroIsNoFixedPoint();
    var b := LastBlockFor(DeviceCipher, image, version, pre);
    changed := WithLastBlock(image, b);
    InfoBeforeLastBlock(image, b);
    forall m: Memory | StartsWith(m, Signed(DeviceCipher, changed, version)) ensures !Accepts(DeviceCipher, m) {
      RejectedAfterSigning(DeviceCipher, image, version, pre, m);
    }
  }
}
