// The signer and the device agree on the message; where their paddings differ, they disagree on the
// MAC in exactly one way.
module SigningAgreement {
  import opened Aes
  import opened CbcMac
  import opened Image
  import opened LittleEndian
  import opened Signer

  // A memory that starts with the given image.
  predicate StartsWith(m: Memory, image: seq<bv8>) { image <= m.cells }

  lemma AtPrefix(m: Memory, image: seq<bv8>, i: nat)
    requires StartsWith(m, image) && i < |image|
    ensures m.At(i) == image[i]
  {}

  lemma StampedByte(image: seq<bv8>, version: nat, i: nat)
    requires CanSign(image, version) && i < |image|
    ensures Stamped(image, version)[i] ==
      if FWINFO_OFFSET + 8 <= i < FWINFO_OFFSET + 12 then PackLe32(version)[i - (FWINFO_OFFSET + 8)]
      else if FWINFO_OFFSET + 12 <= i < FWINFO_OFFSET + 16 then PackLe32(|image|)[i - (FWINFO_OFFSET + 12)]
      else image[i]
  {}

  function FieldOf(image: seq<bv8>, p: nat): nat
    requires p + 4 <= |image|
  {
    Le32(image[p], image[p + 1], image[p + 2], image[p + 3])
  }

  lemma FieldInMemory(m: Memory, image: seq<bv8>, p: nat)
    requires StartsWith(m, image) && p + 4 <= |image|
    ensures Field(m, p) == FieldOf(image, p)
  {}

  lemma StampedInfo(image: seq<bv8>, version: nat)
    requires CanSign(image, version)
    ensures FieldOf(Stamped(image, version), FWINFO_OFFSET) == FieldOf(image, FWINFO_OFFSET)
    ensures FieldOf(Stamped(image, version), FWINFO_OFFSET + 4) == FieldOf(image, FWINFO_OFFSET + 4)
    ensures FieldOf(Stamped(image, version), FWINFO_OFFSET + 8) == version
    ensures FieldOf(Stamped(image, version), FWINFO_OFFSET + 12) == |image|
  {}

  lemma SplicedInfo(stamped: seq<bv8>, signature: seq<bv8>, p: nat)
    requires SIGNATURE_OFFSET <= |stamped| && |signature| == AES_BLOCK_SIZE && p + 4 <= SIGNATURE_OFFSET
    ensures FieldOf(Spliced(stamped, signature), p) == FieldOf(stamped, p)
  {}

  // What the device reads from the info block of a signed image.
  lemma SignedInfo(image: seq<bv8>, version: nat, signature: seq<bv8>, m: Memory)
    requires CanSign(image, version) && |signature| == AES_BLOCK_SIZE
    requires StartsWith(m, Spliced(Stamped(image, version), signature))
    ensures Length(m) == |image| && Version(m) == version
    ensures Sentinel(m) == FieldOf(image, FWINFO_OFFSET) && DeviceId(m) == FieldOf(image, FWINFO_OFFSET + 4)
  {
    var stamped := Stamped(image, version);
    var signed := Spliced(stamped, signature);
    StampedInfo(image, version);
    SplicedInfo(stamped, signature, FWINFO_OFFSET);
    SplicedInfo(stamped, signature, FWINFO_OFFSET + 4);
    SplicedInfo(stamped, signature, FWINFO_OFFSET + 8);
    SplicedInfo(stamped, signature, FWINFO_OFFSET + 12);
    FieldInMemory(m, signed, FWINFO_OFFSET);
    FieldInMemory(m, signed, FWINFO_OFFSET + 4);
    FieldInMemory(m, signed, FWINFO_OFFSET + 8);
    FieldInMemory(m, signed, FWINFO_OFFSET + 12);
  }

  lemma SplicedByte(image: seq<bv8>, signature: seq<bv8>, i: nat)
    requires SIGNATURE_OFFSET <= |image| && |signature| == AES_BLOCK_SIZE
    requires i < |image| && (i < SIGNATURE_OFFSET || BODY_OFFSET <= i)
    ensures i < |Spliced(image, signature)| && Spliced(image, signature)[i] == image[i]
  {}

  // Signing changes nothing but the version, the length and the signature.
  lemma SignedByte(e: BlockCipher, image: seq<bv8>, version: nat, i: nat)
    requires CanSign(image, version) && i < |image| && (i < FWINFO_OFFSET + 8 || BODY_OFFSET <= i)
    ensures i < |Signed(e, image, version)| && Signed(e, image, version)[i] == image[i]
  {
    var stamped := Stamped(image, version);
    StampedByte(image, version, i);
    SplicedByte(stamped, SignatureOf(e, stamped), i);
  }

  // The device authenticates the bytes that the signer signed, and reads back the signature.
  lemma SplicedMessage(stamped: seq<bv8>, signature: seq<bv8>, m: Memory)
    requires SIGNATURE_OFFSET <= |stamped| && |signature| == AES_BLOCK_SIZE
    requires StartsWith(m, Spliced(stamped, signature)) && Length(m) == |stamped|
    ensures AuthMessage(m) == SigningImage(stamped)
    ensures Signature(m) == signature
  {
    var spliced := Spliced(stamped, signature);
    forall i: nat | i < |spliced| ensures m.At(i) == spliced[i] {
      AtPrefix(m, spliced, i);
    }
    assert m.Read(FWINFO_OFFSET, AES_BLOCK_SIZE) == stamped[FWINFO_OFFSET..SIGNATURE_OFFSET];
    assert m.Read(0, FWINFO_OFFSET) == stamped[..FWINFO_OFFSET];
    if BODY_OFFSET < |stamped| {
      assert m.Read(BODY_OFFSET, |stamped| - BODY_OFFSET) == stamped[BODY_OFFSET..];
    }
    assert m.Read(SIGNATURE_OFFSET, AES_BLOCK_SIZE) == signature;
  }

  const PADDING_BLOCK: Block := BlockAt(Repeat(0x10, AES_BLOCK_SIZE), 0)

  // The MAC over the message padded as OpenSSL does, from the MAC over the message padded as the device does.
  lemma PaddingMacs(e: BlockCipher, message: seq<bv8>)
    ensures Mac(e, ZERO_BLOCK, Blocks(PadAlways(message)))
         == (var mac := Mac(e, ZERO_BLOCK, Blocks(PadPartial(message)));
             if |message| % AES_BLOCK_SIZE != 0 then mac else e(AddBlocks(PADDING_BLOCK, mac)))
  {
    PaddingsCompared(message);
    if |message| % AES_BLOCK_SIZE == 0 {
      var extra := Repeat(0x10, AES_BLOCK_SIZE);
      BlocksOfConcat(message, extra);
      assert Blocks(extra) == [PADDING_BLOCK];
      MacOfSnoc(e, ZERO_BLOCK, Blocks(message), PADDING_BLOCK);
    }
  }

  // Whether the device pads at all.
  predicate EndsInPartialBlock(image: seq<bv8>) { BODY_OFFSET < |image| && |image| % AES_BLOCK_SIZE != 0 }

  lemma SigningImageLength(stamped: seq<bv8>)
    requires SIGNATURE_OFFSET <= |stamped|
    ensures |SigningImage(stamped)| % AES_BLOCK_SIZE != 0 <==> EndsInPartialBlock(stamped)
  {}

  // The signature that the signer writes, in terms of the MAC that the device computes: the MAC itself
  // if the image ends in a partial block, and one more encryption otherwise.
  lemma SignatureFromDeviceMac(e: BlockCipher, image: seq<bv8>, version: nat, m: Memory)
    requires CanSign(image, version) && StartsWith(m, Signed(e, image, version))
    ensures Signature(m) == Bytes(if EndsInPartialBlock(image) then ImageMac(e, m)
                                  else e(AddBlocks(PADDING_BLOCK, ImageMac(e, m))))
  {
    var stamped := Stamped(image, version);
    SignedInfo(image, version, SignatureOf(e, stamped), m);
    SplicedMessage(stamped, SignatureOf(e, stamped), m);
    SigningImageLength(stamped);
    PaddingMacs(e, SigningImage(stamped));
  }

  // The image was built for this device.
  predicate CarriesInfo(image: seq<bv8>)
    requires SIGNATURE_OFFSET <= |image|
  {
    FieldOf(image, FWINFO_OFFSET) == FIRMWARE_INFO_SENTINEL && FieldOf(image, FWINFO_OFFSET + 4) == DEVICE_ID
  }

  predicate IsFixedPoint(e: BlockCipher, mac: Block) { e(AddBlocks(PADDING_BLOCK, mac)) == mac }

  // So the device accepts a signed image exactly when it carries the sentinel and the device id and
  // either ends in a partial block or its MAC happens to be a fixed point of that last encryption.
  lemma SignedAccepted(e: BlockCipher, image: seq<bv8>, version: nat, m: Memory)
    requires CanSign(image, version) && StartsWith(m, Signed(e, image, version))
    ensures Accepts(e, m) <==> CarriesInfo(image) && (EndsInPartialBlock(image) || IsFixedPoint(e, ImageMac(e, m)))
  {
    SignedInfo(image, version, SignatureOf(e, Stamped(image, version)), m);
    SignatureFromDeviceMac(e, image, version, m);
    var mac := ImageMac(e, m);
    if Bytes(mac) == Bytes(e(AddBlocks(PADDING_BLOCK, mac))) {
      BytesInjective(mac, e(AddBlocks(PADDING_BLOCK, mac)));
    }
  }
}
