// fw-signer/main.py: patching the info block, building the signing image, and splicing the signature,
// with OpenSSL's AES-CBC as CBC with the padding of RFC 5652 over a block cipher.
module Signer {
  import opened Aes
  import opened CbcMac
  import opened Image
  import opened LittleEndian

  datatype Result<T> = Ok(value: T) | Err

  const FWINFO_VERSION_OFFSET: nat := 8
  const FWINFO_LENGTH_OFFSET: nat := 12

  // Overwrites the bytes at p.
  function Patched(image: seq<bv8>, p: nat, bytes: seq<bv8>): (patched: seq<bv8>)
    requires p + |bytes| <= |image|
    ensures |patched| == |image|
    ensures forall i :: 0 <= i < |image| ==> patched[i] == if p <= i < p + |bytes| then bytes[i - p] else image[i]
  {
    image[..p] + bytes + image[p + |bytes|..]
  }

  // struct.pack_into("<I", image, p, n): an error if the value or the position is out of range.
  function PackInto(image: seq<bv8>, p: nat, n: int): Result<seq<bv8>> {
    if 0 <= n < TWO_32 && p + 4 <= |image| then Ok(Patched(image, p, PackLe32(n))) else Err
  }

  // The ciphertext of CBC mode.
  function CbcEncrypt(e: BlockCipher, iv: Block, blocks: seq<Block>): (ciphertext: seq<Block>)
    ensures |ciphertext| == |blocks|
  {
    if blocks == [] then []
    else
      var n := |blocks| - 1;
      var front := CbcEncrypt(e, iv, blocks[..n]);
      front + [e(AddBlocks(blocks[n], if front == [] then iv else front[n - 1]))]
  }

  lemma {:induction false} LastBlockIsMac(e: BlockCipher, iv: Block, blocks: seq<Block>)
    ensures Mac(e, iv, blocks) == if blocks == [] then iv else CbcEncrypt(e, iv, blocks)[|blocks| - 1]
  {
    if blocks != [] {
      LastBlockIsMac(e, iv, blocks[..|blocks| - 1]);
    }
  }

  // openssl enc -aes-128-cbc with a zero IV.
  function OpenSslEncrypt(e: BlockCipher, plaintext: seq<bv8>): (ciphertext: seq<Block>)
    ensures |ciphertext| >= 1
  {
    CbcEncrypt(e, ZERO_BLOCK, Blocks(PadAlways(plaintext)))
  }

  // The image under the signature: Python slices, which stop at the end of the image.
  function SigningImage(image: seq<bv8>): seq<bv8>
    requires SIGNATURE_OFFSET <= |image|
  {
    image[FWINFO_OFFSET..SIGNATURE_OFFSET] + image[..FWINFO_OFFSET] + image[Min(BODY_OFFSET, |image|)..]
  }

  // What the signature is.
  function SignatureOf(e: BlockCipher, image: seq<bv8>): (signature: seq<bv8>)
    requires SIGNATURE_OFFSET <= |image|
    ensures |signature| == AES_BLOCK_SIZE
  {
    Bytes(Mac(e, ZERO_BLOCK, Blocks(PadAlways(SigningImage(image)))))
  }

  predicate CanSign(image: seq<bv8>, version: int) {
    SIGNATURE_OFFSET <= |image| < TWO_32 && 0 <= version < TWO_32
  }

  // The image with its version and length fields filled in.
  function Stamped(image: seq<bv8>, version: nat): (stamped: seq<bv8>)
    requires CanSign(image, version)
    ensures |stamped| == |image|
  {
    Patched(Patched(image, FWINFO_OFFSET + FWINFO_VERSION_OFFSET, PackLe32(version)),
            FWINFO_OFFSET + FWINFO_LENGTH_OFFSET, PackLe32(|image|))
  }

  // The image with the signature in its slot; a slot cut off by the end of the image is completed.
  function Spliced(image: seq<bv8>, signature: seq<bv8>): (spliced: seq<bv8>)
    requires SIGNATURE_OFFSET <= |image| && |signature| == AES_BLOCK_SIZE
    ensures |spliced| == if |image| < BODY_OFFSET then BODY_OFFSET else |image|
    ensures forall i :: 0 <= i < |spliced| ==>
      spliced[i] == if SIGNATURE_OFFSET <= i < BODY_OFFSET then signature[i - SIGNATURE_OFFSET] else image[i]
  {
    image[..SIGNATURE_OFFSET] + signature + image[Min(BODY_OFFSET, |image|)..]
  }

  function Signed(e: BlockCipher, image: seq<bv8>, version: nat): seq<bv8>
    requires CanSign(image, version)
  {
    Spliced(Stamped(image, version), SignatureOf(e, Stamped(image, version)))
  }

  // The script, from the bytes after the bootloader to the bytes written out.
  method SignFirmware(e: BlockCipher, image: seq<bv8>, version: int) returns (r: Result<seq<bv8>>)
    ensures r == if CanSign(image, version) then Ok(Signed(e, image, version)) else Err
  {
    var fwImage := image;
    var patched := PackInto(fwImage, FWINFO_OFFSET + FWINFO_VERSION_OFFSET, version);
    if patched.Err? {
      return Err;
    }
    fwImage := patched.value;
    patched := PackInto(fwImage, FWINFO_OFFSET + FWINFO_LENGTH_OFFSET, |fwImage|);
    if patched.Err? {
      return Err;
    }
    fwImage := patched.value;

    var signingImage := fwImage[FWINFO_OFFSET..FWINFO_OFFSET + AES_BLOCK_SIZE];
    signingImage := signingImage + fwImage[..FWINFO_OFFSET];
    signingImage := signingImage + fwImage[Min(FWINFO_OFFSET + AES_BLOCK_SIZE * 2, |fwImage|)..];

    var encrypted := OpenSslEncrypt(e, signingImage);
    LastBlockIsMac(e, ZERO_BLOCK, Blocks(PadAlways(signingImage)));
    var signature := Bytes(encrypted[|encrypted| - 1]);
    fwImage := fwImage[..SIGNATURE_OFFSET] + signature + fwImage[Min(SIGNATURE_OFFSET + AES_BLOCK_SIZE, |fwImage|)..];
    r := Ok(fwImage);
  }
}
