// CBC-MAC over any block cipher (the chaining of NIST SP 800-38A section 6.2, keeping the last block),
// the two paddings in use, and what injectivity of the cipher gives.
module CbcMac {
  import opened GaloisField
  import opened Columns
  import opened Aes

  type BlockCipher = Block -> Block

  const ZERO_BLOCK := Block(Word(0, 0, 0, 0), Word(0, 0, 0, 0), Word(0, 0, 0, 0), Word(0, 0, 0, 0))

  // The sum of two blocks is that of a block and a round key.
  function AddBlocks(a: Block, b: Block): Block { AddRoundKey(a, b) }

  // The last ciphertext block of `blocks` chained from `iv`.
  function Mac(e: BlockCipher, iv: Block, blocks: seq<Block>): Block {
    if blocks == [] then iv
    else e(AddBlocks(blocks[|blocks| - 1], Mac(e, iv, blocks[..|blocks| - 1])))
  }

  lemma MacOfSnoc(e: BlockCipher, iv: Block, blocks: seq<Block>, b: Block)
    ensures Mac(e, iv, blocks + [b]) == e(AddBlocks(b, Mac(e, iv, blocks)))
  {
    assert (blocks + [b])[..|blocks|] == blocks;
  }

  // Chaining starts with the plain encryption of the first block.
  lemma MacOfFirst(e: BlockCipher, b: Block)
    ensures Mac(e, ZERO_BLOCK, [b]) == e(b)
  {
    MacOfSnoc(e, ZERO_BLOCK, [], b);
    assert [] + [b] == [b];
    AddBlocksZero(b);
  }

  lemma AddWordsZero(w: Word)
    ensures AddWords(w, Word(0, 0, 0, 0)) == w
  {}

  lemma AddBlocksZero(b: Block)
    ensures AddBlocks(b, ZERO_BLOCK) == b
  {
    AddWordsZero(b.c0);
    AddWordsZero(b.c1);
    AddWordsZero(b.c2);
    AddWordsZero(b.c3);
  }

  lemma {:induction false} MacOfConcat(e: BlockCipher, iv: Block, front: seq<Block>, back: seq<Block>)
    ensures Mac(e, iv, front + back) == Mac(e, Mac(e, iv, front), back)
  {
    if back == [] {
      assert front + back == front;
    } else {
      var n := |back| - 1;
      MacOfConcat(e, iv, front, back[..n]);
      assert front + back == (front + back[..n]) + [back[n]];
      assert back == back[..n] + [back[n]];
      MacOfSnoc(e, iv, front + back[..n], back[n]);
      MacOfSnoc(e, Mac(e, iv, front), back[..n], back[n]);
    }
  }

  // ----- Chaining is injective in the chaining value and in any one block -----

  ghost predicate Injective(e: BlockCipher) { forall x: Block, y: Block :: e(x) == e(y) ==> x == y }

  lemma AddBlocksInjective(a: Block, b: Block, x: Block)
    requires AddBlocks(x, a) == AddBlocks(x, b) || AddBlocks(a, x) == AddBlocks(b, x)
    ensures a == b
  {
    if AddBlocks(a, x) == AddBlocks(b, x) {
      AddRoundKeyCancels(a, x);
      AddRoundKeyCancels(b, x);
    } else {
      AddBlocksCommutes(x, a);
      AddBlocksCommutes(x, b);
      AddRoundKeyCancels(a, x);
      AddRoundKeyCancels(b, x);
    }
  }

  lemma AddWordsCommutes(a: Word, b: Word)
    ensures AddWords(a, b) == AddWords(b, a)
  {
    AddCommutes(a.b0, b.b0);
    AddCommutes(a.b1, b.b1);
    AddCommutes(a.b2, b.b2);
    AddCommutes(a.b3, b.b3);
  }

  lemma AddBlocksCommutes(a: Block, b: Block)
    ensures AddBlocks(a, b) == AddBlocks(b, a)
  {
    AddWordsCommutes(a.c0, b.c0);
    AddWordsCommutes(a.c1, b.c1);
    AddWordsCommutes(a.c2, b.c2);
    AddWordsCommutes(a.c3, b.c3);
  }

  lemma {:induction false} MacInjectiveInStart(e: BlockCipher, iv: Block, iv': Block, blocks: seq<Block>)
    requires Injective(e)
    requires Mac(e, iv, blocks) == Mac(e, iv', blocks)
    ensures iv == iv'
  {
    if blocks != [] {
      var n := |blocks| - 1;
      AddBlocksInjective(Mac(e, iv, blocks[..n]), Mac(e, iv', blocks[..n]), blocks[n]);
      MacInjectiveInStart(e, iv, iv', blocks[..n]);
    }
  }

  // The MAC seen from one block: what precedes it, the block, and what follows.
  lemma MacAroundBlock(e: BlockCipher, iv: Block, blocks: seq<Block>, i: nat, x: Block)
    requires i < |blocks|
    ensures Mac(e, iv, blocks[i := x]) == Mac(e, e(AddBlocks(x, Mac(e, iv, blocks[..i]))), blocks[i + 1..])
  {
    assert blocks[i := x] == (blocks[..i] + [x]) + blocks[i + 1..];
    MacOfConcat(e, iv, blocks[..i] + [x], blocks[i + 1..]);
    MacOfSnoc(e, iv, blocks[..i], x);
  }

  // Whatever follows it and whatever came before, no other value of block i gives the same MAC.
  lemma MacInjectiveInBlock(e: BlockCipher, iv: Block, blocks: seq<Block>, i: nat, x: Block, y: Block)
    requires Injective(e) && i < |blocks|
    requires Mac(e, iv, blocks[i := x]) == Mac(e, iv, blocks[i := y])
    ensures x == y
  {
    var before := Mac(e, iv, blocks[..i]);
    MacAroundBlock(e, iv, blocks, i, x);
    MacAroundBlock(e, iv, blocks, i, y);
    MacInjectiveInStart(e, e(AddBlocks(x, before)), e(AddBlocks(y, before)), blocks[i + 1..]);
    AddBlocksInjective(x, y, before);
  }

  lemma MacDetectsOneBlock(e: BlockCipher, iv: Block, a: seq<Block>, b: seq<Block>, k: nat)
    requires Injective(e) && k < |a| == |b| && b == a[k := b[k]]
    requires Mac(e, iv, a) == Mac(e, iv, b)
    ensures a == b
  {
    assert a[k := a[k]] == a;
    MacInjectiveInBlock(e, iv, a, k, b[k], a[k]);
  }

  // ----- Byte strings as blocks -----

  function Blocks(bytes: seq<bv8>): (blocks: seq<Block>)
    requires |bytes| % AES_BLOCK_SIZE == 0
    ensures |blocks| == |bytes| / AES_BLOCK_SIZE
  {
    seq(|bytes| / AES_BLOCK_SIZE, i requires 0 <= i < |bytes| / AES_BLOCK_SIZE => BlockAt(bytes, AES_BLOCK_SIZE * i))
  }

  lemma BlocksOfConcat(a: seq<bv8>, b: seq<bv8>)
    requires |a| % AES_BLOCK_SIZE == 0 && |b| % AES_BLOCK_SIZE == 0
    ensures |a + b| % AES_BLOCK_SIZE == 0
    ensures Blocks(a + b) == Blocks(a) + Blocks(b)
  {}

  lemma BlocksInjective(a: seq<bv8>, b: seq<bv8>)
    requires |a| % AES_BLOCK_SIZE == 0 && |b| % AES_BLOCK_SIZE == 0
    requires Blocks(a) == Blocks(b)
    ensures a == b
  {
    assert |a| == AES_BLOCK_SIZE * |Blocks(a)| && |b| == AES_BLOCK_SIZE * |Blocks(b)|;
    forall j | 0 <= j < |a| ensures a[j] == b[j] {
      var i, k := j / AES_BLOCK_SIZE, j % AES_BLOCK_SIZE;
      var p := AES_BLOCK_SIZE * i;
      assert Blocks(a)[i] == Blocks(b)[i];
      BytesOfBlockAt(a, p);
      BytesOfBlockAt(b, p);
      assert a[j] == a[p..p + AES_BLOCK_SIZE][k] && b[j] == b[p..p + AES_BLOCK_SIZE][k];
    }
  }

  // ----- Padding -----

  function Repeat(b: bv8, n: nat): seq<bv8> { seq(n, _ => b) }

  // The number of bytes that OpenSSL appends (section 6.3 of RFC 5652): never none.
  function PaddingLength(n: nat): (p: nat)
    ensures 1 <= p <= AES_BLOCK_SIZE && (n + p) % AES_BLOCK_SIZE == 0
  {
    AES_BLOCK_SIZE - n % AES_BLOCK_SIZE
  }

  function PadAlways(message: seq<bv8>): (padded: seq<bv8>)
    ensures |padded| % AES_BLOCK_SIZE == 0
  {
    var p := PaddingLength(|message|);
    message + Repeat(p as bv8, p)
  }

  // The device completes a partial last block in the same way and leaves a full one alone.
  function PadPartial(message: seq<bv8>): (padded: seq<bv8>)
    ensures |padded| % AES_BLOCK_SIZE == 0
  {
    if |message| % AES_BLOCK_SIZE == 0 then message else PadAlways(message)
  }

  // Where the paddings differ, they differ by one whole block.
  lemma PaddingsCompared(message: seq<bv8>)
    ensures |message| % AES_BLOCK_SIZE != 0 ==> PadAlways(message) == PadPartial(message)
    ensures |message| % AES_BLOCK_SIZE == 0 ==> PadAlways(message) == PadPartial(message) + Repeat(0x10, AES_BLOCK_SIZE)
  {}

  // The last byte tells how many bytes to take off again, and all of those are like it.
  lemma PaddingComesOff(message: seq<bv8>)
    ensures var padded := PadAlways(message);
      && |padded| > 0
      && var n := padded[|padded| - 1] as int;
         && 1 <= n <= AES_BLOCK_SIZE && n <= |padded| && message == padded[..|padded| - n]
         && forall i :: |padded| - n <= i < |padded| ==> padded[i] as int == n
  {
    ByteOfPadding(PaddingLength(|message|));
  }

  lemma ByteOfPadding(p: nat)
    requires p <= AES_BLOCK_SIZE
    ensures (p as bv8) as int == p
  {}

  // For messages of one length, padding loses nothing.
  lemma PadPartialInjective(a: seq<bv8>, b: seq<bv8>)
    requires |a| == |b| && PadPartial(a) == PadPartial(b)
    ensures a == b
  {
    assert a == PadPartial(a)[..|a|] && b == PadPartial(b)[..|b|];
  }

  // For messages of one length, neither does cutting the padded message into blocks.
  lemma PaddedPrefix(a: seq<bv8>, b: seq<bv8>)
    requires |a| == |b| && Blocks(PadPartial(a)) <= Blocks(PadPartial(b))
    ensures a == b
  {
    assert |PadPartial(a)| == |PadPartial(b)|;
    assert Blocks(PadPartial(a)) == Blocks(PadPartial(b))[..|Blocks(PadPartial(a))|];
    BlocksInjective(PadPartial(a), PadPartial(b));
    PadPartialInjective(a, b);
  }

  lemma PadPartialAt(a: seq<bv8>, b: seq<bv8>, j: nat)
    requires |a| == |b| && j < |PadPartial(a)|
    requires j < |a| ==> a[j] == b[j]
    ensures |PadPartial(b)| == |PadPartial(a)| && PadPartial(a)[j] == PadPartial(b)[j]
  {}

  // Full blocks are not padded: the last of them is chained to what precedes it.
  lemma MacOfLast(e: BlockCipher, front: seq<bv8>, b: Block)
    requires |front| % AES_BLOCK_SIZE == 0
    ensures Mac(e, ZERO_BLOCK, Blocks(PadPartial(front + Bytes(b)))) == e(AddBlocks(b, Mac(e, ZERO_BLOCK, Blocks(front))))
  {
    BlocksOfConcat(front, Bytes(b));
    BlockAtOfBytes(b);
    assert Blocks(Bytes(b)) == [b];
    MacOfSnoc(e, ZERO_BLOCK, Blocks(front), b);
  }

  // Messages of one length that differ within one aligned block differ, as blocks, in that block only.
  lemma OneBlockDiffers(a: seq<bv8>, b: seq<bv8>, k: nat)
    requires |a| == |b| && k < |Blocks(PadPartial(a))|
    requires forall j :: 0 <= j < |a| && !(AES_BLOCK_SIZE * k <= j < AES_BLOCK_SIZE * (k + 1)) ==> a[j] == b[j]
    ensures |Blocks(PadPartial(a))| == |Blocks(PadPartial(b))|
    ensures Blocks(PadPartial(b)) == Blocks(PadPartial(a))[k := Blocks(PadPartial(b))[k]]
  {
    assert |PadPartial(a)| == |PadPartial(b)|;
    forall i | 0 <= i < |Blocks(PadPartial(a))| && i != k ensures Blocks(PadPartial(a))[i] == Blocks(PadPartial(b))[i] {
      var p := AES_BLOCK_SIZE * i;
      forall j | p <= j < p + AES_BLOCK_SIZE ensures PadPartial(a)[j] == PadPartial(b)[j] {
        PadPartialAt(a, b, j);
      }
      SameBlock(PadPartial(a), PadPartial(b), p);
    }
  }

  lemma SameBlock(a: seq<bv8>, b: seq<bv8>, p: nat)
    requires |a| == |b| && p + AES_BLOCK_SIZE <= |a|
    requires forall j :: p <= j < p + AES_BLOCK_SIZE ==> a[j] == b[j]
    ensures BlockAt(a, p) == BlockAt(b, p)
  {}
}
