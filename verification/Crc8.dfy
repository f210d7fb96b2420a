// crc8_compute of crc.c (and crc8 of index.ts): the bit loop, and the polynomial that it computes.
module Crc8 {
  import opened GaloisField

  // One turn of the inner loop: multiplication by x modulo x^8 + x^2 + x + 1.
  function StepBit(r: bv8): bv8 { (r << 1) ^ ((0 - (r >> 7)) & 0x07) }

  function Steps(r: bv8, n: nat): bv8
    decreases n
  {
    if n == 0 then r else StepBit(Steps(r, n - 1))
  }

  // The register after a message, starting from r.
  function CrcFrom(r: bv8, data: seq<bv8>): bv8 {
    if data == [] then r
    else Steps(Add(CrcFrom(r, data[..|data| - 1]), data[|data| - 1]), 8)
  }

  function Crc(data: seq<bv8>): bv8 { CrcFrom(0, data) }

  lemma StepBitBranches(r: bv8)
    ensures StepBit(r) == if r & 0x80 != 0 then (r << 1) ^ 0x07 else r << 1
  {}

  method Crc8Compute(data: seq<bv8>) returns (crc: bv8)
    ensures crc == Crc(data)
  {
    crc := 0x00;
    for i := 0 to |data|
      invariant crc == Crc(data[..i])
    {
      ghost var sum := Add(crc, data[i]);
      crc := crc ^ data[i];
      assert crc == sum;
      for j := 0 to 8
        invariant crc == Steps(sum, j)
      {
        StepBitBranches(crc);
        if crc & 0x80 != 0 {
          crc := (crc << 1) ^ 0x07;
        } else {
          crc := crc << 1;
        }
      }
      assert data[..i + 1][..i] == data[..i];
    }
    assert data[..|data|] == data;
  }

  // The host computes on numbers, masked to a byte after every operation.
  method HostCrc8(data: seq<bv8>) returns (crc: bv16)
    ensures crc == Crc(data) as bv16
  {
    crc := 0;
    for i := 0 to |data|
      invariant crc == Crc(data[..i]) as bv16
    {
      ghost var before := Crc(data[..i]);
      crc := (crc ^ (data[i] as bv16)) & 0xff;
      WideXor(before, data[i]);
      for j := 0 to 8
        invariant crc == Steps(Add(before, data[i]), j) as bv16
      {
        WideStep(Steps(Add(before, data[i]), j));
        if crc & 0x80 != 0 {
          crc := ((crc << 1) ^ 0x07) & 0xff;
        } else {
          crc := (crc << 1) & 0xff;
        }
      }
      assert data[..i + 1][..i] == data[..i];
    }
    assert data[..|data|] == data;
  }

  lemma WideXor(a: bv8, b: bv8)
    ensures ((a as bv16) ^ (b as bv16)) & 0xff == Add(a, b) as bv16
  {}

  lemma WideStep(r: bv8)
    ensures StepBit(r) as bv16
         == if (r as bv16) & 0x80 != 0 then (((r as bv16) << 1) ^ 0x07) & 0xff else ((r as bv16) << 1) & 0xff
  {}
}
