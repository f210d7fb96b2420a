// 32-bit integers as four little-endian bytes.
module LittleEndian {

  const TWO_32: nat := 0x1_0000_0000

  // The byte with value n.
  function ByteOf(n: nat): (b: bv8)
    requires n < 0x100
    ensures b as int == n
  {
    if n == 0 then 0 else ByteOf(n - 1) + 1
  }

  function Le32(b0: bv8, b1: bv8, b2: bv8, b3: bv8): (n: nat)
    ensures n < TWO_32
  {
    b0 as int + 0x100 * (b1 as int) + 0x1_0000 * (b2 as int) + 0x100_0000 * (b3 as int)
  }

  function PackLe32(n: nat): (bytes: seq<bv8>)
    requires n < TWO_32
    ensures |bytes| == 4 && Le32(bytes[0], bytes[1], bytes[2], bytes[3]) == n
  {
    Digits(n);
    [ByteOf(n % 0x100), ByteOf(n / 0x100 % 0x100), ByteOf(n / 0x1_0000 % 0x100), ByteOf(n / 0x100_0000)]
  }

  lemma Digits(n: nat)
    requires n < TWO_32
    ensures n / 0x100_0000 < 0x100
    ensures n % 0x100 + 0x100 * (n / 0x100 % 0x100) + 0x1_0000 * (n / 0x1_0000 % 0x100) + 0x100_0000 * (n / 0x100_0000) == n
  {
    assert n / 0x1_0000 == n / 0x100 / 0x100 && n / 0x100_0000 == n / 0x1_0000 / 0x100;
  }
}
