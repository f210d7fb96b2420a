// The byte ring of ring-buffer.c, and the receive side of uart.c that is built on it.
module RingBuffer {

  // ----- Masking with size - 1 wraps an index around -----

  // The bitwise and of two natural numbers.
  function BitAnd(x: nat, y: nat): nat {
    if x == 0 || y == 0 then 0 else 2 * BitAnd(x / 2, y / 2) + (if x % 2 == 1 && y % 2 == 1 then 1 else 0)
  }

  function Pow2(k: nat): (p: nat)
    ensures p >= 1
  {
    if k == 0 then 1 else 2 * Pow2(k - 1)
  }

  ghost predicate IsPow2(n: nat) { exists k: nat :: n == Pow2(k) }

  lemma {:induction false} MaskKeepsBelow(x: nat, k: nat)
    requires x < Pow2(k)
    ensures BitAnd(x, Pow2(k) - 1) == x
  {
    if x > 0 {
      MaskKeepsBelow(x / 2, k - 1);
      assert (Pow2(k) - 1) / 2 == Pow2(k - 1) - 1;
    }
  }

  lemma {:induction false} MaskClearsSize(k: nat)
    ensures BitAnd(Pow2(k), Pow2(k) - 1) == 0
  {
    if k > 0 {
      MaskClearsSize(k - 1);
      assert Pow2(k) / 2 == Pow2(k - 1) && (Pow2(k) - 1) / 2 == Pow2(k - 1) - 1;
    }
  }

  // The index after i in a ring of the given size.
  function Next(i: nat, size: nat): nat { if i + 1 == size then 0 else i + 1 }

  lemma MaskedNext(i: nat, size: nat)
    requires IsPow2(size) && i < size
    ensures BitAnd(i + 1, size - 1) == Next(i, size)
  {
    var k: nat :| size == Pow2(k);
    if i + 1 == size {
      MaskClearsSize(k);
    } else {
      MaskKeepsBelow(i + 1, k);
    }
  }

  lemma {:induction false} MaskedSize(n: nat)
    requires n > 0 && BitAnd(n, n - 1) == 0
    ensures IsPow2(n)
  {
    if n % 2 == 1 {
      MaskOfItself(n / 2);
      assert n == Pow2(0);
    } else {
      MaskedSize(n / 2);
      var k: nat :| n / 2 == Pow2(k);
      assert n == Pow2(k + 1);
    }
  }

  lemma {:induction false} MaskOfItself(n: nat)
    ensures BitAnd(n, n) == n
  {
    if n > 0 {
      MaskOfItself(n / 2);
    }
  }

  // Masking with size - 1 wraps every index around if and only if the size is a power of two.
  lemma MaskWrapsExactlyWhen(size: nat)
    requires size > 0
    ensures IsPow2(size) <==> forall i: nat {:trigger Next(i, size)} :: i < size ==> BitAnd(i + 1, size - 1) == Next(i, size)
  {
    if IsPow2(size) {
      forall i: nat | i < size ensures BitAnd(i + 1, size - 1) == Next(i, size) {
        MaskedNext(i, size);
      }
    } else if BitAnd(size, size - 1) == 0 {
      MaskedSize(size);
    } else {
      assert Next(size - 1, size) == 0;
    }
  }

  // The elements of a ring between its read and its write index.
  function Between<T>(ring: seq<T>, r: nat, w: nat): seq<T>
    requires r <= |ring| && w <= |ring|
  {
    if r <= w then ring[r..w] else ring[r..] + ring[..w]
  }

  lemma BetweenLength<T>(ring: seq<T>, r: nat, w: nat)
    requires r < |ring| && w < |ring|
    ensures |Between(ring, r, w)| == if r <= w then w - r else |ring| - r + w
    ensures Next(w, |ring|) == r <==> |Between(ring, r, w)| == |ring| - 1
  {}

  lemma BetweenPush<T>(ring: seq<T>, r: nat, w: nat)
    requires r < |ring| && w < |ring| && Next(w, |ring|) != r
    ensures Between(ring, r, Next(w, |ring|)) == Between(ring, r, w) + [ring[w]]
  {}

  lemma BetweenPop<T>(ring: seq<T>, r: nat, w: nat)
    requires r < |ring| && w < |ring| && r != w
    ensures Between(ring, r, w) == [ring[r]] + Between(ring, Next(r, |ring|), w)
  {}

  // The slot at the write index is outside the queue.
  lemma BetweenStore<T>(ring: seq<T>, r: nat, w: nat, x: T)
    requires r < |ring| && w < |ring|
    ensures Between(ring[w := x], r, w) == Between(ring, r, w)
  {}

  // Storing at the write index and moving it on appends to the queue.
  lemma BetweenAppend<T>(ring: seq<T>, r: nat, w: nat, x: T)
    requires r < |ring| && w < |ring| && Next(w, |ring|) != r
    ensures Between(ring[w := x], r, Next(w, |ring|)) == Between(ring, r, w) + [x]
  {
    BetweenStore(ring, r, w, x);
    BetweenPush(ring[w := x], r, w);
  }

  class Ring {
    var buffer: array<bv8>
    var mask: nat
    var read_index: nat
    var write_index: nat

    ghost predicate Valid()
      reads this
    {
      && buffer.Length == mask + 1 && IsPow2(mask + 1)
      && read_index <= mask && write_index <= mask
    }

    // The bytes in the ring, oldest first.
    ghost function Contents(): seq<bv8>
      requires Valid()
      reads this, buffer
    {
      Between(buffer[..], read_index, write_index)
    }

    // The size is a 32-bit number; the ring works if it is a power of two (MaskWrapsExactlyWhen).
    constructor Setup(buffer: array<bv8>)
      requires buffer.Length < 0x1_0000_0000
      ensures this.buffer == buffer && mask == (buffer.Length - 1) % 0x1_0000_0000
      ensures read_index == 0 && write_index == 0
      ensures Valid() <==> IsPow2(buffer.Length)
      ensures Valid() ==> Contents() == []
    {
      this.buffer := buffer;
      mask := (buffer.Length - 1) % 0x1_0000_0000;
      read_index := 0;
      write_index := 0;
    }

    method IsEmpty() returns (empty: bool)
      requires Valid()
      ensures empty <==> Contents() == []
    {
      empty := read_index == write_index;
    }

    // Stores a byte unless size - 1 bytes are waiting.
    method Write(byte: bv8) returns (written: bool)
      requires Valid()
      modifies this`write_index, buffer
      ensures Valid()
      ensures written <==> |old(Contents())| < mask
      ensures Contents() == if written then old(Contents()) + [byte] else old(Contents())
    {
      var local_write_index := write_index;
      var local_read_index := read_index;
      var next_write_index := BitAnd(local_write_index + 1, mask);
      MaskedNext(local_write_index, mask + 1);
      if next_write_index == local_read_index {
        return false;
      }
      buffer[local_write_index] := byte;
      write_index := next_write_index;
      written := true;
    }

    method Read() returns (read: bool, byte: bv8)
      requires Valid()
      modifies this`read_index
      ensures Valid()
      ensures read <==> old(Contents()) != []
      ensures read ==> old(Contents()) == [byte] + Contents()
      ensures !read ==> byte == 0 && Contents() == []
    {
      var local_read_index := read_index;
      var local_write_index := write_index;
      if local_read_index == local_write_index {
        return false, 0;
      }
      byte := buffer[local_read_index];
      MaskedNext(local_read_index, mask + 1);
      read_index := BitAnd(local_read_index + 1, mask);
      read := true;
    }
  }

  // ----- uart.c -----

  lemma MoveOne(front: seq<bv8>, byte: bv8, rest: seq<bv8>)
    ensures front + ([byte] + rest) == (front + [byte]) + rest
  {}

  // Copies up to `length` waiting bytes, oldest first.
  method UartRead(rx: Ring, data: array<bv8>, length: nat) returns (count: nat)
    requires rx.Valid() && data != rx.buffer && length <= data.Length
    modifies rx`read_index, data
    ensures rx.Valid()
    ensures count == if |old(rx.Contents())| < length then |old(rx.Contents())| else length
    ensures old(rx.Contents()) == data[..count] + rx.Contents()
    ensures data[count..] == old(data[count..])
  {
    if length == 0 {
      return 0;
    }
    for byteRead := 0 to length
      invariant rx.Valid() && rx.buffer == old(rx.buffer)
      invariant old(rx.Contents()) == data[..byteRead] + rx.Contents()
      invariant data[byteRead..] == old(data[byteRead..])
    {
      ghost var front, waiting := data[..byteRead], rx.Contents();
      var read, byte := rx.Read();
      if !read {
        return byteRead;
      }
      data[byteRead] := byte;
      MoveOne(front, byte, rx.Contents());
      assert data[..byteRead + 1] == front + [byte];
    }
    count := length;
  }

  // The oldest waiting byte, or 0 when none waits.
  method UartReadByte(rx: Ring) returns (byte: bv8)
    requires rx.Valid()
    modifies rx`read_index
    ensures rx.Valid()
    ensures if old(rx.Contents()) == [] then byte == 0 && rx.Contents() == []
            else old(rx.Contents()) == [byte] + rx.Contents()
  {
    var data := new bv8[1] [0];
    var count := UartRead(rx, data, 1);
    byte := data[0];
  }

  method UartDataAvailable(rx: Ring) returns (available: bool)
    requires rx.Valid()
    ensures available <==> rx.Contents() != []
  {
    var empty := rx.IsEmpty();
    available := !empty;
  }
}
