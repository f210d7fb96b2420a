// The AES-128 key schedule of aes.c, against the word recurrence of FIPS 197 section 5.2.
module KeySchedule {
  import opened GaloisField
  import opened Columns
  import opened Aes
  import opened AesInPlace

  // ----- The recurrence of the standard -----

  function RotWord(w: Word): Word { Word(w.b1, w.b2, w.b3, w.b0) }

  // The round constant of round j is x^(j-1).
  function RoundConstant(j: nat): Word
    requires 1 <= j
  {
    Word(TimesPower(1, j - 1), 0, 0, 0)
  }

  function ColumnOfBlock(b: Block, i: nat): Word
    requires i < 4
  {
    if i == 0 then b.c0 else if i == 1 then b.c1 else if i == 2 then b.c2 else b.c3
  }

  // ----- One round key from the one before, and back -----

  function NextRoundKey(table: Table, k: Block, n: nat): Block {
    var c0 := AddWords(AddWords(SubWord(table, RotWord(k.c3)), RoundConstant(n + 1)), k.c0);
    var c1 := AddWords(c0, k.c1);
    var c2 := AddWords(c1, k.c2);
    Block(c0, c1, c2, AddWords(c2, k.c3))
  }

  function PreviousRoundKey(table: Table, k: Block, n: nat): Block {
    var c3 := AddWords(k.c2, k.c3);
    Block(AddWords(AddWords(SubWord(table, RotWord(c3)), RoundConstant(n + 1)), k.c0),
          AddWords(k.c0, k.c1), AddWords(k.c1, k.c2), c3)
  }

  function RoundKey(table: Table, key: Block, n: nat): Block
    decreases n
  {
    if n == 0 then key else NextRoundKey(table, RoundKey(table, key, n - 1), n - 1)
  }

  function ExpandKey(table: Table, key: Block): (w: seq<Block>)
    ensures |w| == NUM_ROUND_KEYS_128
  {
    seq(NUM_ROUND_KEYS_128, n requires 0 <= n => RoundKey(table, key, n))
  }

  // The word w[i] of the schedule.
  function ScheduleWord(table: Table, key: Block, i: nat): Word {
    ColumnOfBlock(RoundKey(table, key, i / 4), i % 4)
  }

  // The schedule is the solution of the recurrence of section 5.2: its first four words are the key, ...
  lemma ScheduleStartsWithKey(table: Table, key: Block, i: nat)
    requires i < 4
    ensures ScheduleWord(table, key, i) == ColumnOfBlock(key, i)
  {}

  // ... and each later word is the sum of the word four places back and the (transformed) previous word.
  lemma ScheduleRecurrence(table: Table, key: Block, i: nat)
    requires 4 <= i
    ensures var temp := ScheduleWord(table, key, i - 1);
            ScheduleWord(table, key, i)
              == AddWords(if i % 4 == 0 then AddWords(SubWord(table, RotWord(temp)), RoundConstant(i / 4)) else temp,
                          ScheduleWord(table, key, i - 4))
  {
    var n, c := i / 4 - 1, i % 4;
    var k := RoundKey(table, key, n);
    assert (i - 4) / 4 == n && (i - 4) % 4 == c;
    assert RoundKey(table, key, n + 1) == NextRoundKey(table, k, n);
    if c == 0 {
      assert (i - 1) / 4 == n && (i - 1) % 4 == 3;
    } else {
      assert (i - 1) / 4 == n + 1 && (i - 1) % 4 == c - 1;
    }
  }

  lemma PreviousUndoesNext(table: Table, k: Block, n: nat)
    ensures PreviousRoundKey(table, NextRoundKey(table, k, n), n) == k
  {
    var next := NextRoundKey(table, k, n);
    AddWordsCancels(k.c3, next.c2);
    AddWordsCancels(k.c2, next.c1);
    AddWordsCancels(k.c1, next.c0);
    AddWordsCancels(k.c0, AddWords(SubWord(table, RotWord(k.c3)), RoundConstant(n + 1)));
  }

  // ----- Any one round key and its index give back the key, hence the whole schedule -----

  function RecoverKey(table: Table, k: Block, n: nat): Block
    decreases n
  {
    if n == 0 then k else RecoverKey(table, PreviousRoundKey(table, k, n - 1), n - 1)
  }

  lemma {:induction false} RoundKeyDeterminesKey(table: Table, key: Block, n: nat)
    ensures RecoverKey(table, RoundKey(table, key, n), n) == key
    decreases n
  {
    if n > 0 {
      PreviousUndoesNext(table, RoundKey(table, key, n - 1), n - 1);
      RoundKeyDeterminesKey(table, key, n - 1);
    }
  }

  lemma ScheduleInjective(table: Table, key: Block, other: Block, n: nat)
    requires n < NUM_ROUND_KEYS_128
    requires ExpandKey(table, key)[n] == ExpandKey(table, other)[n]
    ensures key == other && ExpandKey(table, key) == ExpandKey(table, other)
  {
    RoundKeyDeterminesKey(table, key, n);
    RoundKeyDeterminesKey(table, other, n);
  }

  // ----- The loop of AES_KeySchedule128 -----

  // The first bytes of the ten entries of Rcon; the other three bytes of each are 0.
  const RCON: seq<bv8> := [0x01, 0x02, 0x04, 0x08, 0x10, 0x20, 0x40, 0x80, 0x1b, 0x36]

  lemma RconIsRoundConstant(i: nat)
    requires i < |RCON|
    ensures Word(RCON[i], 0, 0, 0) == RoundConstant(i + 1)
  {
    PowersOfX();
    Unfold(1, 0, 8);
  }

  function WordAt(bytes: seq<bv8>, p: nat): Word
    requires p + 4 <= |bytes|
  {
    Word(bytes[p], bytes[p + 1], bytes[p + 2], bytes[p + 3])
  }

  method DoRotWord(word: array<bv8>)
    requires word.Length == 4
    modifies word
    ensures WordAt(word[..], 0) == RotWord(old(WordAt(word[..], 0)))
  {
    var temp := word[0];
    word[0] := word[1];
    word[1] := word[2];
    word[2] := word[3];
    word[3] := temp;
  }

  method DoSubWord(word: array<bv8>, table: Table)
    requires word.Length == 4
    modifies word
    ensures WordAt(word[..], 0) == SubWord(table, old(WordAt(word[..], 0)))
  {
    for i := 0 to 4
      invariant forall k :: 0 <= k < 4 ==> word[k] == if k < i then table(old(word[k])) else old(word[k])
    {
      var index := word[i];
      word[i] := table(index);
    }
  }

  // Writes the sum of the words at a[p] and b[q] to the word at dest[r]; the operands may be the destination.
  method GfWordAdd(a: array<bv8>, p: nat, b: array<bv8>, q: nat, dest: array<bv8>, r: nat)
    requires p + 4 <= a.Length && q + 4 <= b.Length && r + 4 <= dest.Length
    requires a != dest || p == r || p + 4 <= r || r + 4 <= p
    requires b != dest || q == r || q + 4 <= r || r + 4 <= q
    modifies dest
    ensures WordAt(dest[..], r) == AddWords(old(WordAt(a[..], p)), old(WordAt(b[..], q)))
    ensures forall j :: 0 <= j < dest.Length && !(r <= j < r + 4) ==> dest[j] == old(dest[j])
  {
    dest[r] := a[p] ^ b[q];
    dest[r + 1] := a[p + 1] ^ b[q + 1];
    dest[r + 2] := a[p + 2] ^ b[q + 2];
    dest[r + 3] := a[p + 3] ^ b[q + 3];
  }

  // Copies the word at a[p] to the word at dest[q].
  method CopyWord(a: array<bv8>, p: nat, dest: array<bv8>, q: nat)
    requires p + 4 <= a.Length && q + 4 <= dest.Length && a != dest
    modifies dest
    ensures WordAt(dest[..], q) == WordAt(a[..], p)
    ensures forall j :: 0 <= j < dest.Length && !(q <= j < q + 4) ==> dest[j] == old(dest[j])
  {
    dest[q], dest[q + 1], dest[q + 2], dest[q + 3] := a[p], a[p + 1], a[p + 2], a[p + 3];
  }

  lemma BlockIsWords(bytes: seq<bv8>, p: nat)
    requires p + AES_BLOCK_SIZE <= |bytes|
    ensures BlockAt(bytes, p)
         == Block(WordAt(bytes, p), WordAt(bytes, p + 4), WordAt(bytes, p + 8), WordAt(bytes, p + 12))
  {}

  // The word at p depends only on its four bytes.
  lemma SameWord(a: seq<bv8>, b: seq<bv8>, p: nat)
    requires p + 4 <= |a| == |b| && forall j :: p <= j < p + 4 ==> a[j] == b[j]
    ensures WordAt(a, p) == WordAt(b, p)
  {}

  // One iteration of the loop.
  method DoNextRoundKey(table: Table, keysOut: array<bv8>, current: nat, next: nat, col3: array<bv8>, i: nat)
    requires keysOut.Length == SCHEDULE_SIZE && next == current + AES_BLOCK_SIZE && next + AES_BLOCK_SIZE <= SCHEDULE_SIZE
    requires col3.Length == 4 && col3 != keysOut && i < NUM_ROUND_KEYS_128 - 1
    requires WordAt(col3[..], 0) == BlockAt(keysOut[..], current).c3
    modifies keysOut, col3
    ensures BlockAt(keysOut[..], next) == NextRoundKey(table, old(BlockAt(keysOut[..], current)), i)
    ensures forall j :: 0 <= j < next ==> keysOut[j] == old(keysOut[j])
    ensures WordAt(col3[..], 0) == BlockAt(keysOut[..], next).c3
  {
    BlockIsWords(keysOut[..], current);
    // col3 becomes the transformed last word of the standard.
    DoRotWord(col3);
    DoSubWord(col3, table);
    var rcon := new bv8[4];
    rcon[0], rcon[1], rcon[2], rcon[3] := RCON[i], 0, 0, 0;
    RconIsRoundConstant(i);
    GfWordAdd(col3, 0, rcon, 0, col3, 0);

    DoAddColumns(keysOut, current, next, col3);

    BlockIsWords(keysOut[..], next);
    CopyWord(keysOut, next + 12, col3, 0);
  }

  method DoAddColumns(keysOut: array<bv8>, current: nat, next: nat, col3: array<bv8>)
    requires keysOut.Length == SCHEDULE_SIZE && next == current + AES_BLOCK_SIZE && next + AES_BLOCK_SIZE <= SCHEDULE_SIZE
    requires col3.Length == 4 && col3 != keysOut
    modifies keysOut
    ensures var k := old(BlockAt(keysOut[..], current));
            var c0 := AddWords(WordAt(col3[..], 0), k.c0);
            var c1 := AddWords(c0, k.c1);
            var c2 := AddWords(c1, k.c2);
            BlockAt(keysOut[..], next) == Block(c0, c1, c2, AddWords(c2, k.c3))
    ensures forall j :: 0 <= j < next ==> keysOut[j] == old(keysOut[j])
  {
    ghost var s := keysOut[..];
    BlockIsWords(s, current);
    GfWordAdd(col3, 0, keysOut, current, keysOut, next);
    ghost var s0 := keysOut[..];
    SameWord(s, s0, current + 4);
    GfWordAdd(keysOut, next, keysOut, current + 4, keysOut, next + 4);
    ghost var s1 := keysOut[..];
    SameWord(s, s1, current + 8);
    GfWordAdd(keysOut, next + 4, keysOut, current + 8, keysOut, next + 8);
    ghost var s2 := keysOut[..];
    SameWord(s, s2, current + 12);
    GfWordAdd(keysOut, next + 8, keysOut, current + 12, keysOut, next + 12);
    SameWord(s0, keysOut[..], next);
    SameWord(s1, keysOut[..], next + 4);
    SameWord(s2, keysOut[..], next + 8);
    BlockIsWords(keysOut[..], next);
  }

  // The first n round keys of the schedule.
  ghost predicate SchedulePrefix(table: Table, key: Block, bytes: seq<bv8>, n: nat) {
    |bytes| == SCHEDULE_SIZE && n <= NUM_ROUND_KEYS_128 &&
    forall k: nat {:trigger RoundKey(table, key, k)} :: k < n ==>
      BlockAt(bytes, AES_BLOCK_SIZE * k) == RoundKey(table, key, k)
  }

  lemma ExtendPrefix(table: Table, key: Block, a: seq<bv8>, b: seq<bv8>, n: nat)
    requires SchedulePrefix(table, key, a, n) && |a| == |b| && 0 < n < NUM_ROUND_KEYS_128
    requires forall j :: 0 <= j < AES_BLOCK_SIZE * n ==> a[j] == b[j]
    requires BlockAt(b, AES_BLOCK_SIZE * n) == NextRoundKey(table, BlockAt(a, AES_BLOCK_SIZE * (n - 1)), n - 1)
    ensures SchedulePrefix(table, key, b, n + 1)
  {}

  lemma WholePrefix(table: Table, key: Block, bytes: seq<bv8>)
    requires SchedulePrefix(table, key, bytes, NUM_ROUND_KEYS_128)
    ensures ScheduleAt(bytes) == ExpandKey(table, key)
  {
    assert forall k: nat :: k < NUM_ROUND_KEYS_128 ==> ScheduleAt(bytes)[k] == RoundKey(table, key, k);
  }

  method CopyKey(key: array<bv8>, keysOut: array<bv8>)
    requires key.Length == AES_BLOCK_SIZE && keysOut.Length == SCHEDULE_SIZE && key != keysOut
    modifies keysOut
    ensures BlockAt(keysOut[..], 0) == BlockAt(key[..], 0)
  {
    for i := 0 to AES_BLOCK_SIZE
      invariant forall j :: 0 <= j < i ==> keysOut[j] == key[j]
    {
      keysOut[i] := key[i];
    }
  }

  method KeySchedule128(key: array<bv8>, keysOut: array<bv8>, table: Table)
    requires key.Length == AES_BLOCK_SIZE && keysOut.Length == SCHEDULE_SIZE && key != keysOut
    modifies keysOut
    ensures ScheduleAt(keysOut[..]) == ExpandKey(table, BlockAt(key[..], 0))
  {
    ghost var k0 := BlockAt(key[..], 0);
    CopyKey(key, keysOut);
    var currentRoundKey, nextRoundKey := 0, AES_BLOCK_SIZE;
    var col3 := new bv8[4];
    CopyWord(keysOut, 12, col3, 0);
    assert SchedulePrefix(table, k0, keysOut[..], 1);
    for i := 0 to NUM_ROUND_KEYS_128 - 1
      invariant currentRoundKey == AES_BLOCK_SIZE * i && nextRoundKey == currentRoundKey + AES_BLOCK_SIZE
      invariant SchedulePrefix(table, k0, keysOut[..], i + 1)
      invariant WordAt(col3[..], 0) == BlockAt(keysOut[..], currentRoundKey).c3
    {
      ghost var before := keysOut[..];
      DoNextRoundKey(table, keysOut, currentRoundKey, nextRoundKey, col3, i);
      ExtendPrefix(table, k0, before, keysOut[..], i + 1);
      currentRoundKey := currentRoundKey + AES_BLOCK_SIZE;
      nextRoundKey := nextRoundKey + AES_BLOCK_SIZE;
    }
    WholePrefix(table, k0, keysOut[..]);
  }
}
