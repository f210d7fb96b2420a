// The byte ring under preemption: reader and writer as two programs that take one load or store of the
// shared fields at a time, in any interleaving. The interrupt handler of uart.c is the special case
// in which the writer, once started, finishes before the reader moves on.
module RingInterleaving {
  import opened RingBuffer

  // Where ring_buffer_read is, and the values it has loaded; or where ring_buffer_is_empty is, whose two loads
  // may come in either order.
  datatype Reader =
    | ReaderIdle
    | HasReadIndex(r: nat)
    | HasBothIndices(r: nat)
    | HasByte(r: nat, byte: bv8)
    | ChecksReadFirst(r: nat)
    | ChecksWriteFirst(w: nat, empty: bool)

  // Where ring_buffer_write is.
  datatype Writer =
    | WriterIdle
    | HasWriteIndex(byte: bv8, w: nat)
    | FoundRoom(byte: bv8, w: nat, next: nat)
    | StoredByte(byte: bv8, next: nat)

  // The outcome of each call, logged at the access that decides it.
  datatype Event = Accepted(byte: bv8) | Refused(byte: bv8) | Delivered(byte: bv8) | FoundEmpty | Checked(empty: bool)

  datatype State = State(ring: seq<bv8>, readIndex: nat, writeIndex: nat, reader: Reader, writer: Writer, log: seq<Event>)

  datatype Action = StartWrite(byte: bv8) | WriterStep | StartCheck(writeFirst: bool) | ReaderStep

  function Initial(ring: seq<bv8>): State { State(ring, 0, 0, ReaderIdle, WriterIdle, []) }

  // The next access of ring_buffer_write.
  function StepWriter(s: State): State
    requires s.ring != []
  {
    match s.writer
    case WriterIdle => s
    case HasWriteIndex(byte, w) => // load read_index and compare
      var next := BitAnd(w + 1, |s.ring| - 1);
      if next == s.readIndex then s.(writer := WriterIdle, log := s.log + [Refused(byte)])
      else s.(writer := FoundRoom(byte, w, next))
    case FoundRoom(byte, w, next) => // store the byte
      s.(ring := if w < |s.ring| then s.ring[w := byte] else s.ring, writer := StoredByte(byte, next))
    case StoredByte(byte, next) => // store write_index
      s.(writeIndex := next, writer := WriterIdle, log := s.log + [Accepted(byte)])
  }

  // The first load of ring_buffer_is_empty. The write index decides the outcome, since only the reader
  // moves the read index.
  function StartsCheck(s: State, writeFirst: bool): State {
    if s.reader != ReaderIdle then s
    else if writeFirst then
      var empty := s.readIndex == s.writeIndex;
      s.(reader := ChecksWriteFirst(s.writeIndex, empty), log := s.log + [Checked(empty)])
    else s.(reader := ChecksReadFirst(s.readIndex))
  }

  // What ring_buffer_is_empty returns at its second load.
  function CheckResult(s: State): bool
    requires s.reader.ChecksReadFirst? || s.reader.ChecksWriteFirst?
  {
    match s.reader
    case ChecksReadFirst(r) => r == s.writeIndex
    case ChecksWriteFirst(w, _) => s.readIndex == w
  }

  // The next access of the reader; ring_buffer_read is called again and again.
  function StepReader(s: State): State
    requires s.ring != []
  {
    match s.reader
    case ReaderIdle => // load read_index
      s.(reader := HasReadIndex(s.readIndex))
    case HasReadIndex(r) => // load write_index and compare
      if r == s.writeIndex then s.(reader := ReaderIdle, log := s.log + [FoundEmpty])
      else s.(reader := HasBothIndices(r))
    case HasBothIndices(r) => // load the byte
      s.(reader := HasByte(r, if r < |s.ring| then s.ring[r] else 0))
    case HasByte(r, byte) => // store read_index
      s.(readIndex := BitAnd(r + 1, |s.ring| - 1), reader := ReaderIdle, log := s.log + [Delivered(byte)])
    case ChecksReadFirst(_) => // load write_index and compare
      s.(reader := ReaderIdle, log := s.log + [Checked(CheckResult(s))])
    case ChecksWriteFirst(_, _) => // load read_index and compare
      s.(reader := ReaderIdle)
  }

  function Step(s: State, a: Action): State
    requires s.ring != []
  {
    match a
    case StartWrite(byte) => // load write_index
      if s.writer == WriterIdle then s.(writer := HasWriteIndex(byte, s.writeIndex)) else s
    case WriterStep => StepWriter(s)
    case StartCheck(writeFirst) => StartsCheck(s, writeFirst)
    case ReaderStep => StepReader(s)
  }

  function Run(ring: seq<bv8>, actions: seq<Action>): (s: State)
    requires ring != []
    ensures |s.ring| == |ring|
  {
    if actions == [] then Initial(ring)
    else Step(Run(ring, actions[..|actions| - 1]), actions[|actions| - 1])
  }

  // ----- The abstract queue -----

  datatype Replay = Illegal | Queue(bytes: seq<bv8>)

  // What the queue does with one outcome.
  function After(bytes: seq<bv8>, e: Event, capacity: nat): Replay {
    match e
    case Accepted(byte) => if |bytes| < capacity then Queue(bytes + [byte]) else Illegal
    case Refused(byte) => if |bytes| == capacity then Queue(bytes) else Illegal
    case Delivered(byte) => if bytes != [] && bytes[0] == byte then Queue(bytes[1..]) else Illegal
    case FoundEmpty => if bytes == [] then Queue(bytes) else Illegal
    case Checked(empty) => if empty <==> bytes == [] then Queue(bytes) else Illegal
  }

  // A first-in first-out queue of bounded capacity: which outcomes it allows, and what they leave.
  function Replayed(log: seq<Event>, capacity: nat): Replay {
    if log == [] then Queue([])
    else
      var before := Replayed(log[..|log| - 1], capacity);
      if before.Illegal? then Illegal else After(before.bytes, log[|log| - 1], capacity)
  }

  // ----- What every access keeps -----

  function Waiting(s: State): seq<bv8>
    requires s.readIndex < |s.ring| && s.writeIndex < |s.ring|
  {
    Between(s.ring, s.readIndex, s.writeIndex)
  }

  ghost predicate Inv(s: State) {
    && s.readIndex < |s.ring| && s.writeIndex < |s.ring|
    && Replayed(s.log, |s.ring| - 1) == Queue(Waiting(s))
    && (match s.reader
        case ReaderIdle => true
        case HasReadIndex(r) => r == s.readIndex
        case HasBothIndices(r) => r == s.readIndex && Waiting(s) != []
        case HasByte(r, byte) => r == s.readIndex && Waiting(s) != [] && byte == Waiting(s)[0]
        case ChecksReadFirst(r) => r == s.readIndex
        case ChecksWriteFirst(_, empty) => empty == CheckResult(s))
    && (match s.writer
        case WriterIdle => true
        case HasWriteIndex(_, w) => w == s.writeIndex
        case FoundRoom(_, w, next) =>
          w == s.writeIndex && next == Next(w, |s.ring|) && |Waiting(s)| < |s.ring| - 1
        case StoredByte(byte, next) =>
          next == Next(s.writeIndex, |s.ring|) && |Waiting(s)| < |s.ring| - 1 && s.ring[s.writeIndex] == byte)
  }

  lemma ReplayedNext(log: seq<Event>, e: Event, capacity: nat, bytes: seq<bv8>)
    requires Replayed(log, capacity) == Queue(bytes)
    ensures Replayed(log + [e], capacity) == After(bytes, e, capacity)
  {
    assert (log + [e])[..|log|] == log;
  }

  lemma RefuseKeepsInv(s: State)
    requires Inv(s) && s.writer.HasWriteIndex? && Next(s.writeIndex, |s.ring|) == s.readIndex
    ensures Inv(s.(writer := WriterIdle, log := s.log + [Refused(s.writer.byte)]))
  {
    BetweenLength(s.ring, s.readIndex, s.writeIndex);
    ReplayedNext(s.log, Refused(s.writer.byte), |s.ring| - 1, Waiting(s));
  }

  lemma FindRoomKeepsInv(s: State, next: nat)
    requires Inv(s) && s.writer.HasWriteIndex? && next == Next(s.writeIndex, |s.ring|) && next != s.readIndex
    ensures Inv(s.(writer := FoundRoom(s.writer.byte, s.writer.w, next)))
  {
    BetweenLength(s.ring, s.readIndex, s.writeIndex);
  }

  lemma DecideRoomIs(s: State)
    requires s.writer.HasWriteIndex? && IsPow2(|s.ring|) && s.writer.w < |s.ring|
    ensures StepWriter(s) ==
      (var next := Next(s.writer.w, |s.ring|);
       if next == s.readIndex then s.(writer := WriterIdle, log := s.log + [Refused(s.writer.byte)])
       else s.(writer := FoundRoom(s.writer.byte, s.writer.w, next)))
  {
    MaskedNext(s.writer.w, |s.ring|);
  }

  lemma DecideRoomKeepsInv(s: State)
    requires IsPow2(|s.ring|) && Inv(s) && s.writer.HasWriteIndex?
    ensures Inv(StepWriter(s))
  {
    DecideRoomIs(s);
    var next := Next(s.writeIndex, |s.ring|);
    if next == s.readIndex {
      RefuseKeepsInv(s);
    } else {
      FindRoomKeepsInv(s, next);
    }
  }

  lemma StoreByteKeepsInv(s: State)
    requires Inv(s) && s.writer.FoundRoom?
    ensures Inv(StepWriter(s))
  {
    BetweenStore(s.ring, s.readIndex, s.writeIndex, s.writer.byte);
  }

  lemma PublishByteKeepsInv(s: State)
    requires Inv(s) && s.writer.StoredByte?
    ensures Inv(StepWriter(s))
  {
    BetweenLength(s.ring, s.readIndex, s.writeIndex);
    BetweenPush(s.ring, s.readIndex, s.writeIndex);
    ReplayedNext(s.log, Accepted(s.writer.byte), |s.ring| - 1, Waiting(s));
  }

  lemma DecideEmptyKeepsInv(s: State)
    requires Inv(s) && s.reader.HasReadIndex?
    ensures Inv(StepReader(s))
  {
    BetweenLength(s.ring, s.readIndex, s.writeIndex);
    ReplayedNext(s.log, FoundEmpty, |s.ring| - 1, Waiting(s));
  }

  lemma LoadByteKeepsInv(s: State)
    requires Inv(s) && s.reader.HasBothIndices?
    ensures Inv(StepReader(s))
  {
    BetweenLength(s.ring, s.readIndex, s.writeIndex);
    BetweenPop(s.ring, s.readIndex, s.writeIndex);
  }

  lemma AdvanceKeepsInv(s: State, next: nat)
    requires Inv(s) && s.reader.HasByte? && next == Next(s.readIndex, |s.ring|)
    ensures Inv(s.(readIndex := next, reader := ReaderIdle, log := s.log + [Delivered(s.reader.byte)]))
  {
    BetweenLength(s.ring, s.readIndex, s.writeIndex);
    BetweenPop(s.ring, s.readIndex, s.writeIndex);
    ReplayedNext(s.log, Delivered(s.reader.byte), |s.ring| - 1, Waiting(s));
  }

  lemma ReleaseSlotIs(s: State)
    requires s.reader.HasByte? && IsPow2(|s.ring|) && s.reader.r < |s.ring|
    ensures StepReader(s) == s.(readIndex := Next(s.reader.r, |s.ring|), reader := ReaderIdle,
                                log := s.log + [Delivered(s.reader.byte)])
  {
    MaskedNext(s.reader.r, |s.ring|);
  }

  lemma ReleaseSlotKeepsInv(s: State)
    requires IsPow2(|s.ring|) && Inv(s) && s.reader.HasByte?
    ensures Inv(StepReader(s))
  {
    ReleaseSlotIs(s);
    AdvanceKeepsInv(s, Next(s.readIndex, |s.ring|));
  }

  lemma CheckKeepsInv(s: State)
    requires Inv(s)
    ensures s.reader == ReaderIdle ==> Inv(StartsCheck(s, true)) && Inv(StartsCheck(s, false))
    ensures s.reader.ChecksReadFirst? ==> Inv(StepReader(s))
  {
    var empty := s.readIndex == s.writeIndex;
    BetweenLength(s.ring, s.readIndex, s.writeIndex);
    ReplayedNext(s.log, Checked(empty), |s.ring| - 1, Waiting(s));
  }

  lemma StepKeepsInv(s: State, a: Action)
    requires IsPow2(|s.ring|) && Inv(s)
    ensures Inv(Step(s, a))
  {
    match a
    case StartWrite(byte) =>
    case WriterStep =>
      if s.writer.HasWriteIndex? {
        DecideRoomKeepsInv(s);
      } else if s.writer.FoundRoom? {
        StoreByteKeepsInv(s);
      } else if s.writer.StoredByte? {
        PublishByteKeepsInv(s);
      }
    case StartCheck(writeFirst) =>
      CheckKeepsInv(s);
    case ReaderStep =>
      if s.reader.ChecksReadFirst? {
        CheckKeepsInv(s);
      } else if s.reader.HasReadIndex? {
        DecideEmptyKeepsInv(s);
      } else if s.reader.HasBothIndices? {
        LoadByteKeepsInv(s);
      } else if s.reader.HasByte? {
        ReleaseSlotKeepsInv(s);
      }
  }

  lemma RunBegins(ring: seq<bv8>, actions: seq<Action>) returns (s: State)
    requires ring != [] && actions == []
    ensures s == Run(ring, actions) && |s.ring| == |ring| && Inv(s)
  {
    s := Initial(ring);
  }

  lemma RunGoesOn(ring: seq<bv8>, actions: seq<Action>) returns (before: State, s: State)
    requires ring != [] && actions != []
    ensures before == Run(ring, actions[..|actions| - 1]) && s == Run(ring, actions)
    ensures |before.ring| == |s.ring| == |ring| && s == Step(before, actions[|actions| - 1])
  {
    before, s := Run(ring, actions[..|actions| - 1]), Run(ring, actions);
  }

  lemma NextKeepsInv(s: State, a: Action, s': State)
    requires IsPow2(|s.ring|) && Inv(s) && s' == Step(s, a)
    ensures Inv(s')
  {
    StepKeepsInv(s, a);
  }

  lemma InvReplays(s: State)
    requires Inv(s)
    ensures Replayed(s.log, |s.ring| - 1) == Queue(Waiting(s))
  {}

  // Under every interleaving, the outcomes of all calls, in the order in which they were decided, are
  // those of one first-in first-out queue of capacity size - 1, and the ring holds that queue.
  lemma {:induction false} RingIsFifo(ring: seq<bv8>, actions: seq<Action>) returns (s: State)
    requires IsPow2(|ring|)
    ensures s == Run(ring, actions) && |s.ring| == |ring| && Inv(s)
    ensures Replayed(s.log, |s.ring| - 1) == Queue(Waiting(s))
  {
    if actions == [] {
      s := RunBegins(ring, actions);
    } else {
      var before: State;
      before, s := RunGoesOn(ring, actions);
      var same := RingIsFifo(ring, actions[..|actions| - 1]);
      NextKeepsInv(before, actions[|actions| - 1], s);
    }
    InvReplays(s);
  }

  // ----- Nothing lost, duplicated or reordered -----

  function AcceptedBy(e: Event): seq<bv8> { if e.Accepted? then [e.byte] else [] }

  function DeliveredBy(e: Event): seq<bv8> { if e.Delivered? then [e.byte] else [] }

  function AcceptedBytes(log: seq<Event>): seq<bv8> {
    if log == [] then [] else AcceptedBytes(log[..|log| - 1]) + AcceptedBy(log[|log| - 1])
  }

  function DeliveredBytes(log: seq<Event>): seq<bv8> {
    if log == [] then [] else DeliveredBytes(log[..|log| - 1]) + DeliveredBy(log[|log| - 1])
  }

  lemma AfterConserves(accepted: seq<bv8>, delivered: seq<bv8>, bytes: seq<bv8>, e: Event, capacity: nat)
    requires accepted == delivered + bytes && |bytes| <= capacity && After(bytes, e, capacity).Queue?
    ensures accepted + AcceptedBy(e) == (delivered + DeliveredBy(e)) + After(bytes, e, capacity).bytes
    ensures |After(bytes, e, capacity).bytes| <= capacity
  {}

  lemma {:induction false} FifoConserves(log: seq<Event>, capacity: nat)
    requires Replayed(log, capacity).Queue?
    ensures AcceptedBytes(log) == DeliveredBytes(log) + Replayed(log, capacity).bytes
    ensures |Replayed(log, capacity).bytes| <= capacity
  {
    if log != [] {
      var front, e := log[..|log| - 1], log[|log| - 1];
      FifoConserves(front, capacity);
      AfterConserves(AcceptedBytes(front), DeliveredBytes(front), Replayed(front, capacity).bytes, e, capacity);
    }
  }

  lemma LogConserves(s: State)
    requires Inv(s)
    ensures AcceptedBytes(s.log) == DeliveredBytes(s.log) + Waiting(s)
  {
    InvReplays(s);
    FifoConserves(s.log, |s.ring| - 1);
  }

  // At every moment of every interleaving, the bytes accepted so far are the bytes delivered so far
  // followed by those in the ring.
  lemma RingConserves(ring: seq<bv8>, actions: seq<Action>)
    requires IsPow2(|ring|)
    ensures var s := Run(ring, actions); Inv(s) && AcceptedBytes(s.log) == DeliveredBytes(s.log) + Waiting(s)
  {
    var s := RingIsFifo(ring, actions);
    LogConserves(s);
  }

  // ----- Looking before reading -----

  lemma NonemptyStays(bytes: seq<bv8>, e: Event, capacity: nat)
    requires bytes != [] && !e.Delivered? && After(bytes, e, capacity).Queue?
    ensures After(bytes, e, capacity).bytes != [] && e != FoundEmpty
  {}

  lemma {:induction false} FifoStaysNonempty(log: seq<Event>, capacity: nat, i: nat)
    requires Replayed(log, capacity).Queue? && i < |log| && log[i] == Checked(false)
    requires forall j :: i < j < |log| ==> !log[j].Delivered?
    ensures Replayed(log, capacity).bytes != []
    ensures forall j :: i < j < |log| ==> log[j] != FoundEmpty
  {
    var n := |log| - 1;
    var front := log[..n];
    if i < n {
      FifoStaysNonempty(front, capacity, i);
      NonemptyStays(Replayed(front, capacity).bytes, log[n], capacity);
      forall j | i < j < |log| ensures log[j] != FoundEmpty {
        if j < n {
          assert front[j] == log[j];
        }
      }
    }
  }

  lemma AvailableIn(s: State, i: nat)
    requires Inv(s) && i < |s.log| && s.log[i] == Checked(false)
    requires forall j :: i < j < |s.log| ==> !s.log[j].Delivered?
    ensures Waiting(s) != []
    ensures forall j :: i < j < |s.log| ==> s.log[j] != FoundEmpty
  {
    InvReplays(s);
    FifoStaysNonempty(s.log, |s.ring| - 1, i);
  }

  // Once uart_data_available has said yes, there is a byte until the reader takes one, whatever the interrupt
  // handler does meanwhile; so the read that the check guards delivers a byte.
  lemma AvailableUntilRead(ring: seq<bv8>, actions: seq<Action>, s: State, i: nat)
    requires IsPow2(|ring|) && s == Run(ring, actions) && i < |s.log| && s.log[i] == Checked(false)
    requires forall j :: i < j < |s.log| ==> !s.log[j].Delivered?
    ensures Inv(s) && Waiting(s) != []
    ensures forall j :: i < j < |s.log| ==> s.log[j] != FoundEmpty
  {
    var t := RingIsFifo(ring, actions);
    AvailableIn(s, i);
  }
}
