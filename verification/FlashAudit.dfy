// What the bootloader may do to the flash, as an auditor who reads its log of packets taken and flash
// operations; and what a log that passes the audit can and cannot contain.
module FlashAudit {
  import opened Packets
  import opened UpdateMachine

  // How far the log has come. Written: the next byte to program is `next`; Holding: a chunk has been
  // taken that must be programmed now; Closed: nothing may follow.
  datatype Audit =
    | Fresh
    | Requested
    | Identified
    | Agreed(length: nat)
    | Written(length: nat, next: nat)
    | Holding(length: nat, next: nat, p: Packet)
    | Closed
    | Violated

  function AtLeastOne(n: nat): nat { if n == 0 then 1 else n }

  function Audited(a: Audit, e: Event): Audit {
    match e
    case Took(p) =>
      (match a
       case Fresh => if IsUpdateRequest(p) then Requested else Closed
       case Requested => if NamesThisDevice(p) then Identified else Closed
       case Identified => if AnnouncesFittingLength(p) then Agreed(AnnouncedLength(p)) else Closed
       case Written(length, next) =>
         if next >= AtLeastOne(length) then Violated else if IsChunk(p) then Holding(length, next, p) else Closed
       case _ => Violated)
    case Erased => if a.Agreed? then Written(a.length, 0) else Violated
    case Programmed(offset, bytes) =>
      if a.Holding? && Sized(a.p) && offset == a.next && bytes == ChunkOf(a.p)
      then Written(a.length, a.next + |bytes|) else Violated
  }

  function AuditOf(log: seq<Event>): Audit {
    if log == [] then Fresh else Audited(AuditOf(log[..|log| - 1]), log[|log| - 1])
  }

  predicate Passes(log: seq<Event>) { AuditOf(log) != Violated }

  lemma AuditSnoc(log: seq<Event>, e: Event)
    ensures AuditOf(log + [e]) == Audited(AuditOf(log), e)
  {
    assert (log + [e])[..|log|] == log;
  }

  lemma {:induction false} PrefixPasses(log: seq<Event>, i: nat)
    requires Passes(log) && i <= |log|
    ensures Passes(log[..i])
  {
    if i < |log| {
      PrefixPasses(log[..|log| - 1], i);
      assert log[..|log| - 1][..i] == log[..i];
    } else {
      assert log[..i] == log;
    }
  }

  // ----- Before the flash is touched -----

  // What precedes the erase.
  predicate Handshake(log: seq<Event>) {
    && |log| == 3 && log[0].Took? && log[1].Took? && log[2].Took?
    && IsUpdateRequest(log[0].p) && NamesThisDevice(log[1].p) && AnnouncesFittingLength(log[2].p)
  }

  function AgreedLength(log: seq<Event>): nat
    requires Handshake(log)
  {
    AnnouncedLength(log[2].p)
  }

  // Which logs lead to the stages before the erase.
  predicate LedTo(log: seq<Event>, a: Audit) {
    match a
    case Fresh => log == []
    case Requested => |log| == 1 && log[0].Took? && IsUpdateRequest(log[0].p)
    case Identified =>
      && |log| == 2 && log[0].Took? && log[1].Took?
      && IsUpdateRequest(log[0].p) && NamesThisDevice(log[1].p)
    case Agreed(length) => Handshake(log) && length == AgreedLength(log)
    case _ => true
  }

  lemma {:induction false} EarlyLogs(log: seq<Event>)
    ensures LedTo(log, AuditOf(log))
  {
    if log != [] {
      EarlyLogs(log[..|log| - 1]);
      LedToNext(log[..|log| - 1], log[|log| - 1]);
      assert log == log[..|log| - 1] + [log[|log| - 1]];
    }
  }

  lemma LedToNext(log: seq<Event>, e: Event)
    requires LedTo(log, AuditOf(log))
    ensures LedTo(log + [e], Audited(AuditOf(log), e))
  {}

  // The flash is erased at most once, and only straight after an update request, a device id packet
  // that names this device, and the announcement of a length that fits.
  lemma ErasedOnceAfterHandshake(log: seq<Event>, k: nat)
    requires Passes(log) && k < |log| && log[k].Erased?
    ensures k == 3 && Handshake(log[..3])
  {
    PrefixPasses(log, k + 1);
    assert log[..k + 1][..k] == log[..k];
    EarlyLogs(log[..k]);
  }

  // ----- Once the flash has been erased -----

  // The bytes programmed so far, in order.
  function Payload(log: seq<Event>): seq<bv8> {
    if log == [] then []
    else Payload(log[..|log| - 1]) + (match log[|log| - 1] case Programmed(_, bytes) => bytes case _ => [])
  }

  predicate HasErased(log: seq<Event>) {
    log != [] && (log[|log| - 1].Erased? || HasErased(log[..|log| - 1]))
  }

  // The audit knows how much has been programmed, and for which length.
  predicate Tallies(log: seq<Event>, a: Audit) {
    match a
    case Written(length, next) =>
      && HasErased(log) && |Payload(log)| == next && next <= AtLeastOne(length) + 15
      && |log| >= 4 && Handshake(log[..3]) && length == AgreedLength(log[..3])
    case Holding(length, next, p) =>
      && HasErased(log) && |Payload(log)| == next && next < AtLeastOne(length) && IsChunk(p)
      && |log| >= 4 && Handshake(log[..3]) && length == AgreedLength(log[..3])
    case Closed => true
    case _ => !HasErased(log) && Payload(log) == []
  }

  lemma TalliesTook(log: seq<Event>, p: Packet)
    requires Tallies(log, AuditOf(log)) && Audited(AuditOf(log), Took(p)) != Violated
    ensures Tallies(log + [Took(p)], Audited(AuditOf(log), Took(p)))
  {}

  lemma TalliesErased(log: seq<Event>)
    requires Tallies(log, AuditOf(log)) && Audited(AuditOf(log), Erased) != Violated
    ensures Tallies(log + [Erased], Audited(AuditOf(log), Erased))
  {
    var all := log + [Erased];
    EarlyLogs(log);
    assert all[..|log|] == log;
    assert all[..3] == log;
    assert log[..3] == log;
  }

  lemma TalliesProgrammed(log: seq<Event>, offset: nat, bytes: seq<bv8>)
    requires Tallies(log, AuditOf(log)) && Audited(AuditOf(log), Programmed(offset, bytes)) != Violated
    ensures Tallies(log + [Programmed(offset, bytes)], Audited(AuditOf(log), Programmed(offset, bytes)))
  {
    var all := log + [Programmed(offset, bytes)];
    assert all[..|log|] == log;
    assert all[..3] == log[..3];
  }

  lemma {:induction false} PassedLogTallies(log: seq<Event>)
    requires Passes(log)
    ensures Tallies(log, AuditOf(log))
  {
    if log != [] {
      var front, e := log[..|log| - 1], log[|log| - 1];
      PrefixPasses(log, |log| - 1);
      PassedLogTallies(front);
      assert log == front + [e];
      match e
      case Took(p) => TalliesTook(front, p);
      case Erased => TalliesErased(front);
      case Programmed(offset, bytes) => TalliesProgrammed(front, offset, bytes);
    }
  }

  // Where a write starts: at the number of bytes written before it, in the agreed length's reach.
  lemma WriteIsContiguous(log: seq<Event>, k: nat)
    requires Passes(log) && k < |log| && log[k].Programmed?
    ensures k > 3 && Handshake(log[..3])
    ensures log[k].offset == |Payload(log[..k])|
    ensures log[k].offset + |log[k].bytes| == |Payload(log[..k + 1])|
    ensures log[k].offset + |log[k].bytes| <= AtLeastOne(AgreedLength(log[..3])) + 15
    ensures log[k].offset + |log[k].bytes| < APP_FLASH_SIZE
  {
    PrefixPasses(log, k);
    PrefixPasses(log, k + 1);
    assert log[..k + 1][..k] == log[..k];
    PassedLogTallies(log[..k]);
    PassedLogTallies(log[..k + 1]);
    assert log[..k][..3] == log[..3];
  }

  lemma {:induction false} PayloadGrows(log: seq<Event>, i: nat)
    requires i <= |log|
    ensures |Payload(log[..i])| <= |Payload(log)|
  {
    if i < |log| {
      assert log[..|log| - 1][..i] == log[..i];
      PayloadGrows(log[..|log| - 1], i);
    } else {
      assert log[..i] == log;
    }
  }

  // No byte is programmed twice: a later write starts at or after the end of an earlier one.
  lemma WritesAreDisjoint(log: seq<Event>, i: nat, j: nat)
    requires Passes(log) && i < j < |log| && log[i].Programmed? && log[j].Programmed?
    ensures log[i].offset + |log[i].bytes| <= log[j].offset
  {
    WriteIsContiguous(log, i);
    WriteIsContiguous(log, j);
    PayloadGrows(log[..j], i + 1);
    assert log[..j][..i + 1] == log[..i + 1];
  }
}
