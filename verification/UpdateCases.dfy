// The switch statement of the main loop, case by case.
module UpdateCases {
  import opened Packets
  import opened Image
  import opened UpdateMachine

  lemma UpdateRequestCase(judge: Judge, b: Boot, now: nat)
    requires WellTyped(b) && b.mode == WaitForFwUpdateReq
    ensures Switch(judge, b, now) ==
      if !HasPacket(b) then CheckForTimeout(b, now)
      else if IsUpdateRequest(b.link.queue[0]) then
        Rearm(Enter(Say(Taken(b), BL_PACKET_FW_UPDATE_RES_DATA0), DeviceIdReq), now)
      else Fail(Taken(b))
  {}

  lemma DeviceIdCase(judge: Judge, b: Boot, now: nat)
    requires WellTyped(b) && b.mode == DeviceIdRes
    ensures Switch(judge, b, now) ==
      if !HasPacket(b) then CheckForTimeout(b, now)
      else if NamesThisDevice(b.link.queue[0]) then Enter(Rearm(Taken(b), now), FwLengthReq)
      else Fail(Taken(b))
  {}

  lemma LengthCase(judge: Judge, b: Boot, now: nat)
    requires WellTyped(b) && b.mode == FwLengthRes
    ensures Switch(judge, b, now) ==
      if !HasPacket(b) then CheckForTimeout(b, now)
      else if IsFwLengthPacket(b.link.queue[0]) then LengthTaken(Taken(b), b.link.queue[0], now)
      else Fail(Taken(b))
  {}

  lemma DeviceIdRequestCase(judge: Judge, b: Boot, now: nat)
    requires WellTyped(b) && b.mode == DeviceIdReq
    ensures Switch(judge, b, now) == Rearm(Enter(Say(b, BL_PACKET_DEVICE_ID_REQ_DATA0), DeviceIdRes), now)
  {}

  lemma LengthRequestCase(judge: Judge, b: Boot, now: nat)
    requires WellTyped(b) && b.mode == FwLengthReq
    ensures Switch(judge, b, now) == Enter(Say(Rearm(b, now), BL_PACKET_FW_LENGTH_REQ_DATA0), FwLengthRes)
  {}

  lemma EraseCase(judge: Judge, b: Boot, now: nat)
    requires WellTyped(b) && b.mode == EraseApplication
    ensures Switch(judge, b, now) == Enter(Say(Rearm(Erase(b), now), BL_PACKET_READY_FOR_DATA_DATA0), ReceiveFw)
  {}

  // What an acceptable packet with the length leads to.
  function LengthTaken(b: Boot, p: Packet, now: nat): Boot
    requires Sized(p)
  {
    var c := b.(firmwareLength := AnnouncedLength(p));
    if c.firmwareLength <= MAX_FW_LENGTH then Enter(Rearm(c, now), EraseApplication) else Fail(c)
  }

  lemma DataCase(judge: Judge, b: Boot, now: nat)
    requires WellTyped(b) && b.mode == ReceiveFw
    ensures Switch(judge, b, now) ==
      if !HasPacket(b) then CheckForTimeout(b, now)
      else if IsChunk(b.link.queue[0]) then Store(judge, Taken(b), b.link.queue[0], now)
      else Fail(Taken(b))
  {}
}
