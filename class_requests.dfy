/** Decoding of the audio class-specific SETUP requests the MIDI class
    accepts (midi_setup_req_class_in, midi_req_out) and the routing of a
    SETUP event by its bmRequestType (setup_event_handler). */
module ClassRequests {
  import opened UsbTypes

  /** The 8-byte SETUP packet, its 16-bit words already assembled. */
  datatype SetupPacket = SetupPacket(bmRequestType: Byte, bRequest: Byte, wValue: U16, wIndex: U16, wLength: U16)

  /** app_usbd_audio_req_target_t: who the request addresses, and its direction. */
  datatype ReqTarget = ClassReqIn | EpReqIn | ClassReqOut | EpReqOut

  /** The `request` field of the class context, as the decoders fill it. */
  datatype AudioRequest = AudioRequest(
    reqType: Byte, control: Byte, channel: Byte, iface: Byte, entity: Byte,
    length: U16, target: ReqTarget)

  /** Audio class request codes, Appendix A.9 of the USB Device Class
      Definition for Audio Devices, Release 1.0. */
  const SetCur: Byte := 0x01
  const SetMin: Byte := 0x02
  const SetMax: Byte := 0x03
  const SetRes: Byte := 0x04
  const SetMem: Byte := 0x05
  const GetCur: Byte := 0x81
  const GetMin: Byte := 0x82
  const GetMax: Byte := 0x83
  const GetRes: Byte := 0x84
  const GetMem: Byte := 0x85

  /** Fields of bmRequestType, section 9.3 of the USB 2.0 specification:
      bit 7 direction (1 = device to host), bits 6..5 type (0 standard,
      1 class), bits 4..0 recipient (2 = endpoint). */
  predicate DirIn(bm: Byte) { bm >= 0x80 }
  function ReqType(bm: Byte): nat { (bm / 32) % 4 }
  function Recipient(bm: Byte): nat { bm % 32 }
  const RecipientEndpoint: nat := 2

  /** bmRequestType assembled from its three fields. */
  function BmRequestType(dirIn: bool, typ: nat, recipient: nat): (bm: Byte)
    requires typ < 4 && recipient < 32
    ensures DirIn(bm) == dirIn && ReqType(bm) == typ && Recipient(bm) == recipient
  {
    (if dirIn then 0x80 else 0) + typ * 32 + recipient
  }

  /** Which handler setup_event_handler gives a SETUP event to. */
  datatype Route = StdIn | ClassIn | ClassOut | Unsupported

  function SetupRoute(bm: Byte): (r: Route)
    ensures (r == ClassIn || r == ClassOut) <==> ReqType(bm) == 1
    ensures r == StdIn <==> DirIn(bm) && ReqType(bm) == 0
    ensures (r == StdIn || r == ClassIn) ==> DirIn(bm)
    ensures r == ClassOut ==> !DirIn(bm)
  {
    if DirIn(bm) then
      (if ReqType(bm) == 0 then StdIn else if ReqType(bm) == 1 then ClassIn else Unsupported)
    else
      (if ReqType(bm) == 1 then ClassOut else Unsupported)
  }

  /** Routing looks at direction and type only, never at the recipient:
      standard IN requests go to the descriptor handler, class requests to
      the class decoders by direction, everything else is refused. */
  lemma RouteByDirectionAndType(dirIn: bool, typ: nat, recipient: nat)
    requires typ < 4 && recipient < 32
    ensures var r := SetupRoute(BmRequestType(dirIn, typ, recipient));
      && (r == StdIn <==> dirIn && typ == 0)
      && (r == ClassIn <==> dirIn && typ == 1)
      && (r == ClassOut <==> !dirIn && typ == 1)
  {
  }

  /** Class IN requests the class answers (the switch in
      midi_setup_req_class_in lists SET_RES, not GET_RES). */
  predicate ClassInHandled(bRequest: Byte)
  {
    bRequest == GetCur || bRequest == GetMin || bRequest == GetMax || bRequest == SetRes || bRequest == GetMem
  }

  /** Class OUT requests the class accepts (midi_setup_req_class_out). */
  predicate ClassOutHandled(bRequest: Byte)
  {
    bRequest == SetCur || bRequest == SetMin || bRequest == SetMax || bRequest == SetRes || bRequest == SetMem
  }

  /** The IN table accepts SET_RES and refuses GET_RES. */
  lemma ClassInTable()
    ensures ClassInHandled(SetRes) && !ClassInHandled(GetRes)
    ensures forall b: Byte :: ClassInHandled(b) ==> b == SetRes || b >= 0x80
    ensures forall b: Byte :: ClassOutHandled(b) ==> b < 0x80
  {
  }

  /** The request record the decoders store: the request code, the high
      and low bytes of wValue and wIndex, wLength, and a target chosen by
      direction and by whether the recipient is an endpoint. */
  function DecodeRequest(s: SetupPacket, dirIn: bool): (q: AudioRequest)
    ensures q.reqType == s.bRequest && q.length == s.wLength
    ensures q.control * 256 + q.channel == s.wValue
    ensures q.iface * 256 + q.entity == s.wIndex
    ensures (q.target == EpReqIn || q.target == EpReqOut) <==> Recipient(s.bmRequestType) == RecipientEndpoint
    ensures (q.target == ClassReqIn || q.target == EpReqIn) <==> dirIn
  {
    var endpoint := Recipient(s.bmRequestType) == RecipientEndpoint;
    AudioRequest(
      s.bRequest, s.wValue / 256, s.wValue % 256, s.wIndex / 256, s.wIndex % 256, s.wLength,
      if dirIn then (if endpoint then EpReqIn else ClassReqIn)
      else (if endpoint then EpReqOut else ClassReqOut))
  }

  /** Decoding loses nothing the class handlers use: two SETUP packets give
      the same record exactly when they agree on the request code, wValue,
      wIndex, wLength, direction and whether an endpoint is addressed. */
  lemma DecodeRequestInjective(s1: SetupPacket, dirIn1: bool, s2: SetupPacket, dirIn2: bool)
    ensures DecodeRequest(s1, dirIn1) == DecodeRequest(s2, dirIn2) <==>
      && s1.bRequest == s2.bRequest && s1.wValue == s2.wValue
      && s1.wIndex == s2.wIndex && s1.wLength == s2.wLength && dirIn1 == dirIn2
      && (Recipient(s1.bmRequestType) == RecipientEndpoint <==> Recipient(s2.bmRequestType) == RecipientEndpoint)
  {
  }
}
