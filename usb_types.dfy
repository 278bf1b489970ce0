/** Types shared by the USB-MIDI class model: octets, event packets, the
    driver's return codes, endpoint completion statuses, and the record of
    calls the class makes into the USB stack. */
module UsbTypes {

  /** An octet, as the C code's uint8_t holds it. */
  type Byte = x: int | 0 <= x < 256

  /** A 4-bit field (cable number or Code Index Number). */
  type Nibble = x: int | 0 <= x < 16

  /** A 16-bit field of a SETUP packet. */
  type U16 = x: int | 0 <= x < 0x1_0000

  /** USBD_MIDI_EVENT_SIZE: every USB-MIDI event packet is 4 bytes. */
  const EventSize: nat := 4

  /** One USB-MIDI event packet. */
  type Packet = s: seq<Byte> | |s| == EventSize witness [0, 0, 0, 0]

  /** Endpoint addresses the class uses (NRF_DRV_USBD_EPOUT0, EPOUT1, EPIN1). */
  const EpOut0: Byte := 0x00
  const EpOut1: Byte := 0x01
  const EpIn1: Byte := 0x81

  /** NRF_USBD_EPIN_CHECK: bit 7 of the address marks an IN endpoint. */
  predicate IsInEndpoint(ep: Byte) { ep >= 0x80 }

  /** The nRF error codes the class returns or receives. */
  datatype RetCode =
    | Success        // NRF_SUCCESS
    | InvalidParam   // NRF_ERROR_INVALID_PARAM
    | NotSupported   // NRF_ERROR_NOT_SUPPORTED
    | Internal       // NRF_ERROR_INTERNAL
    | IoPending      // NRF_ERROR_IO_PENDING
    | InvalidData    // NRF_ERROR_INVALID_DATA
    | Busy           // any other failure a foreign call may report
    | NoMem

  /** nrf_drv_usbd_ep_status_t: how a transfer on an endpoint ended. */
  datatype EpStatus = EpOk | EpWaiting | EpOverload | EpAborted

  /** Events passed to the user event handler. */
  datatype UserEvent = ClassReq | TxDone | RxDone | PortOpen | PortClose

  /** One call from the class into the USB stack or the application. */
  datatype Event =
    | Transfer(ep: Byte, data: seq<Byte>)  // app_usbd_ep_transfer of an IN transfer
    | Arm(ep: Byte, size: nat)             // app_usbd_ep_transfer of an OUT transfer
    | EpEnable(ep: Byte)                   // app_usbd_ep_enable
    | EpDisable(ep: Byte)                  // app_usbd_ep_disable
    | Notify(ev: UserEvent)                // user_event_handler
    | SetupResponse(length: nat)           // app_usbd_core_setup_rsp
    | SetupDataHandler(ep: Byte)           // app_usbd_core_setup_data_handler_set

  datatype Option<T> = None | Some(value: T)

  function Min(a: int, b: int): int { if a <= b then a else b }
}
