# USB-MIDI class: event packets, flow control and descriptors

This project models the USB-MIDI device class of the nRF5 USB device stack.
It covers `app_usbd_midi.c` and the descriptor tables in `midi_usbd_descriptors.h`.
The model is written in Dafny, and every property below is proved.

- **Packetizer** (`packetizer.dfy`). `app_usbd_midi_write` turns one MIDI message into 4-byte USB-MIDI event packets.
  - Byte 0 of each packet is `(cable << 4) + CIN`, truncated to a byte.
  - SysEx and the single-byte System Common messages (status 0xF0, 0xF4–0xF7) go out in groups of three, with CIN 4, 7, 6 or 5.
  - Every other message of at most three bytes goes out as one packet, with a CIN taken from its status byte.
  - The model is checked against Table 4-1 of the USB Device Class Definition for MIDI Devices, Release 1.0: the number of bytes each Code Index Number carries, and decoding by those sizes.
- **Flow controller** (`flow_control.dfy`). `app_usbd_midi_send` and the IN branch of `midi_endpoint_ev` share a `sending` flag and the IN FIFO. They are modelled as functions on a state record. The state carries a ghost count of transfers in flight, and the invariant says that at most one IN transfer is ever in flight.
- **Class instance** (`usb_midi.dfy`). `MidiPort` is a class whose fields are the state the source mutates:
  - the `streaming` and `sending` flags;
  - the IN FIFO and the OUT ring buffer (bounded sequences);
  - the decoded class request;
  - a log of the calls made into the USB stack and the user event handler.

  Its methods are the entry points: `Send`, `Write`, `EndpointEvent`, `Get`, `IfaceSelect`, `IfaceDeselect`, `IfaceSelectionGet`, and the class-request handlers. Each method is proved against the functions above.
- **Class requests** (`class_requests.dfy`):
  - the routing of SETUP requests by the fields of bmRequestType (section 9.3 of the USB 2.0 specification);
  - the tables of audio request codes the class accepts (Appendix A.9 of the USB Device Class Definition for Audio Devices 1.0);
  - the decoding of the request words.
- **Descriptors** (`descriptors.dfy`). The constant byte tables are reproduced, together with a reference walk over concatenated descriptors by bLength. The lemmas cover lengths, total lengths, interface numbers, jack IDs and their references, and endpoints. The endpoints are also cross-checked against the ones the class instance drives.

Behaviour of the source that looks unusual is modelled as written and stated as a lemma:

- The short path gives 0xC0–0xDF CIN 2.
- 0xF1 and 0xF3 get CIN 0xF (one byte) although they are two-byte messages.
- An ABORTED IN completion leaves `sending` set, so later sends only queue.
- `iface_select` stores `streaming = (alternate == 0)`.
- The class IN request table lists SET_RES rather than GET_RES.

Calls into the USB stack (`app_usbd_ep_transfer`, `app_usbd_ep_enable`/`disable`, `app_usbd_core_setup_rsp`, `app_usbd_core_setup_data_handler_set`) and into the user event handler are entries appended to `log`. The values they return are method parameters.

## Model

| member | source | states |
|---|---|---|
| Packetizer.Header | components/libraries/usbd/class/midi/app_usbd_midi.c:788 | byte 0 holds the cable number (mod 16) in its high nibble and the CIN in its low nibble, after the uint8_t truncation |
| Packetizer.HeaderInjective | components/libraries/usbd/class/midi/app_usbd_midi.c:788 | two headers are equal exactly when their cable numbers agree modulo 16 and their CINs agree, so no two (cable, CIN) pairs share a header byte |
| Packetizer.GroupedStatuses | components/libraries/usbd/class/midi/app_usbd_midi.c:755 | the test `status == 0xF0 or status >> 2 == 0b111101` selects exactly 0xF0, 0xF4, 0xF5, 0xF6 and 0xF7 |
| Packetizer.ShortCinSizeMatchesMessage | components/libraries/usbd/class/midi/app_usbd_midi.c:798-804 | for channel voice messages, Song Position and realtime bytes, the chosen CIN's size in Table 4-1 equals the message's length |
| Packetizer.ShortCin | components/libraries/usbd/class/midi/app_usbd_midi.c:798-804 | for every status byte (0x80 and above) the chosen CIN is not one of the two reserved CINs: Table 4-1 gives it a size of at least one byte |
| Packetizer.ShortCinExamples | components/libraries/usbd/class/midi/app_usbd_midi.c:798-804 | 0xC0/0xD5 give CIN 2, 0xF2 gives 3, 0x90 gives 9, 0x80 gives 8, every status from 0xF8 to 0xFF gives 0xF; 0xF1 and 0xF3 give 0xF, whose size is shorter than their message |
| Packetizer.GroupCin | components/libraries/usbd/class/midi/app_usbd_midi.c:768-786 | the CIN of a group carries, by Table 4-1, exactly min(bytes left, 3) bytes |
| Packetizer.SysExPackets | components/libraries/usbd/class/midi/app_usbd_midi.c:755-791 | a message of n bytes gives ceil(n/3) packets |
| Packetizer.SysExRoundTrip | components/libraries/usbd/class/midi/app_usbd_midi.c:755-791 | unframing the packets with the Table 4-1 sizes gives back the message: nothing lost, duplicated or reordered |
| Packetizer.SysExFraming | components/libraries/usbd/class/midi/app_usbd_midi.c:766-788 | every packet carries the cable number, every packet but the last has CIN 4, the last has CIN 7, 6 or 5 for 3, 2 or 1 remaining bytes |
| Packetizer.SysExLastPadding | components/libraries/usbd/class/midi/app_usbd_midi.c:776-786 | unused bytes of the last packet are zero |
| Packetizer.SysExExamples | components/libraries/usbd/class/midi/app_usbd_midi.c:755-791 | what `app_usbd_midi_write` would send for the example application's 11-byte SysEx message F0 0..8 F7: CINs 4, 4, 4, 6 with last packet 06 08 F7 00; a lone F6 gives 05 F6 00 00 |
| Packetizer.SysExStep | components/libraries/usbd/class/midi/app_usbd_midi.c:757-766 | with wide counters each pass advances `pos` by min(left, 3), so the loop ends |
| Packetizer.SysExStepAsWritten | components/libraries/usbd/class/midi/app_usbd_midi.c:756-766 | one pass with `pos` and `left_to_send` in uint8_t: it leaves `pos` where it was exactly when the bytes left are a multiple of 256, and moves it otherwise |
| Packetizer.SysExAsWrittenNeverExits | components/libraries/usbd/class/midi/app_usbd_midi.c:756-758 | with uint8_t `pos` and `left_to_send`, for len ≥ 256 the loop condition holds after every pass; at len 256 the first pass does not advance |
| Packetizer.SysExStepAgrees | components/libraries/usbd/class/midi/app_usbd_midi.c:756-766 | up to 255 bytes the uint8_t counters behave as wide ones |
| FlowControl.Send | components/libraries/usbd/class/midi/app_usbd_midi.c:715-743 | after a send the controller is busy; the FIFO is unchanged or, only when it was already busy, grows by the packet; the log is unchanged or, only when it was idle, gains the packet's IN transfer |
| FlowControl.InComplete | components/libraries/usbd/class/midi/app_usbd_midi.c:493-514 | the result is an internal error exactly for a status other than OK and ABORTED; any status other than OK leaves the log, the FIFO and `sending` as they were |
| FlowControl.SendKeepsInvariant | components/libraries/usbd/class/midi/app_usbd_midi.c:715-743 | a send keeps at most one transfer in flight, and only while `sending` is set, and keeps the FIFO holding whole packets within its capacity |
| FlowControl.SendAllKeepsInvariant | components/libraries/usbd/class/midi/app_usbd_midi.c:755-791 | the same for a run of sends, as a write performs |
| FlowControl.InCompleteKeepsInvariant | components/libraries/usbd/class/midi/app_usbd_midi.c:493-514 | every IN completion keeps that invariant |
| FlowControl.SendConserves | components/libraries/usbd/class/midi/app_usbd_midi.c:728-736 | when the FIFO has room, the bytes submitted or queued grow by exactly the packet, at the end |
| FlowControl.SendAllConserves | components/libraries/usbd/class/midi/app_usbd_midi.c:728-736 | a run of sends that fits adds exactly the concatenated packets, in order |
| FlowControl.InCompleteConserves | components/libraries/usbd/class/midi/app_usbd_midi.c:499-507 | a completion only moves bytes from the FIFO to the transport: submitted-plus-queued is unchanged |
| FlowControl.InCompleteDrainsOldest | components/libraries/usbd/class/midi/app_usbd_midi.c:499-509 | on OK with packets queued, the oldest 4 bytes are submitted, TX_DONE is signalled, `sending` stays set |
| FlowControl.InCompleteWhenEmptyGoesIdle | components/libraries/usbd/class/midi/app_usbd_midi.c:499-509 | on OK with nothing queued, `sending` is cleared, nothing is submitted and TX_DONE is signalled |
| FlowControl.SendWhileBusyOnlyQueues | components/libraries/usbd/class/midi/app_usbd_midi.c:728-729 | while `sending` is set, a send submits nothing |
| FlowControl.AbortLeavesControllerBusy | components/libraries/usbd/class/midi/app_usbd_midi.c:510-511 | after an ABORTED completion `sending` stays set with nothing in flight, so a later send only queues |
| ClassRequests.BmRequestType | components/libraries/usbd/class/midi/app_usbd_midi.c:413-435 | bmRequestType assembled from direction, type and recipient reads back those fields |
| ClassRequests.SetupRoute | components/libraries/usbd/class/midi/app_usbd_midi.c:407-440 | a SETUP event reaches a class handler exactly when its type is class; the standard handler gets exactly the standard IN requests; IN-side handlers see only device-to-host requests and the OUT handler only host-to-device ones |
| ClassRequests.RouteByDirectionAndType | components/libraries/usbd/class/midi/app_usbd_midi.c:407-440 | standard IN requests go to the descriptor handler, class IN and class OUT requests to their decoders, all else is refused; the recipient plays no part |
| ClassRequests.ClassInTable | components/libraries/usbd/class/midi/app_usbd_midi.c:269-276 | the IN table accepts SET_RES and refuses GET_RES; apart from SET_RES it holds only device-to-host codes, and the OUT table (383-387) only host-to-device codes |
| ClassRequests.DecodeRequest | components/libraries/usbd/class/midi/app_usbd_midi.c:282-296 | the stored request holds bRequest, the high and low bytes of wValue and wIndex and wLength; its target is an endpoint target iff the recipient is an endpoint, and an IN target iff the request is IN |
| ClassRequests.DecodeRequestInjective | components/libraries/usbd/class/midi/app_usbd_midi.c:335-341 | two SETUP packets decode to the same request record exactly when they agree on bRequest, wValue, wIndex, wLength, direction and whether an endpoint is addressed |
| UsbMidi.RingPut | components/libraries/usbd/class/midi/app_usbd_midi.c:519-523 | the ring keeps what it held as a prefix, and the packet is appended behind it exactly when it fits in the capacity |
| UsbMidi.RingTake | components/libraries/usbd/class/midi/app_usbd_midi.c:698-708 | the bytes taken followed by the bytes left are the ring, and min(4, size) bytes are taken |
| UsbMidi.RingIsQueue | components/libraries/usbd/class/midi/app_usbd_midi.c:522-523 | the ring buffer is a queue of packets: a packet put behind others comes out after them, one put into an empty buffer comes out next, whole |
| UsbMidi.RingTakeWholePacket | components/libraries/usbd/class/midi/app_usbd_midi.c:698-708 | taking from a non-empty ring yields 4 bytes, the front ones, and keeps whole packets |
| UsbMidi.SelectEventsNotifications | components/libraries/usbd/class/midi/app_usbd_midi.c:143-169 | selecting alternate 0 reports PORT_OPEN once per EPOUT1 of the interface and never PORT_CLOSE; alternate 1 reports PORT_CLOSE once per endpoint |
| UsbMidi.SelectionReport | components/libraries/usbd/class/midi/app_usbd_midi.c:196-211 | the report is 1 iff the interface has endpoints and `streaming` is set, else 0 |
| UsbMidi.SelectionReportAfterSelect | components/libraries/usbd/class/midi/app_usbd_midi.c:139 | after selecting alternate 0 or 1 the report is 1 − alternate |
| UsbMidi.SysExWriteDelivers | components/libraries/usbd/class/midi/app_usbd_midi.c:755-791 | a SysEx write that fits in the FIFO adds exactly its packets' bytes to what is submitted or queued, and unframing them gives the message back |
| UsbMidi.MidiPort.Send | components/libraries/usbd/class/midi/app_usbd_midi.c:715-743 | the new flag, FIFO and log are those of the flow controller's Send; the result is success |
| UsbMidi.MidiPort.Write | components/libraries/usbd/class/midi/app_usbd_midi.c:745-813 | SysEx/single-byte System Common: success, and the packets sent are SysExPackets of the message; other status and len > 3: INVALID_DATA and nothing sent; otherwise success and one packet with the header and the bytes verbatim; the state is the flow controller's after those sends |
| UsbMidi.MidiPort.WriteGroups | components/libraries/usbd/class/midi/app_usbd_midi.c:756-791 | the loop sends exactly SysExPackets of the message, in order |
| UsbMidi.MidiPort.FillGroup | components/libraries/usbd/class/midi/app_usbd_midi.c:758-788 | one pass leaves in the buffer the packet of the group at `pos` and advances `pos` by min(left, 3) |
| UsbMidi.MidiPort.EndpointEvent | components/libraries/usbd/class/midi/app_usbd_midi.c:486-539 | IN: the flow controller's InComplete; OUT OK: the packet is put in the ring, the endpoint re-armed and RX_DONE signalled; WAITING/ABORTED change nothing; other statuses give INTERNAL |
| UsbMidi.MidiPort.Get | components/libraries/usbd/class/midi/app_usbd_midi.c:698-708 | empty ring: IO_PENDING and nothing taken; otherwise success and the front 4 bytes are returned and removed |
| UsbMidi.MidiPort.IfaceSelect | components/libraries/usbd/class/midi/app_usbd_midi.c:121-175 | no endpoints: NOT_SUPPORTED; alternate > 1: INVALID_PARAM, nothing changes; otherwise `streaming = (alternate == 0)`, the per-endpoint calls in order, ring and FIFO emptied when alternate 0 covers EPOUT1/EPIN1, `sending` untouched |
| UsbMidi.MidiPort.SelectEndpoints | components/libraries/usbd/class/midi/app_usbd_midi.c:143-170 | the loop makes each endpoint's calls in interface order |
| UsbMidi.MidiPort.SelectEndpoint | components/libraries/usbd/class/midi/app_usbd_midi.c:145-169 | alternate 0 enables the endpoint, for EPOUT1 empties the ring, arms it and reports PORT_OPEN, for EPIN1 empties the FIFO; another alternate disables it and reports PORT_CLOSE |
| UsbMidi.MidiPort.IfaceDeselect | components/libraries/usbd/class/midi/app_usbd_midi.c:178-194 | an interface with endpoints stops streaming and reports PORT_CLOSE; one without changes nothing |
| UsbMidi.MidiPort.IfaceSelectionGet | components/libraries/usbd/class/midi/app_usbd_midi.c:196-211 | returns SelectionReport of the interface's endpoint count and `streaming` |
| UsbMidi.MidiPort.SetupClassIn | components/libraries/usbd/class/midi/app_usbd_midi.c:265-311 | handled codes: the decoded IN request is stored, CLASS_REQ is signalled, wLength bytes are answered and the answer's result returned; other codes: NOT_SUPPORTED, nothing changes |
| UsbMidi.MidiPort.SetupClassOut | components/libraries/usbd/class/midi/app_usbd_midi.c:326-395 | handled codes: the decoded OUT request is stored and EP0 armed for wLength bytes; the data handler is registered only when arming succeeded, and the first failure is returned; other codes: NOT_SUPPORTED |
| UsbMidi.MidiPort.ReqOutDataCallback | components/libraries/usbd/class/midi/app_usbd_midi.c:313-324 | CLASS_REQ is signalled only when the data stage ended OK; the result is always success |
| Descriptors.SplitConcat | components/libraries/usbd/class/midi/midi_usbd_descriptors.h:79-199 | walking self-sized descriptors laid end to end by bLength gives back exactly those descriptors |
| Descriptors.ConfigurationSplits | components/libraries/usbd/class/midi/midi_usbd_descriptors.h:62-199 | every table's bLength is its size (device 18); the configuration walks back into its 13 descriptors |
| Descriptors.ManufacturerStringSpelled | components/libraries/usbd/class/midi/midi_usbd_descriptors.h:20-43 | the manufacturer string is a 42-byte string descriptor spelling "Nordic Semiconductor" in UTF-16LE |
| Descriptors.ProductAndLanguageStrings | components/libraries/usbd/class/midi/midi_usbd_descriptors.h:10-55 | the product string is a 16-byte descriptor spelling "Example"; the language table is 4 bytes listing 0x0409 |
| Descriptors.DeviceDescriptorFields | components/libraries/usbd/class/midi/midi_usbd_descriptors.h:62-87 | USB 2.0, a 64-byte EP0, string indices 1 and 2 for the manufacturer and product, one configuration, numbered 1 |
| Descriptors.TotalLengths | components/libraries/usbd/class/midi/midi_usbd_descriptors.h:79-126 | the configuration's wTotalLength 101 is the size of all its descriptors; the MIDIStreaming header's 65 is that of the header, jacks and endpoints; the AudioControl header's 9 is its own |
| Descriptors.InterfaceCounts | components/libraries/usbd/class/midi/midi_usbd_descriptors.h:83-118 | bNumInterfaces 2 matches the interfaces numbered 0 and 1; the AudioControl header's one streaming interface is number 1 |
| Descriptors.JackIdsDistinct | components/libraries/usbd/class/midi/midi_usbd_descriptors.h:128-164 | the jacks declare IDs 1, 2, 3, 4, each once |
| Descriptors.OutJackSources | components/libraries/usbd/class/midi/midi_usbd_descriptors.h:144-164 | the embedded OUT jack sources from the external IN jack 2, the external OUT jack from the embedded IN jack 1 |
| Descriptors.EndpointJacks | components/libraries/usbd/class/midi/midi_usbd_descriptors.h:176-199 | the bulk OUT endpoint associates embedded IN jack 1, the bulk IN endpoint embedded OUT jack 3 |
| Descriptors.EndpointsAgree | components/libraries/usbd/class/midi/midi_usbd_descriptors.h:109-192 | bNumEndpoints 2 matches exactly two endpoints, bulk OUT 0x01 and bulk IN 0x81 with 64-byte packets, the endpoints of the class instance's streaming interface |

## Left out

- Critical sections (`CRITICAL_REGION_ENTER/EXIT`) and interrupts: each entry point is one atomic step.
- The internals of `app_fifo_*` and `nrf_ringbuf_*`: both are bounded sequences whose capacity is a multiple of 4. A packet that does not fit is left out of the buffer. The source ignores the result of `app_fifo_write` and `nrf_ringbuf_cpy_put`, and the libraries' own behaviour when full is not modelled.
- FlowControl.SendConserves, FlowControl.SendAllConserves, UsbMidi.SysExWriteDelivers: these hold only while the FIFO has room. A packet sent to a full FIFO is dropped in the model, and nothing is claimed about it.
- UsbMidi.MidiPort.Write: bytes of the short-path packet beyond `len` are left unconstrained, because the source leaves them uninitialised.
- UsbMidi.MidiPort.Write: loop counters are modelled as unbounded integers, the corrected behaviour. The uint8_t behaviour is modelled separately by Packetizer.SysExStepAsWritten (see Findings).
- The ghost count of transfers in flight drops by one on every IN completion event, whatever its status. How the USB stack pairs completions with transfers is not modelled.
- The payload of `app_usbd_core_setup_rsp` for class IN requests is left out, because the user handler fills it. Only its length is recorded.
- The contents of the user event handler and of the data the host sends in a class OUT data stage are left out.
- `setup_req_std_in` and `midi_feed_descriptors` are left out: they emit descriptors through the USB stack's descriptor search and coroutine macros, and the emission code is not modelled. The Descriptors module checks the tables of `midi_usbd_descriptors.h`, assembled in the order of Appendix B of the MIDI class definition; the device, configuration and string descriptors among them are supplied by the application and the USB stack, not by this class.
- `app_usbd_midi_sysex_write` and `app_usbd_midi_send_raw` are left out: they are declared in `app_usbd_midi.h` with no body in the sources.
- The statements after `return` in `app_usbd_midi_get` are left out because they are unreachable.
- Buffer lifetimes are left out: stack buffers are handed to transfers, and their addresses and DMA are not modelled.
- `midi_event_handler` and the instance set-up macros are left out. The class instance's interfaces are a constructor parameter, and `MidiInterfaces` gives the configuration the descriptors declare.
- The example application (`main.c`) is left out except for its messages: the 11-byte SysEx message (which the application hands to a SysEx entry point whose body is not part of this model) and 0xF6 appear in Packetizer.SysExExamples, which shows what `app_usbd_midi_write` would send for them, and 0xC0 and 0x90/0x80 in Packetizer.ShortCinExamples.

## Findings

| source | as written | input that shows it | evidently intended | confidence | as-written member | corrected member |
|---|---|---|---|---|---|---|
| components/libraries/usbd/class/midi/app_usbd_midi.c:756-758 | `pos` and `left_to_send` are uint8_t while `len` is uint32_t, so they wrap at 256 | a SysEx message of 256 bytes: `left_to_send` is 0, `pos` never advances, and a packet with CIN 5 is sent on every pass, forever; any len ≥ 256 never leaves the loop | the loop walks the whole message and sends ceil(len/3) packets | high, not executed | Packetizer.SysExAsWrittenNeverExits | UsbMidi.MidiPort.WriteGroups |
