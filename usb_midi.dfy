/** The MIDI class instance of app_usbd_midi.c: its context (`streaming`,
    `sending`, the audio request record), the IN FIFO and the OUT ring
    buffer, and the entry points that update them. Calls into the USB stack
    and the user event handler are recorded in `log`. */
module UsbMidi {
  import opened UsbTypes
  import opened Packetizer
  import FlowControl
  import opened ClassRequests

  /** One interface of the class, by the endpoint addresses it holds. */
  datatype Iface = Iface(eps: seq<Byte>)

  /** APP_USBD_MIDI_CONFIG_IN_OUT(0, 1): the AudioControl interface without
      endpoints, then the MIDIStreaming interface with EPIN1 and EPOUT1. */
  const MidiInterfaces: seq<Iface> := [Iface([]), Iface([EpIn1, EpOut1])]

  // ---------------------------------------------------------------------
  // The OUT ring buffer
  // ---------------------------------------------------------------------

  /** The ring buffer holds whole packets within its capacity. */
  predicate RingInvariant(ring: seq<Byte>, cap: nat)
  {
    cap % EventSize == 0 && |ring| <= cap && |ring| % EventSize == 0
  }

  /** nrf_ringbuf_cpy_put of one received packet; a packet that does not
      fit is left out. */
  function RingPut(ring: seq<Byte>, data: Packet, cap: nat): (r: seq<Byte>)
    ensures |ring| <= |r| && r[..|ring|] == ring
    ensures |ring| + EventSize <= cap <==> r[|ring|..] == data
  {
    if |ring| + EventSize <= cap then ring + data else ring
  }

  /** nrf_ringbuf_cpy_get of up to 4 bytes: the bytes taken and the rest. */
  function RingTake(ring: seq<Byte>): (r: (seq<Byte>, seq<Byte>))
    ensures r.0 + r.1 == ring && |r.0| == Min(EventSize, |ring|)
  {
    var k := Min(EventSize, |ring|);
    (ring[..k], ring[k..])
  }

  /** The ring buffer is a queue of packets: a packet put behind others
      comes out after them, and one put into an empty buffer comes out
      next, whole. */
  lemma RingIsQueue(ring: seq<Byte>, p: Packet, cap: nat)
    requires RingInvariant(ring, cap) && |ring| + EventSize <= cap
    ensures RingInvariant(RingPut(ring, p, cap), cap)
    ensures ring == [] ==> RingTake(RingPut(ring, p, cap)) == (p, [])
    ensures ring != [] ==>
      && RingTake(RingPut(ring, p, cap)).0 == RingTake(ring).0
      && RingTake(RingPut(ring, p, cap)).1 == RingPut(RingTake(ring).1, p, cap)
  {
    if ring != [] {
      assert (ring + p)[EventSize..] == ring[EventSize..] + p;
    } else {
      assert ring + p == p && p[..EventSize] == p && p[EventSize..] == [];
    }
  }

  /** Taking from a non-empty ring yields a whole packet and keeps the
      invariant. */
  lemma RingTakeWholePacket(ring: seq<Byte>, cap: nat)
    requires RingInvariant(ring, cap) && ring != []
    ensures |RingTake(ring).0| == EventSize && RingInvariant(RingTake(ring).1, cap)
    ensures RingTake(ring).0 + RingTake(ring).1 == ring
  {
  }

  // ---------------------------------------------------------------------
  // Interface selection
  // ---------------------------------------------------------------------

  /** Calls made by iface_select for one endpoint of the interface. */
  function EndpointSelectEvents(ep: Byte, alternate: Byte): seq<Event>
  {
    if alternate == 0 then
      [EpEnable(ep)] + (if ep == EpOut1 then [Arm(EpOut1, EventSize), Notify(PortOpen)] else [])
    else
      [EpDisable(ep), Notify(PortClose)]
  }

  /** Calls made by iface_select for all endpoints, in order. */
  function SelectEvents(eps: seq<Byte>, alternate: Byte): seq<Event>
    decreases |eps|
  {
    if eps == [] then []
    else SelectEvents(eps[..|eps| - 1], alternate) + EndpointSelectEvents(eps[|eps| - 1], alternate)
  }

  lemma SelectEventsSnoc(eps: seq<Byte>, i: nat, alternate: Byte)
    requires i < |eps|
    ensures SelectEvents(eps[..i + 1], alternate) == SelectEvents(eps[..i], alternate) + EndpointSelectEvents(eps[i], alternate)
    ensures Occurrences(eps[..i + 1], EpOut1) == Occurrences(eps[..i], EpOut1) + (if eps[i] == EpOut1 then 1 else 0)
    ensures Occurrences(eps[..i + 1], EpIn1) == Occurrences(eps[..i], EpIn1) + (if eps[i] == EpIn1 then 1 else 0)
  {
    assert eps[..i + 1][..i] == eps[..i];
  }

  lemma EventsAssoc(a: seq<Event>, b: seq<Event>, c: seq<Event>)
    ensures (a + b) + c == a + (b + c)
  {
  }

  function CountNotify(log: seq<Event>, ev: UserEvent): nat
    decreases |log|
  {
    if log == [] then 0
    else CountNotify(log[..|log| - 1], ev) + (if log[|log| - 1] == Notify(ev) then 1 else 0)
  }

  lemma {:induction false} CountNotifyAppend(a: seq<Event>, b: seq<Event>, ev: UserEvent)
    ensures CountNotify(a + b, ev) == CountNotify(a, ev) + CountNotify(b, ev)
    decreases |b|
  {
    if b == [] {
      assert a + b == a;
    } else {
      assert (a + b)[..|a + b| - 1] == a + b[..|b| - 1];
      CountNotifyAppend(a, b[..|b| - 1], ev);
    }
  }

  /** How many times `x` occurs in `s`. */
  function Occurrences(s: seq<Byte>, x: Byte): nat
    decreases |s|
  {
    if s == [] then 0 else Occurrences(s[..|s| - 1], x) + (if s[|s| - 1] == x then 1 else 0)
  }

  /** `x` occurs in `s` exactly when it is a member of it. */
  lemma {:induction false} OccurrencesMember(s: seq<Byte>, x: Byte)
    ensures Occurrences(s, x) > 0 <==> x in s
    decreases |s|
  {
    if s != [] {
      var init := s[..|s| - 1];
      OccurrencesMember(init, x);
      assert s == init + [s[|s| - 1]];
    }
  }

  lemma EndpointSelectCounts(ep: Byte, alternate: Byte)
    requires alternate <= 1
    ensures CountNotify(EndpointSelectEvents(ep, alternate), PortOpen) ==
      (if alternate == 0 && ep == EpOut1 then 1 else 0)
    ensures CountNotify(EndpointSelectEvents(ep, alternate), PortClose) ==
      (if alternate == 1 then 1 else 0)
  {
    var es := EndpointSelectEvents(ep, alternate);
    var first := [if alternate == 0 then EpEnable(ep) else EpDisable(ep)];
    assert first[..0] == [];
    assert CountNotify(first, PortOpen) == 0 && CountNotify(first, PortClose) == 0;
    if alternate == 0 && ep == EpOut1 {
      var two := first + [Arm(EpOut1, EventSize)];
      assert two[..1] == first;
      assert es == two + [Notify(PortOpen)] && es[..2] == two;
    } else if alternate == 0 {
      assert es == first;
    } else {
      assert es == first + [Notify(PortClose)] && es[..1] == first;
    }
  }

  /** Selecting alternate 0 opens the port once for every EPOUT1 in the
      interface (and never otherwise); selecting alternate 1 closes it once
      per endpoint of the interface. */
  lemma {:induction false} SelectEventsNotifications(eps: seq<Byte>, alternate: Byte)
    requires alternate <= 1
    ensures CountNotify(SelectEvents(eps, alternate), PortOpen) ==
      (if alternate == 0 then Occurrences(eps, EpOut1) else 0)
    ensures CountNotify(SelectEvents(eps, alternate), PortClose) ==
      (if alternate == 1 then |eps| else 0)
    decreases |eps|
  {
    if eps != [] {
      var init, ep := eps[..|eps| - 1], eps[|eps| - 1];
      SelectEventsNotifications(init, alternate);
      EndpointSelectCounts(ep, alternate);
      CountNotifyAppend(SelectEvents(init, alternate), EndpointSelectEvents(ep, alternate), PortOpen);
      CountNotifyAppend(SelectEvents(init, alternate), EndpointSelectEvents(ep, alternate), PortClose);
    }
  }

  /** What iface_selection_get reports: 1 while `streaming` is set on an
      interface with endpoints, 0 otherwise. */
  function SelectionReport(epCount: nat, streaming: bool): (sel: Byte)
    ensures sel <= 1 && (sel == 1 <==> epCount > 0 && streaming)
  {
    if epCount > 0 then (if streaming then 1 else 0) else 0
  }

  /** Since iface_select stores `streaming := (alternate == 0)`, the report
      after a successful selection of alternate 0 or 1 is 1 - alternate. */
  lemma SelectionReportAfterSelect(epCount: nat, alternate: Byte)
    requires epCount > 0 && alternate <= 1
    ensures SelectionReport(epCount, alternate == 0) == 1 - alternate
  {
  }

  /** A SysEx write whose packets fit in the FIFO hands the transport, now
      or later, exactly its packets' bytes after those already pending, and
      a receiver unframing those packets gets the message back. */
  lemma SysExWriteDelivers(s: FlowControl.TxState, cable: Byte, msg: seq<Byte>, cap: nat)
    requires FlowControl.TxInvariant(s, cap)
    requires |s.fifo| + EventSize * |SysExPackets(cable, msg)| <= cap
    ensures var ps := SysExPackets(cable, msg);
      && FlowControl.Pending(FlowControl.SendAll(s, ps, cap)) == FlowControl.Pending(s) + FlowControl.Flatten(ps)
      && Unframe(ps) == msg
  {
    FlowControl.SendAllConserves(s, SysExPackets(cable, msg), cap);
    SysExRoundTrip(cable, msg);
  }

  // ---------------------------------------------------------------------
  // The class instance
  // ---------------------------------------------------------------------

  class MidiPort {
    /** Interface configuration of the instance. */
    const ifaces: seq<Iface>
    /** in_buf_size: capacity of the IN FIFO. */
    const fifoCapacity: nat
    /** Capacity of the OUT ring buffer. */
    const ringCapacity: nat

    var streaming: bool
    var sending: bool
    var txFifo: seq<Byte>
    var rxRing: seq<Byte>
    var request: AudioRequest
    var log: seq<Event>
    /** IN transfers submitted and not yet completed. */
    ghost var inFlight: nat

    ghost function Tx(): FlowControl.TxState
      reads this
    {
      FlowControl.TxState(sending, txFifo, inFlight, log)
    }

    ghost predicate Valid()
      reads this
    {
      FlowControl.TxInvariant(Tx(), fifoCapacity) && RingInvariant(rxRing, ringCapacity)
    }

    constructor (ifaces: seq<Iface>, fifoCapacity: nat, ringCapacity: nat)
      requires fifoCapacity % EventSize == 0 && ringCapacity % EventSize == 0
      ensures Valid()
      ensures this.ifaces == ifaces && this.fifoCapacity == fifoCapacity && this.ringCapacity == ringCapacity
      ensures !streaming && !sending && txFifo == [] && rxRing == [] && log == [] && inFlight == 0
    {
      this.ifaces := ifaces;
      this.fifoCapacity := fifoCapacity;
      this.ringCapacity := ringCapacity;
      streaming, sending := false, false;
      txFifo, rxRing, log := [], [], [];
      request := AudioRequest(0, 0, 0, 0, 0, 0, ClassReqIn);
      inFlight := 0;
    }

    /** app_usbd_midi_send: submit one packet now, or queue it behind the
        transfer in flight. */
    method Send(pkt: Packet) returns (r: RetCode)
      requires Valid()
      modifies this`sending, this`txFifo, this`log, this`inFlight
      ensures Valid()
      ensures Tx() == FlowControl.Send(old(Tx()), pkt, fifoCapacity)
      ensures r == Success
    {
      if sending {
        if |txFifo| + EventSize <= fifoCapacity {
          txFifo := txFifo + pkt;
        }
      } else {
        sending := true;
        log := log + [Transfer(EpIn1, pkt)];
        inFlight := inFlight + 1;
      }
      r := Success;
      FlowControl.SendKeepsInvariant(old(Tx()), pkt, fifoCapacity);
    }

    /** app_usbd_midi_write of `buf[..len]` on `cable`. SysEx and single-byte
        System Common messages go out in groups of 3; any other message of at
        most 3 bytes goes out as one packet; a longer one is refused. `sent`
        lists the packets handed to Send. */
    method Write(cable: Byte, buf: seq<Byte>, len: nat) returns (r: RetCode, ghost sent: seq<Packet>)
      requires Valid()
      requires 0 < |buf| && len <= |buf|
      modifies this`sending, this`txFifo, this`log, this`inFlight
      ensures Valid()
      ensures Tx() == FlowControl.SendAll(old(Tx()), sent, fifoCapacity)
      ensures IsGroupedStatus(buf[0]) ==> r == Success && sent == SysExPackets(cable, buf[..len])
      ensures !IsGroupedStatus(buf[0]) && len > 3 ==> r == InvalidData && sent == []
      ensures !IsGroupedStatus(buf[0]) && len <= 3 ==>
        r == Success && |sent| == 1 && ShortLayout(sent[0], cable, buf[0], buf[..len])
    {
      var status := buf[0];
      var tx := new Byte[EventSize];
      if IsGroupedStatus(status) {
        sent := WriteGroups(cable, buf[..len], tx);
        r := Success;
      } else if len > 3 {
        sent := [];
        r := InvalidData;
      } else {
        tx[0] := Header(cable, ShortCin(status));
        for i := 0 to len
          invariant tx[0] == Header(cable, ShortCin(status))
          invariant forall k :: 0 <= k < i ==> tx[k + 1] == buf[k]
          modifies tx
        {
          tx[i + 1] := buf[i];
        }
        var pkt: Packet := tx[..];
        sent := [pkt];
        assert sent[..0] == [];
        r := Send(pkt);
      }
    }

    /** The loop of app_usbd_midi_write for SysEx and single-byte System
        Common messages: each pass copies the next group of up to 3 bytes
        into `tx`, zeroes the unused bytes, sets the header and sends it. */
    method WriteGroups(cable: Byte, msg: seq<Byte>, tx: array<Byte>) returns (ghost sent: seq<Packet>)
      requires Valid() && tx.Length == EventSize
      modifies this`sending, this`txFifo, this`log, this`inFlight, tx
      ensures Valid()
      ensures sent == SysExPackets(cable, msg)
      ensures Tx() == FlowControl.SendAll(old(Tx()), sent, fifoCapacity)
    {
      sent := [];
      var pos: nat := 0;
      while pos < |msg|
        invariant pos <= |msg| && Valid()
        invariant sent + SysExPackets(cable, msg[pos..]) == SysExPackets(cable, msg)
        invariant Tx() == FlowControl.SendAll(old(Tx()), sent, fifoCapacity)
        decreases |msg| - pos
      {
        ghost var start := pos;
        var pkt;
        pos, pkt := FillGroup(cable, msg, pos, tx);
        SysExLoopStep(cable, msg, start, sent);
        FlowControl.SendAllSnoc(old(Tx()), sent, pkt, fifoCapacity);
        sent := sent + [pkt];
        var _ := Send(pkt);
      }
      assert msg[pos..] == [];
    }

    /** One pass of that loop up to the send: the bytes copied, the padding
        and the header, giving the packet of the group at `msg[pos..]`. */
    method FillGroup(cable: Byte, msg: seq<Byte>, pos: nat, tx: array<Byte>) returns (next: nat, pkt: Packet)
      requires pos < |msg| && tx.Length == EventSize
      modifies tx
      ensures next == SysExStep(|msg|, pos)
      ensures pkt == tx[..] == GroupPacket(cable, msg[pos..])
    {
      var left := |msg| - pos;
      next := pos;
      var i := 0;
      while i < left
        invariant 0 <= i <= 2 && i <= left && next == pos + i
        invariant forall k :: 1 <= k <= i ==> tx[k] == msg[pos + k - 1]
        decreases left - i
      {
        tx[i + 1] := msg[next];
        next := next + 1;
        if i == 2 {
          break;
        }
        i := i + 1;
      }
      var cin;
      if left > 3 {
        cin := 0x4;
      } else if left == 3 {
        cin := 0x7;
      } else if left == 2 {
        cin := 0x6;
        tx[3] := 0;
      } else {
        cin := 0x5;
        tx[2] := 0;
        tx[3] := 0;
      }
      tx[0] := Header(cable, cin);
      pkt := tx[..];
      GroupPacketFromBytes(cable, msg[pos..], pkt);
    }

    /** midi_endpoint_ev: completion of a transfer on endpoint `ep`.
        `received` is what the hardware left in m_rx_buffer. */
    method EndpointEvent(ep: Byte, status: EpStatus, received: Packet) returns (r: RetCode)
      requires Valid()
      modifies this`sending, this`txFifo, this`log, this`inFlight, this`rxRing
      ensures Valid()
      ensures IsInEndpoint(ep) ==>
        (Tx(), r) == FlowControl.InComplete(old(Tx()), status) && rxRing == old(rxRing)
      ensures !IsInEndpoint(ep) ==>
        sending == old(sending) && txFifo == old(txFifo) && inFlight == old(inFlight)
      ensures !IsInEndpoint(ep) && status == EpOk ==>
        && r == Success
        && rxRing == RingPut(old(rxRing), received, ringCapacity)
        && log == old(log) + [Arm(EpOut1, EventSize), Notify(RxDone)]
      ensures !IsInEndpoint(ep) && (status == EpWaiting || status == EpAborted) ==>
        r == Success && rxRing == old(rxRing) && log == old(log)
      ensures !IsInEndpoint(ep) && status == EpOverload ==>
        r == Internal && rxRing == old(rxRing) && log == old(log)
    {
      var rest := if inFlight > 0 then inFlight - 1 else 0;
      if IsInEndpoint(ep) {
        match status {
          case EpOk =>
            var size := Min(EventSize, |txFifo|);
            var data := txFifo[..size];
            txFifo := txFifo[size..];
            inFlight := rest;
            if size > 0 {
              log := log + [Transfer(EpIn1, data)];
              inFlight := inFlight + 1;
            } else {
              sending := false;
            }
            log := log + [Notify(TxDone)];
            r := Success;
            assert old(txFifo) != [] ==> log == old(log) + [Transfer(EpIn1, data), Notify(TxDone)];
            assert old(txFifo) == [] ==> txFifo == old(txFifo);
          case EpAborted =>
            inFlight := rest;
            r := Success;
          case _ =>
            inFlight := rest;
            r := Internal;
        }
        FlowControl.InCompleteKeepsInvariant(old(Tx()), status, fifoCapacity);
      } else {
        match status {
          case EpOk =>
            if |rxRing| + EventSize <= ringCapacity {
              rxRing := rxRing + received;
            }
            log := log + [Arm(EpOut1, EventSize)];
            log := log + [Notify(RxDone)];
            r := Success;
          case EpWaiting =>
            r := Success;
          case EpAborted =>
            r := Success;
          case _ =>
            r := Internal;
        }
      }
    }

    /** app_usbd_midi_get: take the oldest received packet, or report that
        nothing has arrived. `data` is what is copied to the caller's buffer. */
    method Get() returns (r: RetCode, data: seq<Byte>)
      requires Valid()
      modifies this`rxRing
      ensures Valid()
      ensures old(rxRing) == [] ==> r == IoPending && data == [] && rxRing == []
      ensures old(rxRing) != [] ==>
        r == Success && (data, rxRing) == RingTake(old(rxRing)) && |data| == EventSize
    {
      var len := Min(EventSize, |rxRing|);
      data := rxRing[..len];
      rxRing := rxRing[len..];
      if len == 0 {
        r := IoPending;
      } else {
        r := Success;
      }
    }

    /** iface_select: choose alternate setting `alternate` of interface `idx`. */
    method IfaceSelect(idx: nat, alternate: Byte) returns (r: RetCode)
      requires Valid() && idx < |ifaces|
      modifies this`streaming, this`txFifo, this`rxRing, this`log
      ensures Valid() && sending == old(sending)
      ensures var eps := ifaces[idx].eps;
        && (|eps| == 0 ==> r == NotSupported)
        && (|eps| > 0 && alternate > 1 ==> r == InvalidParam)
        && (|eps| == 0 || alternate > 1 ==>
              streaming == old(streaming) && txFifo == old(txFifo) && rxRing == old(rxRing) && log == old(log))
        && (|eps| > 0 && alternate <= 1 ==>
              && r == Success
              && streaming == (alternate == 0)
              && log == old(log) + SelectEvents(eps, alternate)
              && rxRing == (if alternate == 0 && EpOut1 in eps then [] else old(rxRing))
              && txFifo == (if alternate == 0 && EpIn1 in eps then [] else old(txFifo)))
    {
      var eps := ifaces[idx].eps;
      if |eps| > 0 {
        if alternate > 1 {
          return InvalidParam;
        }
        streaming := alternate == 0;
        SelectEndpoints(eps, alternate);
        assert txFifo == [] || txFifo == old(txFifo);
        assert rxRing == [] || rxRing == old(rxRing);
        return Success;
      }
      return NotSupported;
    }

    /** iface_select's loop over the endpoints of the interface. */
    method SelectEndpoints(eps: seq<Byte>, alternate: Byte)
      modifies this`txFifo, this`rxRing, this`log
      ensures log == old(log) + SelectEvents(eps, alternate)
      ensures rxRing == (if alternate == 0 && EpOut1 in eps then [] else old(rxRing))
      ensures txFifo == (if alternate == 0 && EpIn1 in eps then [] else old(txFifo))
    {
      for i := 0 to |eps|
        invariant log == old(log) + SelectEvents(eps[..i], alternate)
        invariant rxRing == (if alternate == 0 && Occurrences(eps[..i], EpOut1) > 0 then [] else old(rxRing))
        invariant txFifo == (if alternate == 0 && Occurrences(eps[..i], EpIn1) > 0 then [] else old(txFifo))
      {
        SelectEventsSnoc(eps, i, alternate);
        ghost var done := SelectEvents(eps[..i], alternate);
        SelectEndpoint(eps[i], alternate);
        EventsAssoc(old(log), done, EndpointSelectEvents(eps[i], alternate));
      }
      assert eps[..|eps|] == eps;
      OccurrencesMember(eps, EpOut1);
      OccurrencesMember(eps, EpIn1);
    }

    /** The body of iface_select's loop for the endpoint `ep`: with
        alternate 0 enable it, and for EPOUT1 empty the ring buffer, arm the
        first OUT transfer and report the port open, for EPIN1 empty the
        FIFO; with another alternate disable it and report the port closed. */
    method SelectEndpoint(ep: Byte, alternate: Byte)
      modifies this`txFifo, this`rxRing, this`log
      ensures log == old(log) + EndpointSelectEvents(ep, alternate)
      ensures rxRing == (if alternate == 0 && ep == EpOut1 then [] else old(rxRing))
      ensures txFifo == (if alternate == 0 && ep == EpIn1 then [] else old(txFifo))
    {
      if alternate == 0 {
        log := log + [EpEnable(ep)];
        if ep == EpOut1 {
          rxRing := [];
          log := log + [Arm(EpOut1, EventSize), Notify(PortOpen)];
        }
        if ep == EpIn1 {
          txFifo := [];
        }
      } else {
        log := log + [EpDisable(ep), Notify(PortClose)];
      }
    }

    /** iface_deselect: an interface with endpoints stops streaming and
        reports the port closed. */
    method IfaceDeselect(idx: nat)
      requires Valid() && idx < |ifaces|
      modifies this`streaming, this`log
      ensures Valid()
      ensures |ifaces[idx].eps| > 0 ==> !streaming && log == old(log) + [Notify(PortClose)]
      ensures |ifaces[idx].eps| == 0 ==> streaming == old(streaming) && log == old(log)
    {
      if |ifaces[idx].eps| > 0 {
        streaming := false;
        log := log + [Notify(PortClose)];
      }
    }

    /** iface_selection_get. */
    function IfaceSelectionGet(idx: nat): (sel: Byte)
      requires idx < |ifaces|
      reads this
      ensures sel == SelectionReport(|ifaces[idx].eps|, streaming)
    {
      if |ifaces[idx].eps| > 0 then (if streaming then 1 else 0) else 0
    }

    /** midi_setup_req_class_in: store the decoded request, tell the user,
        and answer with `request.length` bytes of its payload; `rspResult`
        is what app_usbd_core_setup_rsp returns. */
    method SetupClassIn(setup: SetupPacket, rspResult: RetCode) returns (r: RetCode)
      modifies this`request, this`log
      ensures ClassInHandled(setup.bRequest) ==>
        && request == DecodeRequest(setup, true)
        && log == old(log) + [Notify(ClassReq), SetupResponse(setup.wLength)]
        && r == rspResult
      ensures !ClassInHandled(setup.bRequest) ==>
        r == NotSupported && request == old(request) && log == old(log)
    {
      if ClassInHandled(setup.bRequest) {
        request := DecodeRequest(setup, true);
        log := log + [Notify(ClassReq)];
        log := log + [SetupResponse(request.length)];
        r := rspResult;
      } else {
        r := NotSupported;
      }
    }

    /** midi_setup_req_class_out and midi_req_out: store the decoded
        request and arm endpoint 0 for its data stage; on success register
        the data-stage callback. `transferResult` and `handlerResult` are
        what the two USB stack calls return. */
    method SetupClassOut(setup: SetupPacket, transferResult: RetCode, handlerResult: RetCode)
      returns (r: RetCode)
      modifies this`request, this`log
      ensures ClassOutHandled(setup.bRequest) ==>
        && request == DecodeRequest(setup, false)
        && (transferResult == Success ==>
              log == old(log) + [Arm(EpOut0, setup.wLength), SetupDataHandler(EpOut0)] && r == handlerResult)
        && (transferResult != Success ==>
              log == old(log) + [Arm(EpOut0, setup.wLength)] && r == transferResult)
      ensures !ClassOutHandled(setup.bRequest) ==>
        r == NotSupported && request == old(request) && log == old(log)
    {
      if ClassOutHandled(setup.bRequest) {
        request := DecodeRequest(setup, false);
        log := log + [Arm(EpOut0, request.length)];
        r := transferResult;
        if r == Success {
          log := log + [SetupDataHandler(EpOut0)];
          r := handlerResult;
        }
      } else {
        r := NotSupported;
      }
    }

    /** midi_req_out_data_cb: the data stage of a class OUT request ended. */
    method ReqOutDataCallback(status: EpStatus) returns (r: RetCode)
      modifies this`log
      ensures r == Success
      ensures log == old(log) + (if status == EpOk then [Notify(ClassReq)] else [])
    {
      if status == EpOk {
        log := log + [Notify(ClassReq)];
      }
      r := Success;
    }
  }
}
