/** The outbound flow controller: the `sending` flag and the IN FIFO that
    app_usbd_midi_send and the IN branch of midi_endpoint_ev share. */
module FlowControl {
  import opened UsbTypes

  /** The state the two entry points share, with the record of calls made
      and a ghost count of IN transfers submitted and not yet completed. */
  datatype TxState = TxState(sending: bool, fifo: seq<Byte>, inFlight: nat, log: seq<Event>)

  /** The flow controller's invariant: at most one transfer is in flight,
      and only while `sending` is set; queued bytes exist only while
      `sending` is set; the FIFO holds whole packets within its capacity. */
  predicate TxInvariant(s: TxState, cap: nat)
  {
    && cap % EventSize == 0
    && |s.fifo| <= cap && |s.fifo| % EventSize == 0
    && s.inFlight <= 1
    && (s.inFlight == 1 ==> s.sending)
    && (s.fifo != [] ==> s.sending)
  }

  /** app_usbd_midi_send: an idle controller submits the packet at once and
      becomes busy; a busy one appends it to the FIFO. A packet that does
      not fit in the FIFO is left out. */
  function Send(s: TxState, pkt: Packet, cap: nat): (t: TxState)
    ensures t.sending
    ensures t.fifo == s.fifo || (s.sending && t.fifo == s.fifo + pkt)
    ensures t.log == s.log || (!s.sending && t.log == s.log + [Transfer(EpIn1, pkt)])
  {
    if !s.sending then TxState(true, s.fifo, s.inFlight + 1, s.log + [Transfer(EpIn1, pkt)])
    else if |s.fifo| + EventSize <= cap then s.(fifo := s.fifo + pkt)
    else s
  }

  /** Send applied to each packet in turn. */
  function SendAll(s: TxState, ps: seq<Packet>, cap: nat): TxState
    decreases |ps|
  {
    if ps == [] then s else Send(SendAll(s, ps[..|ps| - 1], cap), ps[|ps| - 1], cap)
  }

  lemma SendAllSnoc(s: TxState, ps: seq<Packet>, p: Packet, cap: nat)
    ensures SendAll(s, ps + [p], cap) == Send(SendAll(s, ps, cap), p, cap)
  {
    assert (ps + [p])[..|ps|] == ps;
  }

  /** The IN branch of midi_endpoint_ev: the completed transfer leaves
      flight; on success the oldest queued packet is submitted, or, with
      nothing queued, `sending` is cleared; TX_DONE is signalled either way.
      ABORTED changes nothing else; any other status is an internal error. */
  function InComplete(s: TxState, status: EpStatus): (r: (TxState, RetCode))
    ensures r.1 == Internal <==> status != EpOk && status != EpAborted
    ensures status != EpOk ==> r.0.log == s.log && r.0.sending == s.sending && r.0.fifo == s.fifo
  {
    var rest := if s.inFlight > 0 then s.inFlight - 1 else 0;
    match status
    case EpOk =>
      if s.fifo != [] then
        var k := Min(EventSize, |s.fifo|);
        (s.(fifo := s.fifo[k..], inFlight := rest + 1,
            log := s.log + [Transfer(EpIn1, s.fifo[..k]), Notify(TxDone)]), Success)
      else
        (s.(sending := false, inFlight := rest, log := s.log + [Notify(TxDone)]), Success)
    case EpAborted => (s.(inFlight := rest), Success)
    case _ => (s.(inFlight := rest), Internal)
  }

  // ---------------------------------------------------------------------
  // Bytes handed to the transport
  // ---------------------------------------------------------------------

  function EventInBytes(e: Event): seq<Byte>
  {
    if e.Transfer? && e.ep == EpIn1 then e.data else []
  }

  /** Every byte submitted on the IN endpoint, in submission order. */
  function InBytes(log: seq<Event>): seq<Byte>
    decreases |log|
  {
    if log == [] then [] else InBytes(log[..|log| - 1]) + EventInBytes(log[|log| - 1])
  }

  /** Bytes transmitted or still queued. */
  function Pending(s: TxState): seq<Byte>
  {
    InBytes(s.log) + s.fifo
  }

  function Flatten(ps: seq<Packet>): (b: seq<Byte>)
    ensures |b| == EventSize * |ps|
    decreases |ps|
  {
    if ps == [] then [] else Flatten(ps[..|ps| - 1]) + ps[|ps| - 1]
  }

  lemma {:induction false} InBytesAppend(log: seq<Event>, es: seq<Event>)
    ensures InBytes(log + es) == InBytes(log) + InBytes(es)
    decreases |es|
  {
    if es == [] {
      assert log + es == log;
    } else {
      var last := es[|es| - 1];
      var init := es[..|es| - 1];
      var whole := log + es;
      assert whole[..|whole| - 1] == log + init && whole[|whole| - 1] == last;
      assert InBytes(whole) == InBytes(log + init) + EventInBytes(last);
      assert InBytes(es) == InBytes(init) + EventInBytes(last);
      InBytesAppend(log, init);
    }
  }

  // ---------------------------------------------------------------------
  // The invariant is kept
  // ---------------------------------------------------------------------

  lemma SendKeepsInvariant(s: TxState, pkt: Packet, cap: nat)
    requires TxInvariant(s, cap)
    ensures TxInvariant(Send(s, pkt, cap), cap)
  {
  }

  lemma {:induction false} SendAllKeepsInvariant(s: TxState, ps: seq<Packet>, cap: nat)
    requires TxInvariant(s, cap)
    ensures TxInvariant(SendAll(s, ps, cap), cap)
    decreases |ps|
  {
    if ps != [] {
      SendAllKeepsInvariant(s, ps[..|ps| - 1], cap);
      SendKeepsInvariant(SendAll(s, ps[..|ps| - 1], cap), ps[|ps| - 1], cap);
    }
  }

  lemma InCompleteKeepsInvariant(s: TxState, status: EpStatus, cap: nat)
    requires TxInvariant(s, cap)
    ensures TxInvariant(InComplete(s, status).0, cap)
  {
  }

  // ---------------------------------------------------------------------
  // No byte is lost or reordered while the FIFO has room
  // ---------------------------------------------------------------------

  /** A packet given to Send is either submitted right away (the FIFO then
      being empty) or queued behind everything already queued. */
  lemma SendConserves(s: TxState, pkt: Packet, cap: nat)
    requires TxInvariant(s, cap) && |s.fifo| + EventSize <= cap
    ensures Pending(Send(s, pkt, cap)) == Pending(s) + pkt
  {
    if !s.sending {
      InBytesAppend(s.log, [Transfer(EpIn1, pkt)]);
      assert InBytes([Transfer(EpIn1, pkt)]) == pkt by {
        assert [Transfer(EpIn1, pkt)][..0] == [];
      }
    }
  }

  /** A run of sends that fits in the FIFO keeps every byte, in order. */
  lemma {:induction false} SendAllConserves(s: TxState, ps: seq<Packet>, cap: nat)
    requires TxInvariant(s, cap) && |s.fifo| + EventSize * |ps| <= cap
    ensures Pending(SendAll(s, ps, cap)) == Pending(s) + Flatten(ps)
    ensures |SendAll(s, ps, cap).fifo| <= |s.fifo| + EventSize * |ps|
    decreases |ps|
  {
    if ps != [] {
      var init := ps[..|ps| - 1];
      SendAllConserves(s, init, cap);
      SendAllKeepsInvariant(s, init, cap);
      SendConserves(SendAll(s, init, cap), ps[|ps| - 1], cap);
    }
  }

  /** The bytes a list of events submits on the IN endpoint, for the two
      shapes a completion appends. */
  lemma InBytesOfCompletion(data: seq<Byte>)
    ensures InBytes([Transfer(EpIn1, data), Notify(TxDone)]) == data
    ensures InBytes([Notify(TxDone)]) == []
  {
    var es := [Transfer(EpIn1, data), Notify(TxDone)];
    var first := [Transfer(EpIn1, data)];
    assert es[..|es| - 1] == first;
    assert first[..|first| - 1] == [];
    assert InBytes(first) == data;
    assert InBytes(es) == InBytes(first) + EventInBytes(Notify(TxDone));
    assert [Notify(TxDone)][..0] == [];
  }

  /** A completion only moves bytes from the FIFO to the transport. */
  lemma InCompleteConserves(s: TxState, status: EpStatus, cap: nat)
    requires TxInvariant(s, cap)
    ensures Pending(InComplete(s, status).0) == Pending(s)
  {
    if status == EpOk && s.fifo != [] {
      var k := Min(EventSize, |s.fifo|);
      InBytesAppend(s.log, [Transfer(EpIn1, s.fifo[..k]), Notify(TxDone)]);
      InBytesOfCompletion(s.fifo[..k]);
      assert s.fifo == s.fifo[..k] + s.fifo[k..];
    } else if status == EpOk {
      InBytesAppend(s.log, [Notify(TxDone)]);
      InBytesOfCompletion([]);
    }
  }

  /** A successful completion with packets queued submits the oldest one,
      all 4 bytes of it, and stays busy. */
  lemma InCompleteDrainsOldest(s: TxState, cap: nat)
    requires TxInvariant(s, cap) && s.fifo != []
    ensures var (t, r) := InComplete(s, EpOk);
      && r == Success && t.sending && t.inFlight == 1
      && t.log == s.log + [Transfer(EpIn1, s.fifo[..EventSize]), Notify(TxDone)]
      && t.fifo == s.fifo[EventSize..]
  {
  }

  /** A successful completion with nothing queued makes the controller
      idle without submitting anything; a second one changes nothing more
      than signalling TX_DONE again. */
  lemma InCompleteWhenEmptyGoesIdle(s: TxState, cap: nat)
    requires TxInvariant(s, cap) && s.fifo == []
    ensures var t := InComplete(s, EpOk).0;
      && !t.sending && t.inFlight == 0 && t.fifo == []
      && t.log == s.log + [Notify(TxDone)]
      && InComplete(t, EpOk).0 == t.(log := t.log + [Notify(TxDone)])
  {
  }

  /** While busy, sending submits nothing. */
  lemma SendWhileBusyOnlyQueues(s: TxState, pkt: Packet, cap: nat)
    requires s.sending
    ensures Send(s, pkt, cap).log == s.log && Send(s, pkt, cap).sending
  {
  }

  /** An aborted transfer leaves `sending` set with nothing in flight: from
      then on sends only queue and no completion will drain the FIFO. */
  lemma AbortLeavesControllerBusy(s: TxState, p: Packet, q: Packet, cap: nat)
    requires TxInvariant(s, cap) && !s.sending
    ensures var u := InComplete(Send(s, p, cap), EpAborted).0;
      && u.sending && u.inFlight == 0
      && Send(u, q, cap).log == u.log
  {
  }
}
