/** The outbound packetizer of app_usbd_midi_write: how one MIDI message
    becomes USB-MIDI event packets (section 4 of the USB Device Class
    Definition for MIDI Devices, Release 1.0). */
module Packetizer {
  import opened UsbTypes

  /** Byte 0 of a packet, `(cable_number << 4) + code_index_number` stored
      into a uint8_t: the cable lands in the high nibble modulo 16, the CIN
      in the low nibble. */
  function Header(cable: Byte, cin: Nibble): (h: Byte)
    ensures h / 16 == cable % 16 && h % 16 == cin
  {
    var low := (cable % 16) * 16 + cin;
    assert cable * 16 + cin == (cable / 16) * 256 + low && 0 <= low < 256;
    assert (cable * 16 + cin) % 256 == low;
    (cable * 16 + cin) % 256
  }

  /** Cable number and CIN a receiver reads back from byte 0. */
  function HeaderCable(b: Byte): Nibble { b / 16 }
  function HeaderCin(b: Byte): Nibble { b % 16 }

  /** Two headers are equal exactly when they carry the same cable number
      (modulo 16) and the same CIN: no two packet kinds share a header. */
  lemma HeaderInjective(cable1: Byte, cin1: Nibble, cable2: Byte, cin2: Nibble)
    ensures Header(cable1, cin1) == Header(cable2, cin2) <==> cable1 % 16 == cable2 % 16 && cin1 == cin2
  {
    var h1, h2 := Header(cable1, cin1), Header(cable2, cin2);
    assert h1 == 16 * (h1 / 16) + h1 % 16;
    assert h2 == 16 * (h2 / 16) + h2 % 16;
  }

  // ---------------------------------------------------------------------
  // Reference definitions from the standards
  // ---------------------------------------------------------------------

  /** Number of MIDI bytes a packet carries for each Code Index Number,
      Table 4-1 of the USB MIDI class definition (0 for the two reserved
      CINs, whose size the table leaves open). */
  function CinSize(cin: Nibble): (n: nat)
    ensures n <= 3
  {
    if cin <= 1 then 0
    else if cin == 0x2 || cin == 0x6 || cin == 0xC || cin == 0xD then 2
    else if cin == 0x5 || cin == 0xF then 1
    else 3
  }

  /** Length in bytes of the MIDI 1.0 message a status byte starts; 0 for
      System Exclusive (variable length) and for data bytes (no status). */
  function MessageLength(status: Byte): nat
  {
    if status < 0x80 then 0
    else if status < 0xC0 then 3         // note off/on, poly pressure, control change
    else if status < 0xE0 then 2         // program change, channel pressure
    else if status < 0xF0 then 3         // pitch bend
    else if status == 0xF0 then 0        // SysEx start
    else if status == 0xF1 || status == 0xF3 then 2  // MTC quarter frame, song select
    else if status == 0xF2 then 3        // song position
    else 1                               // tune request, EOX, undefined, realtime
  }

  // ---------------------------------------------------------------------
  // Path selection and the short-message path
  // ---------------------------------------------------------------------

  /** Status bytes sent through the 3-byte-group loop: SysEx start 0xF0 or
      `status >> 2 == 0b111101`. */
  predicate IsGroupedStatus(status: Byte)
  {
    status == 0xF0 || status / 4 == 0x3D
  }

  lemma GroupedStatuses(status: Byte)
    ensures IsGroupedStatus(status) <==>
      status == 0xF0 || status == 0xF4 || status == 0xF5 || status == 0xF6 || status == 0xF7
  {
  }

  /** CIN chosen for a message of at most 3 bytes. */
  function ShortCin(status: Byte): (cin: Nibble)
    ensures status >= 0x80 ==> CinSize(cin) > 0
  {
    if status / 32 == 6 then 0x2          // status >> 5 == 0b110
    else if status == 0xF2 then 0x3
    else status / 16                      // status >> 4
  }

  /** For channel voice messages, the song position and the
      single-byte realtime messages, the CIN the short path chooses tells a
      receiver exactly how many MIDI bytes the message has. */
  lemma ShortCinSizeMatchesMessage(status: Byte)
    requires 0x80 <= status < 0xF0 || status == 0xF2 || status >= 0xF8
    ensures CinSize(ShortCin(status)) == MessageLength(status)
  {
  }

  /** The concrete classifications of the short path: Program Change and
      Channel Pressure get CIN 2 (Table 4-1 lists 0xC and 0xD for them, both
      of size 2); Song Position gets 3; Note On 9, Note Off 8;
      realtime 0xF; MTC quarter frame 0xF1 and Song Select 0xF3 get 0xF, a
      one-byte CIN for two-byte messages. */
  lemma ShortCinExamples()
    ensures ShortCin(0xC0) == 0x2 && ShortCin(0xD5) == 0x2
    ensures CinSize(ShortCin(0xC0)) == CinSize(0xC)
    ensures ShortCin(0xF2) == 0x3
    ensures ShortCin(0x90) == 0x9 && ShortCin(0x80) == 0x8
    ensures forall s: Byte :: 0xF8 <= s ==> ShortCin(s) == 0xF
    ensures ShortCin(0xF1) == 0xF && ShortCin(0xF3) == 0xF
    ensures CinSize(ShortCin(0xF1)) < MessageLength(0xF1)
  {
  }

  /** The packet the short path hands to app_usbd_midi_send: byte 0 is the
      header, bytes 1..|msg| are the message verbatim. Bytes beyond the
      message are not written by the source and are left unconstrained. */
  ghost predicate ShortLayout(p: Packet, cable: Byte, status: Byte, msg: seq<Byte>)
  {
    |msg| <= 3 &&
    p[0] == Header(cable, ShortCin(status)) &&
    forall i :: 0 <= i < |msg| ==> p[i + 1] == msg[i]
  }

  // ---------------------------------------------------------------------
  // The SysEx / single-byte System Common path
  // ---------------------------------------------------------------------

  /** CIN of a group, from the number of bytes still to send when it starts. */
  function GroupCin(left: nat): (cin: Nibble)
    requires left > 0
    ensures CinSize(cin) == Min(left, 3)
  {
    if left > 3 then 0x4 else if left == 3 then 0x7 else if left == 2 then 0x6 else 0x5
  }

  /** The packet for the group at the front of `msg`, unused bytes zeroed. */
  function GroupPacket(cable: Byte, msg: seq<Byte>): (p: Packet)
    requires |msg| > 0
  {
    var cin := GroupCin(|msg|);
    if |msg| >= 3 then [Header(cable, cin), msg[0], msg[1], msg[2]]
    else if |msg| == 2 then [Header(cable, cin), msg[0], msg[1], 0]
    else [Header(cable, cin), msg[0], 0, 0]
  }

  /** All packets the loop emits for `msg`, in order: one per group of 3. */
  function SysExPackets(cable: Byte, msg: seq<Byte>): (ps: seq<Packet>)
    ensures |ps| == (|msg| + 2) / 3
    decreases |msg|
  {
    if |msg| == 0 then []
    else [GroupPacket(cable, msg)] + SysExPackets(cable, msg[Min(|msg|, 3)..])
  }

  /** The packet whose bytes the loop has written for the group at the
      front of `m` is that group's packet. */
  lemma GroupPacketFromBytes(cable: Byte, m: seq<Byte>, t: seq<Byte>)
    requires |m| > 0 && |t| == EventSize
    requires t[0] == Header(cable, GroupCin(|m|))
    requires forall k :: 1 <= k <= Min(|m|, 3) ==> t[k] == m[k - 1]
    requires forall k :: Min(|m|, 3) < k < EventSize ==> t[k] == 0
    ensures t == GroupPacket(cable, m)
  {
  }

  /** One pass of the loop: the packets emitted so far, followed by those of
      the rest of the message, are the packets of the whole message. */
  lemma SysExLoopStep(cable: Byte, msg: seq<Byte>, start: nat, sent: seq<Packet>)
    requires start < |msg|
    requires sent + SysExPackets(cable, msg[start..]) == SysExPackets(cable, msg)
    ensures (sent + [GroupPacket(cable, msg[start..])]) + SysExPackets(cable, msg[SysExStep(|msg|, start)..])
      == SysExPackets(cable, msg)
  {
    var m := msg[start..];
    var g := GroupPacket(cable, m);
    var rest := SysExPackets(cable, m[Min(|m|, 3)..]);
    assert SysExPackets(cable, m) == [g] + rest;
    assert m[Min(|m|, 3)..] == msg[SysExStep(|msg|, start)..];
    assert (sent + [g]) + rest == sent + ([g] + rest);
  }

  /** The MIDI bytes a receiver takes out of a packet, using the size that
      Table 4-1 gives its CIN. */
  function Payload(p: Packet): (b: seq<Byte>)
    ensures |b| == CinSize(HeaderCin(p[0]))
  {
    p[1..1 + CinSize(HeaderCin(p[0]))]
  }

  function Unframe(ps: seq<Packet>): seq<Byte>
  {
    if ps == [] then [] else Payload(ps[0]) + Unframe(ps[1..])
  }

  /** Decoding the packets with the standard's CIN sizes gives back the
      message: no byte is lost, duplicated or reordered, and the zero
      padding is never read as data. */
  lemma {:induction false} SysExRoundTrip(cable: Byte, msg: seq<Byte>)
    ensures Unframe(SysExPackets(cable, msg)) == msg
    decreases |msg|
  {
    if |msg| > 0 {
      var ps := SysExPackets(cable, msg);
      var k := Min(|msg|, 3);
      assert ps[1..] == SysExPackets(cable, msg[k..]);
      SysExRoundTrip(cable, msg[k..]);
      assert Payload(ps[0]) == msg[..k];
      assert msg == msg[..k] + msg[k..];
    }
  }

  /** Every packet but the last is "SysEx starts or continues" (CIN 4); the
      last one ends the message with CIN 7, 6 or 5 for 3, 2 or 1 bytes; all
      carry the cable number. */
  lemma {:induction false} SysExFraming(cable: Byte, msg: seq<Byte>)
    requires |msg| > 0
    ensures var ps := SysExPackets(cable, msg);
      && (forall i :: 0 <= i < |ps| ==> HeaderCable(ps[i][0]) == cable % 16)
      && (forall i :: 0 <= i < |ps| - 1 ==> HeaderCin(ps[i][0]) == 0x4)
      && HeaderCin(ps[|ps| - 1][0]) == [0x7, 0x5, 0x6][|msg| % 3]
    decreases |msg|
  {
    var ps := SysExPackets(cable, msg);
    if |msg| <= 3 {
      assert ps == [GroupPacket(cable, msg)];
    } else {
      var rest := msg[3..];
      SysExFraming(cable, rest);
      assert ps == [GroupPacket(cable, msg)] + SysExPackets(cable, rest);
      assert ps[|ps| - 1] == ps[1..][|ps| - 2];
      assert ps[1..] == SysExPackets(cable, rest);
      assert |msg| % 3 == |rest| % 3;
      forall i | 0 <= i < |ps| ensures HeaderCable(ps[i][0]) == cable % 16 {
        if i > 0 { assert ps[i] == ps[1..][i - 1]; }
      }
      forall i | 0 <= i < |ps| - 1 ensures HeaderCin(ps[i][0]) == 0x4 {
        if i > 0 { assert ps[i] == ps[1..][i - 1]; }
      }
    }
  }

  /** Unused bytes of the final packet are zero. */
  lemma SysExLastPadding(cable: Byte, msg: seq<Byte>)
    requires |msg| > 0
    ensures var ps := SysExPackets(cable, msg);
      var last := ps[|ps| - 1];
      (|msg| % 3 == 2 ==> last[3] == 0) && (|msg| % 3 == 1 ==> last[2] == 0 && last[3] == 0)
    decreases |msg|
  {
    if |msg| > 3 {
      SysExLastPadding(cable, msg[3..]);
      var ps := SysExPackets(cable, msg);
      assert ps[1..] == SysExPackets(cable, msg[3..]);
      assert ps[|ps| - 1] == ps[1..][|ps| - 2];
    }
  }

  /** What app_usbd_midi_write would send for the 11-byte SysEx message of
      the example application (which hands it to a SysEx entry point not
      part of this model) on cable 0: CINs 4, 4, 4, 6. A lone Tune Request
      gives [0x05, 0xF6, 0, 0]. */
  lemma SysExExamples()
    ensures var ps := SysExPackets(0, [0xF0, 0, 1, 2, 3, 4, 5, 6, 7, 8, 0xF7]);
      |ps| == 4 && ps[0][0] == 0x04 && ps[1][0] == 0x04 && ps[2][0] == 0x04 && ps[3] == [0x06, 8, 0xF7, 0]
    ensures SysExPackets(0, [0xF6]) == [[0x05, 0xF6, 0, 0]]
  {
    var msg: seq<Byte> := [0xF0, 0, 1, 2, 3, 4, 5, 6, 7, 8, 0xF7];
    assert msg[3..][3..][3..] == [8, 0xF7];
    assert SysExPackets(0, [8, 0xF7]) == [[0x06, 8, 0xF7, 0]];
  }

  // ---------------------------------------------------------------------
  // The loop counters as the source declares them
  // ---------------------------------------------------------------------

  /** One pass of the outer loop with `pos` and `left_to_send` held in
      uint8_t as written: the new value of `pos`. */
  function SysExStepAsWritten(len: nat, pos: Byte): (next: Byte)
    requires pos < len
    ensures (len - pos) % 256 == 0 ==> next == pos
    ensures (len - pos) % 256 != 0 ==> next != pos
  {
    var left := (len - pos) % 256;
    (pos + Min(left, 3)) % 256
  }

  /** One pass with wide counters: the model's loop advances `pos` this way. */
  function SysExStep(len: nat, pos: nat): (next: nat)
    requires pos < len
    ensures pos < next <= len && next - pos == Min(len - pos, 3)
  {
    pos + Min(len - pos, 3)
  }

  /** For a message of 256 bytes or more the loop condition `pos < len`
      holds after every pass, so the source's loop never ends; at len 256
      the first pass does not even advance `pos`. */
  lemma SysExAsWrittenNeverExits(len: nat, pos: Byte)
    requires len >= 256 && pos < len
    ensures SysExStepAsWritten(len, pos) < len
    ensures len == 256 && pos == 0 ==> SysExStepAsWritten(len, pos) == 0
  {
  }

  /** Up to 255 bytes the uint8_t counters do not wrap and both loops agree. */
  lemma SysExStepAgrees(len: nat, pos: Byte)
    requires pos < len <= 255
    ensures SysExStepAsWritten(len, pos) == SysExStep(len, pos)
  {
  }
}
