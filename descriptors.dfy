/** The constant descriptor tables of midi_usbd_descriptors.h and the
    consistency of their lengths, totals and cross-references (chapter 9 of
    the USB 2.0 specification; sections 4 and 6 of the USB Device Class
    Definition for MIDI Devices, Release 1.0). */
module Descriptors {
  import opened UsbTypes
  import UsbMidi

  type Bytes = seq<Byte>

  /** bDescriptorType values (USB 2.0 table 9-5; CS_INTERFACE and
      CS_ENDPOINT from the audio class definition). */
  const DeviceType: Byte := 0x01
  const ConfigurationType: Byte := 0x02
  const StringType: Byte := 0x03
  const InterfaceType: Byte := 0x04
  const EndpointType: Byte := 0x05
  const CsInterfaceType: Byte := 0x24
  const CsEndpointType: Byte := 0x25

  /** MIDIStreaming class-specific interface subtypes and jack types. */
  const MsHeader: Byte := 0x01
  const MidiInJack: Byte := 0x02
  const MidiOutJack: Byte := 0x03
  const Embedded: Byte := 0x01
  const External: Byte := 0x02

  /** String indices the device descriptor refers to. */
  const LangIndex: Byte := 0x00
  const ManufacturerIndex: Byte := 0x01
  const ProductIndex: Byte := 0x02

  // ---------------------------------------------------------------------
  // The tables
  // ---------------------------------------------------------------------

  const LangIdString: Bytes := [0x04, 0x03, 0x09, 0x04]

  const ManufacturerString: Bytes := [42, 0x03,
    'N' as int, 0, 'o' as int, 0, 'r' as int, 0, 'd' as int, 0, 'i' as int, 0,
    'c' as int, 0, ' ' as int, 0, 'S' as int, 0, 'e' as int, 0, 'm' as int, 0,
    'i' as int, 0, 'c' as int, 0, 'o' as int, 0, 'n' as int, 0, 'd' as int, 0,
    'u' as int, 0, 'c' as int, 0, 't' as int, 0, 'o' as int, 0, 'r' as int, 0]

  const ProductString: Bytes := [16, 0x03,
    'E' as int, 0, 'x' as int, 0, 'a' as int, 0, 'm' as int, 0, 'p' as int, 0,
    'l' as int, 0, 'e' as int, 0]

  const DeviceDescriptor: Bytes :=
    [0x12, 0x01, 0x00, 0x02, 0x00, 0x00, 0x00, 0x40, 0x15, 0x19, 0x0A, 0x52, 0x01, 0x01, 0x01, 0x02, 0x00, 0x01]

  const ConfigDescriptor: Bytes := [0x09, 0x02, 0x65, 0x00, 0x02, 0x01, 0x00, 0x80, 0x64]

  const AudioControlInterface: Bytes := [0x09, 0x04, 0x00, 0x00, 0x00, 0x01, 0x01, 0x00, 0x00]

  const AudioControlHeader: Bytes := [0x09, 0x24, 0x01, 0x00, 0x01, 0x09, 0x00, 0x01, 0x01]

  const MidiStreamingInterface: Bytes := [0x09, 0x04, 0x01, 0x00, 0x02, 0x01, 0x03, 0x00, 0x00]

  const MidiStreamingHeader: Bytes := [0x07, 0x24, 0x01, 0x00, 0x01, 0x41, 0x00]

  const EmbeddedInJack: Bytes := [0x06, 0x24, 0x02, 0x01, 0x01, 0x00]
  const ExternalInJack: Bytes := [0x06, 0x24, 0x02, 0x02, 0x02, 0x00]
  const EmbeddedOutJack: Bytes := [0x09, 0x24, 0x03, 0x01, 0x03, 0x01, 0x02, 0x01, 0x00]
  const ExternalOutJack: Bytes := [0x09, 0x24, 0x03, 0x02, 0x04, 0x01, 0x01, 0x01, 0x00]

  const BulkOutEndpoint: Bytes := [0x09, 0x05, 0x01, 0x02, 0x40, 0x00, 0x00, 0x00, 0x00]
  const CsBulkOutEndpoint: Bytes := [0x05, 0x25, 0x01, 0x01, 0x01]
  const BulkInEndpoint: Bytes := [0x09, 0x05, 0x81, 0x02, 0x40, 0x00, 0x00, 0x00, 0x00]
  const CsBulkInEndpoint: Bytes := [0x05, 0x25, 0x01, 0x01, 0x03]

  /** The MIDIStreaming block its header's wTotalLength covers: the header,
      the jacks, and each bulk endpoint followed by its class-specific
      endpoint descriptor. */
  const MidiStreamingBlock: seq<Bytes> := [
    MidiStreamingHeader, EmbeddedInJack, ExternalInJack, EmbeddedOutJack, ExternalOutJack,
    BulkOutEndpoint, CsBulkOutEndpoint, BulkInEndpoint, CsBulkInEndpoint]

  /** The whole configuration in the order Appendix B of the MIDI class
      definition lays it out. */
  const Configuration: seq<Bytes> := [
    ConfigDescriptor, AudioControlInterface, AudioControlHeader, MidiStreamingInterface] + MidiStreamingBlock

  // ---------------------------------------------------------------------
  // Fields and reference definitions
  // ---------------------------------------------------------------------

  /** A little-endian 16-bit field at offset `i`. */
  function Word(d: Bytes, i: nat): (w: U16)
    requires i + 1 < |d|
    ensures w % 256 == d[i] && w / 256 == d[i + 1]
  {
    var lo: int := d[i];
    var hi: int := d[i + 1];
    lo + 256 * hi
  }

  /** A descriptor's bLength is its own size (at least the two header bytes). */
  predicate SelfSized(d: Bytes)
  {
    |d| >= 2 && d[0] == |d|
  }

  function Concat(ds: seq<Bytes>): Bytes
    decreases |ds|
  {
    if ds == [] then [] else ds[0] + Concat(ds[1..])
  }

  /** How a host walks a block of concatenated descriptors: take bLength
      bytes, then continue after them. None when a bLength is below 2 or
      runs past the end. */
  function Split(b: Bytes): (r: Option<seq<Bytes>>)
    ensures r.Some? ==> Concat(r.value) == b && forall d :: d in r.value ==> SelfSized(d)
    decreases |b|
  {
    if b == [] then Some([])
    else if |b| < 2 || b[0] < 2 || b[0] > |b| then None
    else
      match Split(b[b[0]..])
      case None => None
      case Some(rest) =>
        var ds := [b[..b[0]]] + rest;
        assert ds[1..] == rest;
        assert b == b[..b[0]] + b[b[0]..];
        Some(ds)
  }

  /** Sizes of the descriptors `ds[k..]`, added up. */
  function TotalLength(ds: seq<Bytes>, k: nat): nat
    requires k <= |ds|
    decreases |ds| - k
  {
    if k == |ds| then 0 else |ds[k]| + TotalLength(ds, k + 1)
  }

  lemma {:induction false} ConcatLength(ds: seq<Bytes>, k: nat)
    requires k <= |ds|
    ensures |Concat(ds[k..])| == TotalLength(ds, k)
    decreases |ds| - k
  {
    if k < |ds| {
      assert ds[k..][1..] == ds[k + 1..];
      ConcatLength(ds, k + 1);
    }
  }

  /** Walking self-sized descriptors laid end to end gives them back. */
  lemma {:induction false} SplitConcat(ds: seq<Bytes>)
    requires forall d :: d in ds ==> SelfSized(d)
    ensures Split(Concat(ds)) == Some(ds)
    decreases |ds|
  {
    if ds != [] {
      var b := Concat(ds);
      assert forall d :: d in ds[1..] ==> d in ds;
      SplitConcat(ds[1..]);
      assert ds[0] in ds;
      assert b == ds[0] + Concat(ds[1..]);
      assert b[..ds[0][0]] == ds[0] && b[ds[0][0]..] == Concat(ds[1..]);
      assert [ds[0]] + ds[1..] == ds;
    }
  }

  /** A string descriptor for text of one-byte characters: its length
      byte, type STRING, then each character as UTF-16LE. */
  ghost predicate IsStringDescriptor(d: Bytes, text: string)
  {
    && |d| == 2 + 2 * |text|
    && d[0] == |d| && d[1] == StringType
    && forall i :: 0 <= i < |text| ==> d[2 + 2 * i] == text[i] as int && d[3 + 2 * i] == 0
  }

  /** The characters `text[i..]` are spelled at their places in `d`, one
      at a time. */
  predicate SpellsFrom(d: Bytes, text: string, i: nat)
    requires |d| == 2 + 2 * |text| && i <= |text|
    decreases |text| - i
  {
    i == |text| || (d[2 + 2 * i] == text[i] as int && d[3 + 2 * i] == 0 && SpellsFrom(d, text, i + 1))
  }

  lemma {:induction false} SpellsFromAll(d: Bytes, text: string, i: nat)
    requires |d| == 2 + 2 * |text| && i <= |text| && SpellsFrom(d, text, i)
    ensures forall j :: i <= j < |text| ==> d[2 + 2 * j] == text[j] as int && d[3 + 2 * j] == 0
    decreases |text| - i
  {
    if i < |text| {
      SpellsFromAll(d, text, i + 1);
    }
  }

  /** The jack descriptors among `ds[k..]`: their kind and ID. */
  predicate IsJack(d: Bytes)
  {
    |d| >= 5 && d[1] == CsInterfaceType && (d[2] == MidiInJack || d[2] == MidiOutJack)
  }

  function JackIds(ds: seq<Bytes>, k: nat): seq<Byte>
    requires k <= |ds|
    decreases |ds| - k
  {
    if k == |ds| then [] else (if IsJack(ds[k]) then [ds[k][4]] else []) + JackIds(ds, k + 1)
  }

  /** The first jack among `ds[k..]` with the ID `id`. */
  function FindJack(ds: seq<Bytes>, k: nat, id: Byte): (r: Option<Bytes>)
    requires k <= |ds|
    ensures r.Some? ==> r.value in ds && IsJack(r.value) && r.value[4] == id
    ensures r.None? <==> id !in JackIds(ds, k)
    decreases |ds| - k
  {
    if k == |ds| then None
    else if IsJack(ds[k]) && ds[k][4] == id then Some(ds[k])
    else FindJack(ds, k + 1, id)
  }

  /** Addresses of the standard endpoint descriptors among `ds[k..]`. */
  function EndpointAddresses(ds: seq<Bytes>, k: nat): seq<Byte>
    requires k <= |ds|
    decreases |ds| - k
  {
    if k == |ds| then []
    else (if |ds[k]| >= 7 && ds[k][1] == EndpointType then [ds[k][2]] else []) + EndpointAddresses(ds, k + 1)
  }

  /** Numbers of the standard interface descriptors among `ds[k..]`. */
  function InterfaceNumbers(ds: seq<Bytes>, k: nat): seq<Byte>
    requires k <= |ds|
    decreases |ds| - k
  {
    if k == |ds| then []
    else (if |ds[k]| >= 9 && ds[k][1] == InterfaceType then [ds[k][2]] else []) + InterfaceNumbers(ds, k + 1)
  }

  // ---------------------------------------------------------------------
  // Consistency of the tables
  // ---------------------------------------------------------------------

  /** Every descriptor's bLength equals its size, and the configuration
      block splits back into exactly its descriptors. */
  lemma ConfigurationSplits()
    ensures SelfSized(DeviceDescriptor) && |DeviceDescriptor| == 18
    ensures forall d :: d in Configuration ==> SelfSized(d)
    ensures Split(Concat(Configuration)) == Some(Configuration)
  {
    SplitConcat(Configuration);
  }

  /** The manufacturer string spells "Nordic Semiconductor" in 42 bytes. */
  lemma ManufacturerStringSpelled()
    ensures IsStringDescriptor(ManufacturerString, "Nordic Semiconductor") && |ManufacturerString| == 42
  {
    var text := "Nordic Semiconductor";
    assert |text| == 20 && |ManufacturerString| == 42;
    assert ManufacturerString[0] == 42;
    assert ManufacturerString[1] == StringType;
    assert ManufacturerString[0] == |ManufacturerString|;
    assert SpellsFrom(ManufacturerString, text, 19);
    assert SpellsFrom(ManufacturerString, text, 18);
    assert SpellsFrom(ManufacturerString, text, 17);
    assert SpellsFrom(ManufacturerString, text, 16);
    assert SpellsFrom(ManufacturerString, text, 15);
    assert SpellsFrom(ManufacturerString, text, 14);
    assert SpellsFrom(ManufacturerString, text, 13);
    assert SpellsFrom(ManufacturerString, text, 12);
    assert SpellsFrom(ManufacturerString, text, 11);
    assert SpellsFrom(ManufacturerString, text, 10);
    assert SpellsFrom(ManufacturerString, text, 9);
    assert SpellsFrom(ManufacturerString, text, 8);
    assert SpellsFrom(ManufacturerString, text, 7);
    assert SpellsFrom(ManufacturerString, text, 6);
    assert SpellsFrom(ManufacturerString, text, 5);
    assert SpellsFrom(ManufacturerString, text, 4);
    assert SpellsFrom(ManufacturerString, text, 3);
    assert SpellsFrom(ManufacturerString, text, 2);
    assert SpellsFrom(ManufacturerString, text, 1);
    assert SpellsFrom(ManufacturerString, text, 0);
    SpellsFromAll(ManufacturerString, text, 0);
  }

  /** The product string spells "Example" in 16 bytes; the language table
      is a 4-byte string descriptor listing US English, 0x0409. */
  lemma ProductAndLanguageStrings()
    ensures IsStringDescriptor(ProductString, "Example") && |ProductString| == 16
    ensures SelfSized(LangIdString) && LangIdString[1] == StringType && Word(LangIdString, 2) == 0x0409
  {
    SpellsFromAll(ProductString, "Example", 0);
  }

  /** The device descriptor names the string indices of the two strings,
      USB 2.0, a 64-byte control endpoint and one configuration. */
  lemma DeviceDescriptorFields()
    ensures DeviceDescriptor[1] == DeviceType && Word(DeviceDescriptor, 2) == 0x0200
    ensures DeviceDescriptor[7] == 64
    ensures DeviceDescriptor[14] == ManufacturerIndex && DeviceDescriptor[15] == ProductIndex
    ensures DeviceDescriptor[17] == 1 && ConfigDescriptor[5] == 1
  {
  }

  /** wTotalLength of the configuration covers every descriptor of it, and
      that of the MIDIStreaming header covers the header, the jacks and the
      endpoints; the AudioControl header covers only itself. */
  lemma TotalLengths()
    ensures Word(ConfigDescriptor, 2) == |Concat(Configuration)| == 101
    ensures Word(MidiStreamingHeader, 5) == |Concat(MidiStreamingBlock)| == 65
    ensures Word(AudioControlHeader, 5) == |AudioControlHeader|
  {
    ConcatLength(Configuration, 0);
    ConcatLength(MidiStreamingBlock, 0);
    assert Configuration[0..] == Configuration && MidiStreamingBlock[0..] == MidiStreamingBlock;
    assert TotalLength(Configuration, 12) == 5;
    assert TotalLength(Configuration, 11) == 14;
    assert TotalLength(Configuration, 10) == 19;
    assert TotalLength(Configuration, 9) == 28;
    assert TotalLength(Configuration, 8) == 37;
    assert TotalLength(Configuration, 7) == 46;
    assert TotalLength(Configuration, 6) == 52;
    assert TotalLength(Configuration, 5) == 58;
    assert TotalLength(Configuration, 4) == 65;
    assert TotalLength(Configuration, 3) == 74;
    assert TotalLength(Configuration, 2) == 83;
    assert TotalLength(Configuration, 1) == 92;
    assert TotalLength(MidiStreamingBlock, 8) == 5;
    assert TotalLength(MidiStreamingBlock, 7) == 14;
    assert TotalLength(MidiStreamingBlock, 6) == 19;
    assert TotalLength(MidiStreamingBlock, 5) == 28;
    assert TotalLength(MidiStreamingBlock, 4) == 37;
    assert TotalLength(MidiStreamingBlock, 3) == 46;
    assert TotalLength(MidiStreamingBlock, 2) == 52;
    assert TotalLength(MidiStreamingBlock, 1) == 58;
  }

  /** The configuration has two interfaces, numbered 0 and 1; the
      AudioControl header's one streaming interface is number 1, the
      MIDIStreaming interface. */
  lemma InterfaceCounts()
    ensures InterfaceNumbers(Configuration, 0) == [0, 1]
    ensures ConfigDescriptor[4] == |InterfaceNumbers(Configuration, 0)|
    ensures AudioControlHeader[7] == 1 && AudioControlHeader[8] == MidiStreamingInterface[2]
  {
    assert InterfaceNumbers(Configuration, 12) == [];
    assert InterfaceNumbers(Configuration, 11) == [];
    assert InterfaceNumbers(Configuration, 10) == [];
    assert InterfaceNumbers(Configuration, 9) == [];
    assert InterfaceNumbers(Configuration, 8) == [];
    assert InterfaceNumbers(Configuration, 7) == [];
    assert InterfaceNumbers(Configuration, 6) == [];
    assert InterfaceNumbers(Configuration, 5) == [];
    assert InterfaceNumbers(Configuration, 4) == [];
    assert InterfaceNumbers(Configuration, 3) == [1];
    assert InterfaceNumbers(Configuration, 2) == [1];
  }

  /** Jack IDs are 1 to 4, each declared once. */
  lemma JackIdsDistinct()
    ensures JackIds(MidiStreamingBlock, 0) == [1, 2, 3, 4]
  {
    assert JackIds(MidiStreamingBlock, 8) == [];
    assert JackIds(MidiStreamingBlock, 7) == [];
    assert JackIds(MidiStreamingBlock, 6) == [];
    assert JackIds(MidiStreamingBlock, 5) == [];
    assert JackIds(MidiStreamingBlock, 4) == [4];
    assert JackIds(MidiStreamingBlock, 3) == [3, 4];
    assert JackIds(MidiStreamingBlock, 2) == [2, 3, 4];
  }

  /** Each OUT jack takes its input from a declared IN jack, the other
      kind of the two: the embedded OUT jack from the external IN jack, the
      external OUT jack from the embedded IN jack. */
  lemma OutJackSources()
    ensures FindJack(MidiStreamingBlock, 0, EmbeddedOutJack[6]) == Some(ExternalInJack)
    ensures FindJack(MidiStreamingBlock, 0, ExternalOutJack[6]) == Some(EmbeddedInJack)
    ensures ExternalInJack[2] == MidiInJack && ExternalInJack[3] == External
  {
    var b := MidiStreamingBlock;
    assert !IsJack(b[0]) && IsJack(b[1]) && b[1][4] == 1;
    assert FindJack(b, 0, 1) == FindJack(b, 1, 1);
    assert ExternalOutJack[6] == 1 && EmbeddedOutJack[6] == 2;
    assert FindJack(b, 2, 2) == Some(ExternalInJack);
    assert FindJack(b, 1, 2) == FindJack(b, 2, 2);
  }

  /** The class-specific endpoint descriptors associate declared jacks:
      the OUT endpoint feeds the embedded IN jack and the IN endpoint
      drains the embedded OUT jack. */
  lemma EndpointJacks()
    ensures FindJack(MidiStreamingBlock, 0, CsBulkOutEndpoint[4]) == Some(EmbeddedInJack)
    ensures FindJack(MidiStreamingBlock, 0, CsBulkInEndpoint[4]) == Some(EmbeddedOutJack)
    ensures EmbeddedInJack[2] == MidiInJack && EmbeddedInJack[3] == Embedded
    ensures EmbeddedOutJack[2] == MidiOutJack && EmbeddedOutJack[3] == Embedded
  {
    var b := MidiStreamingBlock;
    assert !IsJack(b[0]) && IsJack(b[1]) && b[1][4] == 1;
    assert FindJack(b, 0, 1) == FindJack(b, 1, 1);
    assert FindJack(b, 3, 3) == Some(EmbeddedOutJack);
    assert FindJack(b, 2, 3) == FindJack(b, 3, 3);
    assert FindJack(b, 1, 3) == FindJack(b, 2, 3);
  }

  /** The MIDIStreaming interface declares two endpoints and has exactly
      two: bulk OUT 1 and bulk IN 1, 64-byte packets each (a whole number of
      4-byte event packets), the endpoints the class instance drives. */
  lemma EndpointsAgree()
    ensures EndpointAddresses(Configuration, 0) == [EpOut1, EpIn1]
    ensures MidiStreamingInterface[4] == |EndpointAddresses(Configuration, 0)|
    ensures BulkOutEndpoint[3] == 0x02 && BulkInEndpoint[3] == 0x02
    ensures Word(BulkOutEndpoint, 4) == 64 && Word(BulkInEndpoint, 4) == 64 && 64 % EventSize == 0
    ensures forall ep :: ep in EndpointAddresses(Configuration, 0) <==> ep in UsbMidi.MidiInterfaces[1].eps
  {
    assert EndpointAddresses(Configuration, 12) == [];
    assert EndpointAddresses(Configuration, 11) == [EpIn1];
    assert EndpointAddresses(Configuration, 10) == [EpIn1];
    assert EndpointAddresses(Configuration, 9) == [EpOut1, EpIn1];
    assert EndpointAddresses(Configuration, 8) == [EpOut1, EpIn1];
    assert EndpointAddresses(Configuration, 7) == [EpOut1, EpIn1];
    assert EndpointAddresses(Configuration, 6) == [EpOut1, EpIn1];
    assert EndpointAddresses(Configuration, 5) == [EpOut1, EpIn1];
    assert EndpointAddresses(Configuration, 4) == [EpOut1, EpIn1];
    assert EndpointAddresses(Configuration, 3) == [EpOut1, EpIn1];
    assert EndpointAddresses(Configuration, 2) == [EpOut1, EpIn1];
    assert EndpointAddresses(Configuration, 1) == [EpOut1, EpIn1];
  }
}
