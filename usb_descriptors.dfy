/**
 * The descriptor table the gamepad registers with the USB stack (hid_descriptor
 * in usb_app.c): device, configuration, interface, HID class and endpoint
 * descriptors followed by the string descriptors, closed by a zero byte.
 *
 * The stack's initialiser macros (USB_DEVICE_DESCRIPTOR_INIT,
 * USB_CONFIG_DESCRIPTOR_INIT, USB_LANGID_INIT) are written out as functions.
 * Their field order is that of tables 9-8, 9-10 and 9-15 of the USB 2.0
 * specification. The values the macros fill in themselves are those of
 * CherryUSB's expansion, which is not part of this model: bMaxPacketSize0 0x40,
 * iManufacturer, iProduct and iSerialNumber 1, 2 and 3, iConfiguration 0, and
 * USB_CONFIG_BUS_POWERED as 0x80.
 */
module UsbDescriptors {
  import opened CInts
  import opened UsbReport
  import HidReportDescriptor

  // bDescriptorType values (USB 2.0 table 9-5; HID 1.11 section 7.1)
  const TypeDevice: bv8 := 0x01
  const TypeConfiguration: bv8 := 0x02
  const TypeString: bv8 := 0x03
  const TypeInterface: bv8 := 0x04
  const TypeEndpoint: bv8 := 0x05
  const TypeHid: bv8 := 0x21
  const TypeHidReport: bv8 := 0x22

  const Usb20: bv16 := 0x0200
  const ConfigBusPowered: bv8 := 0x80
  const EndpointInterrupt: bv8 := 0x03
  const InterfaceClassHid: bv8 := 0x03

  // String descriptor indices the device descriptor refers to
  const StringManufacturerIndex: bv8 := 1
  const StringProductIndex: bv8 := 2
  const StringSerialIndex: bv8 := 3

  /** The value of the 16-bit field at offset `i`, stored low byte first. */
  function WordAt(d: seq<bv8>, i: nat): bv16
    requires i + 2 <= |d|
  {
    JoinBytes(d[i], d[i + 1])
  }

  /** Standard device descriptor (USB 2.0 section 9.6.1), bMaxPacketSize0 64. */
  function DeviceDescriptorInit(bcdUsb: bv16, devClass: bv8, subClass: bv8, protocol: bv8,
                                vid: bv16, pid: bv16, bcdDevice: bv16, numConfigurations: bv8): (d: seq<bv8>)
    ensures |d| == 18 && d[0] as int == |d| && d[1] == TypeDevice
    ensures WordAt(d, 2) == bcdUsb && WordAt(d, 8) == vid && WordAt(d, 10) == pid && WordAt(d, 12) == bcdDevice
    ensures d[4] == devClass && d[5] == subClass && d[6] == protocol
    ensures d[14] == StringManufacturerIndex && d[15] == StringProductIndex
    ensures d[16] == StringSerialIndex && d[17] == numConfigurations
  {
    JoinSplit(bcdUsb);
    JoinSplit(vid);
    JoinSplit(pid);
    JoinSplit(bcdDevice);
    [0x12, TypeDevice, LowByte(bcdUsb), HighByte(bcdUsb), devClass, subClass, protocol, 0x40,
     LowByte(vid), HighByte(vid), LowByte(pid), HighByte(pid), LowByte(bcdDevice), HighByte(bcdDevice),
     StringManufacturerIndex, StringProductIndex, StringSerialIndex, numConfigurations]
  }

  /** Standard configuration descriptor (USB 2.0 section 9.6.3); bMaxPower counts 2 mA units. */
  function ConfigDescriptorInit(totalLength: bv16, numInterfaces: bv8, configurationValue: bv8,
                                attributes: bv8, maxPowerMa: nat): (d: seq<bv8>)
    requires maxPowerMa < 512
    ensures |d| == 9 && d[0] as int == |d| && d[1] == TypeConfiguration
    ensures WordAt(d, 2) == totalLength && d[4] == numInterfaces
    ensures d[5] == configurationValue && d[7] == attributes
    ensures 2 * d[8] as int <= maxPowerMa < 2 * d[8] as int + 2
  {
    JoinSplit(totalLength);
    [0x09, TypeConfiguration, LowByte(totalLength), HighByte(totalLength),
     numInterfaces, configurationValue, 0x00, attributes, ByteOf(maxPowerMa / 2)]
  }

  /** String descriptor zero: the one supported language (USB 2.0 section 9.6.7). */
  function LangIdInit(langId: bv16): (d: seq<bv8>)
    ensures |d| == 4 && d[0] as int == |d| && d[1] == TypeString && WordAt(d, 2) == langId
  {
    JoinSplit(langId);
    [0x04, TypeString, LowByte(langId), HighByte(langId)]
  }

  /** Text the string descriptors spell out: one byte per character. */
  predicate IsNarrowText(text: string) {
    forall k | 0 <= k < |text| :: text[k] as int < 256
  }

  /** Every UTF-16LE code unit of `b` has a zero high byte: the unit is one Latin-1 character. */
  predicate NarrowUnits(b: seq<bv8>)
    requires |b| % 2 == 0
  {
    forall k | 0 <= k < |b| / 2 :: b[2 * k + 1] == 0
  }

  /** The k-th UTF-16LE code unit of `b`: low byte first, then high byte. */
  function CodeUnit(b: seq<bv8>, k: nat): (u: int)
    requires 2 * k + 1 < |b|
    ensures 0 <= u < 0x1_0000
    ensures u < 256 <==> b[2 * k + 1] == 0
    ensures u % 256 == b[2 * k] as int && u / 256 == b[2 * k + 1] as int
  {
    b[2 * k] as int + 256 * b[2 * k + 1] as int
  }

  /** A code unit as a character; a lone surrogate (0xD800-0xDFFF) reads as U+FFFD. */
  function UnitChar(u: int): (c: char)
    requires 0 <= u < 0x1_0000
    ensures c as int == u || (0xD800 <= u < 0xE000 && c as int == 0xFFFD)
    ensures c as int < 256 <==> u < 256
  {
    if 0xD800 <= u < 0xE000 then 0xFFFD as char else u as char
  }

  /**
   * The text of a run of UTF-16LE code units, one character per unit (the
   * descriptors' texts have no surrogate pairs). A character is below 256
   * exactly when its unit's high byte is zero.
   */
  function Utf16LeText(b: seq<bv8>): (text: string)
    requires |b| % 2 == 0
    ensures |text| == |b| / 2
    ensures forall k | 0 <= k < |text| :: text[k] as int < 256 <==> b[2 * k + 1] == 0
  {
    seq(|b| / 2, k requires 0 <= k < |b| / 2 => UnitChar(CodeUnit(b, k)))
  }

  /** The text is one byte per character exactly when every code unit's high byte is zero. */
  lemma NarrowTextIffNarrowUnits(b: seq<bv8>)
    requires |b| % 2 == 0
    ensures IsNarrowText(Utf16LeText(b)) <==> NarrowUnits(b)
  {
    var text := Utf16LeText(b);
    if IsNarrowText(text) {
      forall k | 0 <= k < |b| / 2 ensures b[2 * k + 1] == 0 {
        assert text[k] as int < 256;
      }
    }
    if NarrowUnits(b) {
      forall k | 0 <= k < |text| ensures text[k] as int < 256 {
        assert b[2 * k + 1] == 0;
      }
    }
  }

  /** Reading code units in two parts reads the two parts' texts one after the other. */
  lemma Utf16LeTextConcat(a: seq<bv8>, b: seq<bv8>)
    requires |a| % 2 == 0 && |b| % 2 == 0
    ensures Utf16LeText(a + b) == Utf16LeText(a) + Utf16LeText(b)
  {
    var l, r := Utf16LeText(a + b), Utf16LeText(a) + Utf16LeText(b);
    assert |l| == |r|;
    forall k | 0 <= k < |l| ensures l[k] == r[k] {
      if k < |a| / 2 {
        assert CodeUnit(a + b, k) == CodeUnit(a, k) by {
          assert (a + b)[2 * k] == a[2 * k] && (a + b)[2 * k + 1] == a[2 * k + 1];
        }
      } else {
        var j := k - |a| / 2;
        assert 2 * k - |a| == 2 * j;
        assert CodeUnit(a + b, k) == CodeUnit(b, j) by {
          assert (a + b)[2 * k] == b[2 * j] && (a + b)[2 * k + 1] == b[2 * j + 1];
        }
        assert r[k] == Utf16LeText(b)[j];
      }
    }
  }

  /** The high byte counts: a unit with a nonzero high byte is not the character of its low byte. */
  lemma HighByteIsRead()
    ensures Utf16LeText([0x4D, 0x00]) == "M"
    ensures Utf16LeText([0x4D, 0x01]) != "M"
  {
    assert CodeUnit([0x4D, 0x00], 0) == 0x4D;
    assert CodeUnit([0x4D, 0x01], 0) == 0x14D;
    assert Utf16LeText([0x4D, 0x01])[0] as int == 0x14D;
  }

  /** The code units from offset i to k of `d`, read in two parts split at offset j. */
  lemma Utf16LeTextSplit(d: seq<bv8>, i: nat, j: nat, k: nat)
    requires i <= j <= k <= |d| && (j - i) % 2 == 0 && (k - j) % 2 == 0
    ensures Utf16LeText(d[i..k]) == Utf16LeText(d[i..j]) + Utf16LeText(d[j..k])
  {
    assert d[i..k] == d[i..j] + d[j..k];
    Utf16LeTextConcat(d[i..j], d[j..k]);
  }

  const ManufacturerText: string := "Michu Electronic"
  const ProductText: string := "USB Gamepad HID"
  const SerialText: string := "MCXA156-001"

  lemma TextsAreNarrow()
    ensures IsNarrowText(ManufacturerText) && IsNarrowText(ProductText) && IsNarrowText(SerialText)
  {
  }

  // The blocks of hid_descriptor, in table order.

  const DeviceDesc: seq<bv8> :=
    DeviceDescriptorInit(Usb20, 0x00, 0x00, 0x00, UsbdVid, UsbdPid, 0x0100, 0x01)

  const ConfigDesc: seq<bv8> :=
    ConfigDescriptorInit(34, 0x01, 0x01, ConfigBusPowered, UsbdMaxPowerMa)

  const InterfaceDesc: seq<bv8> := [0x09, TypeInterface, 0x00, 0x00, 0x01, InterfaceClassHid, 0x00, 0x00, 0x00]

  /** HID descriptor (HID 1.11 section 6.2.1): bcdHID 1.11, one report descriptor of 83 bytes. */
  const HidDesc: seq<bv8> := [0x09, TypeHid, 0x11, 0x01, 0x00, 0x01, TypeHidReport, 83, 0x00]

  const EndpointDesc: seq<bv8> := [0x07, TypeEndpoint, HidIntEp, EndpointInterrupt, 9, 0x00, HidIntEpInterval]

  const LangIdDesc: seq<bv8> := LangIdInit(UsbdLangIdString)

  // The three string descriptors, byte for byte as the table spells them out.

  /** "Michu Electronic" */
  const ManufacturerDesc: seq<bv8> :=
    [0x22, TypeString]
    + [0x4D, 0x00, 0x69, 0x00, 0x63, 0x00, 0x68, 0x00]
    + [0x75, 0x00, 0x20, 0x00, 0x45, 0x00, 0x6C, 0x00]
    + [0x65, 0x00, 0x63, 0x00, 0x74, 0x00, 0x72, 0x00]
    + [0x6F, 0x00, 0x6E, 0x00, 0x69, 0x00, 0x63, 0x00]

  /** "USB Gamepad HID" */
  const ProductDesc: seq<bv8> :=
    [0x20, TypeString]
    + [0x55, 0x00, 0x53, 0x00, 0x42, 0x00, 0x20, 0x00]
    + [0x47, 0x00, 0x61, 0x00, 0x6D, 0x00, 0x65, 0x00]
    + [0x70, 0x00, 0x61, 0x00, 0x64, 0x00, 0x20, 0x00]
    + [0x48, 0x00, 0x49, 0x00, 0x44, 0x00]

  /** "MCXA156-001" */
  const SerialDesc: seq<bv8> :=
    [0x18, TypeString]
    + [0x4D, 0x00, 0x43, 0x00, 0x58, 0x00, 0x41, 0x00]
    + [0x31, 0x00, 0x35, 0x00, 0x36, 0x00, 0x2D, 0x00]
    + [0x30, 0x00, 0x30, 0x00, 0x31, 0x00]

  const TableBlocks: seq<seq<bv8>> := [
    DeviceDesc, ConfigDesc, InterfaceDesc, HidDesc, EndpointDesc,
    LangIdDesc, ManufacturerDesc, ProductDesc, SerialDesc]

  /** The descriptors one after the other. */
  function Concat(ds: seq<seq<bv8>>): (s: seq<bv8>)
  {
    if ds == [] then [] else ds[0] + Concat(ds[1..])
  }

  /** The whole table: the blocks, then the zero byte that ends it (full speed build). */
  const HidDescriptorTable: seq<bv8> := Concat(TableBlocks) + [0x00]

  /**
   * How the stack reads the table: one descriptor per bLength, until a zero
   * length byte. None when a length is below 2 or runs past the end.
   */
  function Descriptors(s: seq<bv8>): Option<seq<seq<bv8>>>
    decreases |s|
  {
    if s == [] then None
    else if s[0] == 0 then Some([])
    else if s[0] < 2 || s[0] as int > |s| then None
    else
      match Descriptors(s[s[0] as int..])
      case None => None
      case Some(rest) => Some([s[..s[0] as int]] + rest)
  }

  /** A descriptor whose first byte is its own length. */
  predicate SelfDelimited(d: seq<bv8>) {
    2 <= |d| < 256 && d[0] as int == |d|
  }

  lemma DescriptorsCons(d: seq<bv8>, rest: seq<bv8>)
    requires SelfDelimited(d)
    ensures Descriptors(d + rest) ==
      if Descriptors(rest).Some? then Some([d] + Descriptors(rest).value) else None
  {
    var s := d + rest;
    assert s[0] == d[0];
    assert s[|d|..] == rest;
    assert s[..|d|] == d;
  }

  /** Reading back self-delimited descriptors laid end to end gives exactly those descriptors. */
  lemma {:induction false} DescriptorsConcat(ds: seq<seq<bv8>>)
    requires forall k | 0 <= k < |ds| :: SelfDelimited(ds[k])
    ensures Descriptors(Concat(ds) + [0x00]) == Some(ds)
    decreases |ds|
  {
    if ds != [] {
      DescriptorsConcat(ds[1..]);
      assert Concat(ds) + [0x00] == ds[0] + (Concat(ds[1..]) + [0x00]);
      DescriptorsCons(ds[0], Concat(ds[1..]) + [0x00]);
      assert ds == [ds[0]] + ds[1..];
    }
  }

  lemma BlocksSelfDelimited()
    ensures forall k | 0 <= k < |TableBlocks| :: SelfDelimited(TableBlocks[k])
  {
    StringsSelfDelimited();
    assert SelfDelimited(DeviceDesc) && SelfDelimited(ConfigDesc) && SelfDelimited(InterfaceDesc);
    assert SelfDelimited(HidDesc) && SelfDelimited(EndpointDesc) && SelfDelimited(LangIdDesc);
    forall k | 0 <= k < |TableBlocks| ensures SelfDelimited(TableBlocks[k]) {
      if k < 3 {
        assert TableBlocks[k] in {DeviceDesc, ConfigDesc, InterfaceDesc};
      } else if k < 6 {
        assert TableBlocks[k] in {HidDesc, EndpointDesc, LangIdDesc};
      } else {
        assert TableBlocks[k] in {ManufacturerDesc, ProductDesc, SerialDesc};
      }
    }
  }

  lemma StringsSelfDelimited()
    ensures SelfDelimited(ManufacturerDesc) && SelfDelimited(ProductDesc) && SelfDelimited(SerialDesc)
  {
    assert |ManufacturerDesc| == 34 && |ProductDesc| == 32 && |SerialDesc| == 24;
  }

  /**
   * The table reads back as nine descriptors of the expected types, in order:
   * device, configuration, interface, HID, endpoint, then four strings.
   */
  lemma TableLayout()
    ensures Descriptors(HidDescriptorTable) == Some(TableBlocks)
    ensures |TableBlocks| == 9
    ensures TableBlocks[0][1] == TypeDevice && TableBlocks[1][1] == TypeConfiguration
    ensures TableBlocks[2][1] == TypeInterface && TableBlocks[3][1] == TypeHid
    ensures TableBlocks[4][1] == TypeEndpoint
    ensures forall k | 5 <= k < 9 :: TableBlocks[k][1] == TypeString
  {
    TableReadsBack();
    TableBlockTypes();
  }

  lemma TableReadsBack()
    ensures Descriptors(HidDescriptorTable) == Some(TableBlocks)
  {
    BlocksSelfDelimited();
    DescriptorsConcat(TableBlocks);
  }

  lemma TableBlockTypes()
    ensures |TableBlocks| == 9
    ensures TableBlocks[0][1] == TypeDevice && TableBlocks[1][1] == TypeConfiguration
    ensures TableBlocks[2][1] == TypeInterface && TableBlocks[3][1] == TypeHid
    ensures TableBlocks[4][1] == TypeEndpoint
    ensures forall k | 5 <= k < 9 :: TableBlocks[k][1] == TypeString
  {
  }

  /**
   * wTotalLength (USB_HID_CONFIG_DESC_SIZ = 34) counts exactly the
   * configuration, interface, HID and endpoint descriptors that follow it.
   */
  lemma ConfigTotalLength()
    ensures WordAt(ConfigDesc, 2) as int == UsbHidConfigDescSiz
    ensures |ConfigDesc| + |InterfaceDesc| + |HidDesc| + |EndpointDesc| == UsbHidConfigDescSiz
  {
  }

  /**
   * The HID descriptor announces one report descriptor (type 0x22) whose length,
   * low byte 83 and high byte 0, is the length of the report descriptor table.
   */
  lemma HidDescriptorLength()
    ensures HidDesc[5] == 1 && HidDesc[6] == TypeHidReport
    ensures WordAt(HidDesc, 7) as int == HidGamepadReportDescSize == |HidReportDescriptor.ReportDesc|
    ensures HidDesc[8] == 0 && HidDesc[7] as int == HidGamepadReportDescSize
  {
    HidReportDescriptor.ReportDescFields();
  }

  /**
   * The one endpoint is interrupt IN endpoint 1 polled every frame, and its
   * maximum packet is exactly one packed report.
   */
  lemma EndpointCarriesOneReport()
    ensures EndpointDesc[2] & 0x80 != 0 && EndpointDesc[2] & 0x0F == 1
    ensures EndpointDesc[3] == EndpointInterrupt && EndpointDesc[6] == 1
    ensures forall r: Report :: WordAt(EndpointDesc, 4) as int == |Encode(r)| == HidIntEpSize
    ensures InterfaceDesc[4] == 1 && InterfaceDesc[5] == InterfaceClassHid
  {
  }

  /** The configuration is bus powered and asks for 100 mA, written as 50 units of 2 mA. */
  lemma ConfigPower()
    ensures ConfigDesc[7] == ConfigBusPowered && ConfigDesc[8] == 50
    ensures ConfigDesc[4] == 1 && ConfigDesc[5] == 1
  {
    BvValueInjective(ConfigDesc[8], 50);
  }

  // The string descriptors' code units, four characters at a time.

  lemma ManufacturerUnits1()
    ensures Utf16LeText(ManufacturerDesc[2..10]) == "Mich"
  {
  }

  lemma ManufacturerUnits2()
    ensures Utf16LeText(ManufacturerDesc[10..18]) == "u El"
  {
  }

  lemma ManufacturerUnits3()
    ensures Utf16LeText(ManufacturerDesc[18..26]) == "ectr"
  {
  }

  lemma ManufacturerUnits4()
    ensures Utf16LeText(ManufacturerDesc[26..34]) == "onic"
  {
  }

  lemma ProductUnits1()
    ensures Utf16LeText(ProductDesc[2..10]) == "USB "
  {
  }

  lemma ProductUnits2()
    ensures Utf16LeText(ProductDesc[10..18]) == "Game"
  {
  }

  lemma ProductUnits3()
    ensures Utf16LeText(ProductDesc[18..26]) == "pad "
  {
  }

  lemma ProductUnits4()
    ensures Utf16LeText(ProductDesc[26..32]) == "HID"
  {
  }

  lemma SerialUnits1()
    ensures Utf16LeText(SerialDesc[2..10]) == "MCXA"
  {
  }

  lemma SerialUnits2()
    ensures Utf16LeText(SerialDesc[10..18]) == "156-"
  {
  }

  lemma SerialUnits3()
    ensures Utf16LeText(SerialDesc[18..24]) == "001"
  {
  }

  /**
   * Each string descriptor's bLength is two header bytes plus two bytes per
   * character of its text, and its body decodes back to that text.
   */
  lemma ManufacturerTextChunks()
    ensures "Mich" + "u El" + "ectr" + "onic" == ManufacturerText
  {
  }

  lemma ManufacturerString()
    ensures ManufacturerDesc[0] as int == 2 + 2 * |ManufacturerText| == 0x22 && ManufacturerDesc[1] == TypeString
    ensures Utf16LeText(ManufacturerDesc[2..]) == ManufacturerText
    ensures NarrowUnits(ManufacturerDesc[2..])
  {
    var d := ManufacturerDesc;
    ManufacturerUnits1();
    ManufacturerUnits2();
    ManufacturerUnits3();
    ManufacturerUnits4();
    assert d[2..] == d[2..34];
    Utf16LeTextSplit(d, 2, 26, 34);
    Utf16LeTextSplit(d, 2, 18, 26);
    Utf16LeTextSplit(d, 2, 10, 18);
    ManufacturerTextChunks();
    TextsAreNarrow();
    NarrowTextIffNarrowUnits(d[2..]);
  }

  lemma ProductTextChunks()
    ensures "USB " + "Game" + "pad " + "HID" == ProductText
  {
  }

  lemma ProductString()
    ensures ProductDesc[0] as int == 2 + 2 * |ProductText| == 0x20 && ProductDesc[1] == TypeString
    ensures Utf16LeText(ProductDesc[2..]) == ProductText
    ensures NarrowUnits(ProductDesc[2..])
  {
    var d := ProductDesc;
    ProductUnits1();
    ProductUnits2();
    ProductUnits3();
    ProductUnits4();
    assert d[2..] == d[2..32];
    Utf16LeTextSplit(d, 2, 26, 32);
    Utf16LeTextSplit(d, 2, 18, 26);
    Utf16LeTextSplit(d, 2, 10, 18);
    ProductTextChunks();
    TextsAreNarrow();
    NarrowTextIffNarrowUnits(d[2..]);
  }

  lemma SerialTextChunks()
    ensures "MCXA" + "156-" + "001" == SerialText
  {
  }

  lemma SerialString()
    ensures SerialDesc[0] as int == 2 + 2 * |SerialText| == 0x18 && SerialDesc[1] == TypeString
    ensures Utf16LeText(SerialDesc[2..]) == SerialText
    ensures NarrowUnits(SerialDesc[2..])
  {
    var d := SerialDesc;
    SerialUnits1();
    SerialUnits2();
    SerialUnits3();
    assert d[2..] == d[2..24];
    Utf16LeTextSplit(d, 2, 18, 24);
    Utf16LeTextSplit(d, 2, 10, 18);
    SerialTextChunks();
    TextsAreNarrow();
    NarrowTextIffNarrowUnits(d[2..]);
  }

  /**
   * The device descriptor's string indices 1, 2 and 3 name the manufacturer,
   * product and serial number strings, which follow string descriptor zero
   * in that order.
   */
  lemma StringIndices()
    ensures TableBlocks[5] == LangIdDesc
    ensures TableBlocks[5 + StringManufacturerIndex as int] == ManufacturerDesc
    ensures TableBlocks[5 + StringProductIndex as int] == ProductDesc
    ensures TableBlocks[5 + StringSerialIndex as int] == SerialDesc
    ensures DeviceDesc[14] == StringManufacturerIndex && DeviceDesc[15] == StringProductIndex
    ensures DeviceDesc[16] == StringSerialIndex
  {
  }

  /** The device descriptor names the vendor and product ids, USB 2.0 and one configuration. */
  lemma DeviceIdentity()
    ensures WordAt(DeviceDesc, 8) == UsbdVid && WordAt(DeviceDesc, 10) == UsbdPid
    ensures WordAt(DeviceDesc, 2) == Usb20 && DeviceDesc[17] == 1
    ensures WordAt(LangIdDesc, 2) == UsbdLangIdString
  {
  }
}
