/**
 * The gamepad's HID report descriptor (hid_gamepad_report_desc in usb_app.c)
 * and an interpreter for the short items it is made of (HID 1.11, section
 * 6.2.2). Running the interpreter over the table yields the list of input
 * fields a host derives from it, which is then compared with the packed report.
 */
module HidReportDescriptor {
  import opened CInts
  import opened UsbReport

  // The table, in the groups the source writes it in.

  /** USAGE_PAGE (Generic Desktop), USAGE (Game Pad), COLLECTION (Application). */
  const CollectionHeader: seq<bv8> := [0x05, 0x01, 0x09, 0x05, 0xA1, 0x01]

  /** Sixteen one-bit buttons. */
  const ButtonItems: seq<bv8> := [
    0x05, 0x09, 0x19, 0x01, 0x29, 0x10, 0x15, 0x00,
    0x25, 0x01, 0x75, 0x01, 0x95, 0x10, 0x81, 0x02]

  /** X, Y, Z and Rz: four signed bytes in -127..127. */
  const StickItems: seq<bv8> := [
    0x05, 0x01, 0x09, 0x30, 0x09, 0x31, 0x09, 0x32, 0x09, 0x35,
    0x15, 0x81, 0x25, 0x7F, 0x75, 0x08, 0x95, 0x04, 0x81, 0x02]

  /** Accelerator and brake: two unsigned bytes in 0..255. */
  const TriggerItems: seq<bv8> := [
    0x05, 0x02, 0x09, 0xC4, 0x09, 0xC5, 0x15, 0x00, 0x26, 0xFF, 0x00,
    0x75, 0x08, 0x95, 0x02, 0x81, 0x02]

  /** The hat switch: one byte in 0..7, with the Null State flag. */
  const HatItems: seq<bv8> := [
    0x05, 0x01, 0x09, 0x39, 0x15, 0x00, 0x25, 0x07, 0x35, 0x00, 0x46,
    0x3B, 0x01, 0x65, 0x14, 0x75, 0x08, 0x95, 0x01, 0x81, 0x42]

  /** UNIT (None), END_COLLECTION. */
  const CollectionTrailer: seq<bv8> := [0x65, 0x00, 0xC0]

  const ReportDesc: seq<bv8> :=
    CollectionHeader + ButtonItems + StickItems + TriggerItems + HatItems + CollectionTrailer

  // Short items (HID 1.11, section 6.2.2.2): bits 0-1 of the prefix give the
  // data size (0, 1, 2 or 4 bytes), bits 2-3 the type, bits 4-7 the tag.

  function DataSize(prefix: bv8): (n: nat)
    ensures n == 0 || n == 1 || n == 2 || n == 4
  {
    var code := prefix & 3;
    if code == 3 then 4 else if code == 2 then 2 else if code == 1 then 1 else 0
  }

  /** Prefix with the size bits cleared: identifies type and tag. */
  function ItemKey(prefix: bv8): bv8 { prefix & 0xFC }

  const KeyInput: bv8 := 0x80          // Main: Input
  const KeyCollection: bv8 := 0xA0     // Main: Collection
  const KeyEndCollection: bv8 := 0xC0  // Main: End Collection
  const KeyLogicalMin: bv8 := 0x14     // Global: Logical Minimum
  const KeyLogicalMax: bv8 := 0x24     // Global: Logical Maximum
  const KeyReportSize: bv8 := 0x74     // Global: Report Size
  const KeyReportCount: bv8 := 0x94    // Global: Report Count

  /** Item data read as an unsigned little-endian number. */
  function Unsigned(data: seq<bv8>): (v: nat)
    decreases |data|
  {
    if data == [] then 0 else data[0] as nat + 256 * Unsigned(data[1..])
  }

  /** Item data read as a signed little-endian two's-complement number. */
  function Signed(data: seq<bv8>): int {
    if data == [] then 0
    else
      var u := Unsigned(data);
      var half := if |data| == 1 then 0x80 else if |data| == 2 then 0x8000 else 0x8000_0000;
      if u >= half then u - 2 * half else u
  }

  /** Input bit flags (HID 1.11, section 6.2.2.5). */
  const FlagVariable: bv8 := 0x02
  const FlagNullState: bv8 := 0x40

  /** One input field a host derives from an INPUT item. */
  datatype Field = Field(reportSize: nat, reportCount: nat, logicalMin: int, logicalMax: int, flags: bv8)

  /** The item state table of the interpreter: the globals it uses, collection depth, fields so far. */
  datatype ParseState = ParseState(
    reportSize: nat, reportCount: nat, logicalMin: int, logicalMax: int,
    depth: nat, fields: seq<Field>)

  const InitialState: ParseState := ParseState(0, 0, 0, 0, 0, [])

  /** Applies one short item; an End Collection without an open collection is malformed. */
  function ApplyItem(st: ParseState, prefix: bv8, data: seq<bv8>): (r: Option<ParseState>)
    ensures r.Some? ==> |r.value.fields| >= |st.fields|
  {
    var key := ItemKey(prefix);
    if key == KeyInput then
      var flags := if data == [] then 0 else data[0];
      Some(st.(fields := st.fields + [Field(st.reportSize, st.reportCount, st.logicalMin, st.logicalMax, flags)]))
    else if key == KeyCollection then Some(st.(depth := st.depth + 1))
    else if key == KeyEndCollection then
      if st.depth == 0 then None else Some(st.(depth := st.depth - 1))
    else if key == KeyLogicalMin then Some(st.(logicalMin := Signed(data)))
    else if key == KeyLogicalMax then Some(st.(logicalMax := Signed(data)))
    else if key == KeyReportSize then Some(st.(reportSize := Unsigned(data)))
    else if key == KeyReportCount then Some(st.(reportCount := Unsigned(data)))
    else Some(st)
  }

  /** Runs the items of `s` from offset `i`; None if an item is truncated or malformed. */
  function Walk(s: seq<bv8>, i: nat, st: ParseState): Option<ParseState>
    requires i <= |s|
    decreases |s| - i
  {
    if i == |s| then Some(st)
    else
      var next := i + 1 + DataSize(s[i]);
      if next > |s| then None
      else
        match ApplyItem(st, s[i], s[i + 1..next])
        case None => None
        case Some(st') => Walk(s, next, st')
  }

  /** The fields a host derives from a whole descriptor with balanced collections. */
  function Fields(s: seq<bv8>): Option<seq<Field>> {
    match Walk(s, 0, InitialState)
    case Some(st) => if st.depth == 0 then Some(st.fields) else None
    case None => None
  }

  /** Total number of bits the fields occupy in one report. */
  function TotalBits(fs: seq<Field>): nat {
    if fs == [] then 0 else fs[0].reportSize * fs[0].reportCount + TotalBits(fs[1..])
  }

  const ButtonsField: Field := Field(1, 16, 0, 1, FlagVariable)
  const SticksField: Field := Field(8, 4, -127, 127, FlagVariable)
  const TriggersField: Field := Field(8, 2, 0, 255, FlagVariable)
  const HatField: Field := Field(8, 1, 0, 7, FlagVariable | FlagNullState)

  // Walking a concatenation is walking the parts one after the other.

  lemma {:induction false} WalkShift(a: seq<bv8>, b: seq<bv8>, j: nat, st: ParseState)
    requires j <= |b|
    ensures Walk(a + b, |a| + j, st) == Walk(b, j, st)
    decreases |b| - j
  {
    if j < |b| {
      var next := j + 1 + DataSize(b[j]);
      assert (a + b)[|a| + j] == b[j];
      if next <= |b| {
        assert (a + b)[|a| + j + 1..|a| + next] == b[j + 1..next];
        match ApplyItem(st, b[j], b[j + 1..next])
        case None =>
        case Some(st') => WalkShift(a, b, next, st');
      }
    }
  }

  lemma {:induction false} WalkConcat(a: seq<bv8>, b: seq<bv8>, i: nat, st: ParseState, st1: ParseState)
    requires i <= |a|
    requires Walk(a, i, st) == Some(st1)
    ensures Walk(a + b, i, st) == Walk(b, 0, st1)
    decreases |a| - i
  {
    if i == |a| {
      WalkShift(a, b, 0, st);
    } else {
      var next := i + 1 + DataSize(a[i]);
      assert (a + b)[i] == a[i];
      assert (a + b)[i + 1..next] == a[i + 1..next];
      var st' := ApplyItem(st, a[i], a[i + 1..next]).value;
      WalkConcat(a, b, next, st', st1);
    }
  }

  // Running the table, item by item, from the initial state.

  /** One item at offset `i` whose prefix and data are known. */
  lemma StepItem(s: seq<bv8>, i: nat, prefix: bv8, data: seq<bv8>, st: ParseState, st': ParseState)
    requires i + 1 + |data| <= |s| && s[i] == prefix && |data| <= 2
    requires |data| >= 1 ==> s[i + 1] == data[0]
    requires |data| == 2 ==> s[i + 2] == data[1]
    requires DataSize(prefix) == |data|
    requires ApplyItem(st, prefix, data) == Some(st')
    ensures Walk(s, i, st) == Walk(s, i + 1 + |data|, st')
  {
    assert s[i + 1..i + 1 + |data|] == data;
  }

  const AfterHeader: ParseState := ParseState(0, 0, 0, 0, 1, [])
  const AfterButtons: ParseState := ParseState(1, 16, 0, 1, 1, [ButtonsField])
  const AfterSticks: ParseState := ParseState(8, 4, -127, 127, 1, [ButtonsField, SticksField])
  const AfterTriggers: ParseState := ParseState(8, 2, 0, 255, 1, [ButtonsField, SticksField, TriggersField])
  const AfterHat: ParseState := ParseState(8, 1, 0, 7, 1, [ButtonsField, SticksField, TriggersField, HatField])
  const AfterTrailer: ParseState := AfterHat.(depth := 0)

  // States between the global items of each block.
  const ButtonsRange: ParseState := AfterHeader.(logicalMax := 1)
  const ButtonsSized: ParseState := ButtonsRange.(reportSize := 1)
  const ButtonsCounted: ParseState := ButtonsSized.(reportCount := 16)
  const SticksMin: ParseState := AfterButtons.(logicalMin := -127)
  const SticksRange: ParseState := SticksMin.(logicalMax := 127)
  const SticksSized: ParseState := SticksRange.(reportSize := 8)
  const SticksCounted: ParseState := SticksSized.(reportCount := 4)
  const TriggersMin: ParseState := AfterSticks.(logicalMin := 0)
  const TriggersRange: ParseState := TriggersMin.(logicalMax := 255)
  const TriggersCounted: ParseState := TriggersRange.(reportCount := 2)
  const HatRange: ParseState := AfterTriggers.(logicalMax := 7)
  const HatCounted: ParseState := HatRange.(reportCount := 1)

  // Each block is run one item per lemma, from the item at the given offset to
  // the end of the block; every lemma takes one step and defers to the next.

  // CollectionHeader: from InitialState to AfterHeader.
  lemma HeaderRun()
    ensures Walk(CollectionHeader, 0, InitialState) == Some(AfterHeader)
  {
    StepItem(CollectionHeader, 0, 0x05, [0x01], InitialState, InitialState);
    HeaderFrom2();
  }

  lemma HeaderFrom2()
    ensures Walk(CollectionHeader, 2, InitialState) == Some(AfterHeader)
  {
    StepItem(CollectionHeader, 2, 0x09, [0x05], InitialState, InitialState);
    HeaderFrom4();
  }

  lemma HeaderFrom4()
    ensures Walk(CollectionHeader, 4, InitialState) == Some(AfterHeader)
  {
    StepItem(CollectionHeader, 4, 0xA1, [0x01], InitialState, AfterHeader);
  }


  // ButtonItems: from AfterHeader to AfterButtons.
  lemma ButtonsRun()
    ensures Walk(ButtonItems, 0, AfterHeader) == Some(AfterButtons)
  {
    StepItem(ButtonItems, 0, 0x05, [0x09], AfterHeader, AfterHeader);
    ButtonsFrom2();
  }

  lemma ButtonsFrom2()
    ensures Walk(ButtonItems, 2, AfterHeader) == Some(AfterButtons)
  {
    StepItem(ButtonItems, 2, 0x19, [0x01], AfterHeader, AfterHeader);
    ButtonsFrom4();
  }

  lemma ButtonsFrom4()
    ensures Walk(ButtonItems, 4, AfterHeader) == Some(AfterButtons)
  {
    StepItem(ButtonItems, 4, 0x29, [0x10], AfterHeader, AfterHeader);
    ButtonsFrom6();
  }

  lemma ButtonsFrom6()
    ensures Walk(ButtonItems, 6, AfterHeader) == Some(AfterButtons)
  {
    StepItem(ButtonItems, 6, 0x15, [0x00], AfterHeader, AfterHeader);
    ButtonsFrom8();
  }

  lemma ButtonsFrom8()
    ensures Walk(ButtonItems, 8, AfterHeader) == Some(AfterButtons)
  {
    StepItem(ButtonItems, 8, 0x25, [0x01], AfterHeader, ButtonsRange);
    ButtonsFrom10();
  }

  lemma ButtonsFrom10()
    ensures Walk(ButtonItems, 10, ButtonsRange) == Some(AfterButtons)
  {
    StepItem(ButtonItems, 10, 0x75, [0x01], ButtonsRange, ButtonsSized);
    ButtonsFrom12();
  }

  lemma ButtonsFrom12()
    ensures Walk(ButtonItems, 12, ButtonsSized) == Some(AfterButtons)
  {
    StepItem(ButtonItems, 12, 0x95, [0x10], ButtonsSized, ButtonsCounted);
    ButtonsFrom14();
  }

  lemma ButtonsFrom14()
    ensures Walk(ButtonItems, 14, ButtonsCounted) == Some(AfterButtons)
  {
    assert [] + [ButtonsField] == AfterButtons.fields;
    StepItem(ButtonItems, 14, 0x81, [0x02], ButtonsCounted, AfterButtons);
  }


  // StickItems: from AfterButtons to AfterSticks.
  lemma SticksRun()
    ensures Walk(StickItems, 0, AfterButtons) == Some(AfterSticks)
  {
    StepItem(StickItems, 0, 0x05, [0x01], AfterButtons, AfterButtons);
    SticksFrom2();
  }

  lemma SticksFrom2()
    ensures Walk(StickItems, 2, AfterButtons) == Some(AfterSticks)
  {
    StepItem(StickItems, 2, 0x09, [0x30], AfterButtons, AfterButtons);
    SticksFrom4();
  }

  lemma SticksFrom4()
    ensures Walk(StickItems, 4, AfterButtons) == Some(AfterSticks)
  {
    StepItem(StickItems, 4, 0x09, [0x31], AfterButtons, AfterButtons);
    SticksFrom6();
  }

  lemma SticksFrom6()
    ensures Walk(StickItems, 6, AfterButtons) == Some(AfterSticks)
  {
    StepItem(StickItems, 6, 0x09, [0x32], AfterButtons, AfterButtons);
    SticksFrom8();
  }

  lemma SticksFrom8()
    ensures Walk(StickItems, 8, AfterButtons) == Some(AfterSticks)
  {
    StepItem(StickItems, 8, 0x09, [0x35], AfterButtons, AfterButtons);
    SticksFrom10();
  }

  lemma SticksFrom10()
    ensures Walk(StickItems, 10, AfterButtons) == Some(AfterSticks)
  {
    StepItem(StickItems, 10, 0x15, [0x81], AfterButtons, SticksMin);
    SticksFrom12();
  }

  lemma SticksFrom12()
    ensures Walk(StickItems, 12, SticksMin) == Some(AfterSticks)
  {
    StepItem(StickItems, 12, 0x25, [0x7F], SticksMin, SticksRange);
    SticksFrom14();
  }

  lemma SticksFrom14()
    ensures Walk(StickItems, 14, SticksRange) == Some(AfterSticks)
  {
    StepItem(StickItems, 14, 0x75, [0x08], SticksRange, SticksSized);
    SticksFrom16();
  }

  lemma SticksFrom16()
    ensures Walk(StickItems, 16, SticksSized) == Some(AfterSticks)
  {
    StepItem(StickItems, 16, 0x95, [0x04], SticksSized, SticksCounted);
    SticksFrom18();
  }

  lemma SticksFrom18()
    ensures Walk(StickItems, 18, SticksCounted) == Some(AfterSticks)
  {
    assert AfterButtons.fields + [SticksField] == AfterSticks.fields;
    StepItem(StickItems, 18, 0x81, [0x02], SticksCounted, AfterSticks);
  }


  // TriggerItems: from AfterSticks to AfterTriggers.
  lemma TriggersRun()
    ensures Walk(TriggerItems, 0, AfterSticks) == Some(AfterTriggers)
  {
    StepItem(TriggerItems, 0, 0x05, [0x02], AfterSticks, AfterSticks);
    TriggersFrom2();
  }

  lemma TriggersFrom2()
    ensures Walk(TriggerItems, 2, AfterSticks) == Some(AfterTriggers)
  {
    StepItem(TriggerItems, 2, 0x09, [0xC4], AfterSticks, AfterSticks);
    TriggersFrom4();
  }

  lemma TriggersFrom4()
    ensures Walk(TriggerItems, 4, AfterSticks) == Some(AfterTriggers)
  {
    StepItem(TriggerItems, 4, 0x09, [0xC5], AfterSticks, AfterSticks);
    TriggersFrom6();
  }

  lemma TriggersFrom6()
    ensures Walk(TriggerItems, 6, AfterSticks) == Some(AfterTriggers)
  {
    StepItem(TriggerItems, 6, 0x15, [0x00], AfterSticks, TriggersMin);
    TriggersFrom8();
  }

  lemma TriggersFrom8()
    ensures Walk(TriggerItems, 8, TriggersMin) == Some(AfterTriggers)
  {
    StepItem(TriggerItems, 8, 0x26, [0xFF, 0x00], TriggersMin, TriggersRange);
    TriggersFrom11();
  }

  lemma TriggersFrom11()
    ensures Walk(TriggerItems, 11, TriggersRange) == Some(AfterTriggers)
  {
    StepItem(TriggerItems, 11, 0x75, [0x08], TriggersRange, TriggersRange);
    TriggersFrom13();
  }

  lemma TriggersFrom13()
    ensures Walk(TriggerItems, 13, TriggersRange) == Some(AfterTriggers)
  {
    StepItem(TriggerItems, 13, 0x95, [0x02], TriggersRange, TriggersCounted);
    TriggersFrom15();
  }

  lemma TriggersFrom15()
    ensures Walk(TriggerItems, 15, TriggersCounted) == Some(AfterTriggers)
  {
    assert AfterSticks.fields + [TriggersField] == AfterTriggers.fields;
    StepItem(TriggerItems, 15, 0x81, [0x02], TriggersCounted, AfterTriggers);
  }


  // HatItems: from AfterTriggers to AfterHat.
  lemma HatRun()
    ensures Walk(HatItems, 0, AfterTriggers) == Some(AfterHat)
  {
    StepItem(HatItems, 0, 0x05, [0x01], AfterTriggers, AfterTriggers);
    HatFrom2();
  }

  lemma HatFrom2()
    ensures Walk(HatItems, 2, AfterTriggers) == Some(AfterHat)
  {
    StepItem(HatItems, 2, 0x09, [0x39], AfterTriggers, AfterTriggers);
    HatFrom4();
  }

  lemma HatFrom4()
    ensures Walk(HatItems, 4, AfterTriggers) == Some(AfterHat)
  {
    StepItem(HatItems, 4, 0x15, [0x00], AfterTriggers, AfterTriggers);
    HatFrom6();
  }

  lemma HatFrom6()
    ensures Walk(HatItems, 6, AfterTriggers) == Some(AfterHat)
  {
    StepItem(HatItems, 6, 0x25, [0x07], AfterTriggers, HatRange);
    HatFrom8();
  }

  lemma HatFrom8()
    ensures Walk(HatItems, 8, HatRange) == Some(AfterHat)
  {
    StepItem(HatItems, 8, 0x35, [0x00], HatRange, HatRange);
    HatFrom10();
  }

  lemma HatFrom10()
    ensures Walk(HatItems, 10, HatRange) == Some(AfterHat)
  {
    StepItem(HatItems, 10, 0x46, [0x3B, 0x01], HatRange, HatRange);
    HatFrom13();
  }

  lemma HatFrom13()
    ensures Walk(HatItems, 13, HatRange) == Some(AfterHat)
  {
    StepItem(HatItems, 13, 0x65, [0x14], HatRange, HatRange);
    HatFrom15();
  }

  lemma HatFrom15()
    ensures Walk(HatItems, 15, HatRange) == Some(AfterHat)
  {
    StepItem(HatItems, 15, 0x75, [0x08], HatRange, HatRange);
    HatFrom17();
  }

  lemma HatFrom17()
    ensures Walk(HatItems, 17, HatRange) == Some(AfterHat)
  {
    StepItem(HatItems, 17, 0x95, [0x01], HatRange, HatCounted);
    HatFrom19();
  }

  lemma HatFrom19()
    ensures Walk(HatItems, 19, HatCounted) == Some(AfterHat)
  {
    assert AfterTriggers.fields + [HatField] == AfterHat.fields;
    StepItem(HatItems, 19, 0x81, [0x42], HatCounted, AfterHat);
  }


  // CollectionTrailer: from AfterHat to AfterTrailer.
  lemma TrailerRun()
    ensures Walk(CollectionTrailer, 0, AfterHat) == Some(AfterTrailer)
  {
    StepItem(CollectionTrailer, 0, 0x65, [0x00], AfterHat, AfterHat);
    TrailerFrom2();
  }

  lemma TrailerFrom2()
    ensures Walk(CollectionTrailer, 2, AfterHat) == Some(AfterTrailer)
  {
    StepItem(CollectionTrailer, 2, 0xC0, [], AfterHat, AfterTrailer);
  }

  /**
   * A host reading the descriptor finds one application collection, closed
   * again, holding four input fields: 16 one-bit buttons, four signed stick
   * bytes, two unsigned trigger bytes and a hat byte in 0..7 with a null state.
   */
  lemma ReportDescFields()
    ensures |ReportDesc| == HidGamepadReportDescSize
    ensures Fields(ReportDesc) == Some([ButtonsField, SticksField, TriggersField, HatField])
  {
    HeaderRun();
    ButtonsRun();
    SticksRun();
    TriggersRun();
    HatRun();
    TrailerRun();
    var p1 := CollectionHeader;
    var p2 := p1 + ButtonItems;
    var p3 := p2 + StickItems;
    var p4 := p3 + TriggerItems;
    var p5 := p4 + HatItems;
    WalkConcat(p1, ButtonItems, 0, InitialState, AfterHeader);
    WalkConcat(p2, StickItems, 0, InitialState, AfterButtons);
    WalkConcat(p3, TriggerItems, 0, InitialState, AfterSticks);
    WalkConcat(p4, HatItems, 0, InitialState, AfterTriggers);
    WalkConcat(p5, CollectionTrailer, 0, InitialState, AfterHat);
  }

  /**
   * The input fields add up to 72 bits, exactly the nine bytes of the packed
   * report and of the interrupt endpoint's packet.
   */
  lemma ReportDescMatchesReportSize()
    ensures Fields(ReportDesc).Some?
    ensures TotalBits(Fields(ReportDesc).value) == 72 == 8 * HidIntEpSize
    ensures forall r: Report :: |Encode(r)| * 8 == TotalBits(Fields(ReportDesc).value)
  {
    ReportDescFields();
    var fs := [ButtonsField, SticksField, TriggersField, HatField];
    assert TotalBits(fs[3..]) == 8;
    assert TotalBits(fs[2..]) == 16 + TotalBits(fs[3..]);
    assert TotalBits(fs[1..]) == 32 + TotalBits(fs[2..]);
  }

  /**
   * The centred hat value 8 lies outside the hat field's logical range 0..7,
   * and that field carries the Null State flag, so a host reads it as "no
   * direction" (HID 1.11, section 6.2.2.5); every direction 0..7 is in range.
   */
  lemma HatCenterReadsAsNull()
    ensures Fields(ReportDesc).Some? && |Fields(ReportDesc).value| == 4
    ensures var hat := Fields(ReportDesc).value[3];
      && hat.reportSize == 8 && hat.reportCount == 1
      && !(hat.logicalMin <= HatCenter <= hat.logicalMax)
      && hat.flags & FlagNullState != 0
      && hat.logicalMin == HatUp && hat.logicalMax == HatUpLeft
  {
    ReportDescFields();
  }
}
