/**
  The three `gpu_metrics` layouts the tool knows (metrics.c:17-209), which
  mirror the Linux kernel's `kgd_pp_interface.h`: a discrete-GPU table v1.3 and
  the APU tables v2.2 and v2.3. Each struct is kept as its member list in
  declaration order, every member carrying the offset natural alignment gives
  it; the lemmas below check those offsets against the alignment rule.
 */
module GpuMetrics {
  import opened Wrappers
  import opened Layout

  const U8: nat := 1
  const U16: nat := 2
  const U32: nat := 4
  const U64: nat := 8

  /** The widest member of each of the three structs is a uint64_t. */
  const StructAlign: nat := U64

  /**
    Every member name that occurs in one of the three metrics structs. The
    common header's three members are listed individually: under natural
    alignment the nested header struct occupies bytes 0..4 exactly as its
    members would.
   */
  datatype FieldName =
    | StructureSize
    | FormatRevision
    | ContentRevision
    | TemperatureEdge
    | TemperatureHotspot
    | TemperatureMem
    | TemperatureVrgfx
    | TemperatureVrsoc
    | TemperatureVrmem
    | AverageGfxActivity
    | AverageUmcActivity
    | AverageMmActivity
    | AverageSocketPower
    | EnergyAccumulator
    | SystemClockCounter
    | AverageGfxclkFrequency
    | AverageSocclkFrequency
    | AverageUclkFrequency
    | AverageVclk0Frequency
    | AverageDclk0Frequency
    | AverageVclk1Frequency
    | AverageDclk1Frequency
    | CurrentGfxclk
    | CurrentSocclk
    | CurrentUclk
    | CurrentVclk0
    | CurrentDclk0
    | CurrentVclk1
    | CurrentDclk1
    | ThrottleStatus
    | CurrentFanSpeed
    | PcieLinkWidth
    | PcieLinkSpeed
    | Padding
    | GfxActivityAcc
    | MemActivityAcc
    | TemperatureHbm
    | FirmwareTimestamp
    | VoltageSoc
    | VoltageGfx
    | VoltageMem
    | Padding1
    | IndepThrottleStatus
    | TemperatureGfx
    | TemperatureSoc
    | TemperatureCore
    | TemperatureL3
    | AverageCpuPower
    | AverageSocPower
    | AverageGfxPower
    | AverageCorePower
    | AverageFclkFrequency
    | AverageVclkFrequency
    | AverageDclkFrequency
    | CurrentFclk
    | CurrentVclk
    | CurrentDclk
    | CurrentCoreclk
    | CurrentL3clk
    | FanPwm
    | AverageTemperatureGfx
    | AverageTemperatureSoc
    | AverageTemperatureCore
    | AverageTemperatureL3

  /** The `i`-th member of `struct gpu_metrics_v1_3` (metrics.c:24-94) with its natural-alignment offset. */
  function V1_3Member(i: nat): Slot<FieldName>
    requires i < 43
  {
    match i
    case 0 => Slot(StructureSize, 0, U16, 1)
    case 1 => Slot(FormatRevision, 2, U8, 1)
    case 2 => Slot(ContentRevision, 3, U8, 1)
    case 3 => Slot(TemperatureEdge, 4, U16, 1)
    case 4 => Slot(TemperatureHotspot, 6, U16, 1)
    case 5 => Slot(TemperatureMem, 8, U16, 1)
    case 6 => Slot(TemperatureVrgfx, 10, U16, 1)
    case 7 => Slot(TemperatureVrsoc, 12, U16, 1)
    case 8 => Slot(TemperatureVrmem, 14, U16, 1)
    case 9 => Slot(AverageGfxActivity, 16, U16, 1)
    case 10 => Slot(AverageUmcActivity, 18, U16, 1)
    case 11 => Slot(AverageMmActivity, 20, U16, 1)
    case 12 => Slot(AverageSocketPower, 22, U16, 1)
    case 13 => Slot(EnergyAccumulator, 24, U64, 1)
    case 14 => Slot(SystemClockCounter, 32, U64, 1)
    case 15 => Slot(AverageGfxclkFrequency, 40, U16, 1)
    case 16 => Slot(AverageSocclkFrequency, 42, U16, 1)
    case 17 => Slot(AverageUclkFrequency, 44, U16, 1)
    case 18 => Slot(AverageVclk0Frequency, 46, U16, 1)
    case 19 => Slot(AverageDclk0Frequency, 48, U16, 1)
    case 20 => Slot(AverageVclk1Frequency, 50, U16, 1)
    case 21 => Slot(AverageDclk1Frequency, 52, U16, 1)
    case 22 => Slot(CurrentGfxclk, 54, U16, 1)
    case 23 => Slot(CurrentSocclk, 56, U16, 1)
    case 24 => Slot(CurrentUclk, 58, U16, 1)
    case 25 => Slot(CurrentVclk0, 60, U16, 1)
    case 26 => Slot(CurrentDclk0, 62, U16, 1)
    case 27 => Slot(CurrentVclk1, 64, U16, 1)
    case 28 => Slot(CurrentDclk1, 66, U16, 1)
    case 29 => Slot(ThrottleStatus, 68, U32, 1)
    case 30 => Slot(CurrentFanSpeed, 72, U16, 1)
    case 31 => Slot(PcieLinkWidth, 74, U16, 1)
    case 32 => Slot(PcieLinkSpeed, 76, U16, 1)
    case 33 => Slot(Padding, 78, U16, 1)
    case 34 => Slot(GfxActivityAcc, 80, U32, 1)
    case 35 => Slot(MemActivityAcc, 84, U32, 1)
    case 36 => Slot(TemperatureHbm, 88, U16, 4)
    case 37 => Slot(FirmwareTimestamp, 96, U64, 1)
    case 38 => Slot(VoltageSoc, 104, U16, 1)
    case 39 => Slot(VoltageGfx, 106, U16, 1)
    case 40 => Slot(VoltageMem, 108, U16, 1)
    case 41 => Slot(Padding1, 110, U16, 1)
    case 42 => Slot(IndepThrottleStatus, 112, U64, 1)
  }

  /** The `i`-th member of `struct gpu_metrics_v2_2` (metrics.c:98-149) with its natural-alignment offset. */
  function V2_2Member(i: nat): Slot<FieldName>
    requires i < 33
  {
    match i
    case 0 => Slot(StructureSize, 0, U16, 1)
    case 1 => Slot(FormatRevision, 2, U8, 1)
    case 2 => Slot(ContentRevision, 3, U8, 1)
    case 3 => Slot(TemperatureGfx, 4, U16, 1)
    case 4 => Slot(TemperatureSoc, 6, U16, 1)
    case 5 => Slot(TemperatureCore, 8, U16, 8)
    case 6 => Slot(TemperatureL3, 24, U16, 2)
    case 7 => Slot(AverageGfxActivity, 28, U16, 1)
    case 8 => Slot(AverageMmActivity, 30, U16, 1)
    case 9 => Slot(SystemClockCounter, 32, U64, 1)
    case 10 => Slot(AverageSocketPower, 40, U16, 1)
    case 11 => Slot(AverageCpuPower, 42, U16, 1)
    case 12 => Slot(AverageSocPower, 44, U16, 1)
    case 13 => Slot(AverageGfxPower, 46, U16, 1)
    case 14 => Slot(AverageCorePower, 48, U16, 8)
    case 15 => Slot(AverageGfxclkFrequency, 64, U16, 1)
    case 16 => Slot(AverageSocclkFrequency, 66, U16, 1)
    case 17 => Slot(AverageUclkFrequency, 68, U16, 1)
    case 18 => Slot(AverageFclkFrequency, 70, U16, 1)
    case 19 => Slot(AverageVclkFrequency, 72, U16, 1)
    case 20 => Slot(AverageDclkFrequency, 74, U16, 1)
    case 21 => Slot(CurrentGfxclk, 76, U16, 1)
    case 22 => Slot(CurrentSocclk, 78, U16, 1)
    case 23 => Slot(CurrentUclk, 80, U16, 1)
    case 24 => Slot(CurrentFclk, 82, U16, 1)
    case 25 => Slot(CurrentVclk, 84, U16, 1)
    case 26 => Slot(CurrentDclk, 86, U16, 1)
    case 27 => Slot(CurrentCoreclk, 88, U16, 8)
    case 28 => Slot(CurrentL3clk, 104, U16, 2)
    case 29 => Slot(ThrottleStatus, 108, U32, 1)
    case 30 => Slot(FanPwm, 112, U16, 1)
    case 31 => Slot(Padding, 114, U16, 3)
    case 32 => Slot(IndepThrottleStatus, 120, U64, 1)
  }

  /** The `i`-th member of `struct gpu_metrics_v2_3` (metrics.c:152-209) with its natural-alignment offset. */
  function V2_3Member(i: nat): Slot<FieldName>
    requires i < 37
  {
    match i
    case 0 => Slot(StructureSize, 0, U16, 1)
    case 1 => Slot(FormatRevision, 2, U8, 1)
    case 2 => Slot(ContentRevision, 3, U8, 1)
    case 3 => Slot(TemperatureGfx, 4, U16, 1)
    case 4 => Slot(TemperatureSoc, 6, U16, 1)
    case 5 => Slot(TemperatureCore, 8, U16, 8)
    case 6 => Slot(TemperatureL3, 24, U16, 2)
    case 7 => Slot(AverageGfxActivity, 28, U16, 1)
    case 8 => Slot(AverageMmActivity, 30, U16, 1)
    case 9 => Slot(SystemClockCounter, 32, U64, 1)
    case 10 => Slot(AverageSocketPower, 40, U16, 1)
    case 11 => Slot(AverageCpuPower, 42, U16, 1)
    case 12 => Slot(AverageSocPower, 44, U16, 1)
    case 13 => Slot(AverageGfxPower, 46, U16, 1)
    case 14 => Slot(AverageCorePower, 48, U16, 8)
    case 15 => Slot(AverageGfxclkFrequency, 64, U16, 1)
    case 16 => Slot(AverageSocclkFrequency, 66, U16, 1)
    case 17 => Slot(AverageUclkFrequency, 68, U16, 1)
    case 18 => Slot(AverageFclkFrequency, 70, U16, 1)
    case 19 => Slot(AverageVclkFrequency, 72, U16, 1)
    case 20 => Slot(AverageDclkFrequency, 74, U16, 1)
    case 21 => Slot(CurrentGfxclk, 76, U16, 1)
    case 22 => Slot(CurrentSocclk, 78, U16, 1)
    case 23 => Slot(CurrentUclk, 80, U16, 1)
    case 24 => Slot(CurrentFclk, 82, U16, 1)
    case 25 => Slot(CurrentVclk, 84, U16, 1)
    case 26 => Slot(CurrentDclk, 86, U16, 1)
    case 27 => Slot(CurrentCoreclk, 88, U16, 8)
    case 28 => Slot(CurrentL3clk, 104, U16, 2)
    case 29 => Slot(ThrottleStatus, 108, U32, 1)
    case 30 => Slot(FanPwm, 112, U16, 1)
    case 31 => Slot(Padding, 114, U16, 3)
    case 32 => Slot(IndepThrottleStatus, 120, U64, 1)
    case 33 => Slot(AverageTemperatureGfx, 128, U16, 1)
    case 34 => Slot(AverageTemperatureSoc, 130, U16, 1)
    case 35 => Slot(AverageTemperatureCore, 132, U16, 8)
    case 36 => Slot(AverageTemperatureL3, 148, U16, 2)
  }

  /** The layouts selected by the (format_revision, content_revision) pair. */
  datatype Variant = V1_3 | V2_2 | V2_3

  /** The member table of a layout, in declaration order. */
  function Table(v: Variant): seq<Slot<FieldName>> {
    match v
    case V1_3 => seq(43, i requires 0 <= i < 43 => V1_3Member(i))
    case V2_2 => seq(33, i requires 0 <= i < 33 => V2_2Member(i))
    case V2_3 => seq(37, i requires 0 <= i < 37 => V2_3Member(i))
  }

  /** `sizeof` of each struct on x86-64. */
  function Size(v: Variant): nat {
    match v
    case V1_3 => 120
    case V2_2 => 128
    case V2_3 => 152
  }

  /** The (format_revision, content_revision) pair that names each layout. */
  function Revision(v: Variant): (nat, nat) {
    match v
    case V1_3 => (1, 3)
    case V2_2 => (2, 2)
    case V2_3 => (2, 3)
  }

  function Max(a: nat, b: nat): nat {
    if a < b then b else a
  }

  /**
    The largest of the three structs' sizes (metrics.c:213). The working buffer
    has this many `void *` elements; the casts read only its first this many bytes.
   */
  const LargestSize: nat := Max(Size(V1_3), Max(Size(V2_2), Size(V2_3)))

  /**
    Each table is the natural-alignment layout of its struct, `Size` is its
    `sizeof`, and no member name occurs twice.
   */
  lemma TableIsNatural(v: Variant)
    ensures NaturalLayout(Table(v), StructAlign, Size(v))
    ensures DistinctNames(Table(v))
  {
    match v
    case V1_3 => V1_3IsNatural();
    case V2_2 => V2_2IsNatural();
    case V2_3 => V2_3IsNatural();
  }

  /** No member name occurs twice in a layout. */
  lemma NamesDistinct(v: Variant)
    ensures DistinctNames(Table(v))
  {
    match v
    case V1_3 => V1_3Names();
    case V2_2 => V2_2Names();
    case V2_3 => V2_3Names();
  }

  lemma V1_3IsNatural()
    ensures NaturalLayout(Table(V1_3), StructAlign, Size(V1_3))
    ensures DistinctNames(Table(V1_3))
  {
    V1_3Steps();
    V1_3Names();
    V1_3Widths();
    assert Table(V1_3)[13].width == StructAlign;
  }

  lemma V1_3Widths()
    ensures var t := Table(V1_3);
      forall i :: 0 <= i < |t| ==> IsScalarWidth(t[i].width) && t[i].count > 0 && t[i].width <= StructAlign
  {
  }

  lemma V1_3Steps()
    ensures var t := Table(V1_3);
      && t[0].offset == 0
      && (forall i :: 0 < i < |t| ==> t[i].offset == AlignUp(t[i - 1].End(), t[i].width))
      && Size(V1_3) == AlignUp(t[|t| - 1].End(), StructAlign)
  {
    V1_3MemberSteps();
    var t := Table(V1_3);
    forall i | 0 < i < |t|
      ensures t[i].offset == AlignUp(t[i - 1].End(), t[i].width)
    {
      assert t[i] == V1_3Member(i) && t[i - 1] == V1_3Member(i - 1);
    }
  }

  lemma V1_3MemberSteps()
    ensures forall i :: 0 < i < 43 ==> V1_3Member(i).offset == AlignUp(V1_3Member(i - 1).End(), V1_3Member(i).width)
  {
    forall i | 0 < i < 43
      ensures V1_3Member(i).offset == AlignUp(V1_3Member(i - 1).End(), V1_3Member(i).width)
    {
    }
  }

  /** The index of member `n` in `V1_3Member`, or -1 when the struct has no such member: the inverse of the table. */
  function V1_3Position(n: FieldName): int {
    match n
    case StructureSize => 0
    case FormatRevision => 1
    case ContentRevision => 2
    case TemperatureEdge => 3
    case TemperatureHotspot => 4
    case TemperatureMem => 5
    case TemperatureVrgfx => 6
    case TemperatureVrsoc => 7
    case TemperatureVrmem => 8
    case AverageGfxActivity => 9
    case AverageUmcActivity => 10
    case AverageMmActivity => 11
    case AverageSocketPower => 12
    case EnergyAccumulator => 13
    case SystemClockCounter => 14
    case AverageGfxclkFrequency => 15
    case AverageSocclkFrequency => 16
    case AverageUclkFrequency => 17
    case AverageVclk0Frequency => 18
    case AverageDclk0Frequency => 19
    case AverageVclk1Frequency => 20
    case AverageDclk1Frequency => 21
    case CurrentGfxclk => 22
    case CurrentSocclk => 23
    case CurrentUclk => 24
    case CurrentVclk0 => 25
    case CurrentDclk0 => 26
    case CurrentVclk1 => 27
    case CurrentDclk1 => 28
    case ThrottleStatus => 29
    case CurrentFanSpeed => 30
    case PcieLinkWidth => 31
    case PcieLinkSpeed => 32
    case Padding => 33
    case GfxActivityAcc => 34
    case MemActivityAcc => 35
    case TemperatureHbm => 36
    case FirmwareTimestamp => 37
    case VoltageSoc => 38
    case VoltageGfx => 39
    case VoltageMem => 40
    case Padding1 => 41
    case IndepThrottleStatus => 42
    case _ => -1
  }

  /** `V1_3Position` undoes `V1_3Member`, checked one slice of the table at a time. */
  lemma V1_3Positions()
    ensures forall i :: 0 <= i < 43 ==> V1_3Position(V1_3Member(i).name) == i
  {
    V1_3PositionsFrom0();
    V1_3PositionsFrom11();
    V1_3PositionsFrom22();
    V1_3PositionsFrom33();
  }

  lemma V1_3PositionsFrom0()
    ensures forall i :: 0 <= i < 11 ==> V1_3Position(V1_3Member(i).name) == i
  {
    forall i | 0 <= i < 11
      ensures V1_3Position(V1_3Member(i).name) == i
    {
    }
  }

  lemma V1_3PositionsFrom11()
    ensures forall i :: 11 <= i < 22 ==> V1_3Position(V1_3Member(i).name) == i
  {
    forall i | 11 <= i < 22
      ensures V1_3Position(V1_3Member(i).name) == i
    {
    }
  }

  lemma V1_3PositionsFrom22()
    ensures forall i :: 22 <= i < 33 ==> V1_3Position(V1_3Member(i).name) == i
  {
    forall i | 22 <= i < 33
      ensures V1_3Position(V1_3Member(i).name) == i
    {
    }
  }

  lemma V1_3PositionsFrom33()
    ensures forall i :: 33 <= i < 43 ==> V1_3Position(V1_3Member(i).name) == i
  {
    forall i | 33 <= i < 43
      ensures V1_3Position(V1_3Member(i).name) == i
    {
    }
  }

  /** Two members at different indices map back to different indices, so their names differ. */
  lemma V1_3Names()
    ensures DistinctNames(Table(V1_3))
  {
    V1_3Positions();
    forall i, j | 0 <= i < j < 43
      ensures V1_3Member(i).name != V1_3Member(j).name
    {
      assert V1_3Position(V1_3Member(i).name) != V1_3Position(V1_3Member(j).name);
    }
  }

  lemma V2_2IsNatural()
    ensures NaturalLayout(Table(V2_2), StructAlign, Size(V2_2))
    ensures DistinctNames(Table(V2_2))
  {
    V2_2Steps();
    V2_2Names();
    V2_2Widths();
    assert Table(V2_2)[9].width == StructAlign;
  }

  lemma V2_2Widths()
    ensures var t := Table(V2_2);
      forall i :: 0 <= i < |t| ==> IsScalarWidth(t[i].width) && t[i].count > 0 && t[i].width <= StructAlign
  {
  }

  lemma V2_2Steps()
    ensures var t := Table(V2_2);
      && t[0].offset == 0
      && (forall i :: 0 < i < |t| ==> t[i].offset == AlignUp(t[i - 1].End(), t[i].width))
      && Size(V2_2) == AlignUp(t[|t| - 1].End(), StructAlign)
  {
    V2_2MemberSteps();
    var t := Table(V2_2);
    forall i | 0 < i < |t|
      ensures t[i].offset == AlignUp(t[i - 1].End(), t[i].width)
    {
      assert t[i] == V2_2Member(i) && t[i - 1] == V2_2Member(i - 1);
    }
  }

  lemma V2_2MemberSteps()
    ensures forall i :: 0 < i < 33 ==> V2_2Member(i).offset == AlignUp(V2_2Member(i - 1).End(), V2_2Member(i).width)
  {
    forall i | 0 < i < 33
      ensures V2_2Member(i).offset == AlignUp(V2_2Member(i - 1).End(), V2_2Member(i).width)
    {
    }
  }

  /** v2.2's members are the first 33 of v2.3's, so their names are distinct too. */
  lemma V2_2Names()
    ensures DistinctNames(Table(V2_2))
  {
    V2_3Names();
    V2_3Prefix();
  }

  lemma V2_3IsNatural()
    ensures NaturalLayout(Table(V2_3), StructAlign, Size(V2_3))
    ensures DistinctNames(Table(V2_3))
  {
    V2_3Steps();
    V2_3Names();
    V2_3Widths();
    assert Table(V2_3)[9].width == StructAlign;
  }

  lemma V2_3Widths()
    ensures var t := Table(V2_3);
      forall i :: 0 <= i < |t| ==> IsScalarWidth(t[i].width) && t[i].count > 0 && t[i].width <= StructAlign
  {
  }

  lemma V2_3Steps()
    ensures var t := Table(V2_3);
      && t[0].offset == 0
      && (forall i :: 0 < i < |t| ==> t[i].offset == AlignUp(t[i - 1].End(), t[i].width))
      && Size(V2_3) == AlignUp(t[|t| - 1].End(), StructAlign)
  {
    V2_3MemberSteps();
    var t := Table(V2_3);
    forall i | 0 < i < |t|
      ensures t[i].offset == AlignUp(t[i - 1].End(), t[i].width)
    {
      assert t[i] == V2_3Member(i) && t[i - 1] == V2_3Member(i - 1);
    }
  }

  lemma V2_3MemberSteps()
    ensures forall i :: 0 < i < 37 ==> V2_3Member(i).offset == AlignUp(V2_3Member(i - 1).End(), V2_3Member(i).width)
  {
    forall i | 0 < i < 37
      ensures V2_3Member(i).offset == AlignUp(V2_3Member(i - 1).End(), V2_3Member(i).width)
    {
    }
  }

  /** The index of member `n` in `V2_3Member`, or -1 when the struct has no such member: the inverse of the table. */
  function V2_3Position(n: FieldName): int {
    match n
    case StructureSize => 0
    case FormatRevision => 1
    case ContentRevision => 2
    case TemperatureGfx => 3
    case TemperatureSoc => 4
    case TemperatureCore => 5
    case TemperatureL3 => 6
    case AverageGfxActivity => 7
    case AverageMmActivity => 8
    case SystemClockCounter => 9
    case AverageSocketPower => 10
    case AverageCpuPower => 11
    case AverageSocPower => 12
    case AverageGfxPower => 13
    case AverageCorePower => 14
    case AverageGfxclkFrequency => 15
    case AverageSocclkFrequency => 16
    case AverageUclkFrequency => 17
    case AverageFclkFrequency => 18
    case AverageVclkFrequency => 19
    case AverageDclkFrequency => 20
    case CurrentGfxclk => 21
    case CurrentSocclk => 22
    case CurrentUclk => 23
    case CurrentFclk => 24
    case CurrentVclk => 25
    case CurrentDclk => 26
    case CurrentCoreclk => 27
    case CurrentL3clk => 28
    case ThrottleStatus => 29
    case FanPwm => 30
    case Padding => 31
    case IndepThrottleStatus => 32
    case AverageTemperatureGfx => 33
    case AverageTemperatureSoc => 34
    case AverageTemperatureCore => 35
    case AverageTemperatureL3 => 36
    case _ => -1
  }

  /** `V2_3Position` undoes `V2_3Member`, checked one slice of the table at a time. */
  lemma V2_3Positions()
    ensures forall i :: 0 <= i < 37 ==> V2_3Position(V2_3Member(i).name) == i
  {
    V2_3PositionsFrom0();
    V2_3PositionsFrom4();
    V2_3PositionsFrom8();
    V2_3PositionsFrom12();
    V2_3PositionsFrom16();
    V2_3PositionsFrom20();
    V2_3PositionsFrom24();
    V2_3PositionsFrom28();
    V2_3PositionsFrom32();
    V2_3PositionsFrom36();
  }

  lemma V2_3PositionsFrom0()
    ensures forall i :: 0 <= i < 4 ==> V2_3Position(V2_3Member(i).name) == i
  {
    forall i | 0 <= i < 4
      ensures V2_3Position(V2_3Member(i).name) == i
    {
    }
  }

  lemma V2_3PositionsFrom4()
    ensures forall i :: 4 <= i < 8 ==> V2_3Position(V2_3Member(i).name) == i
  {
    forall i | 4 <= i < 8
      ensures V2_3Position(V2_3Member(i).name) == i
    {
    }
  }

  lemma V2_3PositionsFrom8()
    ensures forall i :: 8 <= i < 12 ==> V2_3Position(V2_3Member(i).name) == i
  {
    forall i | 8 <= i < 12
      ensures V2_3Position(V2_3Member(i).name) == i
    {
    }
  }

  lemma V2_3PositionsFrom12()
    ensures forall i :: 12 <= i < 16 ==> V2_3Position(V2_3Member(i).name) == i
  {
    forall i | 12 <= i < 16
      ensures V2_3Position(V2_3Member(i).name) == i
    {
    }
  }

  lemma V2_3PositionsFrom16()
    ensures forall i :: 16 <= i < 20 ==> V2_3Position(V2_3Member(i).name) == i
  {
    forall i | 16 <= i < 20
      ensures V2_3Position(V2_3Member(i).name) == i
    {
    }
  }

  lemma V2_3PositionsFrom20()
    ensures forall i :: 20 <= i < 24 ==> V2_3Position(V2_3Member(i).name) == i
  {
    forall i | 20 <= i < 24
      ensures V2_3Position(V2_3Member(i).name) == i
    {
    }
  }

  lemma V2_3PositionsFrom24()
    ensures forall i :: 24 <= i < 28 ==> V2_3Position(V2_3Member(i).name) == i
  {
    forall i | 24 <= i < 28
      ensures V2_3Position(V2_3Member(i).name) == i
    {
    }
  }

  lemma V2_3PositionsFrom28()
    ensures forall i :: 28 <= i < 32 ==> V2_3Position(V2_3Member(i).name) == i
  {
    forall i | 28 <= i < 32
      ensures V2_3Position(V2_3Member(i).name) == i
    {
    }
  }

  lemma V2_3PositionsFrom32()
    ensures forall i :: 32 <= i < 36 ==> V2_3Position(V2_3Member(i).name) == i
  {
    forall i | 32 <= i < 36
      ensures V2_3Position(V2_3Member(i).name) == i
    {
    }
  }

  lemma V2_3PositionsFrom36()
    ensures forall i :: 36 <= i < 37 ==> V2_3Position(V2_3Member(i).name) == i
  {
    forall i | 36 <= i < 37
      ensures V2_3Position(V2_3Member(i).name) == i
    {
    }
  }

  /** Two members at different indices map back to different indices, so their names differ. */
  lemma V2_3Names()
    ensures DistinctNames(Table(V2_3))
  {
    V2_3Positions();
    forall i, j | 0 <= i < j < 37
      ensures V2_3Member(i).name != V2_3Member(j).name
    {
      assert V2_3Position(V2_3Member(i).name) != V2_3Position(V2_3Member(j).name);
    }
  }

  /** The member of layout `v` called `n`, if `v` has one. */
  function FieldSlot(v: Variant, n: FieldName): Option<Slot<FieldName>> {
    Lookup(Table(v), n)
  }

  /**
    In every layout each member starts at a multiple of its width, no two
    members overlap, and every member ends within `sizeof` of the struct.
   */
  lemma TableSound(v: Variant)
    ensures var t := Table(v);
      && (forall i :: 0 <= i < |t| ==> t[i].offset % t[i].width == 0)
      && (forall i, j :: 0 <= i < |t| && 0 <= j < |t| && i != j ==>
            t[i].End() <= t[j].offset || t[j].End() <= t[i].offset)
      && (forall i :: 0 <= i < |t| ==> t[i].End() <= Size(v))
  {
    TableIsNatural(v);
    LayoutAligned(Table(v), StructAlign, Size(v));
    LayoutDisjoint(Table(v), StructAlign, Size(v));
    LayoutInBounds(Table(v), StructAlign, Size(v));
  }

  /**
    Every member of every layout is a non-empty run of scalars that lies inside
    the struct, and so inside the first `LargestSize` bytes of the working buffer.
   */
  lemma SlotBounds(v: Variant, n: FieldName)
    requires FieldSlot(v, n).Some?
    ensures IsScalarWidth(FieldSlot(v, n).value.width) && FieldSlot(v, n).value.count > 0
    ensures FieldSlot(v, n).value.End() <= Size(v) <= LargestSize
  {
    TableIsNatural(v);
    TableSound(v);
    var k := LookupIndex(Table(v), n);
  }

  /** Looking up the name of a layout's `k`-th member finds that member. */
  lemma FieldAt(v: Variant, k: nat)
    requires k < |Table(v)|
    ensures FieldSlot(v, Table(v)[k].name) == Some(Table(v)[k])
  {
    NamesDistinct(v);
    LookupAt(Table(v), k);
  }

  /** `FieldAt` for the v1.3 table, stated on its member function. */
  lemma V1_3At(k: nat)
    requires k < 43
    ensures FieldSlot(V1_3, V1_3Member(k).name) == Some(V1_3Member(k))
  {
    FieldAt(V1_3, k);
  }

  /** `FieldAt` for the v2.2 table, stated on its member function. */
  lemma V2_2At(k: nat)
    requires k < 33
    ensures FieldSlot(V2_2, V2_2Member(k).name) == Some(V2_2Member(k))
  {
    FieldAt(V2_2, k);
  }

  /** `FieldAt` for the v2.3 table, stated on its member function. */
  lemma V2_3At(k: nat)
    requires k < 37
    ensures FieldSlot(V2_3, V2_3Member(k).name) == Some(V2_3Member(k))
  {
    FieldAt(V2_3, k);
  }

  /** The common header is the first four bytes of every layout. */
  lemma HeaderLeads(v: Variant)
    ensures FieldSlot(v, StructureSize) == Some(Slot(StructureSize, 0, U16, 1))
    ensures FieldSlot(v, FormatRevision) == Some(Slot(FormatRevision, 2, U8, 1))
    ensures FieldSlot(v, ContentRevision) == Some(Slot(ContentRevision, 3, U8, 1))
  {
    FieldAt(v, 0);
    FieldAt(v, 1);
    FieldAt(v, 2);
  }

  /** Where v1.3 keeps its socket power, energy counter and driver timestamp. */
  lemma V1_3PowerOffsets()
    ensures FieldSlot(V1_3, AverageSocketPower) == Some(Slot(AverageSocketPower, 22, U16, 1))
    ensures FieldSlot(V1_3, EnergyAccumulator) == Some(Slot(EnergyAccumulator, 24, U64, 1))
    ensures FieldSlot(V1_3, SystemClockCounter) == Some(Slot(SystemClockCounter, 32, U64, 1))
  {
    assert V1_3Member(12) == Slot(AverageSocketPower, 22, U16, 1);
    V1_3At(12);
    assert V1_3Member(13) == Slot(EnergyAccumulator, 24, U64, 1);
    V1_3At(13);
    assert V1_3Member(14) == Slot(SystemClockCounter, 32, U64, 1);
    V1_3At(14);
  }

  /** Where v1.3 keeps its throttle status word and HBM temperatures. */
  lemma V1_3StatusOffsets()
    ensures FieldSlot(V1_3, ThrottleStatus) == Some(Slot(ThrottleStatus, 68, U32, 1))
    ensures FieldSlot(V1_3, TemperatureHbm) == Some(Slot(TemperatureHbm, 88, U16, 4))
  {
    assert V1_3Member(29) == Slot(ThrottleStatus, 68, U32, 1);
    V1_3At(29);
    assert V1_3Member(36) == Slot(TemperatureHbm, 88, U16, 4);
    V1_3At(36);
  }

  /** Where v1.3 keeps its firmware timestamp and independent throttle status. */
  lemma V1_3TailOffsets()
    ensures FieldSlot(V1_3, FirmwareTimestamp) == Some(Slot(FirmwareTimestamp, 96, U64, 1))
    ensures FieldSlot(V1_3, IndepThrottleStatus) == Some(Slot(IndepThrottleStatus, 112, U64, 1))
  {
    assert V1_3Member(37) == Slot(FirmwareTimestamp, 96, U64, 1);
    V1_3At(37);
    assert V1_3Member(42) == Slot(IndepThrottleStatus, 112, U64, 1);
    V1_3At(42);
  }

  /** Where v2.2 keeps its four power readings. */
  lemma V2_2PowerOffsets()
    ensures FieldSlot(V2_2, AverageSocketPower) == Some(Slot(AverageSocketPower, 40, U16, 1))
    ensures FieldSlot(V2_2, AverageCpuPower) == Some(Slot(AverageCpuPower, 42, U16, 1))
    ensures FieldSlot(V2_2, AverageSocPower) == Some(Slot(AverageSocPower, 44, U16, 1))
    ensures FieldSlot(V2_2, AverageGfxPower) == Some(Slot(AverageGfxPower, 46, U16, 1))
  {
    assert V2_2Member(10) == Slot(AverageSocketPower, 40, U16, 1);
    V2_2At(10);
    assert V2_2Member(11) == Slot(AverageCpuPower, 42, U16, 1);
    V2_2At(11);
    assert V2_2Member(12) == Slot(AverageSocPower, 44, U16, 1);
    V2_2At(12);
    assert V2_2Member(13) == Slot(AverageGfxPower, 46, U16, 1);
    V2_2At(13);
  }

  /** Where v2.2 keeps its core temperatures, driver timestamp and core clocks. */
  lemma V2_2CoreOffsets()
    ensures FieldSlot(V2_2, TemperatureCore) == Some(Slot(TemperatureCore, 8, U16, 8))
    ensures FieldSlot(V2_2, SystemClockCounter) == Some(Slot(SystemClockCounter, 32, U64, 1))
    ensures FieldSlot(V2_2, CurrentCoreclk) == Some(Slot(CurrentCoreclk, 88, U16, 8))
  {
    assert V2_2Member(5) == Slot(TemperatureCore, 8, U16, 8);
    V2_2At(5);
    assert V2_2Member(9) == Slot(SystemClockCounter, 32, U64, 1);
    V2_2At(9);
    assert V2_2Member(27) == Slot(CurrentCoreclk, 88, U16, 8);
    V2_2At(27);
  }

  /** Where v2.2 keeps its throttle status words and fan PWM. */
  lemma V2_2StatusOffsets()
    ensures FieldSlot(V2_2, ThrottleStatus) == Some(Slot(ThrottleStatus, 108, U32, 1))
    ensures FieldSlot(V2_2, FanPwm) == Some(Slot(FanPwm, 112, U16, 1))
    ensures FieldSlot(V2_2, IndepThrottleStatus) == Some(Slot(IndepThrottleStatus, 120, U64, 1))
  {
    assert V2_2Member(29) == Slot(ThrottleStatus, 108, U32, 1);
    V2_2At(29);
    assert V2_2Member(30) == Slot(FanPwm, 112, U16, 1);
    V2_2At(30);
    assert V2_2Member(32) == Slot(IndepThrottleStatus, 120, U64, 1);
    V2_2At(32);
  }

  /** Where v2.3 keeps the averaged GFX temperature it appends after the v2.2 members. */
  lemma V2_3GfxOffsets()
    ensures FieldSlot(V2_3, AverageTemperatureGfx) == Some(Slot(AverageTemperatureGfx, 128, U16, 1))
  {
    assert V2_3Member(33) == Slot(AverageTemperatureGfx, 128, U16, 1);
    V2_3At(33);
  }

  /** Where v2.3 keeps the averaged core and L3 temperatures it appends after the v2.2 members. */
  lemma V2_3Offsets()
    ensures FieldSlot(V2_3, AverageTemperatureCore) == Some(Slot(AverageTemperatureCore, 132, U16, 8))
    ensures FieldSlot(V2_3, AverageTemperatureL3) == Some(Slot(AverageTemperatureL3, 148, U16, 2))
  {
    assert V2_3Member(35) == Slot(AverageTemperatureCore, 132, U16, 8);
    V2_3At(35);
    assert V2_3Member(36) == Slot(AverageTemperatureL3, 148, U16, 2);
    V2_3At(36);
  }

  /**
    v2.3 extends v2.2: its first 33 members are v2.2's members at the same
    offsets, every member only v2.3 has starts at or after v2.2's `sizeof`, and
    so every v2.2 member name finds the same slot in both layouts.
   */
  lemma V2_3ExtendsV2_2()
    ensures |Table(V2_2)| <= |Table(V2_3)|
    ensures forall i :: 0 <= i < |Table(V2_2)| ==> Table(V2_3)[i] == Table(V2_2)[i]
    ensures forall i :: |Table(V2_2)| <= i < |Table(V2_3)| ==> Table(V2_3)[i].offset >= Size(V2_2)
    ensures forall n :: FieldSlot(V2_2, n).Some? ==> FieldSlot(V2_3, n) == FieldSlot(V2_2, n)
    ensures forall n :: FieldSlot(V2_2, n).None? && FieldSlot(V2_3, n).Some? ==>
      FieldSlot(V2_3, n).value.offset >= Size(V2_2)
  {
    V2_3Prefix();
    var t2 := Table(V2_2);
    var t3 := Table(V2_3);
    forall n | FieldSlot(V2_2, n).Some?
      ensures FieldSlot(V2_3, n) == FieldSlot(V2_2, n)
    {
      var k := LookupIndex(t2, n);
      FieldAt(V2_2, k);
      FieldAt(V2_3, k);
    }
    forall n | FieldSlot(V2_3, n).Some? && FieldSlot(V2_3, n).value.offset < Size(V2_2)
      ensures FieldSlot(V2_2, n).Some?
    {
      var k := LookupIndex(t3, n);
      LookupAbsent(t2, n);
    }
  }

  lemma V2_3Prefix()
    ensures |Table(V2_2)| <= |Table(V2_3)|
    ensures forall i :: 0 <= i < |Table(V2_2)| ==> Table(V2_3)[i] == Table(V2_2)[i]
    ensures forall i :: |Table(V2_2)| <= i < |Table(V2_3)| ==> Table(V2_3)[i].offset >= Size(V2_2)
  {
    var t2 := Table(V2_2);
    var t3 := Table(V2_3);
    forall i | 0 <= i < |t2|
      ensures t3[i] == t2[i]
    {
      if i < 8 {} else if i < 16 {} else if i < 24 {} else {}
    }
  }

  /**
    Members that belong to another family of layouts are not found: the
    discrete-GPU table has no CPU members and the APU tables have no HBM
    temperatures.
   */
  lemma V1_3LacksCoreTemperature()
    ensures FieldSlot(V1_3, TemperatureCore).None?
  {
    LookupAbsent(Table(V1_3), TemperatureCore);
  }

  lemma V1_3LacksCpuPower()
    ensures FieldSlot(V1_3, AverageCpuPower).None?
  {
    LookupAbsent(Table(V1_3), AverageCpuPower);
  }

  lemma V2_2LacksHbmTemperature()
    ensures FieldSlot(V2_2, TemperatureHbm).None?
  {
    LookupAbsent(Table(V2_2), TemperatureHbm);
  }

  lemma V2_2LacksGfxTemperature()
    ensures FieldSlot(V2_2, AverageTemperatureGfx).None?
  {
    LookupAbsent(Table(V2_2), AverageTemperatureGfx);
  }

  lemma V2_3LacksHbmTemperature()
    ensures FieldSlot(V2_3, TemperatureHbm).None?
  {
    LookupAbsent(Table(V2_3), TemperatureHbm);
  }
}
