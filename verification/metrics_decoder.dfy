/**
  The part of `main` in metrics.c that interprets the buffer it has just read
  (metrics.c:230-264): the common header is sniffed, the exact
  (format_revision, content_revision) pair selects a layout, and the selected
  layout's power members are reported, some raw and some divided by 1000.
 */
module MetricsDecoder {
  import opened Wrappers
  import opened Bytes
  import opened Layout
  import opened GpuMetrics

  /** `struct metrics_table_header` (metrics.c:17-21). */
  datatype Header = Header(structureSize: nat, formatRevision: nat, contentRevision: nat)

  /** `sizeof(struct metrics_table_header)`. */
  const HeaderSize: nat := 4

  /** Each header member fits its C type: uint16_t, uint8_t, uint8_t. */
  predicate HeaderFits(h: Header) {
    h.structureSize < 0x1_0000 && h.formatRevision < 0x100 && h.contentRevision < 0x100
  }

  /** The little-endian uint16_t at `off`, spelled out byte by byte. */
  function U16At(buf: seq<Byte>, off: nat): nat
    requires off + 2 <= |buf|
  {
    buf[off] as nat + 256 * buf[off + 1] as nat
  }

  /** The header at the start of `buf`, read through the header struct. */
  function Sniff(buf: seq<Byte>): (h: Header)
    requires |buf| >= HeaderSize
    ensures HeaderFits(h)
    ensures h.structureSize == U16At(buf, 0)
    ensures h.formatRevision == buf[2] && h.contentRevision == buf[3]
  {
    Header(ReadLE(buf, 0, U16), buf[2], buf[3])
  }

  /** The four bytes a producer writes for header `h`. */
  function EncodeHeader(h: Header): (r: seq<Byte>)
    requires HeaderFits(h)
    ensures |r| == HeaderSize
  {
    EncodeLE(h.structureSize, U16) + [h.formatRevision, h.contentRevision]
  }

  /** Sniffing an encoded header gives it back, whatever follows it. */
  lemma SniffEncode(h: Header, rest: seq<Byte>)
    requires HeaderFits(h)
    ensures Sniff(EncodeHeader(h) + rest) == h
  {
    var buf := EncodeHeader(h) + rest;
    var e := EncodeLE(h.structureSize, U16);
    assert buf[..2] == e;
    ReadEncode(h.structureSize, U16);
    ReadAt(buf, 0, U16);
    ReadAt(e, 0, U16);
    assert e[0..2] == e;
  }

  /** Re-encoding a sniffed header reproduces the first four bytes. */
  lemma EncodeSniff(buf: seq<Byte>)
    requires |buf| >= HeaderSize
    ensures EncodeHeader(Sniff(buf)) == buf[..HeaderSize]
  {
    EncodeRead(buf, 0, U16);
  }

  /**
    The nested `if` of metrics.c:232-264: format revision 1 with content
    revision 3, or format revision 2 with content revision 2 or 3.
   */
  function Dispatch(formatRevision: nat, contentRevision: nat): Option<Variant> {
    if formatRevision == 1 then
      if contentRevision == 3 then Some(V1_3) else None
    else if formatRevision == 2 then
      if contentRevision == 2 then Some(V2_2)
      else if contentRevision == 3 then Some(V2_3)
      else None
    else None
  }

  /** Dispatch selects a layout exactly when the pair is that layout's revision pair. */
  lemma DispatchExact(formatRevision: nat, contentRevision: nat)
    ensures forall v :: Dispatch(formatRevision, contentRevision) == Some(v) <==> Revision(v) == (formatRevision, contentRevision)
    ensures Dispatch(formatRevision, contentRevision).None? <==> forall v :: Revision(v) != (formatRevision, contentRevision)
  {
  }

  /** The byte offset of element `index` of member `s`. */
  function ElementOffset(s: Slot<FieldName>, index: nat): (r: nat)
    requires index < s.count
    ensures s.offset <= r && r + s.width <= s.End()
  {
    MulMonotone(index + 1, s.count, s.width);
    s.offset + index * s.width
  }

  lemma MulMonotone(a: nat, b: nat, w: nat)
    requires a <= b
    ensures a * w <= b * w
  {
    assert b * w == a * w + (b - a) * w;
  }

  /**
    Element `index` of member `n` of layout `v` as stored in `buf`: absent when
    `v` has no member `n` or the member has no element `index`.
   */
  function ReadField(buf: seq<Byte>, v: Variant, n: FieldName, index: nat): (r: Option<nat>)
    requires |buf| >= Size(v)
    ensures r.Some? <==> FieldSlot(v, n).Some? && index < FieldSlot(v, n).value.count
    ensures r.Some? ==> r.value < Pow256(FieldSlot(v, n).value.width)
  {
    match FieldSlot(v, n)
    case None => None
    case Some(s) =>
      if index < s.count then
        SlotBounds(v, n);
        Some(ReadLE(buf, ElementOffset(s, index), s.width))
      else None
  }

  /** `buf` with element `index` of member `n` of layout `v` set to `x`. */
  function WriteField(buf: seq<Byte>, v: Variant, n: FieldName, index: nat, x: nat): (r: seq<Byte>)
    requires |buf| >= Size(v)
    requires FieldSlot(v, n).Some? && index < FieldSlot(v, n).value.count
    requires x < Pow256(FieldSlot(v, n).value.width)
    ensures |r| == |buf|
  {
    var s := FieldSlot(v, n).value;
    SlotBounds(v, n);
    Overwrite(buf, ElementOffset(s, index), EncodeLE(x, s.width))
  }

  /** A value written into a field reads back unchanged. */
  lemma ReadWriteSame(buf: seq<Byte>, v: Variant, n: FieldName, index: nat, x: nat)
    requires |buf| >= Size(v)
    requires FieldSlot(v, n).Some? && index < FieldSlot(v, n).value.count
    requires x < Pow256(FieldSlot(v, n).value.width)
    ensures ReadField(WriteField(buf, v, n, index, x), v, n, index) == Some(x)
  {
    var s := FieldSlot(v, n).value;
    SlotBounds(v, n);
    ReadOverwriteSame(buf, ElementOffset(s, index), x, s.width);
  }

  /**
    Writing one field leaves every other field of the same layout as it was:
    the members of a layout never share a byte.
   */
  lemma ReadWriteOther(buf: seq<Byte>, v: Variant, n: FieldName, index: nat, x: nat, n2: FieldName, index2: nat)
    requires |buf| >= Size(v)
    requires FieldSlot(v, n).Some? && index < FieldSlot(v, n).value.count
    requires x < Pow256(FieldSlot(v, n).value.width)
    requires n2 != n || index2 != index
    ensures ReadField(WriteField(buf, v, n, index, x), v, n2, index2) == ReadField(buf, v, n2, index2)
  {
    if FieldSlot(v, n2).Some? && index2 < FieldSlot(v, n2).value.count {
      var s := FieldSlot(v, n).value;
      var s2 := FieldSlot(v, n2).value;
      if n2 == n {
        ElementsDisjoint(s, index, index2);
      } else {
        SlotsDisjoint(v, n, n2);
      }
      ReadWriteDisjoint(buf, v, n, index, x, n2, index2);
    }
  }

  /** Writing an element leaves an element in disjoint bytes as it was. */
  lemma ReadWriteDisjoint(buf: seq<Byte>, v: Variant, n: FieldName, index: nat, x: nat, n2: FieldName, index2: nat)
    requires |buf| >= Size(v)
    requires FieldSlot(v, n).Some? && index < FieldSlot(v, n).value.count
    requires x < Pow256(FieldSlot(v, n).value.width)
    requires FieldSlot(v, n2).Some? && index2 < FieldSlot(v, n2).value.count
    requires ElementOffset(FieldSlot(v, n).value, index) + FieldSlot(v, n).value.width <= ElementOffset(FieldSlot(v, n2).value, index2)
          || ElementOffset(FieldSlot(v, n2).value, index2) + FieldSlot(v, n2).value.width <= ElementOffset(FieldSlot(v, n).value, index)
    ensures ReadField(WriteField(buf, v, n, index, x), v, n2, index2) == ReadField(buf, v, n2, index2)
  {
    SlotBounds(v, n);
    SlotBounds(v, n2);
    OverwriteElementOther(buf, FieldSlot(v, n).value, index, x, FieldSlot(v, n2).value, index2);
    ReadFieldAt(WriteField(buf, v, n, index, x), v, n2, index2);
    ReadFieldAt(buf, v, n2, index2);
  }

  /** Overwriting one element leaves an element in disjoint bytes as it was. */
  lemma OverwriteElementOther(buf: seq<Byte>, s: Slot<FieldName>, index: nat, x: nat, s2: Slot<FieldName>, index2: nat)
    requires index < s.count && s.End() <= |buf|
    requires index2 < s2.count && s2.End() <= |buf|
    requires ElementOffset(s, index) + s.width <= ElementOffset(s2, index2)
          || ElementOffset(s2, index2) + s2.width <= ElementOffset(s, index)
    ensures ReadLE(Overwrite(buf, ElementOffset(s, index), EncodeLE(x, s.width)), ElementOffset(s2, index2), s2.width)
         == ReadLE(buf, ElementOffset(s2, index2), s2.width)
  {
    ReadOverwriteOther(buf, ElementOffset(s, index), EncodeLE(x, s.width), ElementOffset(s2, index2), s2.width);
  }

  /** A present element is read little-endian from its own offset. */
  lemma ReadFieldAt(buf: seq<Byte>, v: Variant, n: FieldName, index: nat)
    requires |buf| >= Size(v)
    requires FieldSlot(v, n).Some? && index < FieldSlot(v, n).value.count
    ensures FieldSlot(v, n).value.End() <= |buf|
    ensures ReadField(buf, v, n, index)
         == Some(ReadLE(buf, ElementOffset(FieldSlot(v, n).value, index), FieldSlot(v, n).value.width))
  {
    SlotBounds(v, n);
  }

  /** Two differently named members of one layout occupy disjoint bytes. */
  lemma SlotsDisjoint(v: Variant, n: FieldName, n2: FieldName)
    requires FieldSlot(v, n).Some? && FieldSlot(v, n2).Some? && n != n2
    ensures FieldSlot(v, n).value.End() <= FieldSlot(v, n2).value.offset
         || FieldSlot(v, n2).value.End() <= FieldSlot(v, n).value.offset
  {
    TableSound(v);
    var t := Table(v);
    var i := LookupIndex(t, n);
    var j := LookupIndex(t, n2);
    assert i != j;
  }

  /** Distinct elements of one array member occupy disjoint bytes. */
  lemma ElementsDisjoint(s: Slot<FieldName>, i: nat, j: nat)
    requires i < s.count && j < s.count && i != j
    ensures ElementOffset(s, i) + s.width <= ElementOffset(s, j) || ElementOffset(s, j) + s.width <= ElementOffset(s, i)
  {
    if i < j {
      MulMonotone(i + 1, j, s.width);
    } else {
      MulMonotone(j + 1, i, s.width);
    }
  }

  /** Reading a member of v2.2 from a v2.3 buffer gives what reading it as v2.2 gives. */
  lemma SharedFieldsAgree(buf: seq<Byte>, n: FieldName, index: nat)
    requires |buf| >= Size(V2_3)
    requires FieldSlot(V2_2, n).Some?
    ensures ReadField(buf, V2_3, n, index) == ReadField(buf, V2_2, n, index)
  {
    V2_3ExtendsV2_2();
  }

  /** Every layout's header members read the same values the header sniff reads. */
  lemma HeaderThroughTable(buf: seq<Byte>, v: Variant)
    requires |buf| >= Size(v)
    ensures ReadField(buf, v, StructureSize, 0) == Some(Sniff(buf).structureSize)
    ensures ReadField(buf, v, FormatRevision, 0) == Some(Sniff(buf).formatRevision)
    ensures ReadField(buf, v, ContentRevision, 0) == Some(Sniff(buf).contentRevision)
  {
    HeaderLeads(v);
  }

  /** Members one layout does not have are absent, not read from whatever bytes lie there. */
  lemma CrossVariantAbsence(buf: seq<Byte>, index: nat)
    requires |buf| >= LargestSize
    ensures ReadField(buf, V1_3, TemperatureCore, index).None?
    ensures ReadField(buf, V1_3, AverageCpuPower, index).None?
    ensures ReadField(buf, V2_2, TemperatureHbm, index).None?
    ensures ReadField(buf, V2_2, AverageTemperatureGfx, index).None?
    ensures ReadField(buf, V2_3, TemperatureHbm, index).None?
  {
    V1_3LacksCoreTemperature();
    V1_3LacksCpuPower();
    V2_2LacksHbmTemperature();
    V2_2LacksGfxTemperature();
    V2_3LacksHbmTemperature();
  }

  /** The v1.3 socket power is the uint16_t at byte 22. */
  lemma V1_3PowerBytes(buf: seq<Byte>)
    requires |buf| >= Size(V1_3)
    ensures ReadField(buf, V1_3, AverageSocketPower, 0) == Some(U16At(buf, 22))
  {
    V1_3PowerOffsets();
    ReadU16(buf, 22);
  }

  /** The APU socket, CPU and SoC powers are the uint16_t values at bytes 40, 42 and 44. */
  lemma ApuPowerBytes(buf: seq<Byte>, v: Variant)
    requires v == V2_2 || v == V2_3
    requires |buf| >= Size(v)
    ensures ReadField(buf, v, AverageSocketPower, 0) == Some(U16At(buf, 40))
    ensures ReadField(buf, v, AverageCpuPower, 0) == Some(U16At(buf, 42))
    ensures ReadField(buf, v, AverageSocPower, 0) == Some(U16At(buf, 44))
  {
    V2_2PowerBytes(buf);
    if v == V2_3 {
      V2_2PowerOffsets();
      SharedFieldsAgree(buf, AverageSocketPower, 0);
      SharedFieldsAgree(buf, AverageCpuPower, 0);
      SharedFieldsAgree(buf, AverageSocPower, 0);
    }
  }

  /** The v2.2 socket, CPU and SoC powers are the uint16_t values at bytes 40, 42 and 44. */
  lemma V2_2PowerBytes(buf: seq<Byte>)
    requires |buf| >= Size(V2_2)
    ensures ReadField(buf, V2_2, AverageSocketPower, 0) == Some(U16At(buf, 40))
    ensures ReadField(buf, V2_2, AverageCpuPower, 0) == Some(U16At(buf, 42))
    ensures ReadField(buf, V2_2, AverageSocPower, 0) == Some(U16At(buf, 44))
  {
    V2_2PowerOffsets();
    ReadU16(buf, 40);
    ReadU16(buf, 42);
    ReadU16(buf, 44);
  }

  /** A reported power value: `raw / divisor` watts. */
  datatype PowerReading = PowerReading(field: FieldName, raw: nat, divisor: nat) {

    /** The value in watts, as an exact quotient. */
    function Watts(): real
      requires divisor > 0
    {
      raw as real / divisor as real
    }
  }

  /**
    What one pass of the polling loop reports: the revision line, the layout
    it parsed (none for an unknown pair), and the power lines of that layout.
   */
  datatype Report = Report(formatRevision: nat, contentRevision: nat, parsed: Option<Variant>, power: seq<PowerReading>)

  /** Member `n` of layout `v` reported as `raw / divisor` watts. */
  function Reading(buf: seq<Byte>, v: Variant, n: FieldName, divisor: nat): (p: PowerReading)
    requires |buf| >= Size(v)
    requires ReadField(buf, v, n, 0).Some?
    ensures p.field == n && p.divisor == divisor
    ensures Some(p.raw) == ReadField(buf, v, n, 0)
  {
    PowerReading(n, ReadField(buf, v, n, 0).value, divisor)
  }

  /**
    One pass over the working buffer (metrics.c:230-264). The buffer holds
    `LargestSize` pointer-sized elements (metrics.c:213), so its first
    `LargestSize` bytes, all this pass can read, always exist; that is what
    lets every member of the selected layout be read without a length check.
   */
  function ReportOf(buf: seq<Byte>): (r: Report)
    requires |buf| >= LargestSize
    ensures r.formatRevision == buf[2] && r.contentRevision == buf[3]
    ensures r.parsed == Dispatch(buf[2], buf[3])
    ensures r.parsed == Some(V1_3) ==>
      r.power == [PowerReading(AverageSocketPower, U16At(buf, 22), 1)]
    ensures r.parsed == Some(V2_2) || r.parsed == Some(V2_3) ==>
      r.power == [PowerReading(AverageSocketPower, U16At(buf, 40), 1),
                  PowerReading(AverageCpuPower, U16At(buf, 42), 1000),
                  PowerReading(AverageSocPower, U16At(buf, 44), 1000)]
    ensures r.parsed.None? ==> r.power == []
  {
    var h := Sniff(buf);
    var parsed := Dispatch(h.formatRevision, h.contentRevision);
    var power := (
      if parsed.None? then []
      else if parsed == Some(V1_3) then
        V1_3PowerBytes(buf);
        [Reading(buf, V1_3, AverageSocketPower, 1)]
      else
        var v := parsed.value;
        ApuPowerBytes(buf, v);
        [Reading(buf, v, AverageSocketPower, 1),
         Reading(buf, v, AverageCpuPower, 1000),
         Reading(buf, v, AverageSocPower, 1000)]);
    Report(h.formatRevision, h.contentRevision, parsed, power)
  }

  /** The v2.x power members of `buf` replaced by `socket`, `cpu` and `soc`. */
  function WriteApuPower(buf: seq<Byte>, v: Variant, socket: nat, cpu: nat, soc: nat): (r: seq<Byte>)
    requires v == V2_2 || v == V2_3
    requires |buf| >= Size(v)
    requires socket < 0x1_0000 && cpu < 0x1_0000 && soc < 0x1_0000
    ensures |r| == |buf|
  {
    ApuPowerSlots(v);
    var w1 := WriteField(buf, v, AverageSocketPower, 0, socket);
    var w2 := WriteField(w1, v, AverageCpuPower, 0, cpu);
    WriteField(w2, v, AverageSocPower, 0, soc)
  }

  /** The three APU power members are single uint16_t values in both v2.x layouts. */
  lemma ApuPowerSlots(v: Variant)
    requires v == V2_2 || v == V2_3
    ensures FieldSlot(v, AverageSocketPower).Some? && FieldSlot(v, AverageSocketPower).value.count == 1
    ensures FieldSlot(v, AverageCpuPower).Some? && FieldSlot(v, AverageCpuPower).value.count == 1
    ensures FieldSlot(v, AverageSocPower).Some? && FieldSlot(v, AverageSocPower).value.count == 1
    ensures FieldSlot(v, AverageSocketPower).value.width == U16
    ensures FieldSlot(v, AverageCpuPower).value.width == U16
    ensures FieldSlot(v, AverageSocPower).value.width == U16
  {
    V2_2PowerOffsets();
    V2_3ExtendsV2_2();
  }

  /** Writing the v2.x power members changes neither the revision bytes nor each other. */
  lemma ApuWriteRead(buf: seq<Byte>, v: Variant, socket: nat, cpu: nat, soc: nat)
    requires v == V2_2 || v == V2_3
    requires |buf| >= Size(v)
    requires socket < 0x1_0000 && cpu < 0x1_0000 && soc < 0x1_0000
    ensures var w := WriteApuPower(buf, v, socket, cpu, soc);
      && w[2] == buf[2] && w[3] == buf[3]
      && U16At(w, 40) == socket && U16At(w, 42) == cpu && U16At(w, 44) == soc
  {
    ApuWriteFields(buf, v, socket, cpu, soc);
    ApuWriteRevisions(buf, v, socket, cpu, soc);
    ApuPowerBytes(WriteApuPower(buf, v, socket, cpu, soc), v);
  }

  /** The three power members read back as written. */
  lemma ApuWriteFields(buf: seq<Byte>, v: Variant, socket: nat, cpu: nat, soc: nat)
    requires v == V2_2 || v == V2_3
    requires |buf| >= Size(v)
    requires socket < 0x1_0000 && cpu < 0x1_0000 && soc < 0x1_0000
    ensures var w := WriteApuPower(buf, v, socket, cpu, soc);
      && ReadField(w, v, AverageSocketPower, 0) == Some(socket)
      && ReadField(w, v, AverageCpuPower, 0) == Some(cpu)
      && ReadField(w, v, AverageSocPower, 0) == Some(soc)
  {
    ApuPowerSlots(v);
    var w1 := WriteField(buf, v, AverageSocketPower, 0, socket);
    var w2 := WriteField(w1, v, AverageCpuPower, 0, cpu);
    ReadWriteSame(buf, v, AverageSocketPower, 0, socket);
    ReadWriteSame(w1, v, AverageCpuPower, 0, cpu);
    ReadWriteSame(w2, v, AverageSocPower, 0, soc);
    ReadWriteOther(w1, v, AverageCpuPower, 0, cpu, AverageSocketPower, 0);
    ReadWriteOther(w2, v, AverageSocPower, 0, soc, AverageSocketPower, 0);
    ReadWriteOther(w2, v, AverageSocPower, 0, soc, AverageCpuPower, 0);
  }

  /** Writing the three power members leaves the revision bytes alone. */
  lemma ApuWriteRevisions(buf: seq<Byte>, v: Variant, socket: nat, cpu: nat, soc: nat)
    requires v == V2_2 || v == V2_3
    requires |buf| >= Size(v)
    requires socket < 0x1_0000 && cpu < 0x1_0000 && soc < 0x1_0000
    ensures var w := WriteApuPower(buf, v, socket, cpu, soc);
      w[2] == buf[2] && w[3] == buf[3]
  {
    ApuPowerSlots(v);
    var w1 := WriteField(buf, v, AverageSocketPower, 0, socket);
    var w2 := WriteField(w1, v, AverageCpuPower, 0, cpu);
    RevisionsKept(buf, v, AverageSocketPower, socket);
    RevisionsKept(w1, v, AverageCpuPower, cpu);
    RevisionsKept(w2, v, AverageSocPower, soc);
  }

  /** Writing a single-element member other than the header leaves bytes 2 and 3 alone. */
  lemma RevisionsKept(buf: seq<Byte>, v: Variant, n: FieldName, x: nat)
    requires |buf| >= Size(v)
    requires FieldSlot(v, n).Some? && 0 < FieldSlot(v, n).value.count
    requires x < Pow256(FieldSlot(v, n).value.width)
    requires n != FormatRevision && n != ContentRevision
    ensures var w := WriteField(buf, v, n, 0, x); w[2] == buf[2] && w[3] == buf[3]
  {
    var w := WriteField(buf, v, n, 0, x);
    ReadWriteOther(buf, v, n, 0, x, FormatRevision, 0);
    ReadWriteOther(buf, v, n, 0, x, ContentRevision, 0);
    HeaderThroughTable(buf, v);
    HeaderThroughTable(w, v);
  }

  /**
    Reporting a v2.x buffer whose power members were just written gives back
    the written values, with the CPU and SoC ones to be divided by 1000.
   */
  lemma ApuReportRoundTrip(buf: seq<Byte>, v: Variant, socket: nat, cpu: nat, soc: nat)
    requires v == V2_2 || v == V2_3
    requires |buf| >= LargestSize
    requires Revision(v) == (buf[2] as nat, buf[3] as nat)
    requires socket < 0x1_0000 && cpu < 0x1_0000 && soc < 0x1_0000
    ensures ReportOf(WriteApuPower(buf, v, socket, cpu, soc))
         == Report(buf[2], buf[3], Some(v), [PowerReading(AverageSocketPower, socket, 1),
                                             PowerReading(AverageCpuPower, cpu, 1000),
                                             PowerReading(AverageSocPower, soc, 1000)])
  {
    ApuWriteRead(buf, v, socket, cpu, soc);
    DispatchExact(buf[2], buf[3]);
  }

  /** The v1.3 socket power member of `buf` replaced by `socket`. */
  function WriteDiscretePower(buf: seq<Byte>, socket: nat): (r: seq<Byte>)
    requires |buf| >= Size(V1_3)
    requires socket < 0x1_0000
    ensures |r| == |buf|
  {
    V1_3PowerOffsets();
    WriteField(buf, V1_3, AverageSocketPower, 0, socket)
  }

  /** Reporting a v1.3 buffer whose socket power was just written gives back the written value. */
  lemma DiscreteReportRoundTrip(buf: seq<Byte>, socket: nat)
    requires |buf| >= LargestSize
    requires buf[2] == 1 && buf[3] == 3
    requires socket < 0x1_0000
    ensures ReportOf(WriteDiscretePower(buf, socket))
         == Report(1, 3, Some(V1_3), [PowerReading(AverageSocketPower, socket, 1)])
  {
    V1_3PowerOffsets();
    var w := WriteDiscretePower(buf, socket);
    ReadWriteSame(buf, V1_3, AverageSocketPower, 0, socket);
    RevisionsKept(buf, V1_3, AverageSocketPower, socket);
    V1_3PowerBytes(w);
  }
}
