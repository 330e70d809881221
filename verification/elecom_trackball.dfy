/**
 Buttons that a trackball drives in bits its report descriptor declares as
 padding: finding the bits, guarding the arithmetic, and decoding reports.
 Report items are those of section 6.2.2.5 of the USB Device Class Definition
 for HID 1.11.
 */
module ElecomTrackballs {
  import opened Types
  import opened Sequences
  import opened EventQueueEntries
  import opened DeltaStreams

  const MAX_UINT8 := 255

  const MOUSE_USAGE := 0x02
  const POINTER_USAGE := 0x01

  datatype ReportType = InputReport | OutputReport | FeatureReport

  datatype Collection = Collection(ty: nat, usage: Option<Switch>)

  datatype Field = Field(
    reportType: ReportType,
    reportId: int,
    constant: bool,
    variable: bool,
    relative: bool,
    usagePage: int,
    sizeBits: Size,
    count: Size,
    logicalMinimum: int,
    logicalMaximum: int,
    usageMinimum: Option<Switch>,
    usageMaximum: Option<Switch>,
    bitOffset: Size,
    hasUsages: bool,
    hasUsageSets: bool,
    path: seq<Collection>)

  datatype Configuration = Configuration(reportId: nat, bitOffset: Size, buttonCount: Size, firstButton: nat)

  predicate InMousePointerCollection(f: Field) {
    && |f.path| >= 2
    && f.path[0].usage == Some(Switch(GENERIC_DESKTOP, MOUSE_USAGE))
    && f.path[1].usage == Some(Switch(GENERIC_DESKTOP, POINTER_USAGE))
  }

  predicate IsTargetDevice(vendor: int, product: int) {
    vendor == 0x056e && (product == 0x00fe || product == 0x01aa || product == 0x01ab || product == 0x01ac)
  }

  /** The normal button field: buttons 1 to 5, one bit each, at a byte boundary. */
  predicate IsButtonField(f: Field) {
    && f.reportType == InputReport
    && !f.constant && f.variable && !f.relative
    && f.usagePage == BUTTON && f.sizeBits == 1 && f.count == 5
    && f.logicalMinimum == 0 && f.logicalMaximum == 1
    && f.usageMinimum == Some(Switch(BUTTON, 1)) && f.usageMaximum == Some(Switch(BUTTON, 5))
    && f.bitOffset % 8 == 0
    && InMousePointerCollection(f)
  }

  /** The padding that follows it immediately. */
  predicate IsPaddingOf(p: Field, f: Field) {
    && p.reportType == f.reportType && p.reportId == f.reportId
    && p.constant
    && p.bitOffset == (f.bitOffset + 5) % (MAX_SIZE + 1)
    && !p.hasUsages && !p.hasUsageSets && p.usageMinimum.None? && p.usageMaximum.None?
    && p.path == f.path
  }

  /** The guards, in the order in which the 64-bit arithmetic needs them. */
  function LayoutOf(f: Field, p: Field): Option<Configuration>
    requires f.usageMaximum.Some?
  {
    if p.count != 0 && p.sizeBits > MAX_SIZE / p.count then None
    else
      var bits := p.sizeBits * p.count;
      var firstButton := f.usageMaximum.value.usage + 1;
      if f.reportId < 0 || f.reportId > 255 || bits == 0 || bits > MAX_SIZE
         || firstButton < 0 || firstButton > MAX_UINT8 || bits > MAX_UINT8 - firstButton + 1
      then None
      else if f.reportId != 0 && p.bitOffset > MAX_SIZE - 8 then None
      else
        var offset := p.bitOffset + if f.reportId != 0 then 8 else 0;
        if bits > MAX_SIZE - offset then None
        else Some(Configuration(f.reportId, offset, bits, firstButton))
  }

  function LayoutAt(fields: seq<Field>, i: nat): Option<Configuration>
    requires i + 1 < |fields|
  {
    if IsButtonField(fields[i]) && IsPaddingOf(fields[i + 1], fields[i])
    then LayoutOf(fields[i], fields[i + 1])
    else None
  }

  /** The layout of the first field pair that passes; the parsed descriptor is an input. */
  method FindConfiguration(vendor: int, product: int, parsed: Option<seq<Field>>) returns (r: Option<Configuration>)
    ensures r.Some? ==>
              && vendor == 0x056e && product in {0x00fe, 0x01aa, 0x01ab, 0x01ac} && parsed.Some?
              && exists i :: 0 <= i && i + 1 < |parsed.value| && LayoutAt(parsed.value, i) == r
                             && forall j :: 0 <= j < i ==> LayoutAt(parsed.value, j).None?
    ensures r.None? && vendor == 0x056e && product in {0x00fe, 0x01aa, 0x01ab, 0x01ac} && parsed.Some? ==>
              forall i :: 0 <= i && i + 1 < |parsed.value| ==> LayoutAt(parsed.value, i).None?
  {
    if !IsTargetDevice(vendor, product) || parsed.None? {
      return None;
    }
    var fields := parsed.value;
    var i := 0;
    while i + 1 < |fields|
      invariant 0 <= i && forall j :: 0 <= j < i && j + 1 < |fields| ==> LayoutAt(fields, j).None?
    {
      r := LayoutAt(fields, i);
      if r.Some? {
        return;
      }
      i := i + 1;
    }
    r := None;
  }

  /** What every configuration found satisfies. */
  predicate Sound(cfg: Configuration) {
    && cfg.reportId <= 255
    && cfg.buttonCount > 0
    && cfg.firstButton + cfg.buttonCount - 1 <= MAX_UINT8
    && cfg.bitOffset + cfg.buttonCount <= MAX_SIZE
  }

  /** No button number leaves a byte and no bit position leaves 64 bits; the product never wraps. */
  lemma LayoutIsSound(f: Field, p: Field)
    requires f.usageMaximum.Some?
    ensures LayoutOf(f, p).Some? ==> Sound(LayoutOf(f, p).value) && p.sizeBits * p.count <= MAX_SIZE
    ensures p.count != 0 && p.sizeBits > MAX_SIZE / p.count ==> p.sizeBits * p.count > MAX_SIZE
  {
    if p.count != 0 && p.sizeBits > MAX_SIZE / p.count {
      DivisionGuard(p.sizeBits, p.count);
    }
  }

  lemma DivisionGuard(size: nat, count: nat)
    requires count != 0 && size > MAX_SIZE / count
    ensures size * count > MAX_SIZE
  {
    assert MAX_SIZE < (MAX_SIZE / count + 1) * count;
    assert size >= MAX_SIZE / count + 1;
    assert size * count >= (MAX_SIZE / count + 1) * count;
  }

  /** The pair of fields that is looked for, item by item. */
  lemma FieldPairIff(f: Field, p: Field)
    ensures IsButtonField(f) && IsPaddingOf(p, f) <==>
            && f == Field(InputReport, f.reportId, false, true, false, 0x09, 1, 5, 0, 1,
                          Some(Switch(0x09, 1)), Some(Switch(0x09, 5)), f.bitOffset, f.hasUsages, f.hasUsageSets,
                            f.path)
            && f.bitOffset % 8 == 0
            && |f.path| >= 2 && f.path[0].usage == Some(Switch(0x01, 0x02))
              && f.path[1].usage == Some(Switch(0x01, 0x01))
            && p == Field(InputReport, f.reportId, true, p.variable, p.relative, p.usagePage, p.sizeBits, p.count,
                          p.logicalMinimum, p.logicalMaximum, None, None, p.bitOffset, false, false, f.path)
            && p.bitOffset == (f.bitOffset + 5) % 0x1_0000_0000_0000_0000
  {
  }

  /** The guards, in numbers that do not wrap: exactly which paddings give a layout, and which one. */
  lemma LayoutExact(f: Field, p: Field)
    requires f.usageMaximum == Some(Switch(0x09, 5))
    ensures var bits, header := p.sizeBits * p.count, if f.reportId != 0 then 8 else 0;
            LayoutOf(f, p) ==
            if 0 <= f.reportId <= 255 && 1 <= bits <= 250 && p.bitOffset + header + bits < 0x1_0000_0000_0000_0000
            then Some(Configuration(f.reportId, p.bitOffset + header, bits, 6))
            else None
  {
    if p.count != 0 && p.sizeBits > MAX_SIZE / p.count {
      DivisionGuard(p.sizeBits, p.count);
    }
  }

  // ----- The handler -----

  type Byte = b: int | 0 <= b < 256

  /** Whether bit `k` of a number is set: shifted down `k` times, it is odd. */
  predicate BitSet(n: nat, k: nat) {
    if k == 0 then n % 2 == 1 else BitSet(n / 2, k - 1)
  }

  function Pow2(n: nat): (r: nat)
    ensures r > 0
  {
    if n == 0 then 1 else 2 * Pow2(n - 1)
  }

  /** A report as one number, its first byte the least significant. */
  function ReportNumber(report: seq<Byte>): nat {
    if report == [] then 0 else report[0] + 256 * ReportNumber(report[1..])
  }

  /** Bits below position `m` do not see what is added above it. */
  lemma {:induction false} LowBit(x: nat, y: nat, m: nat, k: nat)
    requires k < m
    ensures BitSet(x + Pow2(m) * y, k) == BitSet(x, k)
  {
    var z := Pow2(m - 1) * y;
    assert Pow2(m) * y == 2 * z;
    assert (x + 2 * z) % 2 == x % 2 && (x + 2 * z) / 2 == x / 2 + z;
    if k > 0 {
      LowBit(x / 2, y, m - 1, k - 1);
    }
  }

  /** Bits from position `m` on are those of what is added there. */
  lemma {:induction false} HighBit(x: nat, y: nat, m: nat, k: nat)
    requires x < Pow2(m) && m <= k
    ensures BitSet(x + Pow2(m) * y, k) == BitSet(y, k - m)
  {
    if m > 0 {
      var z := Pow2(m - 1) * y;
      assert Pow2(m) * y == 2 * z;
      assert (x + 2 * z) / 2 == x / 2 + z;
      HighBit(x / 2, y, m - 1, k - 1);
    }
  }

  /** The case of a byte: eight positions are the first byte, the rest are those of the bytes after it. */
  lemma ByteBit(b: Byte, rest: nat, k: nat)
    ensures BitSet(b + 256 * rest, k) == if k < 8 then BitSet(b, k) else BitSet(rest, k - 8)
  {
    hide BitSet;
    assert Pow2(4) == 16;
    assert Pow2(8) == 256;
    if k < 8 {
      LowBit(b, rest, 8, k);
    } else {
      HighBit(b, rest, 8, k);
    }
  }

  /** A position in a report is that bit of the number: bits count up through a byte, and bytes through the report. */
  lemma {:induction false} PositionIsBit(report: seq<Byte>, position: nat)
    requires position / 8 < |report|
    ensures BitSet(report[position / 8], position % 8) == BitSet(ReportNumber(report), position)
  {
    hide BitSet;
    ByteBit(report[0], ReportNumber(report[1..]), position);
    if position >= 8 {
      assert (position - 8) / 8 == position / 8 - 1 && (position - 8) % 8 == position % 8;
      PositionIsBit(report[1..], position - 8);
    }
  }

  predicate Accepts(cfg: Configuration, reportId: nat, size: nat) {
    && reportId == cfg.reportId
    && cfg.buttonCount != 0
    && cfg.buttonCount - 1 <= MAX_SIZE - cfg.bitOffset
    && (cfg.bitOffset + cfg.buttonCount - 1) / 8 < size
  }

  /** Every bit the handler reads lies inside an accepted report, at a position that does not wrap. */
  lemma AcceptedReadsInBounds(cfg: Configuration, reportId: nat, size: nat, i: nat)
    requires Accepts(cfg, reportId, size) && i < cfg.buttonCount
    ensures (cfg.bitOffset + i) / 8 < size && cfg.bitOffset + i <= MAX_SIZE
  {
    assert (cfg.bitOffset + i) / 8 <= (cfg.bitOffset + cfg.buttonCount - 1) / 8;
  }

  /** The report has the id of the layout, and every button has a bit in it, at a position that fits 64 bits. */
  ghost predicate HoldsEveryButton(cfg: Configuration, reportId: nat, size: nat) {
    && reportId == cfg.reportId && cfg.buttonCount > 0
    && forall i :: 0 <= i < cfg.buttonCount ==> HoldsBit(cfg, i, size)
  }

  predicate HoldsBit(cfg: Configuration, i: nat, size: nat) {
    cfg.bitOffset + i <= MAX_SIZE && (cfg.bitOffset + i) / 8 < size
  }

  lemma AcceptsIff(cfg: Configuration, reportId: nat, size: nat)
    ensures Accepts(cfg, reportId, size) <==> HoldsEveryButton(cfg, reportId, size)
  {
    if Accepts(cfg, reportId, size) {
      forall i | 0 <= i < cfg.buttonCount ensures HoldsBit(cfg, i, size) {
        AcceptedReadsInBounds(cfg, reportId, size, i);
      }
    }
    assert HoldsEveryButton(cfg, reportId, size) ==> HoldsBit(cfg, cfg.buttonCount - 1, size);
  }

  predicate ButtonBit(cfg: Configuration, report: seq<Byte>, i: nat)
    requires Accepts(cfg, cfg.reportId, |report|) && i < cfg.buttonCount
  {
    AcceptedReadsInBounds(cfg, cfg.reportId, |report|, i);
    BitSet(report[(cfg.bitOffset + i) / 8], (cfg.bitOffset + i) % 8)
  }

  function ButtonBits(cfg: Configuration, report: seq<Byte>): (bits: seq<bool>)
    requires Accepts(cfg, cfg.reportId, |report|)
    ensures |bits| == cfg.buttonCount
    ensures forall i :: 0 <= i < cfg.buttonCount ==> bits[i] == ButtonBit(cfg, report, i)
  {
    seq(cfg.buttonCount, i requires 0 <= i < cfg.buttonCount => ButtonBit(cfg, report, i))
  }

  /** Button `i` is the bit of the report number at the offset of the layout plus `i`. */
  lemma ButtonIsReportBit(cfg: Configuration, report: seq<Byte>, i: nat)
    requires Accepts(cfg, cfg.reportId, |report|) && i < cfg.buttonCount
    ensures ButtonBits(cfg, report)[i] == BitSet(ReportNumber(report), cfg.bitOffset + i)
  {
    AcceptedReadsInBounds(cfg, cfg.reportId, |report|, i);
    PositionIsBit(report, cfg.bitOffset + i);
  }

  datatype ButtonValue = ButtonValue(timeStamp: int, value: int, page: int, usage: int)

  function ButtonValueOf(cfg: Configuration, timeStamp: int, c: Change): ButtonValue {
    ButtonValue(timeStamp, if c.pressed then 1 else 0, BUTTON, (cfg.firstButton + c.index) % 256)
  }

  function ButtonValues(cfg: Configuration, timeStamp: int, cs: seq<Change>): seq<ButtonValue> {
    if cs == [] then []
    else ButtonValues(cfg, timeStamp, cs[..|cs| - 1]) + [ButtonValueOf(cfg, timeStamp, cs[|cs| - 1])]
  }

  lemma ButtonValuesSnoc(cfg: Configuration, timeStamp: int, cs: seq<Change>, c: Change)
    ensures ButtonValues(cfg, timeStamp, cs + [c]) ==
            ButtonValues(cfg, timeStamp, cs) + [ButtonValueOf(cfg, timeStamp, c)]
  {
    assert (cs + [c])[..|cs + [c]| - 1] == cs;
  }

  lemma NextButtonValue(cfg: Configuration, timeStamp: int, last: seq<bool>, bits: seq<bool>, i: nat)
    requires i < |last| == |bits|
    ensures var before := ButtonValues(cfg, timeStamp, Changes(last, bits, i));
            ButtonValues(cfg, timeStamp, Changes(last, bits, i + 1)) ==
            if last[i] != bits[i]
            then before + [ButtonValueOf(cfg, timeStamp, Change(i, bits[i]))]
            else before
  {
    if last[i] != bits[i] {
      ButtonValuesSnoc(cfg, timeStamp, Changes(last, bits, i), Change(i, bits[i]));
    }
  }

  class Handler {
    const cfg: Configuration
    const lastButtons: array<bool>

    ghost predicate Valid()
      reads this
    {
      lastButtons.Length == cfg.buttonCount
    }

    constructor (cfg: Configuration)
      ensures this.cfg == cfg && Valid() && fresh(lastButtons)
      ensures lastButtons[..] == AllOff(cfg.buttonCount)
    {
      this.cfg := cfg;
      lastButtons := new bool[cfg.buttonCount](i => false);
    }

    method ShouldAcceptReport(reportId: nat, report: seq<Byte>) returns (r: bool)
      ensures r <==> HoldsEveryButton(cfg, reportId, |report|)
      ensures r <==> Accepts(cfg, reportId, |report|)
    {
      AcceptsIff(cfg, reportId, |report|);
      if reportId != cfg.reportId || cfg.buttonCount == 0 || cfg.buttonCount - 1 > MAX_SIZE - cfg.bitOffset {
        return false;
      }
      var lastBitOffset := cfg.bitOffset + cfg.buttonCount - 1;
      return lastBitOffset / 8 < |report|;
    }

    /** Emits the changed buttons and remembers the report; the report must have been accepted. */
    method Handle(reportId: nat, report: seq<Byte>, timeStamp: int) returns (result: seq<ButtonValue>)
      requires Valid() && Accepts(cfg, reportId, |report|)
      modifies lastButtons
      ensures lastButtons[..] == ButtonBits(cfg, report)
      ensures var changes := Changes(old(lastButtons[..]), ButtonBits(cfg, report), cfg.buttonCount);
              result == ButtonValues(cfg, timeStamp, changes)
    {
      ghost var last, bits := lastButtons[..], ButtonBits(cfg, report);
      result := [];
      assert result == ButtonValues(cfg, timeStamp, Changes(last, bits, 0));
      assert Accepts(cfg, cfg.reportId, |report|) && lastButtons.Length == cfg.buttonCount;
      hide *;
      for i := 0 to cfg.buttonCount
        invariant lastButtons.Length == |last| == |bits| == cfg.buttonCount
        invariant lastButtons[..] == bits[..i] + last[i..]
        invariant result == ButtonValues(cfg, timeStamp, Changes(last, bits, i))
      {
        var pressed := ButtonBit(cfg, report, i);
        NextButtonValue(cfg, timeStamp, last, bits, i);
        RowStep(last, bits, i + 1);
        assert lastButtons[i] == lastButtons[..][i];
        if pressed != lastButtons[i] {
          result := result + [ButtonValueOf(cfg, timeStamp, Change(i, pressed))];
        }
        lastButtons[i] := pressed;
      }
    }

    method Reset()
      requires Valid()
      modifies lastButtons
      ensures lastButtons[..] == AllOff(cfg.buttonCount)
    {
      for i := 0 to lastButtons.Length
        invariant forall j :: 0 <= j < i ==> !lastButtons[j]
      {
        lastButtons[i] := false;
      }
    }
  }

  /** Under a configuration that was found, the usage of every button is its own number, in a byte. */
  lemma ButtonNumbersAreExact(cfg: Configuration, timeStamp: int, c: Change)
    requires Sound(cfg) && c.index < cfg.buttonCount
    ensures ButtonValueOf(cfg, timeStamp, c).usage == cfg.firstButton + c.index <= MAX_UINT8
  {
  }

  // ----- Whole runs of accepted reports and resets -----

  datatype ReportOp = Received(report: seq<Byte>, timeStamp: int) | WasReset

  ghost predicate AllAccepted(cfg: Configuration, ops: seq<ReportOp>) {
    forall op :: op in ops && op.Received? ==> Accepts(cfg, cfg.reportId, |op.report|)
  }

  ghost function RowsOf(cfg: Configuration, ops: seq<ReportOp>): (steps: seq<Step>)
    requires AllAccepted(cfg, ops)
    ensures Rows(steps, cfg.buttonCount)
  {
    if ops == [] then []
    else
      var before := RowsOf(cfg, ops[..|ops| - 1]);
      assert ops[|ops| - 1] in ops;
      match ops[|ops| - 1]
      case Received(report, _) => before + [Report(ButtonBits(cfg, report))]
      case WasReset => before + [DeltaStreams.Reset]
  }

  /** The values that the handler returned since the last reset. */
  ghost function Returned(cfg: Configuration, ops: seq<ReportOp>): seq<ButtonValue>
    requires AllAccepted(cfg, ops)
  {
    if ops == [] then []
    else
      var before := ops[..|ops| - 1];
      assert ops[|ops| - 1] in ops;
      match ops[|ops| - 1]
      case Received(report, timeStamp) =>
        var last := LastRow(cfg.buttonCount, RowsOf(cfg, before));
        Returned(cfg, before)
        + ButtonValues(cfg, timeStamp, Changes(last, ButtonBits(cfg, report), cfg.buttonCount))
      case WasReset => []
  }

  /** The values for one usage. */
  function ValuesFor(vs: seq<ButtonValue>, usage: int): seq<int> {
    if vs == [] then []
    else
      var before := ValuesFor(vs[..|vs| - 1], usage);
      if vs[|vs| - 1].usage == usage then before + [vs[|vs| - 1].value] else before
  }

  function AsNumbers(bits: seq<bool>): (ns: seq<int>)
    ensures |ns| == |bits| && forall k :: 0 <= k < |bits| ==> ns[k] == if bits[k] then 1 else 0
  {
    seq(|bits|, k requires 0 <= k < |bits| => if bits[k] then 1 else 0)
  }

  lemma ValuesForSnoc(vs: seq<ButtonValue>, v: ButtonValue, usage: int)
    ensures ValuesFor(vs + [v], usage) ==
            if v.usage == usage then ValuesFor(vs, usage) + [v.value] else ValuesFor(vs, usage)
  {
    assert (vs + [v])[..|vs + [v]| - 1] == vs;
  }

  /** One more row of changes adds its values to those of every button. */
  lemma {:induction false} ValuesForRow(
      cfg: Configuration, vs: seq<ButtonValue>, cs: seq<Change>, ds: seq<Change>, timeStamp: int, i: nat)
    requires Sound(cfg) && i < cfg.buttonCount && InRange(ds, cfg.buttonCount)
    requires ValuesFor(vs, cfg.firstButton + i) == AsNumbers(ValuesOf(cs, i))
    ensures ValuesFor(vs + ButtonValues(cfg, timeStamp, ds), cfg.firstButton + i) == AsNumbers(ValuesOf(cs + ds, i))
  {
    if ds == [] {
      assert vs + [] == vs && cs + [] == cs;
    } else {
      var front, d := ds[..|ds| - 1], ds[|ds| - 1];
      assert d in ds && forall c :: c in front ==> c in ds;
      assert ds == front + [d];
      var more := ButtonValues(cfg, timeStamp, front);
      ValuesForRow(cfg, vs, cs, front, timeStamp, i);
      ButtonNumbersAreExact(cfg, timeStamp, d);
      NextValueFor(cfg, vs + more, cs + front, d, timeStamp, i);
      AppendAssoc(vs, more, ButtonValueOf(cfg, timeStamp, d));
      AppendAssoc(cs, front, d);
    }
  }

  lemma NextValueFor(cfg: Configuration, vs: seq<ButtonValue>, cs: seq<Change>, d: Change, timeStamp: int, i: nat)
    requires ButtonValueOf(cfg, timeStamp, d).usage == cfg.firstButton + d.index
    requires ValuesFor(vs, cfg.firstButton + i) == AsNumbers(ValuesOf(cs, i))
    ensures ValuesFor(vs + [ButtonValueOf(cfg, timeStamp, d)], cfg.firstButton + i) == AsNumbers(ValuesOf(cs + [d], i))
  {
    ValuesForSnoc(vs, ButtonValueOf(cfg, timeStamp, d), cfg.firstButton + i);
    assert (cs + [d])[..|cs + [d]| - 1] == cs;
  }

  lemma RowsSnoc(cfg: Configuration, ops: seq<ReportOp>, op: ReportOp)
    requires AllAccepted(cfg, ops + [op]) && AllAccepted(cfg, ops)
    ensures op.Received? ==> Accepts(cfg, cfg.reportId, |op.report|)
    ensures var steps := RowsOf(cfg, ops);
            if op.Received? then
              var bits := ButtonBits(cfg, op.report);
              && RowsOf(cfg, ops + [op]) == steps + [Report(bits)]
              && Returned(cfg, ops + [op]) ==
                 Returned(cfg, ops)
                 + ButtonValues(cfg, op.timeStamp, Changes(LastRow(cfg.buttonCount, steps), bits, cfg.buttonCount))
            else RowsOf(cfg, ops + [op]) == steps + [DeltaStreams.Reset] && Returned(cfg, ops + [op]) == []
  {
    var all := ops + [op];
    assert all[..|all| - 1] == ops && all[|all| - 1] == op && op in all;
  }

  /** What a listener to one usage hears is what happened to that button. */
  lemma {:induction false} ReturnedIsEmitted(cfg: Configuration, ops: seq<ReportOp>, i: nat)
    requires Sound(cfg) && AllAccepted(cfg, ops) && i < cfg.buttonCount
    ensures ValuesFor(Returned(cfg, ops), cfg.firstButton + i) ==
            AsNumbers(ValuesOf(Emitted(cfg.buttonCount, RowsOf(cfg, ops)), i))
  {
    if ops != [] {
      var before, op := ops[..|ops| - 1], ops[|ops| - 1];
      assert ops == before + [op];
      ReturnedIsEmitted(cfg, before, i);
      RowsSnoc(cfg, before, op);
      var n, steps := cfg.buttonCount, RowsOf(cfg, before);
      if op.Received? {
        var bits := ButtonBits(cfg, op.report);
        EmittedSnoc(n, steps, Report(bits));
        var changes := Changes(LastRow(n, steps), bits, n);
        ValuesForRow(cfg, Returned(cfg, before), Emitted(n, steps), changes, op.timeStamp, i);
      } else {
        EmittedSnoc(n, steps, DeltaStreams.Reset);
      }
    }
  }

  /**
   Over any run of accepted reports and resets: the values returned for a button
   since the last reset are 1, 0, 1, ..., and the last of them is the button's
   bit in the last report.
   */
  lemma ReportsReplay(cfg: Configuration, ops: seq<ReportOp>, i: nat)
    requires Sound(cfg) && AllAccepted(cfg, ops) && i < cfg.buttonCount
    ensures var vs := ValuesFor(Returned(cfg, ops), cfg.firstButton + i);
            && (forall k :: 0 <= k < |vs| ==> vs[k] == if k % 2 == 0 then 1 else 0)
            && (ops != [] && ops[|ops| - 1].Received? ==>
                  Accepts(cfg, cfg.reportId, |ops[|ops| - 1].report|)
                  && (ButtonBits(cfg, ops[|ops| - 1].report)[i] <==> vs != [] && vs[|vs| - 1] == 1))
  {
    hide ValuesFor, ValuesOf, Returned, Emitted, Replay, Toggles, RowsOf, ButtonBits, LastRow;
    var n, steps := cfg.buttonCount, RowsOf(cfg, ops);
    ReturnedIsEmitted(cfg, ops, i);
    RunReplays(n, steps);
    TogglingAlternates(AllOff(n), Emitted(n, steps), i);
    if ops != [] && ops[|ops| - 1].Received? {
      LastReport(cfg, ops);
    }
  }

  lemma LastReport(cfg: Configuration, ops: seq<ReportOp>)
    requires AllAccepted(cfg, ops) && ops != [] && ops[|ops| - 1].Received?
    ensures Accepts(cfg, cfg.reportId, |ops[|ops| - 1].report|)
    ensures LastRow(cfg.buttonCount, RowsOf(cfg, ops)) == ButtonBits(cfg, ops[|ops| - 1].report)
  {
    assert ops[|ops| - 1] in ops;
    hide ButtonBits;
  }
}
