// `parse_data_col` of utils.py: the `Data` column is read day-first
// ("31/01/2024"), and text that is not a date but a whole number of days
// (optionally with a ".0" fraction) is a spreadsheet serial counted from
// 1899-12-30. Dates are written back with `strftime("%d/%m/%Y")`.
module DateParse {
  import opened Wrappers
  import opened Text
  import opened Dates

  /** `s.split("/")`. */
  function SplitSlash(s: string): (parts: seq<string>)
    ensures |parts| >= 1
    decreases |s|
  {
    var k := CharIndex(s, '/');
    if k == |s| then [s] else [s[..k]] + SplitSlash(s[k + 1..])
  }

  lemma SplitSlashOfNoSlash(s: string)
    requires Lacks(s, '/')
    ensures SplitSlash(s) == [s]
  {
  }

  lemma SplitSlashCons(a: string, b: string)
    requires Lacks(a, '/')
    ensures SplitSlash(a + "/" + b) == [a] + SplitSlash(b)
  {
    var s := a + "/" + b;
    CharIndexAfter(a, b, '/');
    assert s[..|a|] == a;
    assert s[|a| + 1..] == b;
  }

  /** A 1- or 2-digit day or month field (`%d`, `%m`). */
  predicate ShortField(s: string) { 1 <= |s| <= 2 && AllDigits(s) }

  /**
   * The midnight timestamps pandas can hold: `Timestamp.min` is
   * 1677-09-21 00:12:43 and `Timestamp.max` is 2262-04-11 23:47:16.
   */
  const StampMin: Date := Date(1677, 9, 22)
  const StampMax: Date := Date(2262, 4, 11)

  predicate InStampRange(d: Date) { AtMost(StampMin, d) && AtMost(d, StampMax) }

  /**
   * Strict day-first parse of "D/M/YYYY" (the `format="%d/%m/%Y"` reading);
   * None when it fails, or when the date is outside the timestamp range
   * (`errors="coerce"` turns the overflow into NaT).
   */
  function DayFirst(s: string): (r: Option<Date>)
    ensures r.Some? ==> Valid(r.value) && InStampRange(r.value)
  {
    var p := SplitSlash(s);
    if |p| == 3 && ShortField(p[0]) && ShortField(p[1]) && |p[2]| == 4 && AllDigits(p[2]) then
      var d := Date(DigitsValue(p[2]), DigitsValue(p[1]), DigitsValue(p[0]));
      if Valid(d) && InStampRange(d) then Some(d) else None
    else None
  }

  /** `^\d+(\.0+)?$`: digits, optionally followed by '.' and one or more zeros. */
  predicate IsSerialText(s: string) {
    var k := CharIndex(s, '.');
    1 <= k && AllDigits(s[..k]) && (k == |s| || (k + 1 < |s| && forall i :: k < i < |s| ==> s[i] == '0'))
  }

  /** The whole number of days a serial text stands for (`float(s)`). */
  function SerialDays(s: string): nat
    requires IsSerialText(s)
  {
    DigitsValue(s[..CharIndex(s, '.')])
  }

  /** `pd.Timedelta.max` is 106751 days and some hours: a longer serial cannot be converted. */
  const MaxSerialDays: nat := 106751

  /** A serial text `pd.to_timedelta` overflows on. */
  predicate SerialOverflows(s: string) { IsSerialText(s) && SerialDays(s) > MaxSerialDays }

  /** Every serial date `pd.to_timedelta` can produce is a timestamp pandas can hold. */
  lemma SerialDateInRange(n: nat)
    requires n <= MaxSerialDays
    ensures InStampRange(AddDays(SerialEpoch, n))
  {
    var r := AddDays(SerialEpoch, n);
    assert DayNumber(StampMin) < DayNumber(SerialEpoch);
    assert DayNumber(SerialEpoch) + MaxSerialDays < DayNumber(StampMax);
    BeforeIsDayNumberOrder(StampMin, r);
    BeforeIsDayNumberOrder(r, StampMax);
  }

  /**
   * A stripped cell: the day-first reading, else the serial reading, else
   * NaT. A serial past the `Timedelta` range makes the whole column raise
   * (ParseStrippedColumn); every other reading is a timestamp pandas can hold.
   */
  function ReadStripped(s: string): (r: Option<Date>)
    ensures r.Some? ==> Valid(r.value)
    ensures r.Some? && !SerialOverflows(s) ==> InStampRange(r.value)
    ensures DayFirst(s).Some? ==> r == DayFirst(s)
    ensures DayFirst(s).None? && IsSerialText(s) ==>
      r.Some? && DayNumber(r.value) == DayNumber(SerialEpoch) + SerialDays(s)
    ensures DayFirst(s).None? && !IsSerialText(s) ==> r.None?
  {
    match DayFirst(s)
    case Some(d) => Some(d)
    case None =>
      if IsSerialText(s) then
        var n := SerialDays(s);
        assert n <= MaxSerialDays ==> InStampRange(AddDays(SerialEpoch, n)) by {
          if n <= MaxSerialDays { SerialDateInRange(n); }
        }
        Some(AddDays(SerialEpoch, n))
      else None
  }

  /** One cell of `parse_data_col`, which strips the text first. */
  function ParseDateCell(cell: string): Option<Date>
  {
    ReadStripped(Strip(cell))
  }

  /** `s.astype(str).str.strip()` over a column. */
  method StripColumn(series: seq<string>) returns (ser: seq<string>)
    ensures |ser| == |series|
    ensures forall i :: 0 <= i < |series| ==> ser[i] == Strip(series[i])
  {
    ser := [];
    var i := 0;
    while i < |series|
      invariant i <= |series| && |ser| == i
      invariant forall j :: 0 <= j < i ==> ser[j] == Strip(series[j])
    {
      ser := ser + [Strip(series[i])];
      i := i + 1;
    }
  }

  /**
   * The parse of a stripped column: the day-first pass over every cell, then
   * the cells that failed and look like serials are overwritten one by one.
   * None when `pd.to_timedelta` raises on a serial past its range.
   */
  method ParseStrippedColumn(ser: seq<string>) returns (d: Option<seq<Option<Date>>>)
    ensures d.None? <==> exists i :: 0 <= i < |ser| && SerialOverflows(ser[i])
    ensures d.Some? ==> |d.value| == |ser|
    ensures d.Some? ==> forall i :: 0 <= i < |ser| ==> d.value[i] == ReadStripped(ser[i])
  {
    var n := |ser|;
    var a := seq(n, j requires 0 <= j < n => DayFirst(ser[j]));
    var i := 0;
    while i < n
      invariant 0 <= i <= n && |a| == n
      invariant forall j :: 0 <= j < i ==> a[j] == ReadStripped(ser[j])
      invariant forall j :: 0 <= j < i ==> !SerialOverflows(ser[j])
      invariant forall j :: i <= j < n ==> a[j] == DayFirst(ser[j])
    {
      CellStep(ser[i]);
      if a[i].None? && SerialOverflows(ser[i]) {
        return None;
      }
      a := a[i := SerialFallback(ser[i], a[i])];
      i := i + 1;
    }
    d := Some(a);
  }

  /** `d.loc[mask_serial] = base + …` on one cell: a failed cell that looks like a serial gets the serial's date. */
  function SerialFallback(s: string, cur: Option<Date>): Option<Date> {
    if cur.None? && IsSerialText(s) then Some(AddDays(SerialEpoch, SerialDays(s))) else cur
  }

  /** One cell of the loop: a serial text never parses day-first, and the fallback gives the cell's reading. */
  lemma CellStep(s: string)
    ensures SerialOverflows(s) ==> DayFirst(s).None?
    ensures SerialFallback(s, DayFirst(s)) == ReadStripped(s)
  {
    if IsSerialText(s) {
      SerialIsNotDayFirst(s);
    }
  }

  /** `parse_data_col`: None when it raises on an oversized serial. */
  method ParseDataCol(series: seq<string>) returns (d: Option<seq<Option<Date>>>)
    ensures d.None? <==> exists i :: 0 <= i < |series| && SerialOverflows(Strip(series[i]))
    ensures d.Some? ==> |d.value| == |series|
    ensures d.Some? ==> forall i :: 0 <= i < |series| ==> d.value[i] == ParseDateCell(series[i])
  {
    var ser := StripColumn(series);
    d := ParseStrippedColumn(ser);
    if d.None? {
      var i :| 0 <= i < |ser| && SerialOverflows(ser[i]);
      assert SerialOverflows(Strip(series[i]));
    }
  }

  // ------------------------------------------------------------- writing

  /** `strftime("%d/%m/%Y")`. */
  function FormatDMY(d: Date): string
    requires Valid(d) && d.year >= 0
  {
    Pad2(d.day) + "/" + Pad2(d.month) + "/" + NatStr(d.year)
  }

  lemma Pad2NoSlash(n: nat)
    requires n < 100
    ensures Lacks(Pad2(n), '/')
  {
  }

  /**
   * Dates with four-digit years are read back from their written form when
   * pandas can hold them, and as NaT otherwise.
   */
  lemma FormatDMYRoundTrip(d: Date)
    requires Valid(d) && 1000 <= d.year <= 9999
    ensures DayFirst(FormatDMY(d)) == if InStampRange(d) then Some(d) else None
  {
    var dd, mm, yy := Pad2(d.day), Pad2(d.month), NatStr(d.year);
    NatStrFourDigits(d.year);
    Pad2NoSlash(d.day);
    Pad2NoSlash(d.month);
    assert Lacks(yy, '/');
    SplitThree(dd, mm, yy);
    Pad2Value(d.day);
    Pad2Value(d.month);
    DigitsValueOfNatStr(d.year);
  }

  lemma SplitThree(a: string, b: string, c: string)
    requires Lacks(a, '/') && Lacks(b, '/') && Lacks(c, '/')
    ensures SplitSlash(a + "/" + b + "/" + c) == [a, b, c]
  {
    var bc := b + "/" + c;
    assert a + "/" + b + "/" + c == a + "/" + bc;
    SplitSlashOfNoSlash(c);
    SplitSlashCons(b, c);
    assert SplitSlash(bc) == [b, c];
    SplitSlashCons(a, bc);
  }

  /** ... and so is every cell holding that written form. */
  lemma ParseDateCellOfFormat(d: Date)
    requires Valid(d) && 1000 <= d.year <= 9999
    ensures ParseDateCell(FormatDMY(d)) == if InStampRange(d) then Some(d) else None
  {
    var s := FormatDMY(d);
    FormatDMYRoundTrip(d);
    assert Stripped(s);
    StripOfStripped(s);
    assert s[2] == '/';
    if IsSerialText(s) {
      SerialLacksSlash(s);
      assert false;
    }
  }

  /** A serial-looking text is never also a day-first date, so serials are read as serials. */
  lemma SerialIsNotDayFirst(s: string)
    requires IsSerialText(s)
    ensures DayFirst(s).None?
  {
    SerialLacksSlash(s);
    SplitSlashOfNoSlash(s);
  }

  lemma SerialLacksSlash(s: string)
    requires IsSerialText(s)
    ensures Lacks(s, '/')
  {
    var k := CharIndex(s, '.');
    forall i | 0 <= i < |s| ensures s[i] != '/' {
      if i < k { assert s[..k][i] == s[i]; } else if i > k { assert s[i] == '0'; }
    }
  }
}
