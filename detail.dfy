// tabs/detalhamento.py: the detail view of the month. Its rows are narrowed
// by type, category, responsible-party, method and text-search filters; when
// no filter removes a row the whole month may be edited and saved. Saving
// reads the edited amount and date texts back, keeps every ledger row outside
// the month as it was, appends the edited rows and rewrites the main sheet.
module Detail {
  import opened Wrappers
  import opened Text
  import opened Seqs
  import opened Dates
  import opened Money
  import opened DateParse
  import opened Ledger
  import opened Period
  import opened Invoice
  import opened Store
  import opened Sheets

  // ------------------------------------------------------------- filters

  /** The filter choices of the detail view. */
  datatype DetailChoices = DetailChoices(
    tipos: seq<string>, cats: seq<string>, resps: seq<string>, mets: seq<string>, busca: string)

  /** `isin(tipos_sel)`: the type filter has no sentinel, so an empty choice keeps nothing. */
  function TypeMask(tipos: seq<string>): Txn -> bool {
    (t: Txn) => t.kind in tipos
  }

  /** A row the detail filters let through. */
  predicate DetailAllows(c: DetailChoices, t: Txn) {
    t.kind in c.tipos
    && SelectAllows(c.cats, AllCat, t.cat)
    && SelectAllows(c.resps, AllResp, t.resp)
    && SelectAllows(c.mets, AllResp, t.means)
    && SearchAllows(c.busca, t)
  }

  function DetailMask(c: DetailChoices): Txn -> bool {
    (t: Txn) => DetailAllows(c, t)
  }

  // The masks of the first two, three and four steps.
  function TypeCatMask(c: DetailChoices): Txn -> bool {
    (t: Txn) => t.kind in c.tipos && SelectAllows(c.cats, AllCat, t.cat)
  }

  function TypeCatRespMask(c: DetailChoices): Txn -> bool {
    (t: Txn) => TypeCatMask(c)(t) && SelectAllows(c.resps, AllResp, t.resp)
  }

  function SelectsMask(c: DetailChoices): Txn -> bool {
    (t: Txn) => TypeCatRespMask(c)(t) && SelectAllows(c.mets, AllResp, t.means)
  }

  /** `det`: the type, category, responsible-party, method and search steps in turn. */
  function DetailFilter(rows: seq<Txn>, c: DetailChoices): seq<Txn> {
    var byType := Filter(rows, TypeMask(c.tipos));
    var byCat := SelectStep(byType, c.cats, AllCat, CatCol);
    var byResp := SelectStep(byCat, c.resps, AllResp, RespCol);
    var byMethod := SelectStep(byResp, c.mets, AllResp, MethodCol);
    SearchStep(byMethod, c.busca)
  }

  /** The detail filters keep exactly the rows every filter lets through, in their order. */
  lemma DetailFilterKeeps(rows: seq<Txn>, c: DetailChoices)
    ensures DetailFilter(rows, c) == Filter(rows, DetailMask(c))
  {
    var p1 := TypeMask(c.tipos);
    var p2 := SelectMask(c.cats, AllCat, CatCol);
    var p3 := SelectMask(c.resps, AllResp, RespCol);
    var p4 := SelectMask(c.mets, AllResp, MethodCol);
    assert forall t: Txn :: TypeCatRespMask(c)(t) == (TypeCatMask(c)(t) && p3(t));
    assert forall t: Txn :: SelectsMask(c)(t) == (TypeCatRespMask(c)(t) && p4(t));
    FilterFilter(rows, p1, p2, TypeCatMask(c));
    FilterFilter(rows, TypeCatMask(c), p3, TypeCatRespMask(c));
    FilterFilter(rows, TypeCatRespMask(c), p4, SelectsMask(c));
    FilterFilter(rows, SelectsMask(c), SearchMask(c.busca), DetailMask(c));
  }

  /** `filtros_ativos` is false: the filtered view has as many rows as the month. */
  predicate SaveEnabled(monthRows: seq<Txn>, c: DetailChoices) {
    |DetailFilter(monthRows, c)| == |monthRows|
  }

  /** Saving is enabled exactly when every row of the month passes the filters, and then the view is the whole month. */
  lemma SaveEnabledIff(monthRows: seq<Txn>, c: DetailChoices)
    ensures SaveEnabled(monthRows, c) <==> forall i :: 0 <= i < |monthRows| ==> DetailAllows(c, monthRows[i])
    ensures SaveEnabled(monthRows, c) ==> DetailFilter(monthRows, c) == monthRows
  {
    DetailFilterKeeps(monthRows, c);
    FilterKeepsAllIffSameLength(monthRows, DetailMask(c));
    if SaveEnabled(monthRows, c) {
      FilterAll(monthRows, DetailMask(c));
    }
  }

  /** The default choices (every type present, the sentinels, no search) leave saving enabled. */
  lemma DefaultDetailChoicesEnableSave(monthRows: seq<Txn>, tipos: seq<string>)
    requires forall i :: 0 <= i < |monthRows| ==> monthRows[i].kind in tipos
    ensures SaveEnabled(monthRows, DetailChoices(tipos, [AllCat], [AllResp], [AllResp], ""))
  {
    var c := DetailChoices(tipos, [AllCat], [AllResp], [AllResp], "");
    forall i | 0 <= i < |monthRows| ensures DetailAllows(c, monthRows[i]) {
      assert Strip("") == [];
    }
    SaveEnabledIff(monthRows, c);
  }

  // --------------------------------------------------------- edited values

  /** The outcome of a pandas conversion: a value, or an exception that stops the save. */
  datatype Outcome<T> = Ok(value: T) | Raises

  /** `[^\d,\-]` is removed: digits, ',' and '-' stay. */
  predicate IsEditChar(c: char) { IsDigit(c) || c == ',' || c == '-' }

  /** The amount text after `str.replace(r"[^\d,\-]", "")` and `str.replace(",", ".")`. */
  function EditNumberText(s: string): (r: string)
    ensures |r| == |Keep(s, IsEditChar)|
    ensures forall i :: 0 <= i < |r| ==> IsDigit(r[i]) || r[i] == '.' || r[i] == '-'
    ensures forall i :: 0 <= i < |r| ==> (r[i] == '.' <==> Keep(s, IsEditChar)[i] == ',')
  {
    ReplaceChar(Keep(s, IsEditChar), ',', '.')
  }

  /**
   * The amount column as written: a missing cell stays NaN, any other text
   * is cleaned and `astype(float)` raises when the cleaned text is no number
   * (the empty text included).
   */
  function ParseEditValueAsWritten(cell: Option<string>): (r: Outcome<Option<real>>)
    ensures cell.None? ==> r == Ok(None)
    ensures cell.Some? ==> (r.Raises? <==> ParseDecimal(EditNumberText(cell.value)).None?)
  {
    match cell
    case None => Ok(None)
    case Some(s) =>
      match ParseDecimal(EditNumberText(s))
      case Some(x) => Ok(Some(x))
      case None => Raises
  }

  /**
   * The amount column with a text that holds no digit, comma or minus (the
   * "R$ nan" of a missing amount) read back as missing; other unreadable
   * texts still raise.
   */
  function ParseEditValue(cell: Option<string>): (r: Outcome<Option<real>>)
    ensures cell.Some? && EditNumberText(cell.value) == [] ==> r == Ok(None)
    ensures cell.None? || EditNumberText(cell.value) != [] ==> r == ParseEditValueAsWritten(cell)
  {
    if cell.Some? && EditNumberText(cell.value) == [] then Ok(None)
    else ParseEditValueAsWritten(cell)
  }

  /** How the view shows an amount: `fmt_currency`, "R$ nan" when it is missing. */
  function ViewValue(v: Option<real>): (s: string)
    ensures StartsWith(s, "R$ ")
  {
    match v
    case Some(x) => FmtAmount(x)
    case None => "R$ nan"
  }

  lemma {:induction false} KeepEditDotted(ds: string)
    requires |ds| % 3 == 0 && AllDigits(ds)
    ensures Keep(Dotted(ds), IsEditChar) == ds
    decreases |ds|
  {
    if ds != [] {
      KeepEditDotted(ds[3..]);
      var head := ['.'] + ds[..3];
      KeepAppend(head, Dotted(ds[3..]), IsEditChar);
      KeepAppend(['.'], ds[..3], IsEditChar);
      KeepAll(ds[..3], IsEditChar);
      assert ds[..3] + ds[3..] == ds;
    }
  }

  /** The grouping dots are the characters the edit parser removes. */
  lemma KeepEditGroup(ds: string)
    requires |ds| >= 1 && AllDigits(ds)
    ensures Keep(Group(ds), IsEditChar) == ds
  {
    var h := HeadLength(|ds|);
    KeepAppend(ds[..h], Dotted(ds[h..]), IsEditChar);
    KeepAll(ds[..h], IsEditChar);
    KeepEditDotted(ds[h..]);
    assert ds[..h] + ds[h..] == ds;
  }

  lemma KeepEditAmount(x: real)
    ensures Keep(FmtAmount(x), IsEditChar)
      == SignText(x) + (NatStr(Cents(x) / 100) + ("," + Pad2(Cents(x) % 100)))
  {
    var c := Cents(x);
    var ds, cc, sg := NatStr(c / 100), Pad2(c % 100), SignText(x);
    var tail := "," + cc;
    KeepAppend("R$ ", GroupedNumber(x), IsEditChar);
    KeepNone("R$ ", IsEditChar);
    KeepAppend(sg, Group(ds) + tail, IsEditChar);
    KeepAppend(Group(ds), tail, IsEditChar);
    KeepAll(sg, IsEditChar);
    KeepAll(tail, IsEditChar);
    KeepEditGroup(ds);
    assert "R$ " + GroupedNumber(x) == FmtAmount(x);
  }

  /** A shown amount reads back as the amount rounded to cents. */
  lemma EditNumberTextOfView(x: real)
    ensures EditNumberText(FmtAmount(x)) == Fixed2(x)
  {
    var c := Cents(x);
    KeepEditAmount(x);
    ReplaceGrouped(SignText(x), NatStr(c / 100), Pad2(c % 100));
  }

  /** The shown amounts of cent-exact values, and the "R$ nan" of missing ones, read back unchanged. */
  lemma ParseEditValueOfView(v: Option<real>)
    requires v.Some? ==> IsCentExact(v.value)
    ensures ParseEditValue(Some(ViewValue(v))) == Ok(v)
  {
    match v
    case Some(x) =>
      EditNumberTextOfView(x);
      Fixed2ReadBack(x);
      CentExactRounding(x);
      assert Fixed2(x) != [] by { assert |NatStr(Cents(x) / 100)| >= 1; }
    case None =>
      KeepNone("R$ nan", IsEditChar);
  }

  /** As written, a month row with a missing amount makes the save raise. */
  lemma MissingAmountRaisesAsWritten()
    ensures ParseEditValueAsWritten(Some(ViewValue(None))) == Raises
  {
    var t := ViewValue(None);
    assert t == "R$ nan";
    KeepNone(t, IsEditChar);
    assert EditNumberText(t) == [];
    assert ParseDecimal([]).None?;
  }

  // ---------------------------------------------------------- edited dates

  /** The texts pandas reads as NaT. */
  const NaTStrings: seq<string> := ["", "NaT", "nat", "NAT", "nan", "NaN", "NAN"]

  /**
   * `pd.to_datetime(..., format="%d/%m/%Y")`: a missing cell or a NaT text is
   * NaT; any other text must match and be a timestamp pandas can hold, or it raises.
   */
  function ParseEditDate(cell: Option<string>): (r: Outcome<Option<Date>>)
    ensures r.Ok? && r.value.Some? ==> Valid(r.value.value) && InStampRange(r.value.value)
    ensures cell.Some? && cell.value !in NaTStrings ==> (r.Raises? <==> DayFirst(cell.value).None?)
    ensures r.Ok? && r.value.Some? ==> cell.Some? && DayFirst(cell.value) == r.value
  {
    match cell
    case None => Ok(None)
    case Some(s) =>
      if s in NaTStrings then Ok(None)
      else match DayFirst(s)
        case Some(d) => Ok(Some(d))
        case None => Raises
  }

  /** A shown date with a four-digit year reads back as itself, or raises outside the timestamp range. */
  lemma ParseEditDateOfView(d: Date)
    requires Valid(d) && 1000 <= d.year <= 9999
    ensures ParseEditDate(Some(FormatDMY(d))) == if InStampRange(d) then Ok(Some(d)) else Raises
  {
    FormatDMYRoundTrip(d);
    assert |FormatDMY(d)| > 3;
  }

  // ----------------------------------------------------------- edited rows

  /** A row of the data editor: the date and amount as text, the other cells as they are. */
  datatype EditRow = EditRow(
    date: Option<string>, resp: string, kind: string, desc: string, cat: string, means: string,
    value: Option<string>)

  /** A date the sheet can be given back: a calendar date with a non-negative year. */
  predicate WritableDate(d: Date) { Valid(d) && d.year >= 0 }

  predicate Writable(t: Txn) { t.date.Some? ==> WritableDate(t.date.value) }

  /** A row that has a writable date, as every row of a month view has. */
  predicate Dated(t: Txn) { t.date.Some? && WritableDate(t.date.value) }

  /** How the view shows a month row (`strftime("%d/%m/%Y")` and `fmt_currency`). */
  function ViewRow(t: Txn): (e: EditRow)
    requires Dated(t)
    ensures e.resp == t.resp && e.kind == t.kind && e.desc == t.desc && e.cat == t.cat && e.means == t.means
  {
    EditRow(Some(FormatDMY(t.date.value)), t.resp, t.kind, t.desc, t.cat, t.means, Some(ViewValue(t.amount)))
  }

  function ViewRows(rows: seq<Txn>): (es: seq<EditRow>)
    requires forall i :: 0 <= i < |rows| ==> Dated(rows[i])
    ensures |es| == |rows| && forall i :: 0 <= i < |rows| ==> es[i] == ViewRow(rows[i])
  {
    seq(|rows|, i requires 0 <= i < |rows| => ViewRow(rows[i]))
  }

  /** One edited row read back; the text cells are kept as typed. */
  function ParseEditRow(e: EditRow): (r: Outcome<Txn>)
    ensures r.Ok? <==> ParseEditDate(e.date).Ok? && ParseEditValue(e.value).Ok?
    ensures r.Ok? ==> (Writable(r.value) && r.value.date == ParseEditDate(e.date).value
                       && r.value.amount == ParseEditValue(e.value).value
                       && r.value.resp == e.resp && r.value.kind == e.kind && r.value.desc == e.desc
                       && r.value.cat == e.cat && r.value.means == e.means)
  {
    var d, v := ParseEditDate(e.date), ParseEditValue(e.value);
    if d.Ok? && v.Ok? then Ok(Txn(d.value, e.resp, e.kind, e.desc, e.cat, e.means, v.value))
    else Raises
  }

  /** The columns are converted whole: one unreadable cell makes the conversion raise. */
  function ParseEdits(es: seq<EditRow>): (r: Outcome<seq<Txn>>)
    ensures r.Ok? <==> forall i :: 0 <= i < |es| ==> ParseEditRow(es[i]).Ok?
    ensures r.Ok? ==> |r.value| == |es| && forall i :: 0 <= i < |es| ==> r.value[i] == ParseEditRow(es[i]).value
    decreases |es|
  {
    if es == [] then Ok([])
    else
      var head, rest := ParseEditRow(es[0]), ParseEdits(es[1..]);
      if head.Ok? && rest.Ok? then Ok([head.value] + rest.value)
      else if head.Raises? then Raises
      else
        var j :| 0 <= j < |es[1..]| && ParseEditRow(es[1..][j]).Raises?;
        assert ParseEditRow(es[1 + j]).Raises?;
        Raises
  }

  /** A month row as shown: dated within the timestamp range, with a cent-exact or missing amount. */
  predicate ShowsFaithfully(t: Txn) {
    Dated(t) && InStampRange(t.date.value)
    && (t.amount.Some? ==> IsCentExact(t.amount.value))
  }

  /** Saving the month untouched reads every shown row back as it was. */
  lemma ParseEditsOfView(rows: seq<Txn>)
    requires forall i :: 0 <= i < |rows| ==> ShowsFaithfully(rows[i])
    ensures (forall i :: 0 <= i < |rows| ==> Dated(rows[i])) && ParseEdits(ViewRows(rows)) == Ok(rows)
  {
    var es := ViewRows(rows);
    forall i | 0 <= i < |rows| ensures ParseEditRow(es[i]) == Ok(rows[i]) {
      ParseEditDateOfView(rows[i].date.value);
      ParseEditValueOfView(rows[i].amount);
    }
    var r := ParseEdits(es);
    assert r.value == rows;
  }

  // ----------------------------------------------------------------- merge

  /** `%Y` of a year. */
  function YearText(y: int): string {
    if y < 0 then "-" + NatStr(-y) else NatStr(y)
  }

  /** `strftime("%m/%Y")`. */
  function MonthText(d: Date): string
    requires 1 <= d.month <= 12
  {
    Pad2(d.month) + "/" + YearText(d.year)
  }

  /** `df["Data"].dt.strftime("%m/%Y") != label_periodo`: a NaT date compares unequal, so it is kept. */
  predicate KeptOnSave(t: Txn, monthLabel: string) {
    t.date.None? || (1 <= t.date.value.month <= 12 ==> MonthText(t.date.value) != monthLabel)
  }

  /** `df_hist`: the ledger rows outside the edited month, in order. */
  function History(ledger: seq<Txn>, monthLabel: string): (h: seq<Txn>)
    ensures forall k :: 0 <= k < |h| ==> h[k] in ledger && KeptOnSave(h[k], monthLabel)
    ensures forall i :: 0 <= i < |ledger| && KeptOnSave(ledger[i], monthLabel) ==> ledger[i] in h
  {
    Filter(ledger, (t: Txn) => KeptOnSave(t, monthLabel))
  }

  /** `df_save`: the history followed by the edited rows. */
  function Merge(ledger: seq<Txn>, monthLabel: string, edited: seq<Txn>): seq<Txn> {
    History(ledger, monthLabel) + edited
  }

  /** The saved ledger starts with the untouched history and ends with the edited rows. */
  lemma MergeShape(ledger: seq<Txn>, monthLabel: string, edited: seq<Txn>)
    ensures |Merge(ledger, monthLabel, edited)| == |History(ledger, monthLabel)| + |edited|
    ensures Merge(ledger, monthLabel, edited)[..|History(ledger, monthLabel)|] == History(ledger, monthLabel)
    ensures Merge(ledger, monthLabel, edited)[|History(ledger, monthLabel)|..] == edited
    ensures forall i :: 0 <= i < |ledger| && KeptOnSave(ledger[i], monthLabel) ==> ledger[i] in Merge(ledger, monthLabel, edited)
  {
  }

  lemma NegativeYearNotLabel(d: Date, y: nat, m: int)
    requires 1 <= d.month <= 12 && 1 <= m <= 12 && d.year < 0
    ensures MonthText(d) != PeriodLabel(y, m)
  {
    var a, b := MonthText(d), PeriodLabel(y, m);
    assert a[3] == '-';
    assert b[3] == NatStr(y)[0] && IsDigit(b[3]);
  }

  /** A month text is the label of a month exactly when it names that month. */
  lemma MonthTextIsLabel(d: Date, y: nat, m: int)
    requires 1 <= d.month <= 12 && 1 <= m <= 12
    ensures MonthText(d) == PeriodLabel(y, m) <==> d.year == y && d.month == m
  {
    var a, b := MonthText(d), PeriodLabel(y, m);
    if d.year < 0 {
      NegativeYearNotLabel(d, y, m);
    } else if a == b {
      PeriodLabelInjective(d.year, d.month, y, m);
    }
  }

  /** The history of the month labelled `PeriodLabel(y, m)` is the rows not dated in that month. */
  lemma HistoryIsOutsideMonth(ledger: seq<Txn>, y: nat, m: int)
    requires DatesValid(ledger) && 1 <= m <= 12
    ensures History(ledger, PeriodLabel(y, m)) == Filter(ledger, (t: Txn) => !InMonth(t, y, m))
  {
    forall i | 0 <= i < |ledger|
      ensures KeptOnSave(ledger[i], PeriodLabel(y, m)) == !InMonth(ledger[i], y, m)
    {
      if ledger[i].date.Some? {
        MonthTextIsLabel(ledger[i].date.value, y, m);
      }
    }
    FilterExt(ledger, (t: Txn) => KeptOnSave(t, PeriodLabel(y, m)), (t: Txn) => !InMonth(t, y, m));
  }

  /** Saving the month's rows back unchanged gives the same rows, rearranged. */
  lemma UneditedSaveIsPermutation(ledger: seq<Txn>, y: nat, m: int)
    requires DatesValid(ledger) && 1 <= m <= 12
    ensures multiset(Merge(ledger, PeriodLabel(y, m), MonthRows(ledger, y, m))) == multiset(ledger)
  {
    HistoryIsOutsideMonth(ledger, y, m);
    FilterPartition(ledger, (t: Txn) => InMonth(t, y, m), (t: Txn) => !InMonth(t, y, m));
  }

  /** The end-to-end round trip: the shown month, saved as is, parses back and keeps the ledger's rows. */
  lemma SaveOfViewIsPermutation(ledger: seq<Txn>, y: nat, m: int)
    requires DatesValid(ledger) && 1 <= m <= 12
    requires forall i :: 0 <= i < |ledger| && InMonth(ledger[i], y, m) ==> ShowsFaithfully(ledger[i])
    ensures forall k :: 0 <= k < |MonthRows(ledger, y, m)| ==> ShowsFaithfully(MonthRows(ledger, y, m)[k])
    ensures ParseEdits(ViewRows(MonthRows(ledger, y, m))) == Ok(MonthRows(ledger, y, m))
    ensures multiset(Merge(ledger, PeriodLabel(y, m), ParseEdits(ViewRows(MonthRows(ledger, y, m))).value))
      == multiset(ledger)
  {
    var rows := MonthRows(ledger, y, m);
    forall k | 0 <= k < |rows| ensures ShowsFaithfully(rows[k]) {
      var i :| 0 <= i < |ledger| && ledger[i] == rows[k];
    }
    ParseEditsOfView(rows);
    UneditedSaveIsPermutation(ledger, y, m);
  }

  // ------------------------------------------------------------------ save

  /** A cell of the rewritten sheet: text, or a number the sheet reads as such (NaN when missing). */
  datatype SavedCell = TextCell(s: string) | NumberCell(v: Option<real>)

  /** `df_save.columns`: the header row. */
  function HeaderCells(): (h: seq<SavedCell>)
    ensures |h| == 7 && forall b :: 0 <= b < 7 ==> h[b] == TextCell(BaseCols[b])
  {
    seq(7, b requires 0 <= b < 7 => TextCell(BaseCols[b]))
  }

  /** The date cell: `strftime("%d/%m/%Y")`, and `str(NaN)` for a NaT date. */
  function DateText(d: Option<Date>): string
    requires d.Some? ==> WritableDate(d.value)
  {
    match d
    case Some(x) => FormatDMY(x)
    case None => "nan"
  }

  /** One saved row, in the canonical column order. */
  function SavedRow(t: Txn): (r: seq<SavedCell>)
    requires Writable(t)
    ensures |r| == 7
  {
    [TextCell(DateText(t.date)), TextCell(t.resp), TextCell(t.kind), TextCell(t.desc),
     TextCell(t.cat), TextCell(t.means), NumberCell(t.amount)]
  }

  predicate AllWritable(rows: seq<Txn>) { forall i :: 0 <= i < |rows| ==> Writable(rows[i]) }

  function SavedRows(rows: seq<Txn>): (r: seq<seq<SavedCell>>)
    requires AllWritable(rows)
    ensures |r| == |rows| && forall i :: 0 <= i < |rows| ==> r[i] == SavedRow(rows[i])
  {
    seq(|rows|, i requires 0 <= i < |rows| => SavedRow(rows[i]))
  }

  /** Writing one more row of `rows` extends the written prefix by that row. */
  lemma SavedRowsStep(rows: seq<Txn>, i: nat)
    requires AllWritable(rows) && i < |rows|
    ensures AllWritable(rows[..i]) && AllWritable(rows[..i + 1])
    ensures SavedRows(rows[..i + 1]) == SavedRows(rows[..i]) + [SavedRow(rows[i])]
  {
    assert rows[..i + 1] == rows[..i] + [rows[i]];
  }

  /** Every row of a successful merge can be written. */
  lemma MergeWritable(ledger: seq<Txn>, monthLabel: string, edits: seq<EditRow>)
    requires AllWritable(ledger)
    requires ParseEdits(edits).Ok?
    ensures AllWritable(Merge(ledger, monthLabel, ParseEdits(edits).value))
  {
    var h := History(ledger, monthLabel);
    var ts := ParseEdits(edits).value;
    forall k | 0 <= k < |h| ensures Writable(h[k]) {
      var i :| 0 <= i < |ledger| && ledger[i] == h[k];
    }
    forall k | 0 <= k < |ts| ensures Writable(ts[k]) {
      assert ts[k] == ParseEditRow(edits[k]).value;
    }
  }

  /**
   * The "save the whole month" button: the edited rows are read back; if a
   * conversion raises nothing is written, otherwise the sheet is cleared and
   * rewritten with the header, the history and the edited rows.
   */
  method SaveMonth(ws: Worksheet<SavedCell>, ledger: seq<Txn>, monthLabel: string, edits: seq<EditRow>)
    returns (ok: bool)
    requires AllWritable(ledger)
    modifies ws
    ensures ok <==> ParseEdits(edits).Ok?
    ensures !ok ==> ws.rows == old(ws.rows)
    ensures ok ==> (AllWritable(Merge(ledger, monthLabel, ParseEdits(edits).value))
                    && ws.rows == [HeaderCells()] + SavedRows(Merge(ledger, monthLabel, ParseEdits(edits).value)))
  {
    var parsed := ParseEdits(edits);
    if parsed.Raises? {
      return false;
    }
    var save := Merge(ledger, monthLabel, parsed.value);
    MergeWritable(ledger, monthLabel, edits);
    Rewrite(ws, save);
    return true;
  }

  /** `worksheet.clear()` followed by writing the header and then every row, in order. */
  method Rewrite(ws: Worksheet<SavedCell>, save: seq<Txn>)
    requires AllWritable(save)
    modifies ws
    ensures ws.rows == [HeaderCells()] + SavedRows(save)
  {
    ws.Clear();
    ws.AppendRow(HeaderCells());
    var i := 0;
    assert save[..0] == [];
    while i < |save|
      invariant 0 <= i <= |save|
      invariant AllWritable(save[..i])
      invariant ws.rows == [HeaderCells()] + SavedRows(save[..i])
    {
      SavedRowsStep(save, i);
      ws.AppendRow(SavedRow(save[i]));
      i := i + 1;
    }
    assert save[..|save|] == save;
  }
}
