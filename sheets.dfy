// sheets.py: reading the main ledger sheet (`load_main_df`), the recurring
// bills' `Dia` column (`load_pm_df`) and the row addressing of `salvar_plan`.
//
// The sheet arrives as `get_all_values()`: rows of cell texts. A header row
// is searched among the first 300 rows; without one the sheet is read
// positionally. Either way each row becomes seven cells in the canonical
// column order, rows whose cells are all blank are dropped, and every cell
// is cleaned into a `Txn`.
module Sheets {
  import opened Wrappers
  import opened Text
  import opened Seqs
  import opened Dates
  import opened Money
  import opened DateParse
  import opened Ledger
  import opened Store

  /** A frame cell: sheet text, or None in a canonical column the header lacks. */
  datatype Cell = Str(s: string) | Null

  /** `str(x)` of a cell; `str(None)` is "None". */
  function CellText(c: Cell): string {
    match c
    case Str(s) => s
    case Null => "None"
  }

  const Responsavel: string := "Respons\U{E1}vel"
  const Descricao: string := "Descri\U{E7}\U{E3}o"
  const Metodo: string := "M\U{E9}todo de Pagamento/Recebimento"

  /** `base_cols`, the canonical columns in order. */
  const BaseCols: seq<string> := ["Data", Responsavel, "Tipo", Descricao, "Categoria", Metodo, "Valor"]

  // ------------------------------------------------------------ header scan

  /** `_norm`: stripped and lower-cased. */
  function Norm(s: string): string { Lower(Strip(s)) }

  /** `wanted`, the header words that identify a header row (all distinct). */
  const Wanted: seq<string> := [
    "data", "respons\U{E1}vel", "responsavel", "tipo", "descri\U{E7}\U{E3}o", "descricao",
    "categoria", "valor", "m\U{E9}todo", "metodo", "forma"]

  /** Whether `w` is among the row's tokens (its normalised non-blank cells). */
  predicate HasToken(row: seq<string>, w: string)
    decreases |row|
  {
    row != [] && ((Strip(row[0]) != "" && Norm(row[0]) == w) || HasToken(row[1..], w))
  }

  /** `len(tokens & wanted)`: how many of the (distinct) words occur among the row's tokens. */
  function Score(row: seq<string>, words: seq<string>): (n: nat)
    ensures n <= |words|
    decreases |words|
  {
    if words == [] then 0
    else (if HasToken(row, words[0]) then 1 else 0) + Score(row, words[1..])
  }

  /** A row is a header when at least three of the `wanted` words occur among its tokens. */
  predicate IsHeader(row: seq<string>, wanted: seq<string>) { Score(row, wanted) >= 3 }

  /** How many rows the header scan looks at (`vals[:300]`). */
  const ScanLimit: nat := 300

  /** `vals[:300]`, the rows the header scan looks at. */
  function Scanned(vals: seq<seq<string>>): (rows: seq<seq<string>>)
    ensures |rows| <= |vals| && |rows| <= ScanLimit && rows == vals[..|rows|]
    ensures |vals| <= ScanLimit ==> rows == vals
    ensures |vals| > ScanLimit ==> |rows| == ScanLimit
  {
    if |vals| <= ScanLimit then vals else vals[..ScanLimit]
  }

  /** The first index from `i` on whose row satisfies `p`. */
  function FirstFrom<T>(rows: seq<T>, i: nat, p: T -> bool): (h: Option<nat>)
    requires i <= |rows|
    ensures h.Some? ==> i <= h.value < |rows| && p(rows[h.value])
    ensures h.Some? ==> forall j :: i <= j < h.value ==> !p(rows[j])
    ensures h.None? ==> forall j :: i <= j < |rows| ==> !p(rows[j])
    decreases |rows| - i
  {
    if i == |rows| then None
    else if p(rows[i]) then Some(i)
    else FirstFrom(rows, i + 1, p)
  }

  /** The test of one row against the `wanted` words. */
  function HeaderTest(wanted: seq<string>): seq<string> -> bool {
    row => IsHeader(row, wanted)
  }

  /** The first header row from row `i` on. */
  function HeaderFrom(rows: seq<seq<string>>, i: nat, wanted: seq<string>): (h: Option<nat>)
    requires i <= |rows|
  {
    FirstFrom(rows, i, HeaderTest(wanted))
  }

  /** The index of the header row: the first header among the first 300 rows. */
  function HeaderIndex(vals: seq<seq<string>>, wanted: seq<string>): (h: Option<nat>)
    ensures h.Some? ==> h.value < |vals| && h.value < ScanLimit && IsHeader(vals[h.value], wanted)
    ensures h.Some? ==> forall j :: 0 <= j < h.value ==> !IsHeader(vals[j], wanted)
    ensures h.None? ==> forall j :: 0 <= j < |Scanned(vals)| ==> !IsHeader(vals[j], wanted)
  {
    var rows := Scanned(vals);
    var h := HeaderFrom(rows, 0, wanted);
    assert forall j :: 0 <= j < |rows| ==> rows[j] == vals[j];
    h
  }

  /** The header scan of `_load`: a loop over `vals[:300]` that stops at the first header row. */
  method FindHeader(vals: seq<seq<string>>, wanted: seq<string>) returns (h: Option<nat>)
    ensures h == HeaderIndex(vals, wanted)
  {
    var rows := Scanned(vals);
    h := None;
    var i := 0;
    while i < |rows|
      invariant 0 <= i <= |rows|
      invariant HeaderFrom(rows, 0, wanted) == HeaderFrom(rows, i, wanted)
    {
      if IsHeader(rows[i], wanted) {
        h := Some(i);
        return;
      }
      i := i + 1;
    }
  }

  // -------------------------------------------------------- positional mode

  /** `(r + [""]*7)[:7]`. */
  function Pad7(r: seq<string>): (row: seq<string>)
    ensures |row| == 7
    ensures forall k :: 0 <= k < 7 ==> row[k] == (if k < |r| then r[k] else "")
  {
    (r + ["", "", "", "", "", "", ""])[..7]
  }

  /** A raw row read by position; an empty type cell reads as "Despesa". */
  function PositionalRecord(r: seq<string>): (rec: seq<Cell>)
    ensures |rec| == 7
  {
    var row := Pad7(r);
    [Str(row[0]), Str(row[1]), Str(if row[2] == "" then Despesa else row[2]),
     Str(row[3]), Str(row[4]), Str(row[5]), Str(row[6])]
  }

  /** The positional fallback: a loop appending one record per raw row. */
  method PositionalFrame(vals: seq<seq<string>>) returns (frame: seq<seq<Cell>>)
    ensures |frame| == |vals|
    ensures forall i :: 0 <= i < |vals| ==> frame[i] == PositionalRecord(vals[i])
  {
    frame := [];
    var i := 0;
    while i < |vals|
      invariant i <= |vals| && |frame| == i
      invariant forall j :: 0 <= j < i ==> frame[j] == PositionalRecord(vals[j])
    {
      frame := frame + [PositionalRecord(vals[i])];
      i := i + 1;
    }
  }

  // ------------------------------------------------------------ header mode

  const MethodNames: set<string> := {
    "metodo de pagamento", "m\U{E9}todo de pagamento",
    "metodo de pagamento/recebimento", "m\U{E9}todo de pagamento/recebimento",
    "metodo de recebimento", "m\U{E9}todo de recebimento",
    "forma de pagamento", "forma de recebimento", "m\U{E9}todo", "metodo"}

  /** The canonical column a normalised header name stands for, tried in the source's order. */
  function Canonical(n: string): (r: Option<string>)
    ensures r.Some? ==> r.value in BaseCols
  {
    if n == "responsavel" || n == "respons\U{E1}vel" then Some(Responsavel)
    else if n == "descricao" || n == "descri\U{E7}\U{E3}o" then Some(Descricao)
    else if n == "categoria" then Some("Categoria")
    else if n in MethodNames then Some(Metodo)
    else if StartsWith(n, "valor") then Some("Valor")
    else if n == "data" then Some("Data")
    else if n == "tipo" then Some("Tipo")
    else None
  }

  /** The canonical name a header column is renamed to, if any. */
  function ColumnTarget(c: string): Option<string> { Canonical(Norm(c)) }

  /** The map a loop over `ks[..n]` builds by `m[k] = f(k)` wherever `f(k)` is defined. */
  function KeyMap<K, V>(ks: seq<K>, n: nat, f: K -> Option<V>): map<K, V>
    requires n <= |ks|
  {
    if n == 0 then map[]
    else
      var m := KeyMap(ks, n - 1, f);
      var b := f(ks[n - 1]);
      if b.Some? then m[ks[n - 1] := b.value] else m
  }

  /** That map holds exactly the keys where `f` is defined, each mapped to its value. */
  lemma {:induction false} KeyMapHolds<K, V>(ks: seq<K>, n: nat, f: K -> Option<V>)
    requires n <= |ks|
    ensures forall k :: k in KeyMap(ks, n, f) <==> k in ks[..n] && f(k).Some?
    ensures forall k :: k in KeyMap(ks, n, f) ==> KeyMap(ks, n, f)[k] == f(k).value
  {
    if n > 0 {
      KeyMapHolds(ks, n - 1, f);
      assert ks[..n] == ks[..n - 1] + [ks[n - 1]];
    }
  }

  /** The rename map after the loop has seen the first `n` columns. */
  function RenSpec(cols: seq<string>, n: nat): map<string, string>
    requires n <= |cols|
  {
    KeyMap(cols, n, ColumnTarget)
  }

  /** `ren` holds exactly the columns with a canonical name, each mapped to that name. */
  lemma RenSpecMaps(cols: seq<string>)
    ensures forall c :: c in RenSpec(cols, |cols|) <==> c in cols && ColumnTarget(c).Some?
    ensures forall c :: c in RenSpec(cols, |cols|) ==> RenSpec(cols, |cols|)[c] == ColumnTarget(c).value
  {
    KeyMapHolds(cols, |cols|, ColumnTarget);
    assert cols[..|cols|] == cols;
  }

  /** A loop over `ks` setting `m[k] = f(k)` wherever `f(k)` is defined. */
  method FillMap<K, V>(ks: seq<K>, f: K -> Option<V>) returns (m: map<K, V>)
    ensures m == KeyMap(ks, |ks|, f)
  {
    m := map[];
    var i := 0;
    while i < |ks|
      invariant i <= |ks|
      invariant m == KeyMap(ks, i, f)
    {
      var b := f(ks[i]);
      if b.Some? {
        m := m[ks[i] := b.value];
      }
      i := i + 1;
    }
  }

  /** The rename map `ren`, filled by a loop over the header's columns. */
  method RenameMap(header: seq<string>) returns (ren: map<string, string>)
    ensures ren == RenSpec(header, |header|)
  {
    ren := FillMap(header, ColumnTarget);
  }

  /** A column's name after `df.rename(columns=ren)`. */
  function RenameWith(ren: map<string, string>, c: string): string {
    if c in ren then ren[c] else c
  }

  /** The renamed name of one header column. */
  function RenamedName(c: string): string { ColumnTarget(c).GetOr(c) }

  function Renamed(header: seq<string>): (cols: seq<string>)
    ensures |cols| == |header| && forall k :: 0 <= k < |header| ==> cols[k] == RenamedName(header[k])
  {
    seq(|header|, k requires 0 <= k < |header| => RenamedName(header[k]))
  }

  /** The first column carrying a name, if any. */
  function ColumnIndex(cols: seq<string>, name: string): (r: Option<nat>)
    ensures r.Some? ==> r.value < |cols| && cols[r.value] == name
    ensures r.Some? ==> forall k :: 0 <= k < r.value ==> cols[k] != name
    ensures r.None? ==> name !in cols
  {
    if cols == [] then None
    else if cols[0] == name then Some(0)
    else match ColumnIndex(cols[1..], name)
      case None => None
      case Some(k) => Some(k + 1)
  }

  /** A cell of a (client-padded) data row; cells past its end are blank. */
  function CellAt(row: seq<string>, k: nat): string {
    if k < |row| then row[k] else ""
  }

  /** `df[base_cols]` of one data row, a missing canonical column being None. */
  function HeaderRecord(cols: seq<string>, row: seq<string>): (rec: seq<Cell>)
    ensures |rec| == 7
    ensures forall b :: 0 <= b < 7 ==> (rec[b].Null? <==> BaseCols[b] !in cols)
  {
    seq(7, b requires 0 <= b < 7 =>
      match ColumnIndex(cols, BaseCols[b])
      case None => Null
      case Some(k) => Str(CellAt(row, k)))
  }

  /**
   * A base name carried by two columns of the renamed header. `df[base_cols]`
   * then keeps both columns, and the cleaning raises on the two-column
   * selection (`.str` of a frame, `pd.isna` of a row slice).
   */
  predicate RepeatsBaseName(cols: seq<string>) {
    exists i, j :: 0 <= i < j < |cols| && cols[i] == cols[j] && cols[i] in BaseCols
  }

  /** Without a repeated base name, each base cell is read from the one column carrying its name. */
  lemma HeaderRecordReadsColumn(cols: seq<string>, row: seq<string>, b: nat, k: nat)
    requires b < 7 && k < |cols| && cols[k] == BaseCols[b] && !RepeatsBaseName(cols)
    ensures HeaderRecord(cols, row)[b] == Str(CellAt(row, k))
  {
  }

  /** `[str(c).strip() for c in row]`. */
  function StripRow(row: seq<string>): (r: seq<string>)
    ensures |r| == |row| && forall k :: 0 <= k < |row| ==> r[k] == Strip(row[k])
  {
    seq(|row|, k requires 0 <= k < |row| => Strip(row[k]))
  }

  /** The data rows read under the (renamed) header columns. */
  function HeaderRows(cols: seq<string>, rows: seq<seq<string>>): (frame: seq<seq<Cell>>)
    ensures |frame| == |rows| && forall i :: 0 <= i < |rows| ==> frame[i] == HeaderRecord(cols, rows[i])
  {
    seq(|rows|, i requires 0 <= i < |rows| => HeaderRecord(cols, rows[i]))
  }

  /**
   * The frame of a sheet whose header is row `h`: the rows below it, under the
   * renamed header; None when the renamed header repeats a base name.
   */
  function HeaderFrame(vals: seq<seq<string>>, h: nat): (frame: Option<seq<seq<Cell>>>)
    requires h < |vals|
    ensures frame.None? <==> RepeatsBaseName(Renamed(StripRow(vals[h])))
    ensures frame.Some? ==> |frame.value| == |vals| - h - 1
  {
    var cols := Renamed(StripRow(vals[h]));
    if RepeatsBaseName(cols) then None else Some(HeaderRows(cols, vals[h + 1..]))
  }

  /** The seven-column frame built from the raw rows, before cleaning; None when pandas raises. */
  function Frame(vals: seq<seq<string>>): (frame: Option<seq<seq<Cell>>>)
    ensures frame.Some? ==> forall i :: 0 <= i < |frame.value| ==> |frame.value[i]| == 7
    ensures HeaderIndex(vals, Wanted).None? ==> frame.Some? && |frame.value| == |vals|
  {
    FrameFrom(vals, HeaderIndex(vals, Wanted))
  }

  /** The frame read positionally (no header) or below the header row `hi`. */
  function FrameFrom(vals: seq<seq<string>>, hi: Option<nat>): (frame: Option<seq<seq<Cell>>>)
    requires hi.Some? ==> hi.value < |vals|
    ensures frame.Some? ==> forall i :: 0 <= i < |frame.value| ==> |frame.value[i]| == 7
    ensures frame.None? <==> hi.Some? && RepeatsBaseName(Renamed(StripRow(vals[hi.value])))
    ensures hi.None? ==> frame.Some? && |frame.value| == |vals|
  {
    match hi
    case None => Some(seq(|vals|, i requires 0 <= i < |vals| => PositionalRecord(vals[i])))
    case Some(h) => HeaderFrame(vals, h)
  }

  // ---------------------------------------------------------------- cleaning

  /** `all(str(x).strip() == "" for x in r)`. */
  predicate AllBlank(rec: seq<Cell>) {
    forall k :: 0 <= k < |rec| ==> Strip(CellText(rec[k])) == ""
  }

  /** The amount a `Valor` cell holds: cleaned and parsed, NaN when unparseable. */
  function CellAmount(c: Cell): Option<real> {
    ParseDecimal(CleanValue(CellText(c)))
  }

  /**
   * One frame row cleaned, as `_load` does it: the date parsed, the amount
   * signed from the type cell BEFORE the text columns are stripped.
   */
  function ToTxnAsWritten(rec: seq<Cell>): (t: Txn)
    requires |rec| == 7
  {
    Txn(ParseDateCell(CellText(rec[0])), Strip(CellText(rec[1])), Strip(CellText(rec[2])),
        Strip(CellText(rec[3])), Strip(CellText(rec[4])), Strip(CellText(rec[5])),
        AdjustSign(CellText(rec[2]), CellAmount(rec[6])))
  }

  /** One frame row cleaned, the amount signed from the stripped type. */
  function ToTxn(rec: seq<Cell>): (t: Txn)
    requires |rec| == 7
    ensures t.date == ParseDateCell(CellText(rec[0]))
    ensures t.amount.None? <==> CellAmount(rec[6]).None?
    ensures t.amount.Some? ==> Abs(t.amount.value) == Abs(CellAmount(rec[6]).value)
    ensures SignedByType(t.kind, t.amount)
    ensures Stripped(t.resp) && Stripped(t.kind) && Stripped(t.desc) && Stripped(t.cat) && Stripped(t.means)
  {
    var kind := Strip(CellText(rec[2]));
    StripIsStripped(CellText(rec[1])); StripIsStripped(CellText(rec[2])); StripIsStripped(CellText(rec[3]));
    StripIsStripped(CellText(rec[4])); StripIsStripped(CellText(rec[5]));
    Txn(ParseDateCell(CellText(rec[0])), Strip(CellText(rec[1])), kind,
        Strip(CellText(rec[3])), Strip(CellText(rec[4])), Strip(CellText(rec[5])),
        AdjustSign(kind, CellAmount(rec[6])))
  }

  function Clean(frame: seq<seq<Cell>>): (ledger: seq<Txn>)
    requires forall i :: 0 <= i < |frame| ==> |frame[i]| == 7
    ensures |ledger| == |frame| && forall i :: 0 <= i < |frame| ==> ledger[i] == ToTxn(frame[i])
  {
    seq(|frame|, i requires 0 <= i < |frame| => ToTxn(frame[i]))
  }

  function CleanAsWritten(frame: seq<seq<Cell>>): (ledger: seq<Txn>)
    requires forall i :: 0 <= i < |frame| ==> |frame[i]| == 7
    ensures |ledger| == |frame|
  {
    seq(|frame|, i requires 0 <= i < |frame| => ToTxnAsWritten(frame[i]))
  }

  function Kept(frame: seq<seq<Cell>>): (r: seq<seq<Cell>>)
    requires forall i :: 0 <= i < |frame| ==> |frame[i]| == 7
    ensures forall i :: 0 <= i < |r| ==> |r[i]| == 7 && !AllBlank(r[i])
  {
    Filter(frame, rec => !AllBlank(rec))
  }

  /** The date texts of a frame's rows, as `parse_data_col` receives them. */
  function DateTexts(frame: seq<seq<Cell>>): (texts: seq<string>)
    requires forall i :: 0 <= i < |frame| ==> |frame[i]| == 7
    ensures |texts| == |frame| && forall i :: 0 <= i < |frame| ==> texts[i] == CellText(frame[i][0])
  {
    seq(|frame|, i requires 0 <= i < |frame| => CellText(frame[i][0]))
  }

  /** A kept row whose date cell is a serial past the `Timedelta` range: `parse_data_col` raises. */
  predicate DatesOverflow(frame: seq<seq<Cell>>)
    requires forall i :: 0 <= i < |frame| ==> |frame[i]| == 7
  {
    exists i :: 0 <= i < |frame| && SerialOverflows(Strip(CellText(frame[i][0])))
  }

  /**
   * The loaded ledger, the amounts signed from the stripped type (the
   * corrected load; Sheets.LoadAsWritten is the load as written). None when
   * pandas raises: a repeated base column or an oversized serial date.
   */
  function Load(vals: seq<seq<string>>): Option<seq<Txn>> {
    if vals == [] then Some([])
    else match Frame(vals)
      case None => None
      case Some(frame) =>
        var kept := Kept(frame);
        if DatesOverflow(kept) then None else Some(Clean(kept))
  }

  /** The loaded ledger as `_load` computes it, signing before the type is stripped. */
  function LoadAsWritten(vals: seq<seq<string>>): Option<seq<Txn>> {
    if vals == [] then Some([])
    else match Frame(vals)
      case None => None
      case Some(frame) =>
        var kept := Kept(frame);
        if DatesOverflow(kept) then None else Some(CleanAsWritten(kept))
  }

  /** Renaming through the map the loop built gives every column its canonical name. */
  lemma RenameMapRenames(header: seq<string>, ren: map<string, string>, cols: seq<string>)
    requires ren == RenSpec(header, |header|)
    requires |cols| == |header| && forall k :: 0 <= k < |header| ==> cols[k] == RenameWith(ren, header[k])
    ensures cols == Renamed(header)
  {
    RenSpecMaps(header);
    forall k | 0 <= k < |header| ensures cols[k] == RenamedName(header[k]) {
      assert header[k] in header;
    }
  }

  /**
   * Header mode of `_load`: strip the header, build and apply the rename map,
   * select `base_cols`; None when a base name ends up on two columns.
   */
  method HeaderModeFrame(vals: seq<seq<string>>, hi: nat) returns (frame: Option<seq<seq<Cell>>>)
    requires hi < |vals|
    ensures frame == HeaderFrame(vals, hi)
  {
    var header := StripRow(vals[hi]);
    var ren := RenameMap(header);
    var cols := RenameAll(ren, header);
    RenameMapRenames(header, ren, cols);
    if RepeatsBaseName(cols) {
      return None;
    }
    frame := Some(HeaderRows(cols, vals[hi + 1..]));
  }

  /** `df.rename(columns=ren)` on the header's names. */
  function RenameAll(ren: map<string, string>, header: seq<string>): (cols: seq<string>)
    ensures |cols| == |header| && forall k :: 0 <= k < |header| ==> cols[k] == RenameWith(ren, header[k])
  {
    seq(|header|, k requires 0 <= k < |header| => RenameWith(ren, header[k]))
  }

  lemma PositionalFrameIs(vals: seq<seq<string>>, frame: seq<seq<Cell>>)
    requires |frame| == |vals| && forall i :: 0 <= i < |vals| ==> frame[i] == PositionalRecord(vals[i])
    ensures Some(frame) == FrameFrom(vals, None)
  {
    assert FrameFrom(vals, None).value == frame;
  }

  /**
   * `_load`, in its corrected form (the amount signed from the stripped type,
   * see Sheets.ToTxnAsWritten): None when pandas raises.
   */
  method LoadMain(vals: seq<seq<string>>) returns (ledger: Option<seq<Txn>>)
    ensures ledger == Load(vals)
  {
    if vals == [] {
      return Some([]);
    }
    var h := FindHeader(vals, Wanted);
    var frame: seq<seq<Cell>>;
    if h.None? {
      frame := PositionalFrame(vals);
      PositionalFrameIs(vals, frame);
    } else {
      var f := HeaderModeFrame(vals, h.value);
      if f.None? {
        return None;
      }
      frame := f.value;
    }
    var kept := Kept(frame);
    var dates := ParseDataCol(DateTexts(kept));
    if dates.None? {
      return None;
    }
    ledger := Some(Clean(kept));
  }

  // ---------------------------------------------------------------- lemmas

  /** An empty sheet loads as an empty ledger. */
  lemma LoadEmpty()
    ensures Load([]) == Some([]) && LoadAsWritten([]) == Some([])
  {
  }

  /** Every loaded row is signed by its type and has trimmed text fields. */
  lemma LoadedRowsSignedAndTrimmed(vals: seq<seq<string>>)
    ensures Load(vals).Some? ==> forall t :: t in Load(vals).value ==>
      SignedByType(t.kind, t.amount) && Stripped(t.resp) && Stripped(t.kind)
      && Stripped(t.desc) && Stripped(t.cat) && Stripped(t.means)
  {
    if vals != [] && Frame(vals).Some? {
      CleanSignedAndTrimmed(Kept(Frame(vals).value));
    }
  }

  lemma CleanSignedAndTrimmed(frame: seq<seq<Cell>>)
    requires forall i :: 0 <= i < |frame| ==> |frame[i]| == 7
    ensures forall t :: t in Clean(frame) ==>
      SignedByType(t.kind, t.amount) && Stripped(t.resp) && Stripped(t.kind)
      && Stripped(t.desc) && Stripped(t.cat) && Stripped(t.means)
  {
    var ledger := Clean(frame);
    forall t | t in ledger
      ensures SignedByType(t.kind, t.amount) && Stripped(t.resp) && Stripped(t.kind)
      ensures Stripped(t.desc) && Stripped(t.cat) && Stripped(t.means)
    {
      var i :| 0 <= i < |ledger| && ledger[i] == t;
      assert t == ToTxn(frame[i]);
    }
  }

  /** The blank-row drop keeps exactly the non-blank rows, in order. */
  lemma BlankDropKeepsOthers(frame: seq<seq<Cell>>)
    requires forall i :: 0 <= i < |frame| ==> |frame[i]| == 7
    requires forall i :: 0 <= i < |frame| ==> !AllBlank(frame[i])
    ensures Kept(frame) == frame
  {
    FilterAll(frame, rec => !AllBlank(rec));
  }

  /** Rows above the header, and the header itself, never reach the ledger. */
  lemma RowsAboveHeaderIgnored(vals: seq<seq<string>>, h: nat)
    requires HeaderIndex(vals, Wanted) == Some(h)
    ensures Load(vals) == Load(vals[h..])
    ensures Load(vals).Some? ==> |Load(vals).value| <= |vals| - h - 1
  {
    var tail := vals[h..];
    HeaderFirstInTail(vals, h, Wanted);
    assert tail[1..] == vals[h + 1..];
    assert Frame(tail) == HeaderFrame(vals, h) == Frame(vals);
  }

  /** A header that renames two columns to one base name makes the load fail. */
  lemma RepeatedBaseColumnFails(vals: seq<seq<string>>, h: nat)
    requires HeaderIndex(vals, Wanted) == Some(h)
    requires RepeatsBaseName(Renamed(StripRow(vals[h])))
    ensures Load(vals).None? && LoadAsWritten(vals).None?
  {
    assert vals != [];
    assert Frame(vals) == FrameFrom(vals, Some(h)) == None;
  }

  /** A column whose normalised name starts with "valor" (`Valor pago`, say) is renamed to `Valor`. */
  lemma ValorPrefixRenamed(c: string)
    requires StartsWith(Norm(c), "valor")
    ensures RenamedName(c) == "Valor"
  {
    CanonicalValor(Norm(c));
  }

  lemma CanonicalValor(n: string)
    requires StartsWith(n, "valor")
    ensures Canonical(n) == Some("Valor")
  {
    assert n[0] == 'v';
    assert n !in MethodNames;
    assert n != "responsavel" && n != "categoria" && n != "descricao";
    assert n != "respons\U{E1}vel" && n != "descri\U{E7}\U{E3}o";
  }

  /** Two such columns in one header repeat the base name `Valor`, so the load fails. */
  lemma ValorColumnsRepeat(header: seq<string>, i: nat, j: nat)
    requires i < j < |header|
    requires StartsWith(Norm(header[i]), "valor") && StartsWith(Norm(header[j]), "valor")
    ensures RepeatsBaseName(Renamed(header))
  {
    ValorPrefixRenamed(header[i]);
    ValorPrefixRenamed(header[j]);
    var cols := Renamed(header);
    assert cols[i] == cols[j] == "Valor";
  }

  /** The rows from the header on start with the header. */
  lemma HeaderFirstInTail(vals: seq<seq<string>>, h: nat, wanted: seq<string>)
    requires HeaderIndex(vals, wanted) == Some(h)
    ensures HeaderIndex(vals[h..], wanted) == Some(0)
  {
    assert vals[h..][0] == vals[h];
  }

  /** A type cell that is not empty but only whitespace. */
  predicate BlankTypeCell(r: seq<string>) {
    var t := Pad7(r)[2];
    t != "" && Strip(t) == ""
  }

  lemma DespesaNotBlank()
    ensures Strip(Despesa) == Despesa != ""
  {
    StripOfStripped(Despesa);
  }

  /** A positional row is never all blank unless its type cell is non-empty whitespace. */
  lemma PositionalNotBlank(r: seq<string>)
    requires !BlankTypeCell(r)
    ensures !AllBlank(PositionalRecord(r))
  {
    var rec := PositionalRecord(r);
    var t := Pad7(r)[2];
    assert CellText(rec[2]) == if t == "" then Despesa else t;
    if t == "" {
      DespesaNotBlank();
    }
    assert Strip(CellText(rec[2])) != "";
  }

  /**
   * Without a header every raw row becomes a ledger row, in order, unless its
   * type cell is non-empty whitespace (an empty type reads as "Despesa").
   */
  lemma PositionalKeepsRows(vals: seq<seq<string>>)
    requires vals != [] && HeaderIndex(vals, Wanted).None?
    requires forall i :: 0 <= i < |vals| ==> !BlankTypeCell(vals[i])
    ensures Load(vals).None? <==> exists i :: 0 <= i < |vals| && SerialOverflows(Strip(Pad7(vals[i])[0]))
    ensures Load(vals).Some? ==> |Load(vals).value| == |vals|
    ensures Load(vals).Some? ==> forall i :: 0 <= i < |vals| ==> Load(vals).value[i] == ToTxn(PositionalRecord(vals[i]))
  {
    var frame := FrameFrom(vals, None).value;
    assert Frame(vals) == Some(frame);
    PositionalFrameKept(vals);
    PositionalDates(vals, frame);
  }

  /** The date texts of a positional frame are the rows' first cells. */
  lemma PositionalDates(vals: seq<seq<string>>, frame: seq<seq<Cell>>)
    requires |frame| == |vals| && forall i :: 0 <= i < |vals| ==> frame[i] == PositionalRecord(vals[i])
    requires forall i :: 0 <= i < |frame| ==> |frame[i]| == 7
    ensures DatesOverflow(frame) <==> exists i :: 0 <= i < |vals| && SerialOverflows(Strip(Pad7(vals[i])[0]))
  {
    forall i | 0 <= i < |vals| ensures CellText(frame[i][0]) == Pad7(vals[i])[0] {
    }
  }

  /** The positional frame of such rows loses no row to the blank-row drop. */
  lemma PositionalFrameKept(vals: seq<seq<string>>)
    requires forall i :: 0 <= i < |vals| ==> !BlankTypeCell(vals[i])
    ensures var frame := FrameFrom(vals, None).value;
      Kept(frame) == frame && |frame| == |vals| && forall i :: 0 <= i < |vals| ==> frame[i] == PositionalRecord(vals[i])
  {
    var frame := FrameFrom(vals, None).value;
    forall i | 0 <= i < |vals| ensures !AllBlank(frame[i]) {
      PositionalNotBlank(vals[i]);
    }
    BlankDropKeepsOthers(frame);
  }

  /** In a list of distinct names, the first column carrying a name is its own position. */
  lemma {:induction false} ColumnIndexOfDistinct(cols: seq<string>, b: nat)
    requires b < |cols|
    requires forall i, j :: 0 <= i < j < |cols| ==> cols[i] != cols[j]
    ensures ColumnIndex(cols, cols[b]) == Some(b)
  {
    if b > 0 {
      assert cols[0] != cols[b];
      ColumnIndexOfDistinct(cols[1..], b - 1);
    }
  }

  lemma BaseColsDistinct()
    ensures forall i, j :: 0 <= i < j < 7 ==> BaseCols[i] != BaseCols[j]
  {
  }

  /** Under columns renamed to exactly `base_cols`, a data row is read cell by cell in order. */
  lemma BaseHeaderReadsByPosition(row: seq<string>)
    ensures HeaderRecord(BaseCols, row) == seq(7, k requires 0 <= k < 7 => Str(CellAt(row, k)))
  {
    var cols := BaseCols;
    BaseColsDistinct();
    forall b | 0 <= b < 7 ensures ColumnIndex(cols, BaseCols[b]) == Some(b) {
      ColumnIndexOfDistinct(BaseCols, b);
    }
  }

  // ------------------------------------------------- the finding, row level

  /** A positional row typed " Despesa" (a leading blank) whose amount cell is "10.00". */
  const PaddedDespesaRow: seq<string> := ["01/02/2024", "Ana", " " + Despesa, "Mercado", "Supermercado", "Pix", Fixed2(10.0)]

  lemma PaddedRowAmount()
    ensures CellAmount(PositionalRecord(PaddedDespesaRow)[6]) == Some(10.0)
  {
    assert CellText(PositionalRecord(PaddedDespesaRow)[6]) == Fixed2(10.0);
    Fixed2ReadBack(10.0);
    CentExactRounding(10.0);
  }

  lemma PaddedRowKind()
    ensures CellText(PositionalRecord(PaddedDespesaRow)[2]) == " " + Despesa
    ensures Strip(" " + Despesa) == Despesa
  {
    StripPadded(" ", Despesa);
  }

  /**
   * The row is kept as a "Despesa" with the positive amount 10.0, against the
   * sign convention; signing from the stripped type gives -10.0.
   */
  lemma PaddedTypeSignedWrongly()
    ensures ToTxnAsWritten(PositionalRecord(PaddedDespesaRow)).kind == Despesa
    ensures ToTxnAsWritten(PositionalRecord(PaddedDespesaRow)).amount == Some(10.0)
    ensures !SignedByType(Despesa, Some(10.0))
    ensures ToTxn(PositionalRecord(PaddedDespesaRow)).kind == Despesa
    ensures ToTxn(PositionalRecord(PaddedDespesaRow)).amount == Some(-10.0)
  {
    PaddedRowAmount();
    PaddedRowKind();
    assert !IsDebitKind(" " + Despesa) by {
      assert (" " + Despesa)[0] != Despesa[0] && (" " + Despesa)[0] != Transferencia[0];
    }
  }

  // ------------------------------------------------------------ load_pm_df

  /** A `Dia` cell as `get_all_records` gives it: a number or a text. */
  datatype PmCell = Number(x: real) | Textual(s: string)

  /** `astype(int)`: truncation toward zero. */
  function Trunc(x: real): (n: int)
    ensures x >= 0.0 ==> 0 <= n && n as real <= x < n as real + 1.0
    ensures x < 0.0 ==> n <= 0 && n as real - 1.0 < x <= n as real
  {
    if x >= 0.0 then x.Floor else -((-x).Floor)
  }

  /** `pd.to_numeric(errors="coerce").fillna(1).astype(int)` of one `Dia` cell. */
  function PmDay(c: PmCell): (d: int)
    ensures c.Textual? && ParseDecimal(c.s).None? ==> d == 1
    ensures c.Number? ==> d == Trunc(c.x)
  {
    match c
    case Number(x) => Trunc(x)
    case Textual(s) => match ParseDecimal(s) case None => 1 case Some(x) => Trunc(x)
  }

  /** The `Dia` column after loading. */
  function LoadPmDays(cells: seq<PmCell>): (days: seq<int>)
    ensures |days| == |cells|
    ensures forall i :: 0 <= i < |cells| ==> days[i] == PmDay(cells[i])
  {
    seq(|cells|, i requires 0 <= i < |cells| => PmDay(cells[i]))
  }

  /** A whole day number is kept. */
  lemma PmDayOfWhole(n: int)
    ensures PmDay(Number(n as real)) == n
  {
  }

  // ------------------------------------------------------------ salvar_plan

  /**
   * `salvar_plan`: record `linha` of `get_all_records` lives on sheet row
   * `linha + 2` (the header is row 1), that is row `linha + 1` counted from 0;
   * a plan without a row is appended.
   */
  method SalvarPlan<T>(ws: Worksheet<T>, linha: Option<nat>, valores: seq<T>)
    modifies ws
    ensures linha.None? ==> ws.rows == old(ws.rows) + [valores]
    ensures linha.Some? && linha.value + 1 < |old(ws.rows)| ==>
      ws.rows == old(ws.rows)[linha.value + 1 := Overwrite(old(ws.rows)[linha.value + 1], valores)]
  {
    match linha {
      case Some(l) => ws.UpdateRow(l + 1, valores);
      case None => ws.AppendRow(valores);
    }
  }

  // ------------------------------------------------------------ rows written as text

  /** A row of texts as the main sheet gives it back. */
  function TextCells(row: seq<string>): (rec: seq<Cell>)
    ensures |rec| == |row| && forall i :: 0 <= i < |row| ==> rec[i] == Str(row[i])
  {
    seq(|row|, i requires 0 <= i < |row| => Str(row[i]))
  }

  lemma ToTxnOfTexts(row: seq<string>)
    requires |row| == 7
    ensures ToTxn(TextCells(row)) == Txn(ParseDateCell(row[0]), Strip(row[1]), Strip(row[2]),
      Strip(row[3]), Strip(row[4]), Strip(row[5]), AdjustSign(Strip(row[2]), ParseDecimal(CleanValue(row[6]))))
  {
  }

  lemma AmountOfTexts(row: seq<string>)
    requires |row| == 7
    ensures ToTxn(TextCells(row)).amount == AdjustSign(Strip(row[2]), ParseDecimal(CleanValue(row[6])))
  {
  }

  /** A record of type Despesa or Transferência whose amount cell is `x` with two decimals. */
  lemma DebitRowReadBack(row: seq<string>, x: real)
    requires |row| == 7 && (row[2] == Despesa || row[2] == Transferencia)
    requires row[6] == Fixed2(x) && x <= 0.0
    ensures ToTxn(TextCells(row)).amount == Some(RoundedToCents(x))
  {
    AmountOfTexts(row);
    KindStripped(row[2]);
    DebitAmountReadBack(row[2], x);
  }

  lemma FieldsOfTexts(row: seq<string>)
    requires |row| == 7
    ensures var t := ToTxn(TextCells(row));
      t.resp == Strip(row[1]) && t.kind == Strip(row[2]) && t.desc == Strip(row[3]) &&
      t.cat == Strip(row[4]) && t.means == Strip(row[5])
  {
  }
}
