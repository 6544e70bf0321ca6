// The monthly planning tab (tabs/planejamento.py): the plan row of a
// (year, month), the money parser of its text fields, the predicted income,
// spending and balance, the plan save, and the planned-versus-actual table.
module Planning {
  import opened Wrappers
  import opened Text
  import opened Seqs
  import opened Money
  import opened Ledger
  import opened Store
  import opened Sheets

  /** `DESP_CATS` of constants.py: the expense categories a budget is kept for. */
  const DespCats: seq<string> := [
    "Supermercado", "Restaurante", "Moradia", "Uber", "Gasolina", "Manuten\U{E7}\U{E3}o Ve\U{ED}culo",
    "Casa e Jardim", "Funcion\U{E1}rios", "Assinaturas", "Educa\U{E7}\U{E3}o", "Lazer", "Farm\U{E1}cia",
    "Presentes", "Estacionamento", "Vestu\U{E1}rio", "Beleza", "Estornos", "Ressarcimentos",
    "Tributos", "Outra"]

  // ------------------------------------------------------------ to_float

  predicate IsNotDot(c: char) { c != '.' }

  /** `s.replace("R$", "")`: every occurrence, scanned left to right. */
  function DropCurrency(s: string): (r: string)
    ensures |r| <= |s|
  {
    if |s| >= 2 && s[0] == 'R' && s[1] == '$' then DropCurrency(s[2..])
    else if s == [] then []
    else [s[0]] + DropCurrency(s[1..])
  }

  /**
   * `to_float`: drop every '.', turn ',' into '.', drop "R$", strip, and
   * read an empty result as 0; `float` of anything else that is not a plain
   * decimal raises (None).
   */
  function ToFloat(s: string): (r: Option<real>)
    ensures Strip(DropCurrency(ReplaceChar(Keep(s, IsNotDot), ',', '.'))) == [] ==> r == Some(0.0)
    ensures Strip(DropCurrency(ReplaceChar(Keep(s, IsNotDot), ',', '.'))) != [] ==>
      r == ParseDecimal(Strip(DropCurrency(ReplaceChar(Keep(s, IsNotDot), ',', '.'))))
  {
    var t := Strip(DropCurrency(ReplaceChar(Keep(s, IsNotDot), ',', '.')));
    if t == [] then Some(0.0) else ParseDecimal(t)
  }

  lemma {:induction false} DropCurrencyAbsent(s: string)
    requires Lacks(s, 'R')
    ensures DropCurrency(s) == s
  {
    if s != [] {
      DropCurrencyAbsent(s[1..]);
    }
  }

  lemma {:induction false} KeepDotted(ds: string)
    requires |ds| % 3 == 0 && AllDigits(ds)
    ensures Keep(Dotted(ds), IsNotDot) == ds
    decreases |ds|
  {
    if ds != [] {
      var d3 := ds[..3];
      assert Dotted(ds) == ['.'] + (d3 + Dotted(ds[3..]));
      KeepAppend(['.'], d3 + Dotted(ds[3..]), IsNotDot);
      KeepAppend(d3, Dotted(ds[3..]), IsNotDot);
      KeepAll(d3, IsNotDot);
      KeepDotted(ds[3..]);
      assert d3 + ds[3..] == ds;
    }
  }

  /** Removing the dots of a grouped number gives its digits back. */
  lemma KeepGroup(ds: string)
    requires |ds| >= 1 && AllDigits(ds)
    ensures Keep(Group(ds), IsNotDot) == ds
  {
    var h := HeadLength(|ds|);
    KeepAppend(ds[..h], Dotted(ds[h..]), IsNotDot);
    KeepAll(ds[..h], IsNotDot);
    KeepDotted(ds[h..]);
    assert ds[..h] + ds[h..] == ds;
  }

  /** The first two steps of `to_float` on a `fmt_currency` text. */
  lemma UndottedAmount(x: real)
    ensures ReplaceChar(Keep(FmtAmount(x), IsNotDot), ',', '.') == "R$ " + Fixed2(x)
  {
    var c := Cents(x);
    var ds, cc, sg := NatStr(c / 100), Pad2(c % 100), SignText(x);
    assert FmtAmount(x) == "R$ " + (sg + (Group(ds) + ("," + cc)));
    KeepAppend("R$ ", sg + (Group(ds) + ("," + cc)), IsNotDot);
    KeepAppend(sg, Group(ds) + ("," + cc), IsNotDot);
    KeepAppend(Group(ds), "," + cc, IsNotDot);
    KeepAll("R$ ", IsNotDot);
    KeepAll(sg, IsNotDot);
    KeepAll("," + cc, IsNotDot);
    KeepGroup(ds);
    ReplaceCharAppend("R$ ", sg + (ds + ("," + cc)), ',', '.');
    ReplaceCharAbsent("R$ ", ',', '.');
    ReplaceGrouped(sg, ds, cc);
  }

  /** The two-decimal text has no blank at either end and no 'R'. */
  lemma Fixed2Shape(x: real)
    ensures |Fixed2(x)| >= 1 && Stripped(Fixed2(x)) && Lacks(Fixed2(x), 'R')
  {
    var neg, c := x < 0.0, Cents(x);
    DecimalTextShape(neg, c);
    assert Fixed2(x) == DecimalText(neg, c);
  }

  lemma DecimalTextShape(neg: bool, c: nat)
    ensures var t := DecimalText(neg, c); |t| >= 1 && Stripped(t) && Lacks(t, 'R')
  {
    var ds, tail := NatStr(c / 100), "." + Pad2(c % 100);
    var t := DecimalText(neg, c);
    assert t == (if neg then "-" else "") + (ds + tail);
    assert forall i :: 0 <= i < |ds + tail| ==> IsDigit((ds + tail)[i]) || (ds + tail)[i] == '.';
  }

  lemma DropCurrencyPrefix(p: string, t: string)
    requires p == "R$ " && Lacks(t, 'R')
    ensures DropCurrency(p + t) == " " + t
  {
    DropCurrencyAbsent(t);
    assert (p + t)[2..] == " " + t;
    assert (" " + t)[1..] == t;
  }

  /** The last two steps of `to_float` on "R$ " and a two-decimal text. */
  lemma StrippedCurrency(x: real)
    ensures Strip(DropCurrency("R$ " + Fixed2(x))) == Fixed2(x)
  {
    var t := Fixed2(x);
    Fixed2Shape(x);
    DropCurrencyPrefix("R$ ", t);
    StripPadded(" ", t);
  }

  /** `to_float(fmt_currency(x))` is x rounded to cents. */
  lemma ToFloatOfFmt(x: real)
    ensures ToFloat(FmtAmount(x)) == Some(RoundedToCents(x))
  {
    UndottedAmount(x);
    StrippedCurrency(x);
    Fixed2ReadBack(x);
    Fixed2Shape(x);
  }

  /** Round trip of the fields at lines 35-38: an untouched two-decimal value is read back exactly. */
  lemma ToFloatRoundTrip(x: real)
    requires IsCentExact(x)
    ensures ToFloat(FmtAmount(x)) == Some(x)
  {
    ToFloatOfFmt(x);
    CentExactRounding(x);
  }

  /** A field emptied by the user counts as 0. */
  lemma ToFloatEmpty(s: string)
    requires s == "" || s == "R$ "
    ensures ToFloat(s) == Some(0.0)
  {
    if s == "R$ " {
      CurrencyOnlyEmpty(s);
    }
  }

  lemma CurrencyOnlyEmpty(s: string)
    requires s == "R$ "
    ensures Strip(DropCurrency(ReplaceChar(Keep(s, IsNotDot), ',', '.'))) == []
  {
    KeepAll(s, IsNotDot);
    ReplaceCharAbsent(s, ',', '.');
    assert s[2..] == " ";
    assert DropCurrency(s) == " " + DropCurrency([]);
  }

  // ------------------------------------------------------------ plan rows

  /** A cell of the plan sheet: a number, or text (a header name, an empty cell). */
  datatype PlanCell = Amount(x: real) | Label(s: string)

  /** The income columns, under the names `ws_plan` gives them. */
  const IncomeNames: seq<string> := ["Sal\U{E1}rio Ricardo", "Sal\U{E1}rio Helena", "Extras", "Investimentos"]

  /** The header `ws_plan` writes when it creates the sheet. */
  function PlanHeader(cats: seq<string>): (h: seq<PlanCell>)
    ensures |h| == 2 + |IncomeNames| + |cats|
    ensures h[0] == Label("Ano") && h[1] == Label("M\U{EA}s")
    ensures forall k :: 0 <= k < |IncomeNames| ==> h[2 + k] == Label(IncomeNames[k])
    ensures forall k :: 0 <= k < |cats| ==> h[2 + |IncomeNames| + k] == Label(cats[k])
  {
    [Label("Ano"), Label("M\U{EA}s")]
    + seq(|IncomeNames|, i requires 0 <= i < |IncomeNames| => Label(IncomeNames[i]))
    + seq(|cats|, i requires 0 <= i < |cats| => Label(cats[i]))
  }

  /**
   * The column `get_all_records` files a value under `name`: a record is
   * `dict(zip(header, row))`, so with a repeated name the last column wins;
   * None when no header cell carries the name.
   */
  function ColumnOf(header: seq<PlanCell>, name: string): (r: Option<nat>)
    ensures r.Some? ==> (r.value < |header| && header[r.value] == Label(name)
      && forall j :: r.value < j < |header| ==> header[j] != Label(name))
    ensures r.None? <==> forall j :: 0 <= j < |header| ==> header[j] != Label(name)
    decreases |header|
  {
    if header == [] then None
    else if header[|header| - 1] == Label(name) then Some(|header| - 1)
    else ColumnOf(header[..|header| - 1], name)
  }

  /** Cell `k` of a record; `get_all_records` pads short rows with empty cells. */
  function PlanCellAt(rec: seq<PlanCell>, k: nat): PlanCell {
    if k < |rec| then rec[k] else Label("")
  }

  /** The frame has an `Ano` and a `Mês` column. */
  predicate HasKeys(header: seq<PlanCell>) {
    ColumnOf(header, "Ano").Some? && ColumnOf(header, "M\U{EA}s").Some?
  }

  function AnoCell(header: seq<PlanCell>, rec: seq<PlanCell>): PlanCell
    requires HasKeys(header)
  {
    PlanCellAt(rec, ColumnOf(header, "Ano").value)
  }

  function MesCell(header: seq<PlanCell>, rec: seq<PlanCell>): PlanCell
    requires HasKeys(header)
  {
    PlanCellAt(rec, ColumnOf(header, "M\U{EA}s").value)
  }

  /** `astype(int)` accepts the record's year and month: both are numbers. */
  predicate KeysNumeric(header: seq<PlanCell>, rec: seq<PlanCell>)
    requires HasKeys(header)
  {
    AnoCell(header, rec).Amount? && MesCell(header, rec).Amount?
  }

  /** `df_plan["Ano"].astype(int) == ano & df_plan["Mês"].astype(int) == mes` for one record. */
  predicate RecordMatches(header: seq<PlanCell>, rec: seq<PlanCell>, ano: int, mes: int)
    requires HasKeys(header)
  {
    KeysNumeric(header, rec) && Trunc(AnoCell(header, rec).x) == ano && Trunc(MesCell(header, rec).x) == mes
  }

  /**
   * Line 19 runs without raising: the frame is not empty (an empty list of
   * records gives a frame without columns), it has both key columns, and
   * every record's year and month are numbers.
   */
  predicate Searchable(header: seq<PlanCell>, records: seq<seq<PlanCell>>) {
    records != [] && HasKeys(header) && forall j :: 0 <= j < |records| ==> KeysNumeric(header, records[j])
  }

  /** The first record of that year and month, if any. */
  function FirstMatch(header: seq<PlanCell>, records: seq<seq<PlanCell>>, ano: int, mes: int): (r: Option<nat>)
    requires HasKeys(header)
    ensures r.Some? ==> r.value < |records| && RecordMatches(header, records[r.value], ano, mes)
    ensures r.Some? ==> forall j :: 0 <= j < r.value ==> !RecordMatches(header, records[j], ano, mes)
    ensures r.None? <==> forall j :: 0 <= j < |records| ==> !RecordMatches(header, records[j], ano, mes)
  {
    if records == [] then None
    else if RecordMatches(header, records[0], ano, mes) then Some(0)
    else match FirstMatch(header, records[1..], ano, mes)
      case None => None
      case Some(k) => Some(k + 1)
  }

  /** What lines 18-21 come to: the page raises, or there is no plan, or the plan is record `i`. */
  datatype Lookup = Raises | NoPlan | Found(i: nat)

  /** `linha[0]`, when line 19 does not raise. */
  function FindPlan(header: seq<PlanCell>, records: seq<seq<PlanCell>>, ano: int, mes: int): (r: Lookup)
    ensures r.Raises? <==> !Searchable(header, records)
    ensures r.Found? ==> (HasKeys(header) && r.i < |records| && RecordMatches(header, records[r.i], ano, mes)
      && forall j :: 0 <= j < r.i ==> !RecordMatches(header, records[j], ano, mes))
    ensures r.NoPlan? <==> (Searchable(header, records)
      && forall j :: 0 <= j < |records| ==> !RecordMatches(header, records[j], ano, mes))
  {
    if !Searchable(header, records) then Raises
    else match FirstMatch(header, records, ano, mes)
      case None => NoPlan
      case Some(i) => Found(i)
  }

  /** `get_all_records`: the sheet's rows below the header. */
  function Records(rows: seq<seq<PlanCell>>): seq<seq<PlanCell>> {
    if rows == [] then [] else rows[1..]
  }

  /** The header row `get_all_records` keys the records by. */
  function Header(rows: seq<seq<PlanCell>>): seq<PlanCell> {
    if rows == [] then [] else rows[0]
  }

  /**
   * `float(plan.get(name, 0))`: 0 for a name the frame has no column for;
   * otherwise the record's number, and `float` raises on text (an empty cell).
   */
  function NamedNumber(header: seq<PlanCell>, rec: seq<PlanCell>, name: string): (r: Option<real>)
    ensures ColumnOf(header, name).None? ==> r == Some(0.0)
    ensures ColumnOf(header, name).Some? ==>
      (r.Some? <==> PlanCellAt(rec, ColumnOf(header, name).value).Amount?)
    ensures r.Some? && ColumnOf(header, name).Some? ==> r.value == PlanCellAt(rec, ColumnOf(header, name).value).x
  {
    match ColumnOf(header, name)
    case None => Some(0.0)
    case Some(k) => if PlanCellAt(rec, k).Amount? then Some(PlanCellAt(rec, k).x) else None
  }

  /** The figures the page starts from: four incomes and one budget per category. */
  datatype Figures = Figures(incomes: seq<real>, budgets: seq<real>)

  function Zeros(n: nat): (z: seq<real>)
    ensures |z| == n && forall i :: 0 <= i < n ==> z[i] == 0.0
  {
    seq(n, i => 0.0)
  }

  /** The numbers a record holds under `names`, or None if one of them is text. */
  function Numbers(header: seq<PlanCell>, rec: seq<PlanCell>, names: seq<string>): (r: Option<seq<real>>)
    ensures r.Some? <==> forall k :: 0 <= k < |names| ==> NamedNumber(header, rec, names[k]).Some?
    ensures r.Some? ==> |r.value| == |names|
    ensures r.Some? ==> forall k :: 0 <= k < |names| ==> Some(r.value[k]) == NamedNumber(header, rec, names[k])
    decreases |names|
  {
    if names == [] then Some([])
    else match NamedNumber(header, rec, names[0])
      case None => None
      case Some(v) =>
        match Numbers(header, rec, names[1..])
        case None => None
        case Some(vs) => Some([v] + vs)
  }

  /**
   * Lines 19-29: None when the page raises, at line 19 or in a `float` of a
   * field; the zeros without a plan; otherwise the plan's four incomes and
   * one budget per category, read by column name.
   */
  function InitialFigures(header: seq<PlanCell>, records: seq<seq<PlanCell>>, ano: int, mes: int): (r: Option<Figures>)
    ensures FindPlan(header, records, ano, mes).Raises? ==> r.None?
    ensures FindPlan(header, records, ano, mes).NoPlan? ==>
      r == Some(Figures(Zeros(|IncomeNames|), Zeros(|DespCats|)))
    ensures FindPlan(header, records, ano, mes).Found? ==>
      var rec := records[FindPlan(header, records, ano, mes).i];
      (r.Some? <==> (forall k :: 0 <= k < |IncomeNames| ==> NamedNumber(header, rec, IncomeNames[k]).Some?)
                    && (forall k :: 0 <= k < |DespCats| ==> NamedNumber(header, rec, DespCats[k]).Some?))
      && (r.Some? ==> (|r.value.incomes| == |IncomeNames| && |r.value.budgets| == |DespCats|
          && (forall k :: 0 <= k < |IncomeNames| ==> Some(r.value.incomes[k]) == NamedNumber(header, rec, IncomeNames[k]))
          && (forall k :: 0 <= k < |DespCats| ==> Some(r.value.budgets[k]) == NamedNumber(header, rec, DespCats[k]))))
  {
    match FindPlan(header, records, ano, mes)
    case Raises => None
    case NoPlan => Some(Figures(Zeros(|IncomeNames|), Zeros(|DespCats|)))
    case Found(i) =>
      match Numbers(header, records[i], IncomeNames)
      case None => None
      case Some(inc) =>
        match Numbers(header, records[i], DespCats)
        case None => None
        case Some(bud) => Some(Figures(inc, bud))
  }

  // ------------------------------------------------------------ predictions

  /** The budget widgets: `orc[cat]` for every category, in the order of the list. */
  method FillBudget(cats: seq<string>, inputs: map<string, real>) returns (orc: map<string, real>)
    requires forall c :: c in cats ==> c in inputs
    ensures orc.Keys == set c | c in cats
    ensures forall c :: c in cats ==> orc[c] == inputs[c]
  {
    orc := map[];
    var i := 0;
    while i < |cats|
      invariant 0 <= i <= |cats|
      invariant orc.Keys == set j | 0 <= j < i :: cats[j]
      invariant forall c :: c in orc ==> orc[c] == inputs[c]
    {
      orc := orc[cats[i] := inputs[cats[i]]];
      i := i + 1;
    }
    assert forall c :: c in cats ==> exists j :: 0 <= j < |cats| && cats[j] == c;
  }

  function BudgetOf(orc: map<string, real>): string -> real {
    c => if c in orc then orc[c] else 0.0
  }

  /** `rec_prev`: the four incomes added. */
  function IncomePrev(incomes: seq<real>): real {
    Sum(incomes, (v: real) => v)
  }

  /** `desp_prev = sum(orc.values())`, summed over the category list `DESP_CATS` (its names are distinct). */
  function SpendingPrev(cats: seq<string>, orc: map<string, real>): real {
    Sum(cats, BudgetOf(orc))
  }

  /** `rec_prev - desp_prev`. */
  function BalancePrev(incomes: seq<real>, cats: seq<string>, orc: map<string, real>): real {
    IncomePrev(incomes) - SpendingPrev(cats, orc)
  }

  /** Budgets come from number inputs with minimum 0, so spending is never negative. */
  lemma SpendingNonNegative(cats: seq<string>, orc: map<string, real>)
    requires forall c :: c in orc ==> orc[c] >= 0.0
    ensures SpendingPrev(cats, orc) >= 0.0
    ensures BalancePrev([], cats, orc) <= 0.0
  {
    SumNonNegative(cats, BudgetOf(orc));
  }

  /** With non-negative budgets the predicted balance never exceeds the predicted income. */
  lemma BalanceAtMostIncome(incomes: seq<real>, cats: seq<string>, orc: map<string, real>)
    requires forall c :: c in orc ==> orc[c] >= 0.0
    ensures BalancePrev(incomes, cats, orc) <= IncomePrev(incomes)
  {
    SpendingNonNegative(cats, orc);
  }

  lemma {:induction false} SumZeros(n: nat)
    ensures IncomePrev(Zeros(n)) == 0.0
  {
    if n > 0 {
      assert Zeros(n)[1..] == Zeros(n - 1);
      SumZeros(n - 1);
    }
  }

  /** An untouched zero field reads back as 0. */
  lemma ZeroFieldReadsZero(z: real)
    requires z == 0.0
    ensures ToFloat(FmtAmount(z)) == Some(0.0)
  {
    assert IsCentExact(z);
    ToFloatRoundTrip(z);
  }

  /** A sheet whose records can be searched but hold no plan for the month: the page starts from zeros. */
  lemma NoPlanStartsFromZeros(header: seq<PlanCell>, records: seq<seq<PlanCell>>, ano: int, mes: int)
    requires Searchable(header, records)
    requires forall j :: 0 <= j < |records| ==> !RecordMatches(header, records[j], ano, mes)
    ensures InitialFigures(header, records, ano, mes) == Some(Figures(Zeros(|IncomeNames|), Zeros(|DespCats|)))
  {
  }

  /** A sheet with no record below its header (as `ws_plan` creates it) makes line 19 raise. */
  lemma EmptyPlanSheetRaises(rows: seq<seq<PlanCell>>, ano: int, mes: int)
    requires |rows| <= 1
    ensures FindPlan(Header(rows), Records(rows), ano, mes).Raises?
    ensures InitialFigures(Header(rows), Records(rows), ano, mes).None?
  {
  }

  /** One record whose year or month is text (an empty cell) makes line 19 raise, whatever the month. */
  lemma TextKeyRaises(header: seq<PlanCell>, records: seq<seq<PlanCell>>, j: nat, ano: int, mes: int)
    requires HasKeys(header) && j < |records| && !KeysNumeric(header, records[j])
    ensures FindPlan(header, records, ano, mes).Raises?
  {
  }

  /** Zero incomes and zero budgets predict zero income, spending and balance. */
  lemma ZerosPredictZero(n: nat, cats: seq<string>, orc: map<string, real>)
    requires forall c :: c in orc ==> orc[c] == 0.0
    ensures IncomePrev(Zeros(n)) == 0.0
    ensures SpendingPrev(cats, orc) == 0.0 && BalancePrev(Zeros(n), cats, orc) == 0.0
  {
    SumZeros(n);
    SumNonNegative(cats, BudgetOf(orc));
    SumNonPositive(cats, BudgetOf(orc));
  }

  // ------------------------------------------------------------ saving

  /** The row starts with the year and the month, in columns A and B. */
  predicate WritesKeys(vals: seq<PlanCell>, ano: int, mes: int) {
    |vals| >= 2 && vals[0] == Amount(ano as real) && vals[1] == Amount(mes as real)
  }

  /** The row written: `[ano, mes, r_ric, r_hel, r_ext, r_inv] + [orc[c] for c in DESP_CATS]`. */
  function PlanValues(ano: int, mes: int, incomes: seq<real>, cats: seq<string>, orc: map<string, real>): (vals: seq<PlanCell>)
    ensures |vals| == 2 + |incomes| + |cats|
    ensures WritesKeys(vals, ano, mes)
    ensures forall k :: 0 <= k < |incomes| ==> vals[2 + k] == Amount(incomes[k])
    ensures forall k :: 0 <= k < |cats| ==> vals[2 + |incomes| + k] == Amount(BudgetOf(orc)(cats[k]))
  {
    [Amount(ano as real), Amount(mes as real)] +
    seq(|incomes|, i requires 0 <= i < |incomes| => Amount(incomes[i])) +
    seq(|cats|, i requires 0 <= i < |cats| => Amount(BudgetOf(orc)(cats[i])))
  }

  /** The header keeps `Ano` in column A and `Mês` in column B, where the save writes them. */
  predicate KeyedAsWritten(header: seq<PlanCell>) {
    ColumnOf(header, "Ano") == Some(0) && ColumnOf(header, "M\U{EA}s") == Some(1)
  }

  /**
   * "Salvar Planejamento" (reached only when line 19 did not raise): the
   * record found for (ano, mes) is overwritten from column A, or a new one
   * appended. When the header keeps the year and month in columns A and B,
   * the lookup then finds the values just saved, at the same place.
   */
  method SavePlan(ws: Worksheet<PlanCell>, ano: int, mes: int, incomes: seq<real>, cats: seq<string>, orc: map<string, real>)
    requires |ws.rows| >= 1
    requires !FindPlan(ws.rows[0], Records(ws.rows), ano, mes).Raises?
    modifies ws
    ensures |ws.rows| >= 1 && ws.rows[0] == old(ws.rows)[0]
    ensures FindPlan(old(ws.rows)[0], Records(old(ws.rows)), ano, mes).NoPlan? ==>
      ws.rows == old(ws.rows) + [PlanValues(ano, mes, incomes, cats, orc)]
    ensures FindPlan(old(ws.rows)[0], Records(old(ws.rows)), ano, mes).Found? ==>
      var l := FindPlan(old(ws.rows)[0], Records(old(ws.rows)), ano, mes).i;
      l + 1 < |old(ws.rows)|
      && ws.rows == old(ws.rows)[l + 1 := Overwrite(old(ws.rows)[l + 1], PlanValues(ano, mes, incomes, cats, orc))]
    ensures KeyedAsWritten(ws.rows[0]) ==> FindPlan(ws.rows[0], Records(ws.rows), ano, mes).Found?
    ensures KeyedAsWritten(ws.rows[0]) ==>
      var rec := Records(ws.rows)[FindPlan(ws.rows[0], Records(ws.rows), ano, mes).i];
      |rec| >= 2 + |incomes| + |cats| && rec[..2 + |incomes| + |cats|] == PlanValues(ano, mes, incomes, cats, orc)
    ensures KeyedAsWritten(ws.rows[0]) && FindPlan(old(ws.rows)[0], Records(old(ws.rows)), ano, mes).Found? ==>
      FindPlan(ws.rows[0], Records(ws.rows), ano, mes) == FindPlan(old(ws.rows)[0], Records(old(ws.rows)), ano, mes)
  {
    var vals := PlanValues(ano, mes, incomes, cats, orc);
    var linha := FindPlan(ws.rows[0], Records(ws.rows), ano, mes);
    ghost var before := ws.rows;
    match linha {
      case NoPlan =>
        SalvarPlan(ws, None, vals);
      case Found(l) =>
        FoundIsRecord(before, l, ano, mes);
        SalvarPlan(ws, Some(l), vals);
    }
    if KeyedAsWritten(before[0]) {
      SavedPlanFound(before, ws.rows, vals, ano, mes);
    }
  }

  /** Whichever way the values were saved, the lookup on the new rows finds them. */
  lemma SavedPlanFound(before: seq<seq<PlanCell>>, after: seq<seq<PlanCell>>, vals: seq<PlanCell>, ano: int, mes: int)
    requires |before| >= 1 && KeyedAsWritten(before[0]) && WritesKeys(vals, ano, mes)
    requires FindPlan(before[0], Records(before), ano, mes).NoPlan? ==> after == before + [vals]
    requires FindPlan(before[0], Records(before), ano, mes).Found? ==>
      var l := FindPlan(before[0], Records(before), ano, mes).i;
      l + 1 < |before| && after == before[l + 1 := Overwrite(before[l + 1], vals)]
    requires !FindPlan(before[0], Records(before), ano, mes).Raises?
    ensures |after| >= 1 && after[0] == before[0]
    ensures FindPlan(after[0], Records(after), ano, mes).Found?
    ensures var rec := Records(after)[FindPlan(after[0], Records(after), ano, mes).i];
      |rec| >= |vals| && rec[..|vals|] == vals
    ensures FindPlan(before[0], Records(before), ano, mes).Found? ==>
      FindPlan(after[0], Records(after), ano, mes) == FindPlan(before[0], Records(before), ano, mes)
  {
    match FindPlan(before[0], Records(before), ano, mes) {
      case NoPlan =>
        AppendedPlanFound(before, vals, ano, mes);
      case Found(l) =>
        OverwrittenPlanFound(before, l, vals, ano, mes);
    }
  }

  lemma FoundIsRecord(rows: seq<seq<PlanCell>>, l: nat, ano: int, mes: int)
    requires |rows| >= 1 && FindPlan(rows[0], Records(rows), ano, mes) == Found(l)
    ensures l + 1 < |rows|
  {
  }

  /** With the keys in columns A and B, a row written there is searchable and matches exactly its own month. */
  lemma WrittenKeysMatch(header: seq<PlanCell>, vals: seq<PlanCell>, ano: int, mes: int)
    requires KeyedAsWritten(header) && WritesKeys(vals, ano, mes)
    ensures KeysNumeric(header, vals) && RecordMatches(header, vals, ano, mes)
    ensures forall a, m :: RecordMatches(header, vals, a, m) ==> a == ano && m == mes
  {
    TruncOfInt(ano);
    TruncOfInt(mes);
  }

  lemma TruncOfInt(n: int)
    ensures Trunc(n as real) == n
  {
  }

  /** Appending a matching record to a searchable sheet without one makes it the record found. */
  lemma AppendedPlanFound(rows: seq<seq<PlanCell>>, vals: seq<PlanCell>, ano: int, mes: int)
    requires |rows| >= 1 && FindPlan(rows[0], Records(rows), ano, mes).NoPlan?
    requires KeyedAsWritten(rows[0]) && WritesKeys(vals, ano, mes)
    ensures FindPlan(rows[0], Records(rows + [vals]), ano, mes) == Found(|rows| - 1)
    ensures Records(rows + [vals])[|rows| - 1] == vals
  {
    var header, after := rows[0], rows + [vals];
    WrittenKeysMatch(header, vals, ano, mes);
    assert Records(after) == Records(rows) + [vals];
    assert forall j :: 0 <= j < |Records(rows)| ==> Records(after)[j] == Records(rows)[j];
    assert Searchable(header, Records(after));
    UniqueMatchFound(header, Records(after), |Records(rows)|, ano, mes);
  }

  /** Overwriting the record found with a matching one keeps it the record found. */
  lemma OverwrittenPlanFound(rows: seq<seq<PlanCell>>, l: nat, vals: seq<PlanCell>, ano: int, mes: int)
    requires |rows| >= 1 && FindPlan(rows[0], Records(rows), ano, mes) == Found(l)
    requires KeyedAsWritten(rows[0]) && WritesKeys(vals, ano, mes)
    ensures l + 1 < |rows|
    ensures var after := rows[l + 1 := Overwrite(rows[l + 1], vals)];
      FindPlan(after[0], Records(after), ano, mes) == Found(l) && Records(after)[l] == Overwrite(rows[l + 1], vals)
  {
    var header := rows[0];
    var after := rows[l + 1 := Overwrite(rows[l + 1], vals)];
    var written := Overwrite(rows[l + 1], vals);
    OverwriteKeepsKeys(rows[l + 1], vals, ano, mes);
    WrittenKeysMatch(header, written, ano, mes);
    assert after[0] == header;
    assert Records(after) == Records(rows)[l := written];
    assert Searchable(header, Records(after));
    UniqueMatchFound(header, Records(after), l, ano, mes);
  }

  lemma OverwriteKeepsKeys(row: seq<PlanCell>, vals: seq<PlanCell>, ano: int, mes: int)
    requires WritesKeys(vals, ano, mes)
    ensures WritesKeys(Overwrite(row, vals), ano, mes)
  {
    var r := Overwrite(row, vals);
    assert r[0] == r[..|vals|][0] && r[1] == r[..|vals|][1];
  }

  /** A matching record with no match before it is the one the search finds. */
  lemma UniqueMatchFound(header: seq<PlanCell>, records: seq<seq<PlanCell>>, k: nat, ano: int, mes: int)
    requires HasKeys(header) && Searchable(header, records)
    requires k < |records| && RecordMatches(header, records[k], ano, mes)
    requires forall j :: 0 <= j < k ==> !RecordMatches(header, records[j], ano, mes)
    ensures FindPlan(header, records, ano, mes) == Found(k)
  {
  }

  /** Every field and category name is longer than "Ano" and "Mês". */
  lemma FieldNamesLong()
    ensures forall k :: 0 <= k < |IncomeNames| ==> |IncomeNames[k]| > 3
    ensures forall k :: 0 <= k < |DespCats| ==> |DespCats[k]| > 3
  {
  }

  /** The header `ws_plan` writes keeps the year and month in columns A and B. */
  lemma PlanHeaderKeyed()
    ensures KeyedAsWritten(PlanHeader(DespCats))
  {
    FieldNamesLong();
    LongNamesKeyed(DespCats);
  }

  /** Names longer than `Ano` and `Mês` after the two keys leave the keys in columns A and B. */
  lemma LongNamesKeyed(cats: seq<string>)
    requires forall k :: 0 <= k < |IncomeNames| ==> |IncomeNames[k]| > 3
    requires forall k :: 0 <= k < |cats| ==> |cats[k]| > 3
    ensures KeyedAsWritten(PlanHeader(cats))
  {
    var h := PlanHeader(cats);
    forall j | 2 <= j < |h| ensures h[j] != Label("Ano") && h[j] != Label("M\U{EA}s") {
      if j < 2 + |IncomeNames| {
        assert h[j] == Label(IncomeNames[j - 2]);
      } else {
        assert h[j] == Label(cats[j - 2 - |IncomeNames|]);
      }
    }
    assert h[1] != Label("Ano");
    LastColumn(h, "Ano", 0);
    LastColumn(h, "M\U{EA}s", 1);
  }

  /** A name whose column `k` is not repeated further right is keyed by column `k`. */
  lemma LastColumn(header: seq<PlanCell>, name: string, k: nat)
    requires k < |header| && header[k] == Label(name)
    requires forall j :: k < j < |header| ==> header[j] != Label(name)
    ensures ColumnOf(header, name) == Some(k)
  {
  }

  // ------------------------------------------------------------ opening the page

  /**
   * What `load_plan_df` hands back: the frame of the sheet's records, or the
   * cached loader that reads them when called.
   */
  datatype PlanSource = LoadedFrame(rows: seq<seq<PlanCell>>) | CachedLoader(rows: seq<seq<PlanCell>>)

  /** `load_plan_df` as written (sheets.py:146): `return _load()`, the frame itself. */
  function LoadPlanDfAsWritten(rows: seq<seq<PlanCell>>): (src: PlanSource)
    ensures src.rows == rows && CallSource(src).None?
  {
    LoadedFrame(rows)
  }

  /** `load_plan_df` as its callers use it (line 57 calls `.clear()` on it): `return _load`. */
  function LoadPlanDf(rows: seq<seq<PlanCell>>): (src: PlanSource)
    ensures CallSource(src) == Some(rows)
  {
    CachedLoader(rows)
  }

  /** Line 18 calls what `load_plan_df` returned: a frame is not callable (`TypeError`), the loader reads the sheet. */
  function CallSource(src: PlanSource): (r: Option<seq<seq<PlanCell>>>)
    ensures r.Some? <==> src.CachedLoader?
    ensures r.Some? ==> r.value == src.rows
  {
    match src
    case LoadedFrame(_) => None
    case CachedLoader(rows) => Some(rows)
  }

  /** Lines 18-29 from a given `load_plan_df`: the figures the page opens with, None when it raises. */
  function OpenWith(src: PlanSource, ano: int, mes: int): Option<Figures> {
    match CallSource(src)
    case None => None
    case Some(rows) => InitialFigures(Header(rows), Records(rows), ano, mes)
  }

  /** As written, the page raises at line 18 whatever the sheet holds. */
  lemma PlanPageRaisesAsWritten(rows: seq<seq<PlanCell>>, ano: int, mes: int)
    ensures OpenWith(LoadPlanDfAsWritten(rows), ano, mes).None?
  {
  }

  /**
   * With the loader returned, the page opens on the figures of the sheet,
   * and on zeros when the sheet can be searched but has no plan for the month.
   */
  lemma PlanPageOpens(rows: seq<seq<PlanCell>>, ano: int, mes: int)
    ensures OpenWith(LoadPlanDf(rows), ano, mes) == InitialFigures(Header(rows), Records(rows), ano, mes)
    ensures (Searchable(Header(rows), Records(rows))
      && forall j :: 0 <= j < |Records(rows)| ==> !RecordMatches(Header(rows), Records(rows)[j], ano, mes)) ==>
      OpenWith(LoadPlanDf(rows), ano, mes) == Some(Figures(Zeros(|IncomeNames|), Zeros(|DespCats|)))
  {
    if Searchable(Header(rows), Records(rows))
      && (forall j :: 0 <= j < |Records(rows)| ==> !RecordMatches(Header(rows), Records(rows)[j], ano, mes)) {
      NoPlanStartsFromZeros(Header(rows), Records(rows), ano, mes);
    }
  }

  /** A fresh plan sheet with one month saved through `salvar_plan`: the page opens without raising for that month. */
  lemma SavedMonthOpens(ano: int, mes: int, incomes: seq<real>, orc: map<string, real>)
    requires |incomes| == |IncomeNames|
    ensures var rows := [PlanHeader(DespCats), PlanValues(ano, mes, incomes, DespCats, orc)];
      FindPlan(Header(rows), Records(rows), ano, mes) == Found(0)
      && OpenWith(LoadPlanDf(rows), ano, mes).Some?
  {
    var header, vals := PlanHeader(DespCats), PlanValues(ano, mes, incomes, DespCats, orc);
    var rows := [header, vals];
    SavedMonthFound(header, vals, ano, mes);
    SavedFieldsNumeric(header, vals, ano, mes, incomes, DespCats, orc);
    NumericPlanOpens(header, [vals], ano, mes);
    assert Header(rows) == header && Records(rows) == [vals];
  }

  lemma SavedMonthFound(header: seq<PlanCell>, vals: seq<PlanCell>, ano: int, mes: int)
    requires header == PlanHeader(DespCats) && WritesKeys(vals, ano, mes)
    ensures FindPlan(header, [vals], ano, mes) == Found(0)
  {
    PlanHeaderKeyed();
    WrittenKeysMatch(header, vals, ano, mes);
    assert Searchable(header, [vals]);
    UniqueMatchFound(header, [vals], 0, ano, mes);
  }

  /** When every field of the plan found reads as a number, the page opens. */
  lemma NumericPlanOpens(header: seq<PlanCell>, records: seq<seq<PlanCell>>, ano: int, mes: int)
    requires FindPlan(header, records, ano, mes).Found?
    requires forall name :: NamedNumber(header, records[FindPlan(header, records, ano, mes).i], name).Some?
    ensures InitialFigures(header, records, ano, mes).Some?
  {
  }

  /** Every cell of a saved row is a number, so every field reads as one under a header no longer than the row. */
  lemma SavedFieldsNumeric(header: seq<PlanCell>, vals: seq<PlanCell>, ano: int, mes: int,
                           incomes: seq<real>, cats: seq<string>, orc: map<string, real>)
    requires vals == PlanValues(ano, mes, incomes, cats, orc) && |header| <= |vals|
    ensures forall name :: NamedNumber(header, vals, name).Some?
  {
    forall name ensures NamedNumber(header, vals, name).Some? {
      if ColumnOf(header, name).Some? {
        var k := ColumnOf(header, name).value;
        assert vals[k].Amount? by {
          if k >= 2 + |incomes| {
            assert vals[2 + |incomes| + (k - 2 - |incomes|)].Amount?;
          } else if k >= 2 {
            assert vals[2 + (k - 2)].Amount?;
          }
        }
      }
    }
  }

  // ------------------------------------------------------------ comparison

  /** A row of the comparison: planned is missing (NaN) for a category without a budget. */
  datatype CompRow = CompRow(planned: Option<real>, actual: real, diff: Option<real>)

  predicate InCategory(t: Txn, c: string) { t.cat == c }

  function CategoryMask(c: string): Txn -> bool { t => InCategory(t, c) }

  /** `groupby("Categoria")["Valor"].sum().abs()` for one category (NaN amounts skipped). */
  function Actual(desp: seq<Txn>, c: string): real {
    Abs(Sum(Filter(desp, CategoryMask(c)), AmountOr0))
  }

  /** The categories present in the month's expenses. */
  function Categories(desp: seq<Txn>): set<string> {
    set t | t in desp :: t.cat
  }

  /** One category's row: its budget, its actual figure, and their difference. */
  function CompRowOf(desp: seq<Txn>, orc: map<string, real>, c: string): (row: CompRow)
    ensures row.actual >= 0.0
    ensures row.planned.Some? <==> c in orc
    ensures c in orc ==> row.diff == Some(orc[c] - row.actual)
    ensures c !in orc ==> row.diff.None?
  {
    var a := Actual(desp, c);
    if c in orc then CompRow(Some(orc[c]), a, Some(orc[c] - a)) else CompRow(None, a, None)
  }

  /** The table, keyed by the categories present in the month's expenses. */
  function Comparison(desp: seq<Txn>, orc: map<string, real>): (comp: map<string, CompRow>)
    ensures comp.Keys == Categories(desp)
    ensures forall c :: c in comp ==> comp[c] == CompRowOf(desp, orc, c)
  {
    map c | c in Categories(desp) :: CompRowOf(desp, orc, c)
  }

  /**
   * The comparison section: the table only when the planned month is the
   * dashboard's own month, whose expenses `desp` are; a notice otherwise.
   */
  function ComparisonSection(ano: int, mes: int, selAno: int, selMes: int,
                             desp: seq<Txn>, orc: map<string, real>): (r: Option<map<string, CompRow>>)
    ensures r.Some? <==> ano == selAno && mes == selMes
    ensures r.Some? ==> r.value.Keys == Categories(desp)
  {
    if ano == selAno && mes == selMes then Some(Comparison(desp, orc)) else None
  }

  lemma {:induction false} SumOfDebits(s: seq<Txn>)
    requires forall i :: 0 <= i < |s| ==> SignedByType(Despesa, s[i].amount)
    ensures Sum(s, AmountOr0) == -Sum(s, Magnitude)
    decreases |s|
  {
    if s != [] {
      SumOfDebits(s[1..]);
    }
  }

  /**
   * For loaded expense rows (never positive) a category's actual figure is
   * the sum of its amounts' magnitudes, so the difference is the budget
   * minus what was spent.
   */
  lemma ActualIsSpent(desp: seq<Txn>, c: string)
    requires forall t :: t in desp ==> t.kind == Despesa && SignedByType(t.kind, t.amount)
    ensures Actual(desp, c) == Sum(Filter(desp, CategoryMask(c)), Magnitude)
  {
    var f := Filter(desp, CategoryMask(c));
    assert forall i :: 0 <= i < |f| ==> f[i] in desp;
    SumOfDebits(f);
    SumNonNegative(f, Magnitude);
  }
}
