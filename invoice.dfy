// tabs/fatura.py: the credit-card invoice summary. Card rows are found by
// their normalised payment method, restricted to a date interval, split into
// expenses and refunds (estornos), narrowed by the responsible-party,
// category and text-search filters, and totalled as expenses minus refunds,
// never below zero.
module Invoice {
  import opened Wrappers
  import opened Text
  import opened Seqs
  import opened Dates
  import opened Money
  import opened NormText
  import opened Ledger

  // ------------------------------------------------------- card detection

  /** A word boundary (`\b`) at position `i` of `s`. */
  predicate WordBoundary(s: string, i: int)
    requires 0 <= i <= |s|
  {
    (i > 0 && IsWordChar(s[i - 1])) != (i < |s| && IsWordChar(s[i]))
  }

  /** The texts `cartao\s*de\s*credito` matches in a single-spaced text. */
  const CardPhrases: seq<string> :=
    [Spelling(" ", " "), Spelling("", " "), Spelling(" ", ""), Spelling("", "")]

  /** "cartao", "de" and "credito" with the gaps `g1` and `g2` between them. */
  function Spelling(g1: string, g2: string): string {
    "cartao" + g1 + "de" + g2 + "credito"
  }

  /** `\bcartao\s*de\s*credito\b` matches at position `i`. */
  predicate CardPhraseAt(s: string, i: nat) {
    exists k :: 0 <= k < |CardPhrases| && i + |CardPhrases[k]| <= |s|
      && s[i..i + |CardPhrases[k]|] == CardPhrases[k]
      && WordBoundary(s, i) && WordBoundary(s, i + |CardPhrases[k]|)
  }

  /** The normalised payment method names a credit card. */
  predicate IsCardMethod(means: string) {
    var n := NormSeries(Some(means));
    exists i :: 0 <= i <= |n| && CardPhraseAt(n, i)
  }

  /** `\s*` over `s[i..j]`: whitespace only. */
  predicate SpaceRun(s: string, i: int, j: int)
    requires 0 <= i <= j <= |s|
  {
    forall k :: i <= k < j ==> IsSpace(s[k])
  }

  /**
   * `cartao\s*de\s*credito` read on any text: the three words start at `i`,
   * `a` and `b`, with runs of whitespace of any length between them.
   */
  predicate SpacedPhrase(s: string, i: int, a: int, b: int) {
    0 <= i && i + 6 <= a && a + 2 <= b && b + 7 <= |s|
    && s[i..i + 6] == "cartao" && SpaceRun(s, i + 6, a)
    && s[a..a + 2] == "de" && SpaceRun(s, a + 2, b)
    && s[b..b + 7] == "credito"
  }

  /** The regular expression `\bcartao\s*de\s*credito\b` matches at `i`. */
  ghost predicate RegexCardAt(s: string, i: int) {
    exists a, b :: SpacedPhrase(s, i, a, b) && WordBoundary(s, i) && WordBoundary(s, b + 7)
  }

  /**
   * A payment method is a card method exactly when the regular expression
   * matches somewhere in its normal form: the four spellings of CardPhrases
   * are all the matches a single-spaced text admits.
   */
  lemma IsCardMethodIff(m: string)
    ensures IsCardMethod(m) <==>
      exists i :: 0 <= i <= |NormSeries(Some(m))| && RegexCardAt(NormSeries(Some(m)), i)
  {
    var n := NormSeries(Some(m));
    forall i: nat | i <= |n| ensures CardPhraseAt(n, i) <==> RegexCardAt(n, i) {
      CardPhraseAtIsRegex(n, i);
    }
  }

  lemma CardPhraseAtIsRegex(s: string, i: nat)
    requires SingleSpaced(s)
    ensures CardPhraseAt(s, i) <==> RegexCardAt(s, i)
  {
    if CardPhraseAt(s, i) {
      CardPhraseGivesRegex(s, i);
    }
    if RegexCardAt(s, i) {
      RegexGivesCardPhrase(s, i);
    }
  }

  lemma CardPhraseGivesRegex(s: string, i: nat)
    requires CardPhraseAt(s, i)
    ensures RegexCardAt(s, i)
  {
    var k :| 0 <= k < |CardPhrases| && i + |CardPhrases[k]| <= |s|
      && s[i..i + |CardPhrases[k]|] == CardPhrases[k]
      && WordBoundary(s, i) && WordBoundary(s, i + |CardPhrases[k]|);
    SpellingGivesRegex(s, i, k);
  }

  lemma SpellingGivesRegex(s: string, i: nat, k: int)
    requires 0 <= k < |CardPhrases| && i + |CardPhrases[k]| <= |s|
    requires s[i..i + |CardPhrases[k]|] == CardPhrases[k]
    requires WordBoundary(s, i) && WordBoundary(s, i + |CardPhrases[k]|)
    ensures RegexCardAt(s, i)
  {
    var g1 := if k == 0 || k == 2 then " " else "";
    var g2 := if k <= 1 then " " else "";
    assert CardPhrases[k] == Spelling(g1, g2);
    PhraseSpaced(s, i, g1, g2);
  }

  /** A spelling written at `i` is the phrase read with whitespace runs. */
  lemma PhraseSpaced(s: string, i: nat, g1: string, g2: string)
    requires g1 == "" || g1 == " "
    requires g2 == "" || g2 == " "
    requires i + |Spelling(g1, g2)| <= |s| && s[i..i + |Spelling(g1, g2)|] == Spelling(g1, g2)
    requires WordBoundary(s, i) && WordBoundary(s, i + |Spelling(g1, g2)|)
    ensures RegexCardAt(s, i)
  {
    var w := Spelling(g1, g2);
    var a := 6 + |g1|;
    var b := a + 2 + |g2|;
    PartsOfFive("cartao", g1, "de", g2, "credito");
    WindowSlice(s, i, w, 0, 6);
    WindowSlice(s, i, w, 6, a);
    WindowSlice(s, i, w, a, a + 2);
    WindowSlice(s, i, w, a + 2, b);
    WindowSlice(s, i, w, b, |w|);
    GapIsRun(s, i + 6, g1);
    GapIsRun(s, i + a + 2, g2);
    assert SpacedPhrase(s, i, i + a, i + b);
  }

  /** An empty or one-space gap is a whitespace run. */
  lemma GapIsRun(s: string, x: nat, g: string)
    requires g == "" || g == " "
    requires x + |g| <= |s| && s[x..x + |g|] == g
    ensures SpaceRun(s, x, x + |g|)
  {
    if g == " " {
      assert s[x] == s[x..x + 1][0];
    }
  }

  /** A slice of a window of `s` is the same slice of `s`, shifted. */
  lemma WindowSlice(s: string, i: nat, w: string, x: nat, y: nat)
    requires i + |w| <= |s| && s[i..i + |w|] == w && x <= y <= |w|
    ensures s[i + x..i + y] == w[x..y]
  {
    forall k | 0 <= k < y - x ensures s[i + x..i + y][k] == w[x..y][k] {
      assert s[i..i + |w|][x + k] == s[i + x + k];
    }
  }

  lemma RegexGivesCardPhrase(s: string, i: nat)
    requires SingleSpaced(s) && RegexCardAt(s, i)
    ensures CardPhraseAt(s, i)
  {
    var a, b :| SpacedPhrase(s, i, a, b) && WordBoundary(s, i) && WordBoundary(s, b + 7);
    SpaceRunShort(s, i + 6, a);
    SpaceRunShort(s, a + 2, b);
    var g1, g2 := s[i + 6..a], s[a + 2..b];
    SliceInFive(s, i, i + 6, a, a + 2, b, b + 7);
    assert g1 == "" || g1 == " ";
    assert g2 == "" || g2 == " ";
    var k := if g1 == " " then (if g2 == " " then 0 else 2) else (if g2 == " " then 1 else 3);
    assert s[i..b + 7] == Spelling(g1, g2) == CardPhrases[k];
  }

  /** Each of five joined texts is found again at its offset. */
  lemma PartsOfFive(p0: string, p1: string, p2: string, p3: string, p4: string)
    ensures var w, x1, x2 := p0 + p1 + p2 + p3 + p4, |p0| + |p1|, |p0| + |p1| + |p2|;
      w[..|p0|] == p0 && w[|p0|..x1] == p1 && w[x1..x2] == p2
      && w[x2..x2 + |p3|] == p3 && w[x2 + |p3|..] == p4
  {
    var w := p0 + p1 + p2 + p3 + p4;
    assert w == p0 + (p1 + (p2 + (p3 + p4)));
  }

  /** A slice cut at four inner points is the join of its five pieces. */
  lemma SliceInFive(s: string, x0: int, x1: int, x2: int, x3: int, x4: int, x5: int)
    requires 0 <= x0 <= x1 <= x2 <= x3 <= x4 <= x5 <= |s|
    ensures s[x0..x5] == s[x0..x1] + s[x1..x2] + s[x2..x3] + s[x3..x4] + s[x4..x5]
  {
    assert s[x0..x5] == s[x0..x1] + s[x1..x5];
    assert s[x1..x5] == s[x1..x2] + s[x2..x5];
    assert s[x2..x5] == s[x2..x3] + s[x3..x5];
    assert s[x3..x5] == s[x3..x4] + s[x4..x5];
  }

  /** In a single-spaced text a whitespace run is empty or one plain space. */
  lemma SpaceRunShort(s: string, x: int, y: int)
    requires SingleSpaced(s) && 0 <= x <= y <= |s| && SpaceRun(s, x, y)
    ensures y == x || (y == x + 1 && s[x] == ' ')
  {
    if y > x + 1 {
      NoSpacePair(s, x);
    }
  }

  lemma NoSpacePair(s: string, x: int)
    requires SingleSpaced(s) && 0 <= x && x + 1 < |s|
    ensures !(IsSpace(s[x]) && IsSpace(s[x + 1]))
  {
  }

  lemma FoldCharAccents()
    ensures FoldChar('\U{E3}') == "a" && FoldChar('\U{E9}') == "e"
  {
  }

  lemma FoldSingle(c: char, s: string)
    requires s == [c]
    ensures Fold(s) == FoldChar(c)
  {
    assert s[1..] == [];
  }

  lemma JoinPieces(a: string, b: string, c: string, d: string, e: string)
    requires a == "Cart" && b == "a" && c == "o de Cr" && d == "e" && e == "dito"
    ensures a + b + c + d + e == "Cartao de Credito"
  {
  }

  lemma FoldPieces(a: string, b: string, c: string, d: string, e: string)
    requires a == "Cart" && b == "\U{E3}" && c == "o de Cr" && d == "\U{E9}" && e == "dito"
    ensures Fold(a + b + c + d + e) == "Cartao de Credito"
  {
    FoldAppend(a + b + c + d, e);
    FoldAppend(a + b + c, d);
    FoldAppend(a + b, c);
    FoldAppend(a, b);
    FoldOfAscii(a);
    FoldOfAscii(c);
    FoldOfAscii(e);
    FoldCharAccents();
    FoldSingle('\U{E3}', b);
    FoldSingle('\U{E9}', d);
    JoinPieces(Fold(a), Fold(b), Fold(c), Fold(d), Fold(e));
  }

  lemma LowerCardText(s: string, t: string)
    requires s == "Cartao de Credito" && t == "cartao de credito"
    ensures Lower(s) == t
  {
  }

  lemma CardTextNormalised(t: string)
    requires t == "cartao de credito"
    ensures Normalised(t) && t == CardPhrases[0]
  {
  }

  /** The card method as the app writes it normalises to "cartao de credito". */
  lemma NormOfCartaoDeCredito(m: string)
    requires m == CartaoDeCredito
    ensures NormSeries(Some(m)) == CardPhrases[0]
  {
    var a, b, c, d, e := m[..4], m[4..5], m[5..12], m[12..13], m[13..];
    assert m == a + b + c + d + e;
    FoldPieces(a, b, c, d, e);
    var low := "cartao de credito";
    LowerCardText(Fold(m), low);
    CardTextNormalised(low);
    NormSeriesOfLowered(m, low);
  }

  /** The method the app writes for card purchases is recognised as a card method. */
  lemma CartaoDeCreditoIsCard(m: string)
    requires m == CartaoDeCredito
    ensures IsCardMethod(m)
  {
    NormOfCartaoDeCredito(m);
    PhraseAtStart(NormSeries(Some(m)));
  }

  lemma PhraseAtStart(n: string)
    requires n == CardPhrases[0]
    ensures CardPhraseAt(n, 0)
  {
    assert !IsWordChar(' ') && IsWordChar('c') && IsWordChar('o');
    assert WordBoundary(n, 0) && WordBoundary(n, |n|);
    assert n[0..|n|] == n;
  }

  /** `is_cc`: a card row, of the chosen card when one is chosen (`None` is "Todos"). */
  predicate OnCard(t: Txn, card: Option<string>) {
    IsCardMethod(t.means) && (card.None? || t.means == card.value)
  }

  /** `Data.between(data_ini, data_fim)`: both ends included, a NaT date never. */
  predicate InInterval(t: Txn, ini: Date, fim: Date) {
    t.date.Some? && AtMost(ini, t.date.value) && AtMost(t.date.value, fim)
  }

  /** `base_intervalo`: the card rows of the interval, in ledger order. */
  function IntervalRows(ledger: seq<Txn>, card: Option<string>, ini: Date, fim: Date): (rows: seq<Txn>)
    ensures forall k :: 0 <= k < |rows| ==> rows[k] in ledger && OnCard(rows[k], card) && InInterval(rows[k], ini, fim)
    ensures forall i :: 0 <= i < |ledger| && OnCard(ledger[i], card) && InInterval(ledger[i], ini, fim) ==> ledger[i] in rows
  {
    Filter(ledger, (t: Txn) => OnCard(t, card) && InInterval(t, ini, fim))
  }

  // ------------------------------------------------------ expenses, refunds

  /** A refund: an income whose normalised category is "estorno" or "estornos". */
  predicate IsRefund(t: Txn) {
    t.kind == Receita && NormSeries(Some(t.cat)) in {"estorno", "estornos"}
  }

  /** `despesas` before the filters. */
  function Expenses(rows: seq<Txn>): (r: seq<Txn>)
    ensures forall k :: 0 <= k < |r| ==> r[k] in rows && r[k].kind == Despesa
    ensures forall i :: 0 <= i < |rows| && rows[i].kind == Despesa ==> rows[i] in r
  {
    Filter(rows, (t: Txn) => t.kind == Despesa)
  }

  /** `creditos` before the filters: the refunds, or none when they are excluded. */
  function Refunds(rows: seq<Txn>, includeCredits: bool): (r: seq<Txn>)
    ensures !includeCredits ==> r == []
    ensures forall k :: 0 <= k < |r| ==> r[k] in rows && IsRefund(r[k])
    ensures includeCredits ==> forall i :: 0 <= i < |rows| && IsRefund(rows[i]) ==> rows[i] in r
  {
    if includeCredits then Filter(rows, IsRefund) else []
  }

  // ------------------------------------------------------------- filters

  /** A multiselect filter: empty, or holding its "all" sentinel, lets every value through. */
  predicate SelectAllows(sel: seq<string>, sentinel: string, v: string) {
    sel == [] || sentinel in sel || v in sel
  }

  /**
   * The pattern matches `s` at `i`, `.` standing for any character but a
   * newline and every other character for itself.
   */
  predicate MatchesAt(pat: string, s: string, i: int)
    requires 0 <= i <= |s| - |pat|
  {
    forall k :: 0 <= k < |pat| ==> (pat[k] == '.' && s[i + k] != '\n') || pat[k] == s[i + k]
  }

  /** `str.contains(pat)`, a regular-expression search, for patterns whose one metacharacter is `.`. */
  predicate PatternFound(pat: string, s: string) {
    exists i :: 0 <= i <= |s| - |pat| && MatchesAt(pat, s, i)
  }

  /** Without a `.` the search is a plain substring test. */
  lemma LiteralPatternIsSubstring(pat: string, s: string)
    requires forall k :: 0 <= k < |pat| ==> pat[k] != '.'
    ensures PatternFound(pat, s) <==> IsSubstring(pat, s)
  {
    forall i | 0 <= i <= |s| - |pat| ensures MatchesAt(pat, s, i) <==> OccursAt(pat, s, i) {
      if MatchesAt(pat, s, i) {
        assert forall k :: 0 <= k < |pat| ==> s[i..i + |pat|][k] == pat[k];
      }
      if OccursAt(pat, s, i) {
        forall k | 0 <= k < |pat| ensures s[i + k] == pat[k] {
          assert s[i..i + |pat|][k] == s[i + k];
        }
      }
    }
  }

  /** A lone `.` finds every non-empty normalised text (which holds no newline). */
  lemma DotFindsNonEmpty(s: string)
    requires Normalised(s)
    ensures PatternFound(".", s) <==> s != []
  {
    if s != [] {
      assert IsSpace('\n');
      assert MatchesAt(".", s, 0);
    }
  }

  /** `busca.strip()` is empty (no search) or its normal form is found in a searched column. */
  predicate SearchAllows(busca: string, t: Txn) {
    var pat := NormStr(Some(busca));
    Strip(busca) == []
    || PatternFound(pat, NormSeries(Some(t.desc)))
    || PatternFound(pat, NormSeries(Some(t.cat)))
    || PatternFound(pat, NormSeries(Some(t.resp)))
  }

  /** The filter choices of the invoice view. */
  datatype Choices = Choices(resp: seq<string>, cat: seq<string>, busca: string)

  const AllResp: string := "(todos)"
  const AllCat: string := "(todas)"

  predicate Allows(c: Choices, t: Txn) {
    SelectAllows(c.resp, AllResp, t.resp) && SelectAllows(c.cat, AllCat, t.cat) && SearchAllows(c.busca, t)
  }

  /** The text columns a multiselect filter can look at. */
  datatype Column = RespCol | CatCol | MethodCol

  function Field(col: Column, t: Txn): string {
    match col
    case RespCol => t.resp
    case CatCol => t.cat
    case MethodCol => t.means
  }

  /** The row mask of one multiselect filter on the column `col`. */
  function SelectMask(sel: seq<string>, sentinel: string, col: Column): Txn -> bool {
    (t: Txn) => SelectAllows(sel, sentinel, Field(col, t))
  }

  /** The row mask of the text search. */
  function SearchMask(busca: string): Txn -> bool {
    (t: Txn) => SearchAllows(busca, t)
  }

  /** The row mask of all the filters together. */
  function AllowsMask(c: Choices): Txn -> bool {
    (t: Txn) => Allows(c, t)
  }

  /** One multiselect step of `_aplica_filtros`: `isin` unless the selection is empty or holds its sentinel. */
  function SelectStep(rows: seq<Txn>, sel: seq<string>, sentinel: string, col: Column): (r: seq<Txn>)
    ensures r == Filter(rows, SelectMask(sel, sentinel, col))
  {
    if sel != [] && sentinel !in sel then
      FilterExt(rows, (t: Txn) => Field(col, t) in sel, SelectMask(sel, sentinel, col));
      Filter(rows, (t: Txn) => Field(col, t) in sel)
    else
      FilterAll(rows, SelectMask(sel, sentinel, col));
      rows
  }

  /** The search step: only when `busca.strip()` is not empty. */
  function SearchStep(rows: seq<Txn>, busca: string): (r: seq<Txn>)
    ensures r == Filter(rows, SearchMask(busca))
  {
    if Strip(busca) != [] then Filter(rows, SearchMask(busca))
    else
      FilterAll(rows, SearchMask(busca));
      rows
  }


  /** `_aplica_filtros`: the responsible-party, category and search steps in turn. */
  function ApplyFilters(rows: seq<Txn>, c: Choices): seq<Txn>
  {
    SearchStep(SelectStep(SelectStep(rows, c.resp, AllResp, RespCol), c.cat, AllCat, CatCol), c.busca)
  }

  /** The filters keep exactly the rows every chosen filter lets through, in their order. */
  lemma ApplyFiltersKeeps(rows: seq<Txn>, c: Choices)
    ensures ApplyFilters(rows, c) == Filter(rows, AllowsMask(c))
  {
    var p1 := SelectMask(c.resp, AllResp, RespCol);
    var p2 := SelectMask(c.cat, AllCat, CatCol);
    var p12 := (t: Txn) => p1(t) && p2(t);
    FilterFilter(rows, p1, p2, p12);
    FilterFilter(rows, p12, SearchMask(c.busca), AllowsMask(c));
  }

  /** Every row the filters keep came from the input and passes every filter; every such row is kept. */
  lemma ApplyFiltersMembers(rows: seq<Txn>, c: Choices)
    ensures forall k :: 0 <= k < |ApplyFilters(rows, c)| ==>
      ApplyFilters(rows, c)[k] in rows && Allows(c, ApplyFilters(rows, c)[k])
    ensures forall i :: 0 <= i < |rows| && Allows(c, rows[i]) ==> rows[i] in ApplyFilters(rows, c)
  {
    ApplyFiltersKeeps(rows, c);
    var r := ApplyFilters(rows, c);
    assert forall k :: 0 <= k < |r| ==> AllowsMask(c)(r[k]);
    assert forall i :: 0 <= i < |rows| && Allows(c, rows[i]) ==> AllowsMask(c)(rows[i]);
  }

  /** Default choices (the sentinels, an empty search) keep every row. */
  lemma DefaultChoicesKeepAll(rows: seq<Txn>)
    ensures ApplyFilters(rows, Choices([AllResp], [AllCat], "")) == rows
  {
  }

  /** A search whose normal form is empty matches every row (the empty pattern occurs everywhere). */
  lemma EmptyPatternMatches(busca: string, t: Txn)
    requires NormStr(Some(busca)) == []
    ensures SearchAllows(busca, t)
  {
    var n := NormSeries(Some(t.desc));
    assert MatchesAt([], n, 0);
  }

  // --------------------------------------------------------------- total

  /** The invoice: the filtered expenses and refunds and the total due. */
  datatype Summary = Summary(expenses: seq<Txn>, refunds: seq<Txn>, total: real)

  /** `despesas` and `creditos` after the filters. */
  function FilteredExpenses(ledger: seq<Txn>, card: Option<string>, ini: Date, fim: Date, c: Choices): seq<Txn> {
    ApplyFilters(Expenses(IntervalRows(ledger, card, ini, fim)), c)
  }

  function FilteredRefunds(ledger: seq<Txn>, card: Option<string>, ini: Date, fim: Date,
                           includeCredits: bool, c: Choices): seq<Txn> {
    ApplyFilters(Refunds(IntervalRows(ledger, card, ini, fim), includeCredits), c)
  }

  /**
   * `total_fatura = max(0, Σ|despesa| − Σ estorno)`; None when no row is left
   * (the view shows a notice and no total).
   */
  function InvoiceTotal(ledger: seq<Txn>, card: Option<string>, ini: Date, fim: Date,
                        includeCredits: bool, c: Choices): (r: Option<Summary>)
    ensures r.None? <==> (FilteredExpenses(ledger, card, ini, fim, c) == []
                          && FilteredRefunds(ledger, card, ini, fim, includeCredits, c) == [])
    ensures r.Some? ==> r.value.expenses == FilteredExpenses(ledger, card, ini, fim, c)
    ensures r.Some? ==> r.value.refunds == FilteredRefunds(ledger, card, ini, fim, includeCredits, c)
    ensures r.Some? ==> r.value.total >= 0.0
    ensures r.Some? ==> r.value.total >= Sum(r.value.expenses, Magnitude) - Sum(r.value.refunds, AmountOr0)
    ensures r.Some? ==> (r.value.total == 0.0
                         || r.value.total == Sum(r.value.expenses, Magnitude) - Sum(r.value.refunds, AmountOr0))
  {
    var desp := FilteredExpenses(ledger, card, ini, fim, c);
    var cred := FilteredRefunds(ledger, card, ini, fim, includeCredits, c);
    if desp == [] && cred == [] then None
    else
      var gross := Sum(desp, Magnitude);
      var credits := if cred == [] then 0.0 else Sum(cred, AmountOr0);
      Some(Summary(desp, cred, if gross - credits > 0.0 then gross - credits else 0.0))
  }

  /** A listed expense is an expense of the card, in the interval, that the filters allow. */
  lemma ExpenseSelected(ledger: seq<Txn>, card: Option<string>, ini: Date, fim: Date, c: Choices, k: nat)
    requires k < |FilteredExpenses(ledger, card, ini, fim, c)|
    ensures var t := FilteredExpenses(ledger, card, ini, fim, c)[k];
      t in ledger && t.kind == Despesa && OnCard(t, card) && InInterval(t, ini, fim) && Allows(c, t)
  {
    var base := IntervalRows(ledger, card, ini, fim);
    var e := Expenses(base);
    var t := FilteredExpenses(ledger, card, ini, fim, c)[k];
    ApplyFiltersMembers(e, c);
    var j :| 0 <= j < |e| && e[j] == t;
    var i :| 0 <= i < |base| && base[i] == t;
  }

  /** Every expense of the card in the interval that the filters allow is listed. */
  lemma ExpenseListed(ledger: seq<Txn>, card: Option<string>, ini: Date, fim: Date, c: Choices, i: nat)
    requires i < |ledger| && ledger[i].kind == Despesa && OnCard(ledger[i], card)
    requires InInterval(ledger[i], ini, fim) && Allows(c, ledger[i])
    ensures ledger[i] in FilteredExpenses(ledger, card, ini, fim, c)
  {
    var base := IntervalRows(ledger, card, ini, fim);
    var e := Expenses(base);
    var t := ledger[i];
    var j :| 0 <= j < |base| && base[j] == t;
    var k :| 0 <= k < |e| && e[k] == t;
    ApplyFiltersMembers(e, c);
  }

  /**
   * The invoice lists only expenses of the chosen card in the interval that
   * pass the filters, and every such row.
   */
  lemma InvoiceExpenseRows(ledger: seq<Txn>, card: Option<string>, ini: Date, fim: Date, c: Choices)
    ensures forall k :: 0 <= k < |FilteredExpenses(ledger, card, ini, fim, c)| ==>
      var t := FilteredExpenses(ledger, card, ini, fim, c)[k];
      t in ledger && t.kind == Despesa && OnCard(t, card) && InInterval(t, ini, fim) && Allows(c, t)
    ensures forall i :: (0 <= i < |ledger| && ledger[i].kind == Despesa && OnCard(ledger[i], card)
                         && InInterval(ledger[i], ini, fim) && Allows(c, ledger[i]))
                        ==> ledger[i] in FilteredExpenses(ledger, card, ini, fim, c)
  {
    forall k | 0 <= k < |FilteredExpenses(ledger, card, ini, fim, c)|
      ensures var t := FilteredExpenses(ledger, card, ini, fim, c)[k];
        t in ledger && t.kind == Despesa && OnCard(t, card) && InInterval(t, ini, fim) && Allows(c, t)
    {
      ExpenseSelected(ledger, card, ini, fim, c, k);
    }
    forall i | 0 <= i < |ledger| && ledger[i].kind == Despesa && OnCard(ledger[i], card)
        && InInterval(ledger[i], ini, fim) && Allows(c, ledger[i])
      ensures ledger[i] in FilteredExpenses(ledger, card, ini, fim, c)
    {
      ExpenseListed(ledger, card, ini, fim, c, i);
    }
  }

  /**
   * The invoice lists only refunds of the chosen card in the interval that
   * pass the filters, and none when credits are excluded.
   */
  lemma InvoiceRefundRows(ledger: seq<Txn>, card: Option<string>, ini: Date, fim: Date, includeCredits: bool, c: Choices)
    ensures forall k :: 0 <= k < |FilteredRefunds(ledger, card, ini, fim, includeCredits, c)| ==>
      var t := FilteredRefunds(ledger, card, ini, fim, includeCredits, c)[k];
      t in ledger && IsRefund(t) && OnCard(t, card) && InInterval(t, ini, fim) && Allows(c, t)
    ensures !includeCredits ==> FilteredRefunds(ledger, card, ini, fim, includeCredits, c) == []
  {
    var base := IntervalRows(ledger, card, ini, fim);
    ApplyFiltersMembers(Refunds(base, includeCredits), c);
    if !includeCredits {
      assert Refunds(base, includeCredits) == [];
    }
  }

  /** Without refunds the total is the sum of the expenses' magnitudes. */
  lemma TotalWithoutRefunds(ledger: seq<Txn>, card: Option<string>, ini: Date, fim: Date, c: Choices)
    requires InvoiceTotal(ledger, card, ini, fim, false, c).Some?
    ensures InvoiceTotal(ledger, card, ini, fim, false, c).value.total
      == Sum(InvoiceTotal(ledger, card, ini, fim, false, c).value.expenses, Magnitude)
  {
    var s := InvoiceTotal(ledger, card, ini, fim, false, c).value;
    SumNonNegative(s.expenses, Magnitude);
  }

  lemma ReceitaIsCredit()
    ensures !IsDebitKind(Receita)
  {
  }

  /** An income row of a sign-normalised ledger is never negative. */
  lemma IncomeRowNonNegative(ledger: seq<Txn>, t: Txn)
    requires forall i :: 0 <= i < |ledger| ==> SignedByType(ledger[i].kind, ledger[i].amount)
    requires t in ledger && t.kind == Receita
    ensures AmountOr0(t) >= 0.0
  {
    ReceitaIsCredit();
  }

  /** Income rows drawn from a sign-normalised ledger add up to a non-negative sum. */
  lemma {:induction false} RefundsNonNegative(ledger: seq<Txn>, rs: seq<Txn>)
    requires forall i :: 0 <= i < |ledger| ==> SignedByType(ledger[i].kind, ledger[i].amount)
    requires forall k :: 0 <= k < |rs| ==> rs[k] in ledger && rs[k].kind == Receita
    ensures Sum(rs, AmountOr0) >= 0.0
    decreases |rs|
  {
    if rs != [] {
      IncomeRowNonNegative(ledger, rs[0]);
      assert forall k :: 0 <= k < |rs[1..]| ==> rs[1..][k] == rs[k + 1];
      RefundsNonNegative(ledger, rs[1..]);
    }
  }

  /** Loaded refunds are non-negative, so the total never exceeds the expenses. */
  lemma TotalAtMostExpenses(ledger: seq<Txn>, card: Option<string>, ini: Date, fim: Date,
                            includeCredits: bool, c: Choices)
    requires forall i :: 0 <= i < |ledger| ==> SignedByType(ledger[i].kind, ledger[i].amount)
    requires InvoiceTotal(ledger, card, ini, fim, includeCredits, c).Some?
    ensures InvoiceTotal(ledger, card, ini, fim, includeCredits, c).value.total
      <= Sum(InvoiceTotal(ledger, card, ini, fim, includeCredits, c).value.expenses, Magnitude)
  {
    var s := InvoiceTotal(ledger, card, ini, fim, includeCredits, c).value;
    RefundsFromLedger(ledger, card, ini, fim, includeCredits, c, s.refunds);
    RefundsNonNegative(ledger, s.refunds);
    SumNonNegative(s.expenses, Magnitude);
    ClampedAtMostGross(s.total, Sum(s.expenses, Magnitude), Sum(s.refunds, AmountOr0));
  }

  /** The listed refunds are income rows of the ledger. */
  lemma RefundsFromLedger(ledger: seq<Txn>, card: Option<string>, ini: Date, fim: Date,
                          includeCredits: bool, c: Choices, refunds: seq<Txn>)
    requires refunds == FilteredRefunds(ledger, card, ini, fim, includeCredits, c)
    ensures forall k :: 0 <= k < |refunds| ==> refunds[k] in ledger && refunds[k].kind == Receita
  {
    InvoiceRefundRows(ledger, card, ini, fim, includeCredits, c);
  }

  /** A total that is 0 or gross minus non-negative credits is at most a non-negative gross. */
  lemma ClampedAtMostGross(total: real, gross: real, credits: real)
    requires total == 0.0 || total == gross - credits
    requires gross >= 0.0 && credits >= 0.0
    ensures total <= gross
  {
  }
}
