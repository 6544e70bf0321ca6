// The monthly-payments tab (tabs/pagamentos.py): recurring bills, their due
// dates in the selected month, which of them are still pending, and the
// payment that posts a bill as a Despesa row of the main sheet.
module Payments {
  import opened Wrappers
  import opened Text
  import opened Seqs
  import opened Dates
  import opened Money
  import opened DateParse
  import opened Ledger
  import opened Store
  import opened Sheets
  import NormText

  /** One row of the recurring-bills sheet after loading (`Dia` already an int). */
  datatype Bill = Bill(desc: string, cat: string, resp: string, day: int)

  // ------------------------------------------------------------ registering

  /**
   * The "Salvar" button of the registration form: without a chosen
   * responsible nothing is written; otherwise `[desc, "", dia, cat, resp]`
   * is appended (the day is written as its decimal text).
   */
  method RegisterBill(ws: Worksheet<string>, desc: string, day: nat, cat: string, resp: string)
    returns (added: bool)
    modifies ws
    ensures added <==> resp != Selecione
    ensures !added ==> ws.rows == old(ws.rows)
    ensures added ==> ws.rows == old(ws.rows) + [[desc, "", NatStr(day), cat, resp]]
  {
    if resp == Selecione {
      added := false;
    } else {
      ws.AppendRow([desc, "", NatStr(day), cat, resp]);
      added := true;
    }
  }

  /** A registered bill read back through `load_pm_df` has the day that was written. */
  lemma RegisteredDayReadBack(day: nat)
    ensures PmDay(Textual(NatStr(day))) == day
  {
    NatStrParses(day);
  }

  /** The decimal text of a natural number parses back to it. */
  lemma {:induction false} NatStrParses(n: nat)
    ensures ParseDecimal(NatStr(n)) == Some(n as real)
  {
    var s := NatStr(n);
    DigitsValueOfNatStr(n);
    assert CharIndex(s, '.') == |s|;
    assert s[..|s|] == s;
    assert Pow10(0) == 1;
    assert ParseUnsigned(s) == Some(n as real);
  }

  // ------------------------------------------------------------ due dates

  /**
   * `datetime(sel_ano, sel_mes, min(int(d), 28))`: capping the day at 28 makes
   * the date exist in every month; Python raises for a day below 1 or a year
   * outside 1..9999, which is `None` here.
   */
  function DueDate(y: int, m: int, day: int): (r: Option<Date>)
    requires 1 <= m <= 12
    ensures r.Some? <==> 1 <= y <= 9999 && day >= 1
    ensures r.Some? ==> Valid(r.value) && r.value.year == y && r.value.month == m
    ensures r.Some? ==> 1 <= r.value.day <= 28 && r.value.day <= day
    ensures r.Some? && day <= 28 ==> r.value.day == day
  {
    if 1 <= y <= 9999 && day >= 1 then Some(Date(y, m, if day < 28 then day else 28)) else None
  }

  /** The `Vencimento` column: the list comprehension raises as soon as one bill fails. */
  function DueDates(y: int, m: int, bills: seq<Bill>): (r: Option<seq<Date>>)
    requires 1 <= m <= 12
    ensures r.Some? <==> forall i :: 0 <= i < |bills| ==> DueDate(y, m, bills[i].day).Some?
    ensures r.Some? ==> |r.value| == |bills|
    ensures r.Some? ==> forall i :: 0 <= i < |bills| ==> Some(r.value[i]) == DueDate(y, m, bills[i].day)
  {
    if bills == [] then Some([])
    else
      match DueDate(y, m, bills[0].day)
      case None => None
      case Some(d) =>
        match DueDates(y, m, bills[1..])
        case None => None
        case Some(ds) => Some([d] + ds)
  }

  /** Every day the registration form accepts (1..28) gives a due date on that very day. */
  lemma RegisteredDaysAreDue(y: int, m: int, bills: seq<Bill>)
    requires 1 <= m <= 12 && 1 <= y <= 9999
    requires forall i :: 0 <= i < |bills| ==> 1 <= bills[i].day <= 28
    ensures DueDates(y, m, bills).Some?
    ensures forall i :: 0 <= i < |bills| ==> DueDates(y, m, bills).value[i] == Date(y, m, bills[i].day)
  {
  }

  // ------------------------------------------------------------ pending bills

  /** The matching key `desc|cat|resp` of stripped fields. */
  function Key(desc: string, cat: string, resp: string): string {
    Strip(desc) + "|" + Strip(cat) + "|" + Strip(resp)
  }

  function BillKey(b: Bill): string { Key(b.desc, b.cat, b.resp) }

  function TxnKey(t: Txn): string { Key(t.desc, t.cat, t.resp) }

  /** `ch_lanc`: the keys of the month's Despesa rows. */
  function PaidKeys(monthRows: seq<Txn>): (ks: set<string>)
    ensures forall k :: k in ks <==> exists t :: t in monthRows && t.kind == Despesa && TxnKey(t) == k
  {
    set t | t in monthRows && t.kind == Despesa :: TxnKey(t)
  }

  /** `dfpm_mes[~chave.isin(ch_lanc)]`: the bills whose key no Despesa row of the month has. */
  function PendingBills(bills: seq<Bill>, monthRows: seq<Txn>): (r: seq<Bill>)
    ensures forall b :: b in r <==> b in bills && BillKey(b) !in PaidKeys(monthRows)
    ensures |r| <= |bills|
  {
    Filter(bills, b => BillKey(b) !in PaidKeys(monthRows))
  }

  /** The test `existe` of the payment dialog: a Despesa row with the same stripped fields. */
  predicate MatchesBill(t: Txn, b: Bill) {
    t.kind == Despesa && Strip(t.desc) == Strip(b.desc) && Strip(t.cat) == Strip(b.cat) &&
    Strip(t.resp) == Strip(b.resp)
  }

  predicate AlreadyPaid(monthRows: seq<Txn>, b: Bill) {
    exists t :: t in monthRows && MatchesBill(t, b)
  }

  /** What the tab intends: the bills no Despesa row of the month pays. */
  function PendingByFields(bills: seq<Bill>, monthRows: seq<Txn>): (r: seq<Bill>)
    ensures forall b :: b in r <==> b in bills && !AlreadyPaid(monthRows, b)
    ensures |r| <= |bills|
  {
    Filter(bills, b => !AlreadyPaid(monthRows, b))
  }

  predicate NoBar(s: string) { Lacks(s, '|') }

  predicate FieldsWithoutBar(desc: string, cat: string, resp: string) {
    NoBar(desc) && NoBar(cat) && NoBar(resp)
  }

  lemma StripNoBar(s: string)
    requires NoBar(s)
    ensures NoBar(Strip(s))
  {
    var a := NormText.StripIsSlice(s);
    assert forall i :: 0 <= i < |Strip(s)| ==> Strip(s)[i] == s[a + i];
  }

  /** Three fields joined by '|' are recovered from the joined text when the first two have none. */
  lemma JoinedSplit(a1: string, b1: string, c1: string, a2: string, b2: string, c2: string)
    requires NoBar(a1) && NoBar(b1) && NoBar(a2) && NoBar(b2)
    requires a1 + "|" + b1 + "|" + c1 == a2 + "|" + b2 + "|" + c2
    ensures a1 == a2 && b1 == b2 && c1 == c2
  {
    assert a1 + "|" + b1 + "|" + c1 == a1 + "|" + (b1 + "|" + c1);
    assert a2 + "|" + b2 + "|" + c2 == a2 + "|" + (b2 + "|" + c2);
    SplitAtChar(a1, a2, b1 + "|" + c1, b2 + "|" + c2, '|');
    SplitAtChar(b1, b2, c1, c2, '|');
  }

  /** Without '|' in any field, equal keys mean equal stripped fields, and conversely. */
  lemma KeyEqualIff(d1: string, c1: string, r1: string, d2: string, c2: string, r2: string)
    requires FieldsWithoutBar(d1, c1, r1) && FieldsWithoutBar(d2, c2, r2)
    ensures Key(d1, c1, r1) == Key(d2, c2, r2) <==>
      Strip(d1) == Strip(d2) && Strip(c1) == Strip(c2) && Strip(r1) == Strip(r2)
  {
    if Key(d1, c1, r1) == Key(d2, c2, r2) {
      StripNoBar(d1); StripNoBar(d2); StripNoBar(c1); StripNoBar(c2);
      JoinedSplit(Strip(d1), Strip(c1), Strip(r1), Strip(d2), Strip(c2), Strip(r2));
    }
  }

  /** A bill is in `ch_lanc` exactly when a Despesa row matches it field by field, barring '|'. */
  lemma PaidKeyIffMatch(monthRows: seq<Txn>, b: Bill)
    requires FieldsWithoutBar(b.desc, b.cat, b.resp)
    requires forall t :: t in monthRows ==> FieldsWithoutBar(t.desc, t.cat, t.resp)
    ensures BillKey(b) in PaidKeys(monthRows) <==> AlreadyPaid(monthRows, b)
  {
    if BillKey(b) in PaidKeys(monthRows) {
      var t :| t in monthRows && t.kind == Despesa && TxnKey(t) == BillKey(b);
      KeyEqualIff(t.desc, t.cat, t.resp, b.desc, b.cat, b.resp);
      assert MatchesBill(t, b);
    }
    if AlreadyPaid(monthRows, b) {
      var t :| t in monthRows && MatchesBill(t, b);
      KeyEqualIff(t.desc, t.cat, t.resp, b.desc, b.cat, b.resp);
      assert TxnKey(t) in PaidKeys(monthRows);
    }
  }

  /** With no '|' in any field, the key-based list and the field-based list agree. */
  lemma PendingAgree(bills: seq<Bill>, monthRows: seq<Txn>)
    requires forall b :: b in bills ==> FieldsWithoutBar(b.desc, b.cat, b.resp)
    requires forall t :: t in monthRows ==> FieldsWithoutBar(t.desc, t.cat, t.resp)
    ensures PendingBills(bills, monthRows) == PendingByFields(bills, monthRows)
  {
    forall i | 0 <= i < |bills|
      ensures (BillKey(bills[i]) !in PaidKeys(monthRows)) == !AlreadyPaid(monthRows, bills[i])
    {
      PaidKeyIffMatch(monthRows, bills[i]);
    }
    FilterExt(bills, b => BillKey(b) !in PaidKeys(monthRows), b => !AlreadyPaid(monthRows, b));
  }

  // The collision: a bill "a" / "b|c" and an expense "a|b" / "c" share a key.
  const CollidingBill: Bill := Bill("a", "b|c", "r", 5)
  const CollidingRow: Txn := Txn(None, "r", Despesa, "a|b", "c", "", Some(-10.0))

  /**
   * A Despesa row of other description and category hides the bill from the
   * pending list, although the payment dialog's own test says it is unpaid.
   */
  lemma KeyCollision(b: Bill, t: Txn)
    requires b == CollidingBill && t == CollidingRow
    ensures BillKey(b) == TxnKey(t) && !MatchesBill(t, b)
    ensures b !in PendingBills([b], [t])
    ensures !AlreadyPaid([t], b)
    ensures b in PendingByFields([b], [t])
  {
    CollidingKeys(b, t);
    CollidingFields(b, t);
    SameKeyHides([b], [t], b, t);
    OnlyRowDoesNotPay(t, b);
    UnpaidPending(b, [t]);
  }

  lemma CollidingKeys(b: Bill, t: Txn)
    requires b == CollidingBill && t == CollidingRow
    ensures t.kind == Despesa && BillKey(b) == TxnKey(t)
  {
    KeyOfStripped(b.desc, b.cat, b.resp);
    KeyOfStripped(t.desc, t.cat, t.resp);
    SameJoin(b.desc, b.cat, b.resp, t.desc, t.cat, t.resp);
  }

  lemma KeyOfStripped(d: string, c: string, r: string)
    requires Stripped(d) && Stripped(c) && Stripped(r)
    ensures Key(d, c, r) == d + "|" + c + "|" + r
  {
    StripOfStripped(d); StripOfStripped(c); StripOfStripped(r);
  }

  lemma SameJoin(d1: string, c1: string, r1: string, d2: string, c2: string, r2: string)
    requires d1 == "a" && c1 == "b|c" && r1 == "r" && d2 == "a|b" && c2 == "c" && r2 == "r"
    ensures d1 + "|" + c1 + "|" + r1 == d2 + "|" + c2 + "|" + r2
  {
    var k1 := d1 + "|" + c1 + "|" + r1;
    var k2 := d2 + "|" + c2 + "|" + r2;
    assert |k1| == 7 == |k2|;
    assert k1[0] == 'a' == k2[0] && k1[1] == '|' == k2[1] && k1[2] == 'b' == k2[2];
    assert k1[3] == '|' == k2[3] && k1[4] == 'c' == k2[4] && k1[5] == '|' == k2[5] && k1[6] == 'r' == k2[6];
  }

  lemma CollidingFields(b: Bill, t: Txn)
    requires b == CollidingBill && t == CollidingRow
    ensures !MatchesBill(t, b)
  {
    assert Stripped(b.desc) && Stripped(t.desc);
    StripOfStripped(b.desc); StripOfStripped(t.desc);
    assert |Strip(t.desc)| != |Strip(b.desc)|;
  }

  lemma UnpaidPending(b: Bill, monthRows: seq<Txn>)
    requires !AlreadyPaid(monthRows, b)
    ensures b in PendingByFields([b], monthRows)
  {
    assert b in [b];
  }

  /** A Despesa row of the month with the bill's key takes the bill off the pending list. */
  lemma SameKeyHides(bills: seq<Bill>, monthRows: seq<Txn>, b: Bill, t: Txn)
    requires t in monthRows && t.kind == Despesa && TxnKey(t) == BillKey(b)
    ensures b !in PendingBills(bills, monthRows)
  {
    assert BillKey(b) in PaidKeys(monthRows);
  }

  lemma OnlyRowDoesNotPay(t: Txn, b: Bill)
    requires !MatchesBill(t, b)
    ensures !AlreadyPaid([t], b)
  {
  }

  // ------------------------------------------------------------ paying

  datatype PayOutcome = Invalid | Duplicate | Posted

  /** `append_row` of the payment: today's date, the bill's fields, and `-|v|` with two decimals. */
  function PaymentRow(b: Bill, v: real, means: string, today: Date): (row: seq<string>)
    requires Valid(today) && today.year >= 0
    ensures |row| == 7 && row[2] == Despesa
  {
    [FormatDMY(today), b.resp, Despesa, b.desc, b.cat, means, Fixed2(-Abs(v))]
  }

  /**
   * The "Confirmar" button: a positive amount and a chosen method are
   * required; a bill some Despesa row already pays is refused; otherwise the
   * payment row is appended to the main sheet.
   */
  method Pay(ws: Worksheet<string>, monthRows: seq<Txn>, b: Bill, v: real, means: string, today: Date)
    returns (outcome: PayOutcome)
    requires Valid(today) && today.year >= 0
    modifies ws
    ensures outcome == Invalid <==> !(v > 0.0 && means != Selecione)
    ensures outcome == Duplicate <==> v > 0.0 && means != Selecione && AlreadyPaid(monthRows, b)
    ensures outcome != Posted ==> ws.rows == old(ws.rows)
    ensures outcome == Posted ==> ws.rows == old(ws.rows) + [PaymentRow(b, v, means, today)]
  {
    if v > 0.0 && means != Selecione {
      var i := 0;
      var paid := false;
      while i < |monthRows|
        invariant 0 <= i <= |monthRows|
        invariant paid <==> AlreadyPaid(monthRows[..i], b)
        invariant ws.rows == old(ws.rows)
      {
        AlreadyPaidStep(monthRows, i, b);
        paid := paid || MatchesBill(monthRows[i], b);
        i := i + 1;
      }
      assert monthRows[..i] == monthRows;
      if paid {
        outcome := Duplicate;
      } else {
        ws.AppendRow(PaymentRow(b, v, means, today));
        outcome := Posted;
      }
    } else {
      outcome := Invalid;
    }
  }

  lemma AlreadyPaidStep(rows: seq<Txn>, i: nat, b: Bill)
    requires i < |rows|
    ensures AlreadyPaid(rows[..i + 1], b) <==> AlreadyPaid(rows[..i], b) || MatchesBill(rows[i], b)
  {
    assert rows[..i + 1] == rows[..i] + [rows[i]];
  }

  /** Reloading the posted row gives today's date. */
  lemma PostedDate(b: Bill, v: real, means: string, today: Date)
    requires Valid(today) && 1000 <= today.year <= 9999
    ensures ToTxn(TextCells(PaymentRow(b, v, means, today))).date == if InStampRange(today) then Some(today) else None
  {
    ToTxnOfTexts(PaymentRow(b, v, means, today));
    ParseDateCellOfFormat(today);
  }

  /** Reloading the posted row gives the amount paid, rounded to cents and negative. */
  lemma PostedDebit(b: Bill, v: real, means: string, today: Date)
    requires Valid(today) && today.year >= 0
    ensures ToTxn(TextCells(PaymentRow(b, v, means, today))).amount == Some(RoundedToCents(-Abs(v)))
  {
    DebitRowReadBack(PaymentRow(b, v, means, today), -Abs(v));
  }

  /** Reloading the posted row gives a Despesa with the bill's fields: the bill is paid. */
  lemma PostedMatches(b: Bill, v: real, means: string, today: Date)
    requires Valid(today) && today.year >= 0
    ensures MatchesBill(ToTxn(TextCells(PaymentRow(b, v, means, today))), b)
  {
    RowMatchesBill(PaymentRow(b, v, means, today), b);
  }

  /** A stored row holding a Despesa with the bill's text fields pays that bill once reloaded. */
  lemma RowMatchesBill(row: seq<string>, b: Bill)
    requires |row| == 7 && row[1] == b.resp && row[2] == Despesa && row[3] == b.desc && row[4] == b.cat
    ensures MatchesBill(ToTxn(TextCells(row)), b)
  {
    FieldsOfTexts(row);
    KindStripped(row[2]);
    StripIdempotent(b.desc); StripIdempotent(b.cat); StripIdempotent(b.resp);
  }

  /**
   * Reloading the posted row gives a Despesa of today, of the amount paid
   * rounded to cents and negative, that pays the bill.
   */
  lemma PostedRowReadBack(b: Bill, v: real, means: string, today: Date)
    requires Valid(today) && 1000 <= today.year <= 9999
    ensures ToTxn(TextCells(PaymentRow(b, v, means, today))).date == if InStampRange(today) then Some(today) else None
    ensures ToTxn(TextCells(PaymentRow(b, v, means, today))).amount == Some(RoundedToCents(-Abs(v)))
    ensures MatchesBill(ToTxn(TextCells(PaymentRow(b, v, means, today))), b)
  {
    PostedDate(b, v, means, today);
    PostedDebit(b, v, means, today);
    PostedMatches(b, v, means, today);
  }

  /** A cent-exact payment is read back exactly, negated. */
  lemma RoundedNegated(v: real)
    requires v > 0.0 && IsCentExact(v)
    ensures RoundedToCents(-Abs(v)) == -v
  {
    CentExactRounding(v);
    assert Cents(-v) == Cents(v);
  }

  /**
   * Once the payment is in the month's rows the bill is no longer pending
   * and a second confirmation is refused as a duplicate.
   */
  lemma PaidBillLeavesPending(bills: seq<Bill>, monthRows: seq<Txn>, b: Bill, v: real, means: string, today: Date)
    requires Valid(today) && 1000 <= today.year <= 9999
    requires ToTxn(TextCells(PaymentRow(b, v, means, today))) in monthRows
    ensures b !in PendingBills(bills, monthRows)
    ensures b !in PendingByFields(bills, monthRows)
    ensures AlreadyPaid(monthRows, b)
  {
    var t := ToTxn(TextCells(PaymentRow(b, v, means, today)));
    PostedMatches(b, v, means, today);
    assert MatchesBill(t, b);
    assert TxnKey(t) == BillKey(b);
    assert TxnKey(t) in PaidKeys(monthRows);
  }
}
