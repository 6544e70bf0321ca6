// The sidebar forms of app.py: a new ledger entry (validated, signed, and
// split into monthly installments when bought on the credit card) and a
// manual balance snapshot of one account.
module Entry {
  import opened Wrappers
  import opened Text
  import opened Dates
  import opened Money
  import opened DateParse
  import opened Ledger
  import opened Store
  import opened Sheets

  /** The values of the "novo_reg" form when it is submitted. */
  datatype Form = Form(
    date: Date,
    resp: string,
    kind: string,
    desc: string,
    cat: string,
    catNew: string,
    means: string,
    meansNew: string,
    val: real,
    parcelas: nat)

  /** `obrig`: a required field left on its placeholder, or a zero amount. */
  predicate Rejected(f: Form) {
    f.resp == Selecione || f.kind == Selecione ||
    (f.cat == Selecione && f.kind != Transferencia) ||
    f.means == Selecione || Abs(f.val) <= 0.0
  }

  /** The category written: the typed one for "Outra", the card-payment one for a transfer. */
  function Category(f: Form): (c: string)
    ensures f.kind == Transferencia ==> c == PagamentoCartao
    ensures f.kind != Transferencia && f.cat != Outra ==> c == f.cat
    ensures f.kind != Transferencia && f.cat == Outra ==> c == Strip(f.catNew)
  {
    if f.kind == Transferencia then PagamentoCartao
    else if f.cat == Outra then Strip(f.catNew) else f.cat
  }

  /** The method written: the typed one for "Outra", a bank transfer for a transfer. */
  function Method(f: Form): (m: string)
    ensures f.kind == Transferencia ==> m == TransferenciaBancaria
    ensures f.kind != Transferencia && f.means != Outra ==> m == f.means
    ensures f.kind != Transferencia && f.means == Outra ==> m == Strip(f.meansNew)
  {
    if f.kind == Transferencia then TransferenciaBancaria
    else if f.means == Outra then Strip(f.meansNew) else f.means
  }

  /** `valor`: the amount as typed for a Receita, its negated magnitude otherwise. */
  function StoredValue(f: Form): (v: real)
    ensures f.kind == Receita ==> v == f.val
    ensures f.kind != Receita ==> v <= 0.0 && Abs(v) == Abs(f.val)
  {
    if f.kind == Receita then f.val else -Abs(f.val)
  }

  /** Installments: credit card, more than one, and not a transfer. */
  predicate Installments(f: Form) {
    Method(f) == CartaoDeCredito && f.parcelas > 1 && f.kind != Transferencia
  }

  /** `v_parc = round(valor / parcelas, 2)`. */
  function Share(f: Form): real
    requires f.parcelas > 0
  {
    RoundedToCents(StoredValue(f) / f.parcelas as real)
  }

  /** `f"{desc} ({i+1}/{parcelas})"`. */
  function InstallmentDesc(desc: string, i: nat, n: nat): string {
    desc + " (" + NatStr(i + 1) + "/" + NatStr(n) + ")"
  }

  /** One record as written: `[data, resp, tipo, desc, categoria, metodo, valor]`. */
  function Record(f: Form, d: Date, desc: string, amount: real): (row: seq<string>)
    requires Valid(d) && d.year >= 0
    ensures |row| == 7
  {
    [FormatDMY(d), f.resp, f.kind, desc, Category(f), Method(f), Fixed2(amount)]
  }

  /** Installment `i`: `i` months after the entry date, numbered `i+1` of `n`, one share. */
  function InstallmentRecord(f: Form, i: nat): (row: seq<string>)
    requires Valid(f.date) && f.date.year >= 0 && f.parcelas > 0
    ensures |row| == 7
  {
    AddMonthsYear(f.date, i);
    Record(f, AddMonths(f.date, i), InstallmentDesc(f.desc, i, f.parcelas), Share(f))
  }

  /** The only record of an entry paid at once. */
  function SingleRecord(f: Form): (row: seq<string>)
    requires Valid(f.date) && f.date.year >= 0
    ensures |row| == 7
  {
    Record(f, f.date, f.desc, StoredValue(f))
  }

  lemma AddMonthsYear(d: Date, k: nat)
    requires Valid(d) && d.year >= 0
    ensures AddMonths(d, k).year >= d.year
  {
  }

  /** The records an accepted form produces, in order. */
  function Records(f: Form): (rs: seq<seq<string>>)
    requires Valid(f.date) && f.date.year >= 0
    ensures Installments(f) ==> |rs| == f.parcelas
    ensures Installments(f) ==> forall i :: 0 <= i < f.parcelas ==> rs[i] == InstallmentRecord(f, i)
    ensures !Installments(f) ==> rs == [SingleRecord(f)]
  {
    if Installments(f) then seq(f.parcelas, i requires 0 <= i < f.parcelas => InstallmentRecord(f, i))
    else [SingleRecord(f)]
  }

  /** `registros`: built by the installment loop, or the single record. */
  method BuildRecords(f: Form) returns (registros: seq<seq<string>>)
    requires Valid(f.date) && f.date.year >= 0
    ensures registros == Records(f)
  {
    registros := [];
    if Installments(f) {
      var i := 0;
      while i < f.parcelas
        invariant 0 <= i <= f.parcelas
        invariant |registros| == i
        invariant forall j :: 0 <= j < i ==> registros[j] == InstallmentRecord(f, j)
      {
        registros := registros + [InstallmentRecord(f, i)];
        i := i + 1;
      }
    } else {
      registros := registros + [SingleRecord(f)];
    }
  }

  /**
   * The "Salvar" button: a rejected form writes nothing; otherwise every
   * record is appended to the main sheet in order.
   */
  method Submit(ws: Worksheet<string>, f: Form) returns (saved: bool)
    requires Valid(f.date) && f.date.year >= 0
    modifies ws
    ensures saved <==> !Rejected(f)
    ensures !saved ==> ws.rows == old(ws.rows)
    ensures saved ==> ws.rows == old(ws.rows) + Records(f)
  {
    if Rejected(f) {
      return false;
    }
    var registros := BuildRecords(f);
    AppendRecords(ws, registros);
    saved := true;
  }

  /** `for r in registros: ws.append_row(r)`. */
  method AppendRecords(ws: Worksheet<string>, registros: seq<seq<string>>)
    modifies ws
    ensures ws.rows == old(ws.rows) + registros
  {
    var k := 0;
    while k < |registros|
      invariant 0 <= k <= |registros|
      invariant ws.rows == old(ws.rows) + registros[..k]
    {
      ws.AppendRow(registros[k]);
      assert registros[..k + 1] == registros[..k] + [registros[k]];
      k := k + 1;
    }
    assert registros[..k] == registros;
  }

  // ------------------------------------------------------------ properties

  /** A transfer is never split and always goes to the card-payment category by bank transfer. */
  lemma TransferIsSingle(f: Form)
    requires Valid(f.date) && f.date.year >= 0
    requires f.kind == Transferencia
    ensures !Installments(f)
    ensures SingleRecord(f)[4] == PagamentoCartao && SingleRecord(f)[5] == TransferenciaBancaria
  {
  }

  /** An accepted entry of any type other than Receita is stored as a strictly negative amount. */
  lemma AcceptedDebitIsNegative(f: Form)
    requires !Rejected(f) && f.kind != Receita
    ensures StoredValue(f) < 0.0
    ensures f.parcelas > 0 ==> Share(f) <= 0.0
  {
    if f.parcelas > 0 {
      RoundedSign(StoredValue(f) / f.parcelas as real);
    }
  }

  /** Rounding to cents moves a value by at most half a cent. */
  lemma RoundedClose(x: real)
    ensures Abs(RoundedToCents(x) - x) <= 0.005
  {
    var n := Cents(x);
    assert n as real - 0.5 <= Abs(x) * 100.0 <= n as real + 0.5;
    assert n as real / 100.0 - 0.005 <= Abs(x) <= n as real / 100.0 + 0.005;
  }

  /** The `n` installments add up to the entered amount, up to half a cent each. */
  lemma InstallmentsAddUp(f: Form)
    requires f.parcelas > 0
    ensures Abs(f.parcelas as real * Share(f) - StoredValue(f)) <= f.parcelas as real * 0.005
  {
    var n := f.parcelas as real;
    RoundedClose(StoredValue(f) / n);
    ScaledError(n, Share(f), StoredValue(f));
  }

  /** An error of at most half a cent in the share is at most `n` half cents over `n` shares. */
  lemma ScaledError(n: real, share: real, total: real)
    requires n > 0.0 && Abs(share - total / n) <= 0.005
    ensures Abs(n * share - total) <= n * 0.005
  {
    var e := share - total / n;
    assert n * share - total == n * e;
    if e >= 0.0 {
      assert n * e <= n * 0.005;
    } else {
      assert n * -e <= n * 0.005;
    }
  }

  /** Installment descriptions are pairwise distinct: "(1/n)", "(2/n)", ... */
  lemma InstallmentDescInjective(desc: string, i: nat, j: nat, n: nat)
    requires InstallmentDesc(desc, i, n) == InstallmentDesc(desc, j, n)
    ensures i == j
  {
    var pre := desc + " (";
    var a, b := NatStr(i + 1), NatStr(j + 1);
    var rest := NatStr(n) + ")";
    assert InstallmentDesc(desc, i, n) == pre + (a + "/" + rest);
    assert InstallmentDesc(desc, j, n) == pre + (b + "/" + rest);
    assert a + "/" + rest == (pre + (a + "/" + rest))[|pre|..];
    assert b + "/" + rest == (pre + (b + "/" + rest))[|pre|..];
    DigitsLack(a, '/');
    DigitsLack(b, '/');
    SplitAtChar(a, b, rest, rest, '/');
    NatStrInjective(i + 1, j + 1);
  }

  lemma DigitsLack(s: string, c: char)
    requires AllDigits(s) && !IsDigit(c)
    ensures Lacks(s, c)
  {
  }

  /**
   * Reloading installment `i` gives a date exactly `i` months after the
   * entry date (clamped to the month's end) and the installment's number.
   */
  lemma InstallmentReadBack(f: Form, i: nat)
    requires Valid(f.date) && f.date.year >= 0 && f.parcelas > 0
    requires 1000 <= AddMonths(f.date, i).year <= 9999
    ensures ToTxn(TextCells(InstallmentRecord(f, i))).date ==
      if InStampRange(AddMonths(f.date, i)) then Some(AddMonths(f.date, i)) else None
    ensures MonthIndex(AddMonths(f.date, i).year, AddMonths(f.date, i).month) == MonthIndex(f.date.year, f.date.month) + i
  {
    ToTxnOfTexts(InstallmentRecord(f, i));
    ParseDateCellOfFormat(AddMonths(f.date, i));
  }

  /** Reloading a single expense or transfer record gives its amount rounded to cents, negative. */
  lemma SingleDebitReadBack(f: Form)
    requires Valid(f.date) && f.date.year >= 0
    requires f.kind == Despesa || f.kind == Transferencia
    ensures ToTxn(TextCells(SingleRecord(f))).amount == Some(RoundedToCents(StoredValue(f)))
  {
    var row := SingleRecord(f);
    assert row[2] == f.kind && row[6] == Fixed2(StoredValue(f));
    DebitRowReadBack(row, StoredValue(f));
  }

  // ------------------------------------------------------------ balance snapshot

  /** The account name: the typed one (stripped) for "Outro", the chosen one otherwise. */
  function AccountName(conta: string, contaNew: string): string {
    if conta == "Outro" then Strip(contaNew) else conta
  }

  /** `[data, "Sistema", "Saldo", nome, "Saldo", nome, valor]`. */
  function SnapshotRow(d: Date, name: string, val: real): (row: seq<string>)
    requires Valid(d) && d.year >= 0
    ensures |row| == 7 && row[2] == Saldo && row[3] == name && row[5] == name
  {
    [FormatDMY(d), "Sistema", Saldo, name, Saldo, name, Fixed2(val)]
  }

  /** The "Salvar saldo" button: an empty account name writes nothing. */
  method RegisterBalance(ws: Worksheet<string>, conta: string, contaNew: string, d: Date, val: real)
    returns (saved: bool)
    requires Valid(d) && d.year >= 0
    modifies ws
    ensures saved <==> AccountName(conta, contaNew) != ""
    ensures !saved ==> ws.rows == old(ws.rows)
    ensures saved ==> ws.rows == old(ws.rows) + [SnapshotRow(d, AccountName(conta, contaNew), val)]
  {
    var name := AccountName(conta, contaNew);
    if name != "" {
      ws.AppendRow(SnapshotRow(d, name, val));
      saved := true;
    } else {
      saved := false;
    }
  }

  /** Reloading a snapshot gives a Saldo row of that day for that account. */
  lemma SnapshotReadBack(d: Date, name: string, val: real)
    requires Valid(d) && 1000 <= d.year <= 9999
    ensures ToTxn(TextCells(SnapshotRow(d, name, val))).date == if InStampRange(d) then Some(d) else None
    ensures ToTxn(TextCells(SnapshotRow(d, name, val))).kind == Saldo
    ensures ToTxn(TextCells(SnapshotRow(d, name, val))).desc == Strip(name)
  {
    var row := SnapshotRow(d, name, val);
    ToTxnOfTexts(row);
    ParseDateCellOfFormat(d);
    KindStripped(row[2]);
  }

  /**
   * As Saldo is not a debit type, the loader keeps only the magnitude of a
   * snapshot's value, rounded to cents.
   */
  lemma SnapshotAmountReadBack(d: Date, name: string, val: real)
    requires Valid(d) && d.year >= 0
    ensures ToTxn(TextCells(SnapshotRow(d, name, val))).amount == Some(Abs(RoundedToCents(val)))
  {
    var row := SnapshotRow(d, name, val);
    ToTxnOfTexts(row);
    KindStripped(row[2]);
    SaldoAmount(row[2], val);
  }

  lemma SaldoAmount(k: string, x: real)
    requires k == Saldo
    ensures AdjustSign(k, ParseDecimal(CleanValue(Fixed2(x)))) == Some(Abs(RoundedToCents(x)))
  {
    Fixed2ReadBack(x);
  }
}
