// The ledger record: one row of the main sheet after loading, with its seven
// canonical columns (Data, Responsável, Tipo, Descrição, Categoria, Método de
// Pagamento/Recebimento, Valor), and `_ajusta_sinal` of utils.py, which
// forces the sign of an amount from the row's type.
module Ledger {
  import opened Wrappers
  import opened Dates
  import opened Money
  import opened Text

  /** A loaded row; `None` is a NaT date or a NaN amount. */
  datatype Txn = Txn(
    date: Option<Date>,
    resp: string,
    kind: string,
    desc: string,
    cat: string,
    means: string,
    amount: Option<real>)

  // The row types of constants.py:11 plus the balance snapshot type.
  const Despesa: string := "Despesa"
  const Receita: string := "Receita"
  const Transferencia: string := "Transfer\U{EA}ncia"
  const Saldo: string := "Saldo"

  /** The category reserved for credit-card bill payments. */
  const PagamentoCartao: string := "Pagamento Cart\U{E3}o"
  const CartaoDeCredito: string := "Cart\U{E3}o de Cr\U{E9}dito"
  const TransferenciaBancaria: string := "Transfer\U{EA}ncia Banc\U{E1}ria"
  /** The placeholder of every select box. */
  const Selecione: string := "Selecione\U{2026}"
  const Outra: string := "Outra"

  /** The type names carry no surrounding whitespace, so `strip` keeps them. */
  lemma KindStripped(k: string)
    requires k == Despesa || k == Receita || k == Transferencia || k == Saldo
    ensures Strip(k) == k
  {
    assert Stripped(k);
    StripOfStripped(k);
  }

  /** Types whose amounts are money going out. */
  predicate IsDebitKind(kind: string) { kind == Despesa || kind == Transferencia }

  /** The sign convention: debits are never positive, everything else never negative. */
  predicate SignedByType(kind: string, v: Option<real>) {
    v.None? || (if IsDebitKind(kind) then v.value <= 0.0 else v.value >= 0.0)
  }

  /** `_ajusta_sinal`: `-|v|` for Despesa and Transferência, `|v|` otherwise; NaN stays NaN. */
  function AdjustSign(kind: string, v: Option<real>): (r: Option<real>)
    ensures r.None? <==> v.None?
    ensures r.Some? ==> Abs(r.value) == Abs(v.value)
    ensures SignedByType(kind, r)
  {
    match v
    case None => None
    case Some(x) => Some(if IsDebitKind(kind) then -Abs(x) else Abs(x))
  }

  /** An amount that already has the sign of its type is left alone. */
  lemma AdjustSignOfSigned(kind: string, v: Option<real>)
    requires SignedByType(kind, v)
    ensures AdjustSign(kind, v) == v
  {
  }

  /** `_ajusta_sinal` is idempotent. */
  lemma AdjustSignIdempotent(kind: string, v: Option<real>)
    ensures AdjustSign(kind, AdjustSign(kind, v)) == AdjustSign(kind, v)
  {
    AdjustSignOfSigned(kind, AdjustSign(kind, v));
  }

  /** A row's amount with NaN read as 0, as pandas' `sum` skips it. */
  function AmountOr0(t: Txn): real { t.amount.GetOr(0.0) }

  /** `|amount|` with NaN read as 0 (`.abs().sum()`). */
  function Magnitude(t: Txn): (r: real)
    ensures r >= 0.0
  {
    Abs(AmountOr0(t))
  }

  /** A non-positive amount written with two decimals reads back, under a debit type, rounded to cents. */
  lemma DebitAmountReadBack(k: string, x: real)
    requires IsDebitKind(k) && x <= 0.0
    ensures AdjustSign(k, ParseDecimal(CleanValue(Fixed2(x)))) == Some(RoundedToCents(x))
  {
    Fixed2ReadBack(x);
    RoundedSign(x);
  }
}
