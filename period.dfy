// period.py: the default reporting month (`_ultimo_mes_existente`) and
// `obter_df_periodo` — the year choices, the month's rows, the opening
// balance taken from the latest balance snapshot of each account, and the
// accrual and cash figures of the month.
module Period {
  import opened Wrappers
  import opened Text
  import opened Seqs
  import opened Dates
  import opened NormText
  import opened Ledger

  /** Every date of the ledger is a real calendar date (pandas holds no other). */
  predicate DatesValid(ledger: seq<Txn>) {
    forall i :: 0 <= i < |ledger| && ledger[i].date.Some? ==> Valid(ledger[i].date.value)
  }

  datatype YearMonth = YearMonth(year: int, month: int)

  function MonthOf(d: Date): YearMonth { YearMonth(d.year, d.month) }

  lemma BeforeTransitive(a: Date, b: Date, c: Date)
    requires Before(a, b) && Before(b, c)
    ensures Before(a, c)
  {
  }

  lemma BeforeTotal(a: Date, b: Date)
    ensures Before(a, b) || a == b || Before(b, a)
  {
  }

  // ---------------------------------------------------------- default month

  /** The dates of the ledger satisfying `p`, in row order. */
  function DatesWhere(ledger: seq<Txn>, p: Date -> bool): (ds: seq<Date>)
    ensures forall k :: 0 <= k < |ds| ==> p(ds[k])
    ensures forall k :: 0 <= k < |ds| ==> exists i :: 0 <= i < |ledger| && ledger[i].date == Some(ds[k])
    ensures forall i :: 0 <= i < |ledger| && ledger[i].date.Some? && p(ledger[i].date.value) ==>
      ledger[i].date.value in ds
    decreases |ledger|
  {
    if ledger == [] then []
    else
      var rest := DatesWhere(ledger[1..], p);
      assert forall k :: 0 <= k < |rest| ==> exists i :: 0 <= i < |ledger| && ledger[i].date == Some(rest[k]) by {
        forall k | 0 <= k < |rest| ensures exists i :: 0 <= i < |ledger| && ledger[i].date == Some(rest[k]) {
          var i :| 0 <= i < |ledger[1..]| && ledger[1..][i].date == Some(rest[k]);
          assert ledger[i + 1].date == Some(rest[k]);
        }
      }
      var d := ledger[0].date;
      if d.Some? && p(d.value) then [d.value] + rest else rest
  }

  /** The latest of a non-empty list of dates (`Series.max()`). */
  function MaxDate(ds: seq<Date>): (m: Date)
    requires |ds| > 0
    ensures m in ds
    ensures forall k :: 0 <= k < |ds| ==> AtMost(ds[k], m)
  {
    if |ds| == 1 then ds[0]
    else
      var rest := MaxDate(ds[1..]);
      assert forall k :: 1 <= k < |ds| ==> ds[k] == ds[1..][k - 1];
      if Before(rest, ds[0]) then ds[0] else rest
  }

  /** The month of the latest date at most `today`, else of the latest date, else today's month. */
  function DefaultMonth(ledger: seq<Txn>, today: Date): (r: YearMonth)
  {
    var past := DatesWhere(ledger, d => AtMost(d, today));
    var all := DatesWhere(ledger, d => true);
    if past != [] then MonthOf(MaxDate(past))
    else if all != [] then MonthOf(MaxDate(all))
    else MonthOf(today)
  }

  /** The row a listed date comes from. */
  lemma DateRow(ledger: seq<Txn>, p: Date -> bool, k: nat) returns (i: nat)
    requires k < |DatesWhere(ledger, p)|
    ensures i < |ledger| && ledger[i].date == Some(DatesWhere(ledger, p)[k])
  {
    var ds := DatesWhere(ledger, p);
    i :| 0 <= i < |ledger| && ledger[i].date == Some(ds[k]);
  }

  /** The latest listed date comes from a row and bounds every listed row's date. */
  lemma MaxDateRow(ledger: seq<Txn>, p: Date -> bool) returns (i: nat)
    requires DatesWhere(ledger, p) != []
    ensures i < |ledger| && ledger[i].date == Some(MaxDate(DatesWhere(ledger, p)))
    ensures forall j :: 0 <= j < |ledger| && ledger[j].date.Some? && p(ledger[j].date.value) ==>
      AtMost(ledger[j].date.value, ledger[i].date.value)
  {
    var ds := DatesWhere(ledger, p);
    var m := MaxDate(ds);
    var k :| 0 <= k < |ds| && ds[k] == m;
    i := DateRow(ledger, p, k);
    forall j | 0 <= j < |ledger| && ledger[j].date.Some? && p(ledger[j].date.value)
      ensures AtMost(ledger[j].date.value, m)
    {
      var kj :| 0 <= kj < |ds| && ds[kj] == ledger[j].date.value;
    }
  }

  /** The default month is always a calendar month. */
  lemma DefaultMonthInRange(ledger: seq<Txn>, today: Date)
    requires DatesValid(ledger) && Valid(today)
    ensures 1 <= DefaultMonth(ledger, today).month <= 12
  {
    var pp := (d: Date) => AtMost(d, today);
    var pa := (d: Date) => true;
    if DatesWhere(ledger, pp) != [] {
      var i := MaxDateRow(ledger, pp);
    } else if DatesWhere(ledger, pa) != [] {
      var i := MaxDateRow(ledger, pa);
    }
  }

  /** With a row dated at most today, the default is the month of the latest such row. */
  lemma DefaultMonthLatestPast(ledger: seq<Txn>, today: Date, i0: nat)
    requires i0 < |ledger| && ledger[i0].date.Some? && AtMost(ledger[i0].date.value, today)
    ensures exists i :: (0 <= i < |ledger| && ledger[i].date.Some? && AtMost(ledger[i].date.value, today)
      && MonthOf(ledger[i].date.value) == DefaultMonth(ledger, today)
      && forall j :: 0 <= j < |ledger| && ledger[j].date.Some? && AtMost(ledger[j].date.value, today) ==>
           AtMost(ledger[j].date.value, ledger[i].date.value))
  {
    var pp := (d: Date) => AtMost(d, today);
    assert pp(ledger[i0].date.value);
    assert ledger[i0].date.value in DatesWhere(ledger, pp);
    var i := MaxDateRow(ledger, pp);
    assert pp(ledger[i].date.value);
  }

  /** With every date in the future, the default is the month of the latest date. */
  lemma DefaultMonthLatestFuture(ledger: seq<Txn>, today: Date, i0: nat)
    requires forall i :: 0 <= i < |ledger| && ledger[i].date.Some? ==> !AtMost(ledger[i].date.value, today)
    requires i0 < |ledger| && ledger[i0].date.Some?
    ensures exists i :: (0 <= i < |ledger| && ledger[i].date.Some?
      && MonthOf(ledger[i].date.value) == DefaultMonth(ledger, today)
      && forall j :: 0 <= j < |ledger| && ledger[j].date.Some? ==> AtMost(ledger[j].date.value, ledger[i].date.value))
  {
    var pp := (d: Date) => AtMost(d, today);
    var pa := (d: Date) => true;
    if DatesWhere(ledger, pp) != [] {
      var i := DateRow(ledger, pp, 0);
      assert false;
    }
    assert pa(ledger[i0].date.value);
    assert ledger[i0].date.value in DatesWhere(ledger, pa);
    var i := MaxDateRow(ledger, pa);
  }

  /** Without any date, the default is today's month. */
  lemma DefaultMonthNoDates(ledger: seq<Txn>, today: Date)
    requires forall i :: 0 <= i < |ledger| ==> ledger[i].date.None?
    ensures DefaultMonth(ledger, today) == MonthOf(today)
  {
    var pp := (d: Date) => AtMost(d, today);
    var pa := (d: Date) => true;
    if DatesWhere(ledger, pp) != [] {
      var i := DateRow(ledger, pp, 0);
      assert false;
    }
    if DatesWhere(ledger, pa) != [] {
      var i := DateRow(ledger, pa, 0);
      assert false;
    }
  }

  // ------------------------------------------------------------ year choices

  predicate StrictlyDecreasing(xs: seq<int>) {
    forall i, j :: 0 <= i < j < |xs| ==> xs[i] > xs[j]
  }

  /** `y` put into its place in a strictly decreasing list, unless already there. */
  function InsertDesc(xs: seq<int>, y: int): (r: seq<int>)
    requires StrictlyDecreasing(xs)
    ensures StrictlyDecreasing(r)
    ensures forall z :: z in r <==> z in xs || z == y
  {
    if xs == [] then [y]
    else if y == xs[0] then xs
    else if y > xs[0] then [y] + xs
    else
      var rest := InsertDesc(xs[1..], y);
      assert forall z :: z in xs <==> z == xs[0] || z in xs[1..];
      assert forall k :: 0 <= k < |rest| ==> rest[k] < xs[0] by {
        forall k | 0 <= k < |rest| ensures rest[k] < xs[0] {
          assert rest[k] in rest;
          if rest[k] != y {
            var j :| 0 <= j < |xs[1..]| && xs[1..][j] == rest[k];
            assert xs[j + 1] == rest[k];
          }
        }
      }
      var r := [xs[0]] + rest;
      assert forall i, j :: 0 <= i < j < |r| ==> r[i] > r[j] by {
        forall i, j | 0 <= i < j < |r| ensures r[i] > r[j] {
          assert r[j] == rest[j - 1];
          if i > 0 { assert r[i] == rest[i - 1]; }
        }
      }
      r
  }

  /** Whether some dated row falls in year `y`. */
  predicate IsDataYear(ledger: seq<Txn>, y: int) {
    exists i :: 0 <= i < |ledger| && ledger[i].date.Some? && ledger[i].date.value.year == y
  }

  /** `sorted(years.unique(), reverse=True)`: the distinct years of the dated rows, newest first. */
  function YearsDesc(ledger: seq<Txn>): (r: seq<int>)
    ensures StrictlyDecreasing(r)
    ensures forall y :: y in r <==> IsDataYear(ledger, y)
    decreases |ledger|
  {
    if ledger == [] then []
    else
      var rest := YearsDesc(ledger[1..]);
      assert forall y :: IsDataYear(ledger, y) <==>
        (ledger[0].date.Some? && ledger[0].date.value.year == y) || IsDataYear(ledger[1..], y) by {
        forall y ensures IsDataYear(ledger, y) ==>
          (ledger[0].date.Some? && ledger[0].date.value.year == y) || IsDataYear(ledger[1..], y)
        {
          if IsDataYear(ledger, y) {
            var i :| 0 <= i < |ledger| && ledger[i].date.Some? && ledger[i].date.value.year == y;
            if i > 0 { assert ledger[1..][i - 1] == ledger[i]; }
          }
        }
        forall y | IsDataYear(ledger[1..], y) ensures IsDataYear(ledger, y) {
          var i :| 0 <= i < |ledger[1..]| && ledger[1..][i].date.Some? && ledger[1..][i].date.value.year == y;
          assert ledger[i + 1] == ledger[1..][i];
        }
      }
      if ledger[0].date.Some? then InsertDesc(rest, ledger[0].date.value.year) else rest
  }

  /**
   * `anos_existentes`: the data years newest first, with the default year put
   * in front when no row has it. The list is never empty and has no repeats.
   */
  function YearChoices(ledger: seq<Txn>, defaultYear: int): (r: seq<int>)
    ensures |r| >= 1 && defaultYear in r
    ensures forall y :: y in r <==> y == defaultYear || IsDataYear(ledger, y)
    ensures forall i, j :: 0 <= i < j < |r| ==> r[i] != r[j]
    ensures IsDataYear(ledger, defaultYear) ==> StrictlyDecreasing(r)
    ensures !IsDataYear(ledger, defaultYear) ==> r[0] == defaultYear && StrictlyDecreasing(r[1..])
  {
    var ys := YearsDesc(ledger);
    if defaultYear in ys then ys
    else
      assert [defaultYear] + ys == [defaultYear] + ys && ([defaultYear] + ys)[1..] == ys;
      [defaultYear] + ys
  }

  // ---------------------------------------------------------- month filter

  /** The row is dated in month `m` of year `y`; a NaT date is in no month. */
  predicate InMonth(t: Txn, y: int, m: int) {
    t.date.Some? && t.date.value.year == y && t.date.value.month == m
  }

  /** `dfm`: the rows of month `m` of year `y`, in ledger order. */
  function MonthRows(ledger: seq<Txn>, y: int, m: int): (rows: seq<Txn>)
    ensures forall k :: 0 <= k < |rows| ==> rows[k] in ledger && InMonth(rows[k], y, m)
    ensures forall i :: 0 <= i < |ledger| && InMonth(ledger[i], y, m) ==> ledger[i] in rows
    ensures forall k :: 0 <= k < |rows| ==> rows[k].date.Some?
  {
    Filter(ledger, (t: Txn) => InMonth(t, y, m))
  }

  /** The rows of one type (`df[df["Tipo"] == kind]`). */
  function OfKind(rows: seq<Txn>, kind: string): (r: seq<Txn>)
    ensures forall k :: 0 <= k < |r| ==> r[k] in rows && r[k].kind == kind
    ensures forall i :: 0 <= i < |rows| && rows[i].kind == kind ==> rows[i] in r
  {
    Filter(rows, (t: Txn) => t.kind == kind)
  }

  // --------------------------------------------------------- opening balance

  /** A balance snapshot as the opening balance sees it: account key, date, amount (NaN read as 0). */
  datatype Snap = Snap(account: string, date: Date, amount: real)

  /** A `Saldo` row dated strictly before the first day of the month. */
  predicate IsPriorSnapshot(t: Txn, y: int, m: int)
    requires 1 <= m <= 12
  {
    t.kind == Saldo && t.date.Some? && Before(t.date.value, FirstDay(y, m))
  }

  /** `prev` with its `__cta` column: the prior snapshots keyed by `_norm_txt(Descrição)`. */
  function PriorSnapshots(ledger: seq<Txn>, y: int, m: int): (snaps: seq<Snap>)
    requires 1 <= m <= 12
    ensures |snaps| <= |ledger|
    decreases |ledger|
  {
    if ledger == [] then []
    else
      var t := ledger[0];
      (if IsPriorSnapshot(t, y, m) then [Snap(NormSeries(Some(t.desc)), t.date.value, AmountOr0(t))] else [])
      + PriorSnapshots(ledger[1..], y, m)
  }

  /** Snapshot `i` is its account's latest: every other snapshot of the account is earlier, or as recent and before it. */
  predicate IsLatestAt(snaps: seq<Snap>, i: nat)
    requires i < |snaps|
  {
    forall j :: 0 <= j < |snaps| && snaps[j].account == snaps[i].account ==>
      Before(snaps[j].date, snaps[i].date) || (snaps[j].date == snaps[i].date && j <= i)
  }

  predicate HasAccount(ws: seq<Snap>, a: string) {
    exists k :: 0 <= k < |ws| && ws[k].account == a
  }

  predicate DistinctAccounts(ws: seq<Snap>) {
    forall k, l :: 0 <= k < l < |ws| ==> ws[k].account != ws[l].account
  }

  /** Snapshot `w` is the latest snapshot of its account among `snaps`. */
  predicate LatestIn(snaps: seq<Snap>, w: Snap) {
    exists i :: 0 <= i < |snaps| && snaps[i] == w && IsLatestAt(snaps, i)
  }

  /** `ws` holds the latest snapshot of every account of `snaps`, once each. */
  predicate LatestPerAccount(snaps: seq<Snap>, ws: seq<Snap>) {
    DistinctAccounts(ws)
    && (forall j :: 0 <= j < |snaps| ==> HasAccount(ws, snaps[j].account))
    && (forall k :: 0 <= k < |ws| ==> LatestIn(snaps, ws[k]))
  }

  /** The snapshot `s`, seen after the ones behind `ws`, replaces its account's entry unless that is more recent. */
  function Upsert(ws: seq<Snap>, s: Snap): (r: seq<Snap>)
    decreases |ws|
  {
    if ws == [] then [s]
    else if ws[0].account == s.account then (if Before(s.date, ws[0].date) then ws else [s] + ws[1..])
    else [ws[0]] + Upsert(ws[1..], s)
  }

  /** The first entry of account `a`. */
  function AccountIndex(ws: seq<Snap>, a: string): (k: Option<nat>)
    ensures k.Some? ==> k.value < |ws| && ws[k.value].account == a
    ensures k.None? ==> !HasAccount(ws, a)
  {
    if ws == [] then None
    else if ws[0].account == a then Some(0)
    else match AccountIndex(ws[1..], a)
      case None => None
      case Some(k) => Some(k + 1)
  }

  /** `Upsert` acts on the first entry of the account, or appends when there is none. */
  lemma {:induction false} UpsertShape(ws: seq<Snap>, s: Snap)
    ensures AccountIndex(ws, s.account).None? ==> Upsert(ws, s) == ws + [s]
    ensures AccountIndex(ws, s.account).Some? ==>
      var k := AccountIndex(ws, s.account).value;
      Upsert(ws, s) == if Before(s.date, ws[k].date) then ws else ws[k := s]
    decreases |ws|
  {
    if ws != [] && ws[0].account != s.account {
      var tl := ws[1..];
      UpsertShape(tl, s);
      assert Upsert(ws, s) == [ws[0]] + Upsert(tl, s);
      match AccountIndex(tl, s.account)
      case None =>
        assert [ws[0]] + (tl + [s]) == ws + [s];
      case Some(k) =>
        assert AccountIndex(ws, s.account) == Some(k + 1);
        assert [ws[0]] + tl == ws;
        assert [ws[0]] + tl[k := s] == ws[k + 1 := s];
    }
  }

  /** The snapshots seen so far, each account kept at its latest (the sort, group and `tail(1)`). */
  function Latest(snaps: seq<Snap>): seq<Snap>
    decreases |snaps|
  {
    if snaps == [] then [] else Upsert(Latest(snaps[..|snaps| - 1]), snaps[|snaps| - 1])
  }

  /** A snapshot that stays latest when a later one of another account, or an older one, arrives. */
  lemma StaysLatest(snaps: seq<Snap>, s: Snap, i: nat)
    requires i < |snaps| && IsLatestAt(snaps, i)
    requires s.account != snaps[i].account || Before(s.date, snaps[i].date)
    ensures IsLatestAt(snaps + [s], i)
  {
    var t := snaps + [s];
    forall j | 0 <= j < |t| && t[j].account == t[i].account
      ensures Before(t[j].date, t[i].date) || (t[j].date == t[i].date && j <= i)
    {
      if j < |snaps| { assert t[j] == snaps[j]; }
    }
  }

  /** The newest arrival is latest when every earlier snapshot of its account is at most as recent. */
  lemma NewestLatest(snaps: seq<Snap>, s: Snap)
    requires forall j :: 0 <= j < |snaps| && snaps[j].account == s.account ==> AtMost(snaps[j].date, s.date)
    ensures IsLatestAt(snaps + [s], |snaps|)
  {
    var t := snaps + [s];
    forall j | 0 <= j < |t| && t[j].account == t[|snaps|].account
      ensures Before(t[j].date, t[|snaps|].date) || (t[j].date == t[|snaps|].date && j <= |snaps|)
    {
      if j < |snaps| { assert t[j] == snaps[j]; }
    }
  }

  lemma LatestInExtend(snaps: seq<Snap>, s: Snap, w: Snap)
    requires LatestIn(snaps, w)
    requires s.account != w.account || Before(s.date, w.date)
    ensures LatestIn(snaps + [s], w)
  {
    var i :| 0 <= i < |snaps| && snaps[i] == w && IsLatestAt(snaps, i);
    StaysLatest(snaps, s, i);
    assert (snaps + [s])[i] == w;
  }

  /** Dates of the same account as a latest snapshot are at most its date. */
  lemma LatestBounds(snaps: seq<Snap>, w: Snap, j: nat)
    requires LatestIn(snaps, w) && j < |snaps| && snaps[j].account == w.account
    ensures AtMost(snaps[j].date, w.date)
  {
    var i :| 0 <= i < |snaps| && snaps[i] == w && IsLatestAt(snaps, i);
  }

  /** No entry of another account is touched, and the new entry gets the account's place. */
  lemma UpsertStep(snaps: seq<Snap>, ws: seq<Snap>, s: Snap)
    requires LatestPerAccount(snaps, ws)
    ensures LatestPerAccount(snaps + [s], Upsert(ws, s))
  {
    UpsertShape(ws, s);
    match AccountIndex(ws, s.account)
    case None =>
      UpsertAppends(snaps, ws, s);
    case Some(k0) =>
      if Before(s.date, ws[k0].date) {
        UpsertOlder(snaps, ws, s, k0);
      } else {
        UpsertReplaces(snaps, ws, s, k0);
      }
  }

  /** A snapshot of an account not seen yet is appended as its latest. */
  lemma UpsertAppends(snaps: seq<Snap>, ws: seq<Snap>, s: Snap)
    requires LatestPerAccount(snaps, ws) && !HasAccount(ws, s.account)
    ensures LatestPerAccount(snaps + [s], ws + [s])
  {
    var t := snaps + [s];
    var r := ws + [s];
    forall k | 0 <= k < |r| ensures LatestIn(t, r[k]) {
      if k < |ws| {
        assert r[k] == ws[k];
        LatestInExtend(snaps, s, ws[k]);
      } else {
        forall j | 0 <= j < |snaps| ensures snaps[j].account != s.account {
          assert HasAccount(ws, snaps[j].account);
        }
        NewestLatest(snaps, s);
        assert t[|snaps|] == s;
      }
    }
    forall j | 0 <= j < |t| ensures HasAccount(r, t[j].account) {
      if j < |snaps| {
        assert t[j] == snaps[j];
        var k :| 0 <= k < |ws| && ws[k].account == snaps[j].account;
        assert r[k] == ws[k];
      } else {
        assert r[|ws|] == s;
      }
    }
    assert DistinctAccounts(r) by {
      forall k, l | 0 <= k < l < |r| ensures r[k].account != r[l].account {
        if l == |ws| {
          assert r[k] == ws[k] && r[l] == s;
          assert ws[k].account != s.account;
        } else {
          assert r[k] == ws[k] && r[l] == ws[l];
        }
      }
    }
  }

  /** A snapshot older than its account's latest changes nothing. */
  lemma UpsertOlder(snaps: seq<Snap>, ws: seq<Snap>, s: Snap, k0: nat)
    requires LatestPerAccount(snaps, ws)
    requires k0 < |ws| && ws[k0].account == s.account && Before(s.date, ws[k0].date)
    ensures LatestPerAccount(snaps + [s], ws)
  {
    var t := snaps + [s];
    forall k | 0 <= k < |ws| ensures LatestIn(t, ws[k]) {
      LatestInExtend(snaps, s, ws[k]);
    }
    forall j | 0 <= j < |t| ensures HasAccount(ws, t[j].account) {
      if j < |snaps| { assert t[j] == snaps[j]; } else { assert ws[k0].account == s.account; }
    }
  }

  /** A snapshot at least as recent as its account's latest takes that entry's place. */
  lemma UpsertReplaces(snaps: seq<Snap>, ws: seq<Snap>, s: Snap, k0: nat)
    requires LatestPerAccount(snaps, ws)
    requires k0 < |ws| && ws[k0].account == s.account && !Before(s.date, ws[k0].date)
    ensures LatestPerAccount(snaps + [s], ws[k0 := s])
  {
    var t := snaps + [s];
    var r := ws[k0 := s];
    var w := ws[k0];
    forall k | 0 <= k < |r| ensures LatestIn(t, r[k]) {
      if k != k0 {
        assert r[k] == ws[k];
        LatestInExtend(snaps, s, ws[k]);
      } else {
        forall j | 0 <= j < |snaps| && snaps[j].account == s.account ensures AtMost(snaps[j].date, s.date) {
          LatestBounds(snaps, w, j);
          BeforeTotal(s.date, w.date);
          if Before(snaps[j].date, w.date) && Before(w.date, s.date) {
            BeforeTransitive(snaps[j].date, w.date, s.date);
          }
        }
        NewestLatest(snaps, s);
        assert t[|snaps|] == s;
      }
    }
    forall j | 0 <= j < |t| ensures HasAccount(r, t[j].account) {
      if j < |snaps| {
        assert t[j] == snaps[j];
        var k :| 0 <= k < |ws| && ws[k].account == snaps[j].account;
        if k == k0 { assert r[k0].account == s.account; } else { assert r[k] == ws[k]; }
      } else {
        assert r[k0] == s;
      }
    }
    assert DistinctAccounts(r) by {
      forall k, l | 0 <= k < l < |r| ensures r[k].account != r[l].account {
        assert ws[k].account != ws[l].account;
      }
    }
  }

  /** `Latest` keeps exactly one snapshot per account, its latest, ties going to the later row. */
  lemma {:induction false} LatestIsLatestPerAccount(snaps: seq<Snap>)
    ensures LatestPerAccount(snaps, Latest(snaps))
    decreases |snaps|
  {
    if snaps != [] {
      var p := snaps[..|snaps| - 1];
      LatestIsLatestPerAccount(p);
      UpsertStep(p, Latest(p), snaps[|snaps| - 1]);
      assert p + [snaps[|snaps| - 1]] == snaps;
    }
  }

  function SnapAmount(s: Snap): real { s.amount }

  /** `saldo_inicial`: the sum of the latest prior snapshot of each account (0.0 without one). */
  function OpeningBalance(ledger: seq<Txn>, y: int, m: int): real
    requires 1 <= m <= 12
  {
    Sum(Latest(PriorSnapshots(ledger, y, m)), SnapAmount)
  }

  /** The snapshots summed into the opening balance are one per account, each its account's latest. */
  lemma OpeningBalanceSumsLatest(ledger: seq<Txn>, y: int, m: int)
    requires 1 <= m <= 12
    ensures LatestPerAccount(PriorSnapshots(ledger, y, m), Latest(PriorSnapshots(ledger, y, m)))
    ensures OpeningBalance(ledger, y, m) == Sum(Latest(PriorSnapshots(ledger, y, m)), SnapAmount)
  {
    LatestIsLatestPerAccount(PriorSnapshots(ledger, y, m));
  }

  /** Without a `Saldo` row dated before the month the opening balance is 0. */
  lemma {:induction false} NoPriorSnapshots(ledger: seq<Txn>, y: int, m: int)
    requires 1 <= m <= 12
    requires forall i :: 0 <= i < |ledger| ==> !IsPriorSnapshot(ledger[i], y, m)
    ensures PriorSnapshots(ledger, y, m) == []
    ensures OpeningBalance(ledger, y, m) == 0.0
    decreases |ledger|
  {
    if ledger != [] {
      assert forall i :: 0 <= i < |ledger[1..]| ==> ledger[1..][i] == ledger[i + 1];
      NoPriorSnapshots(ledger[1..], y, m);
    }
  }

  /**
   * Two snapshots of one account, the second more recent: only the second
   * counts, whatever order they come in.
   */
  lemma LaterSnapshotWins(a: Snap, b: Snap)
    requires a.account == b.account && Before(a.date, b.date)
    ensures Sum(Latest([a, b]), SnapAmount) == b.amount
    ensures Sum(Latest([b, a]), SnapAmount) == b.amount
  {
    assert [a, b][..1] == [a];
    assert [b, a][..1] == [b];
    assert Latest([a]) == [a];
    assert Latest([b]) == [b];
  }

  // ----------------------------------------------------------- the figures

  /** The figures `obter_df_periodo` returns for a month. */
  datatype Figures = Figures(
    opening: real,        // saldo_inicial
    income: real,         // df_rec["Valor"].sum()
    expense: real,        // df_desp["Valor"].abs().sum()
    result: real,         // saldo_periodo
    closing: real,        // saldo_final
    outCC: real,          // out_cc
    cashVariation: real,  // variacao_caixa
    closingCash: real)    // saldo_final_caixa

  /** A transfer that pays a credit-card bill. */
  predicate IsCardPayment(t: Txn) {
    t.kind == Transferencia && Strip(t.cat) == PagamentoCartao
  }

  /** `out_cc`: what left the accounts to pay card bills in the month. */
  function CardCashOut(ledger: seq<Txn>, y: int, m: int): (r: real)
    ensures r >= 0.0
  {
    var rows := Filter(ledger, (t: Txn) => IsCardPayment(t) && InMonth(t, y, m));
    SumNonNegative(rows, Magnitude);
    Sum(rows, Magnitude)
  }

  /** Income of the month minus the magnitude of its expenses. */
  function PeriodResult(rows: seq<Txn>): real {
    Sum(OfKind(rows, Receita), AmountOr0) - Sum(OfKind(rows, Despesa), Magnitude)
  }

  function PeriodFigures(ledger: seq<Txn>, y: int, m: int): (f: Figures)
    requires 1 <= m <= 12
    ensures f.closing - f.closingCash == f.outCC
    ensures f.outCC >= 0.0 && f.expense >= 0.0
    ensures f.closingCash <= f.closing
  {
    var dfm := MonthRows(ledger, y, m);
    var opening := OpeningBalance(ledger, y, m);
    var income := Sum(OfKind(dfm, Receita), AmountOr0);
    SumNonNegative(OfKind(dfm, Despesa), Magnitude);
    var expense := Sum(OfKind(dfm, Despesa), Magnitude);
    var result := income - expense;
    var outCC := CardCashOut(ledger, y, m);
    var variation := result - outCC;
    Figures(opening, income, expense, result, opening + result, outCC, variation, opening + variation)
  }

  /** The accrual view: closing = opening + income − expenses, with the result that of the month's rows. */
  lemma FiguresAccrual(ledger: seq<Txn>, y: int, m: int)
    requires 1 <= m <= 12
    ensures PeriodFigures(ledger, y, m).result == PeriodResult(MonthRows(ledger, y, m))
    ensures PeriodFigures(ledger, y, m).result == PeriodFigures(ledger, y, m).income - PeriodFigures(ledger, y, m).expense
    ensures PeriodFigures(ledger, y, m).closing == PeriodFigures(ledger, y, m).opening + PeriodFigures(ledger, y, m).result
    ensures PeriodFigures(ledger, y, m).closingCash
      == PeriodFigures(ledger, y, m).opening + PeriodFigures(ledger, y, m).result - PeriodFigures(ledger, y, m).outCC
  {
  }

  /** Rows that are neither income nor expense (transfers, snapshots) leave the period result alone. */
  lemma ResultIgnoresOtherKinds(rows: seq<Txn>, t: Txn)
    requires t.kind != Receita && t.kind != Despesa
    ensures PeriodResult(rows + [t]) == PeriodResult(rows)
  {
    OfKindAppend(rows, [t], Receita);
    OfKindAppend(rows, [t], Despesa);
    assert OfKind([t], Receita) == [] && OfKind([t], Despesa) == [];
    assert OfKind(rows, Receita) + [] == OfKind(rows, Receita);
    assert OfKind(rows, Despesa) + [] == OfKind(rows, Despesa);
  }

  lemma OfKindAppend(a: seq<Txn>, b: seq<Txn>, kind: string)
    ensures OfKind(a + b, kind) == OfKind(a, kind) + OfKind(b, kind)
  {
    FilterAppend(a, b, (t: Txn) => t.kind == kind);
  }

  /** Income rows that carry their sign make a non-negative income. */
  lemma IncomeNonNegative(rows: seq<Txn>)
    requires forall i :: 0 <= i < |rows| ==> SignedByType(rows[i].kind, rows[i].amount)
    ensures Sum(OfKind(rows, Receita), AmountOr0) >= 0.0
  {
    var inc := OfKind(rows, Receita);
    forall k | 0 <= k < |inc| ensures AmountOr0(inc[k]) >= 0.0 {
      var i :| 0 <= i < |rows| && rows[i] == inc[k];
      assert !IsDebitKind(Receita);
    }
    SumNonNegative(inc, AmountOr0);
  }

  // ----------------------------------------------------------------- label

  /** `f"{sel_mes:02d}/{sel_ano}"`. */
  function PeriodLabel(y: nat, m: int): (s: string)
    requires 1 <= m <= 12
    ensures |s| >= 4 && s[2] == '/'
  {
    Pad2(m) + "/" + NatStr(y)
  }

  /** A label names exactly one month. */
  lemma PeriodLabelInjective(y1: nat, m1: int, y2: nat, m2: int)
    requires 1 <= m1 <= 12 && 1 <= m2 <= 12
    requires PeriodLabel(y1, m1) == PeriodLabel(y2, m2)
    ensures y1 == y2 && m1 == m2
  {
    var a, b := PeriodLabel(y1, m1), PeriodLabel(y2, m2);
    assert a[..2] == Pad2(m1) && b[..2] == Pad2(m2);
    Pad2Injective(m1, m2);
    assert a[3..] == NatStr(y1) && b[3..] == NatStr(y2);
    NatStrInjective(y1, y2);
  }
}
