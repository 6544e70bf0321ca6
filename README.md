# Personal-finance ledger: period accounting and normalisation, in Dafny

This project models the core of a personal-finance dashboard. The dashboard
keeps a household ledger in a spreadsheet: one row per transaction, with
seven columns (Data, Responsável, Tipo, Descrição, Categoria, Método de
Pagamento/Recebimento, Valor). The model covers the following parts, and
proves properties of each:

- **Loading the ledger** (`sheets.py`, module `Sheets`). The app looks for a
  header row among the first 300 rows by a synonym score. Without one, it
  falls back to a positional seven-column layout. It then renames synonym
  columns to the canonical ones, drops all-blank rows, cleans pt-BR money
  text, parses dates and forces the sign of each amount from its type. A
  header in which two columns get the same base name, or a serial date past
  pandas' `Timedelta` bound, makes the load fail. `_load` as written signs
  each amount before it strips the `Tipo` cell; that is
  `Sheets.LoadAsWritten`. The rest of the model reads rows through the
  corrected load, which strips first (see ## Findings). The recurring bills'
  `Dia` column, `load_plan_df` and the row addressing of `salvar_plan` are
  modelled too. The sheet itself is the class `Store.Worksheet`, a sequence
  of rows with `append_row`, `update` and `clear` as methods.
- **The normalisers** (`utils.py`):
  - `fmt_currency`, `money_input` and `_money_to_float` (module `Money`);
  - `_norm_txt` (module `NormText`);
  - `parse_data_col` (module `DateParse`, a method whose loop overwrites the
    serial cells one by one);
  - `_ajusta_sinal` (module `Ledger`).
- **Period selection and balances** (`period.py`, module `Period`):
  - the default month;
  - the year list;
  - the rows of the month;
  - the opening balance, made of the latest `Saldo` snapshot of each account;
  - income, expense and result, the card cash-out `out_cc`, and the cash
    figures;
  - the `MM/YYYY` label.
- **Entry forms** (`app.py`, module `Entry`). A new entry is validated,
  signed and split into monthly installments, then written by a loop of
  appends. A balance snapshot is written the same way.
- **The tabs**:
  - recurring bills and payments (`tabs/pagamentos.py`, module `Payments`);
  - the credit-card invoice (`tabs/fatura.py`, module `Invoice`);
  - the monthly detail editor with its bulk save (`tabs/detalhamento.py`,
    module `Detail`);
  - the monthly plan (`tabs/planejamento.py`, module `Planning`).

Shared vocabulary lives in `Text` (Python whitespace, `strip`, `lower`,
digit strings), `Seqs` (row masks and column sums), `Dates` (proleptic
Gregorian dates with a day number, `timedelta` and `relativedelta`) and
`Wrappers` (missing values).

Amounts are `real`. Dates are `(year, month, day)` triples. A NaN or NaT
cell is `None`. A date that pandas parses must fall within the `Timestamp`
range, 1677-09-22 to 2262-04-11; outside it the cell is NaT. Anything that reads a clock or the widgets is a parameter:
today's date, the selected year and month, and the form inputs.

## Model

| member | source | states |
|---|---|---|
| Text.Strip | sheets.py:109-110 | `str.strip()`: the result neither starts nor ends with a whitespace character (Python's `str.isspace` class) |
| Text.StripIdempotent | sheets.py:109-110 | stripping a stripped cell changes nothing |
| Text.StripPadded | utils.py:43 | whitespace in front of an already stripped text is removed entirely by `strip` |
| Text.Keep | sheets.py:103 | the regex deletion keeps only characters of the class, never lengthens the text |
| Text.KeepAppend | sheets.py:103 | the character filter distributes over concatenation |
| Text.ReplaceChar | sheets.py:105 | `str.replace(",", ".")`: same length, every `,` becomes `.`, every other character unchanged |
| Text.Lower | utils.py:34 | `str.lower`: same length, each character lowered independently |
| Text.DigitsValueOfNatStr | app.py:90 | the decimal rendering of a natural number reads back as that number |
| Text.NatStrInjective | app.py:90 | distinct numbers have distinct decimal renderings |
| Text.Pad2Value | period.py:73 | `{m:02d}` is two digits that read back as `m` |
| Text.Pad2Injective | period.py:73 | distinct months give distinct two-digit texts |
| Text.SplitAtChar | tabs/pagamentos.py:35-37 | two joins `x|r1` and `y|r2` with `|`-free heads are equal only when the heads and the rests are equal |
| Text.TrimLeft | utils.py:43 | the leading whitespace removed by `str.strip` is dropped, and the result starts with a non-space |
| Text.TrimRight | utils.py:43 | the trailing whitespace removed by `str.strip` is dropped, and the result ends with a non-space |
| Text.NatStr | period.py:73 | `str(n)` of a natural number is a non-empty string of digits |
| Text.Pad2 | period.py:73 | `f"{n:02d}"` of a number below 100 is two digits |
| Seqs.Filter | period.py:43-44 | a boolean mask keeps exactly the rows satisfying it, in order, never more rows than it had |
| Seqs.FilterAppend | tabs/detalhamento.py:70-71 | masking a concatenation masks each part |
| Seqs.FilterFilter | tabs/fatura.py:49-53 | two successive masks equal one mask with the conjunction |
| Seqs.FilterPartition | tabs/detalhamento.py:70-71 | a mask and its negation together hold every row exactly once (as a multiset) |
| Seqs.FilterKeepsAllIffSameLength | tabs/detalhamento.py:42 | a mask keeps the row count iff every row satisfies it |
| Seqs.SumAppend | period.py:59 | `.sum()` of two concatenated frames is the sum of the parts |
| Seqs.SumNonNegative | period.py:67 | a sum of non-negative terms is non-negative |
| Seqs.SumOfFilter | tabs/planejamento.py:62 | dropping rows whose term is zero does not change a sum |
| Dates.DaysInMonth | app.py:87 | month length is between 28 and 31 (leap-year February 29) |
| Dates.AddDays | utils.py:47-48 | `base + n days` is a valid date whose day number is exactly `n` more (unbounded; the `Timestamp` bound is stated by DateParse.SerialDateInRange) |
| Dates.AddMonths | app.py:87 | `relativedelta(months=k)`: valid, exactly `k` months later, same day unless clamped to the last day of the shorter month |
| Dates.AddMonthsZero | app.py:86-87 | the first installment (`i = 0`) keeps the entry date |
| Dates.BeforeIsDayNumberOrder | period.py:47 | the timestamp comparison `<` on dates agrees with the order of day numbers |
| Dates.DayNumberInjective | period.py:47 | distinct valid dates have distinct day numbers |
| Dates.BeforeFirstDay | period.py:46-47 | `Data < Timestamp(ano, mes, 1)` holds exactly when the date's month comes before the selected month |
| Ledger.AdjustSign | utils.py:51-55 | `_ajusta_sinal`: missing stays missing, magnitude kept, sign set by the type (`Despesa`/`Transferência` non-positive, others non-negative) |
| Ledger.AdjustSignOfSigned | utils.py:51-55 | an amount that already has its type's sign is left unchanged |
| Ledger.AdjustSignIdempotent | utils.py:51-55 | applying `_ajusta_sinal` twice equals applying it once |
| Ledger.Magnitude | period.py:59 | `.abs()` of an amount, missing read as 0, is never negative |
| Ledger.DebitAmountReadBack | utils.py:51-55 | a non-positive amount written with two decimals and reloaded under a debit type comes back rounded to cents, its sign kept by `_ajusta_sinal` |
| Money.RoundHalfEven | utils.py:8 | the rounding used by `:.2f` is within half a unit and exact on whole numbers |
| Money.CentExactRounding | utils.py:8 | a value with at most two decimals is formatted without rounding |
| Money.FmtCurrency | utils.py:6-11 | a number renders as `"R$ "` plus the grouped amount; text that `float` rejects is returned unchanged; any other result starts with `"R$ "` |
| Money.ParseDecimal | sheets.py:106 | `to_numeric`/`float` on a plain decimal: empty, `-` and `.` are rejected; the sign follows a leading `-` |
| Money.CleanValue | sheets.py:102-105 | the cleaned amount text holds only digits, `.` and `-` |
| Money.MoneyToFloat | utils.py:13-20 | `_money_to_float`: 0.0 for None, for an empty cleaned text and for an unparseable one; otherwise the parsed value |
| Money.DropAtThousandsDot | sheets.py:104 | a `.` followed by exactly three digits and a non-digit (or the end) is deleted |
| Money.DropDotGroup | sheets.py:104 | deleting a thousands dot keeps the three digits after it |
| Money.ParseDecimalText | sheets.py:106 | the text `[-]int.cc` parses to the signed value with those cents |
| Money.CleanGroupedNumber | utils.py:16-18 | cleaning the pt-BR grouped rendering of an amount gives its plain `%.2f` text |
| Money.KeepCurrencyPrefix | utils.py:9-16 | the regex deletion removes exactly the `"R$ "` prefix of a formatted amount |
| Money.MoneyToFloatOfFmt | utils.py:6-20 | parsing a formatted amount gives the amount rounded to cents |
| Money.FmtRoundTrip | utils.py:6-20 | `_money_to_float(fmt_currency(x)) == x` for every `x` with at most two decimals |
| Money.MoneyInputRoundTrip | utils.py:22-25 | the `money_input` default string parses back to its value for every `x` with at most two decimals |
| Money.FmtOfParsedCanonical | utils.py:6-20 | re-formatting a parsed formatted amount reproduces the same text |
| Money.Fixed2ReadBack | sheets.py:102-106 | an amount written as `%.2f` survives the value cleaning and reads back rounded to cents |
| Money.RoundedSign | app.py:85 | rounding to cents keeps the sign |
| NormText.Fold | utils.py:37 | NFKD then `encode("ascii", "ignore")`: the result is pure ASCII |
| NormText.FoldAppend | utils.py:37 | accent folding works character by character, so it distributes over concatenation |
| NormText.FoldOfAscii | utils.py:37 | ASCII text passes the fold unchanged |
| NormText.Collapse | utils.py:38 | `re.sub(r"\s+", " ")`: never longer, empty stays empty, starts with a space exactly when the input starts with whitespace |
| NormText.CollapseLast | utils.py:38 | the collapsed text ends in a space exactly when the input ends in whitespace |
| NormText.CollapseNoAdjacentSpaces | utils.py:38 | after collapsing, no two spaces are adjacent |
| NormText.CollapsePlainSpaces | utils.py:38 | after collapsing, the only whitespace character is the plain space |
| NormText.CollapseOfSingleSpaced | utils.py:38 | collapsing already single-spaced text changes nothing |
| NormText.CollapseLower | utils.py:34-38 | on ASCII text, collapsing and lower-casing commute |
| NormText.CollapseTrimLeft | utils.py:34-38 | collapsing and stripping the left commute |
| NormText.CollapseTrimRight | utils.py:34-38 | collapsing and stripping the right commute |
| NormText.LowerKeepsShape | utils.py:38 | lower-casing ASCII text leaves no upper-case letter and keeps it stripped and single-spaced |
| NormText.StripLower | utils.py:34-38 | on ASCII text, stripping and lower-casing commute |
| NormText.ScalarStepsNormalise | utils.py:37-38 | the scalar chain `sub`, `strip`, `lower` on folded text gives ASCII, lower-case, stripped, single-spaced text |
| NormText.SeriesStepsNormalise | utils.py:33-34 | the series chain `lower`, `strip`, `replace` on folded text gives the same four properties |
| NormText.NormStr | utils.py:36-39 | `_norm_txt` on a scalar: ASCII, no upper case, no leading or trailing whitespace, no whitespace runs; `None` maps to `""` |
| NormText.NormSeries | utils.py:31-35 | `_norm_txt` on a series: the same four properties; a missing cell maps to `""` |
| NormText.NormOfNormalised | utils.py:36-39 | a normalised text is its own normalisation |
| NormText.NormIdempotent | utils.py:36-39 | `_norm_txt(_norm_txt(s)) == _norm_txt(s)` |
| NormText.NormFormsAgree | utils.py:30-39 | the series branch and the scalar branch give the same text for every cell |
| NormText.NormSeriesOfLowered | utils.py:33-34 | a cell whose folded lower-case form is already normalised normalises to that form |
| DateParse.DayFirst | utils.py:44 | a day-first `D/M/YYYY` text that parses gives a valid date inside the `Timestamp` range (1677-09-22 to 2262-04-11); a date outside that range reads as NaT |
| DateParse.ReadStripped | utils.py:44-48 | a stripped cell reads as its day-first parse when that succeeds. Otherwise a cell matching `^\d+(\.0+)?$` reads as `1899-12-30 + n` days, and any other cell is missing. Every date is valid, and it is inside the `Timestamp` range unless the serial passes the `Timedelta` bound |
| DateParse.SerialDateInRange | utils.py:47-48 | `1899-12-30` plus a serial within the 106751-day `Timedelta` bound is inside the `Timestamp` range |
| DateParse.SerialLacksSlash | utils.py:45 | a text matching `^\d+(\.0+)?$` holds no `/` |
| DateParse.StripColumn | utils.py:43 | the loop strips every cell of the column, keeping its length |
| DateParse.ParseStrippedColumn | utils.py:44-48 | the column is parsed day-first, then the masked serial cells are overwritten one by one. The method fails exactly when some serial cell passes the 106751-day `Timedelta` bound (`to_timedelta` raises); otherwise each entry is `ReadStripped` of its cell |
| DateParse.CellStep | utils.py:45-48 | an overflowing serial never parses day-first, and the serial overwrite applied to the day-first result is the specified per-cell reading |
| DateParse.ParseDataCol | utils.py:41-49 | `parse_data_col` raises iff some stripped cell is a serial past the `Timedelta` bound; otherwise the result has the column's length and each entry is the reading of its stripped cell |
| DateParse.FormatDMYRoundTrip | app.py:89-94 | a date written with `%d/%m/%Y` (four-digit year) reads back day-first as the same date inside the `Timestamp` range, and as NaT outside it |
| DateParse.ParseDateCellOfFormat | sheets.py:107 | a cell written as `%d/%m/%Y` loads back as the same date inside the `Timestamp` range, and as NaT outside it |
| DateParse.SerialIsNotDayFirst | utils.py:45 | a serial text never parses day-first, so the serial branch is what reads it |
| Sheets.Score | sheets.py:60-61 | the count of wanted words present among the row's stripped, lower-cased non-empty cells never exceeds the number of wanted words |
| Sheets.Scanned | sheets.py:59 | `vals[:300]`: a prefix of the rows, all of them when there are at most 300, exactly 300 otherwise |
| Sheets.FirstFrom | sheets.py:59-62 | a `for`/`break` search: the index found satisfies the test and no earlier one does; without a result no row from the start does |
| Sheets.HeaderIndex | sheets.py:58-62 | the header is the first row among the first 300 scoring at least 3; none when no such row exists |
| Sheets.FindHeader | sheets.py:58-62 | the scan loop computes exactly `HeaderIndex` |
| Sheets.Pad7 | sheets.py:67 | `(r + [""]*7)[:7]`: seven cells, the row's own cells first and `""` after them |
| Sheets.PositionalRecord | sheets.py:68-72 | the positional record has the seven base columns |
| Sheets.PositionalFrame | sheets.py:65-73 | the loop appends one positional record per raw row, in order |
| Sheets.PositionalFrameIs | sheets.py:64-73 | the frame built by that loop is the positional frame used by the load |
| Sheets.Canonical | sheets.py:80-91 | a recognised synonym always maps to one of the seven base column names |
| Sheets.KeyMapHolds | sheets.py:78-91 | the rename map holds exactly the header columns that have a target, each mapped to that target |
| Sheets.RenSpecMaps | sheets.py:78-91 | the rename dictionary has a key exactly for each column whose normalised name is a synonym |
| Sheets.FillMap | sheets.py:78-91 | the loop filling `ren` builds exactly that map |
| Sheets.RenameMap | sheets.py:78-91 | `ren` built over the stripped header is the specified rename map |
| Sheets.RenameAll | sheets.py:92 | `df.rename(columns=ren)` renames each column through the map, others unchanged |
| Sheets.RenameMapRenames | sheets.py:92 | renaming through the map built by the loop gives the specified renamed header |
| Sheets.Renamed | sheets.py:92 | the renamed header has the header's length, each column replaced by its canonical name when it has one |
| Sheets.ColumnIndex | sheets.py:95 | the lookup gives the first position holding the name, and none iff the name is absent; the load only uses it on headers where each base name occurs at most once (Sheets.HeaderRecordReadsColumn) |
| Sheets.HeaderRecord | sheets.py:93-95 | `df[base_cols]` has seven cells, and a cell is missing exactly when its base column is absent from the renamed header |
| Sheets.HeaderRecordReadsColumn | sheets.py:93-95 | when no base name repeats, each base cell is read from the one column carrying that name |
| Sheets.StripRow | sheets.py:75 | `str(c).strip()` of every header cell |
| Sheets.HeaderRows | sheets.py:76-95 | one record per row after the header, in order, each being that row's `df[base_cols]` selection |
| Sheets.HeaderFrame | sheets.py:75-95 | header mode fails iff two header columns get the same base name (`df["Valor"]` is then a frame, and `.str` raises). Otherwise there is one record per row after the header |
| Sheets.HeaderModeFrame | sheets.py:74-95 | the header branch computes `HeaderFrame`, failure included: strip the header, fill `ren`, rename, select the base columns |
| Sheets.Frame | sheets.py:64-95 | every record has the seven base columns; without a header, one record per raw row and never a failure |
| Sheets.FrameFrom | sheets.py:64-95 | for a given header decision, it fails iff the header repeats a base name; records have seven columns; positional mode keeps one record per row |
| Sheets.ToTxn | sheets.py:102-110 | the corrected load (see ## Findings) turns a record into a row. The date is the parsed date cell. The amount is missing exactly when the cleaned text does not parse, keeps its magnitude and has the sign its stripped type demands. The five text fields are stripped |
| Sheets.Clean | sheets.py:101-110 | the corrected load (see ## Findings) applies the value, date, strip and sign pipeline row by row, keeping the row count |
| Sheets.Kept | sheets.py:98-99 | the rows kept are seven-column rows with at least one non-blank cell |
| Sheets.LoadMain | sheets.py:47-111 | the corrected load (see ## Findings) computes `Load`: no rows for an empty sheet, and a failure for a repeated base column or a serial date past the `Timedelta` bound. Otherwise it gives the cleaned non-blank rows (Sheets.RowsAboveHeaderIgnored, Sheets.PositionalKeepsRows, Sheets.LoadedRowsSignedAndTrimmed) |
| Sheets.LoadEmpty | sheets.py:53 | an empty sheet loads as no rows, both as written and corrected |
| Sheets.LoadedRowsSignedAndTrimmed | sheets.py:107-110 | in the corrected load (see ## Findings) every loaded row has the sign its type demands (or no amount) and five stripped text fields |
| Sheets.CleanSignedAndTrimmed | sheets.py:107-110 | the same for any frame passed through the corrected cleaning pipeline |
| Sheets.BlankDropKeepsOthers | sheets.py:98-99 | when no row is all-blank the drop keeps every row, in order |
| Sheets.RowsAboveHeaderIgnored | sheets.py:75-76 | the header row and all rows above it never reach the ledger: loading from the header row on gives the same ledger, with fewer rows than follow the header |
| Sheets.RepeatedBaseColumnFails | sheets.py:75-110 | a header in which two columns get the same base name makes the load fail, both as written and corrected |
| Sheets.ValorPrefixRenamed | sheets.py:89 | every column whose normalised name starts with `valor` is renamed `Valor` |
| Sheets.CanonicalValor | sheets.py:89 | a normalised name starting with `valor` has `Valor` as its canonical name |
| Sheets.ValorColumnsRepeat | sheets.py:89-95 | two header columns starting with `valor` (say `Valor` and `Valor pago`) make `Valor` a repeated base name |
| Sheets.HeaderFirstInTail | sheets.py:59-62 | the header found is the first header of the rows starting at it |
| Sheets.PositionalNotBlank | sheets.py:69-98 | in positional mode a row whose type cell is not whitespace-only is never dropped as blank, because an empty type becomes `Despesa` |
| Sheets.PositionalKeepsRows | sheets.py:64-99 | with no header, the load fails iff some raw row's date cell is a serial past the `Timedelta` bound. Otherwise every raw row (type cell not whitespace-only) is loaded, in order, from its padded positional record |
| Sheets.PositionalDates | sheets.py:64-107 | in positional mode the date cells overflow iff some raw row's first padded cell, stripped, is a serial past the `Timedelta` bound |
| Sheets.PositionalFrameKept | sheets.py:64-110 | the blank drop keeps every positional record and the cleaning maps each one |
| Sheets.ColumnIndexOfDistinct | sheets.py:95 | in a header without duplicates a column's lookup is its own position |
| Sheets.BaseHeaderReadsByPosition | sheets.py:93-95 | a sheet whose header is exactly the base columns reads every row by position |
| Sheets.Trunc | sheets.py:129 | `astype(int)` truncates toward zero |
| Sheets.PmDay | sheets.py:129 | `Dia`: non-numeric text becomes 1; a number is truncated toward zero |
| Sheets.LoadPmDays | sheets.py:128-129 | the column conversion maps each cell independently, keeping the length |
| Sheets.PmDayOfWhole | sheets.py:129 | a whole-number day is read as itself |
| Sheets.SalvarPlan | sheets.py:148-150 | with a row index, sheet row `linha+2` (record `linha`) is overwritten from column A; without one, the values are appended |
| Sheets.ToTxnOfTexts | sheets.py:102-110 | in the corrected load (see ## Findings) a row of plain texts loads as the parsed date, the five stripped texts and the sign-adjusted cleaned amount |
| Sheets.AmountOfTexts | sheets.py:102-108 | in the corrected load (see ## Findings) the amount of a row of plain texts is the sign-adjusted cleaned amount |
| Sheets.FieldsOfTexts | sheets.py:109-110 | the text fields of a loaded row are the stripped cells |
| Sheets.CleanAsWritten | sheets.py:102-111 | as written, the cleaning keeps one transaction per frame row |
| Sheets.PaddedTypeSignedWrongly | sheets.py:108-110 | a `Tipo` cell `" Despesa"` with amount 10 is read back as written as a `Despesa` of +10, which breaks the debit sign; read with the type stripped first it is −10 |
| Sheets.DebitRowReadBack | sheets.py:102-110 | in the corrected load (see ## Findings), a row typed `Despesa` or `Transferência` whose amount cell is `%.2f` of a non-positive value loads as that value rounded to cents |
| Store.Overwrite | sheets.py:149 | `ws.update("A{n}", [vals])`: the first cells become the values, cells further right are kept |
| Store.Worksheet.AppendRow | sheets.py:150 | `append_row`: the rows are the old rows followed by the new one |
| Store.Worksheet.UpdateRow | sheets.py:149 | updating a row overwrites that row from its first cell and changes no other row |
| Store.Worksheet.Clear | tabs/detalhamento.py:74 | `clear()` leaves no rows |
| Period.BeforeTotal | period.py:52 | dates are totally ordered, so every account has a latest snapshot |
| Period.DatesWhere | period.py:8-13 | the non-null dates satisfying the mask: each comes from a row, and every such row's date is listed |
| Period.MaxDate | period.py:10-13 | `.max()` is one of the dates and no date is later |
| Period.MaxDateRow | period.py:8-13 | the maximum comes from a row whose date is at least every other selected row's |
| Period.DefaultMonthInRange | period.py:4-15 | the default month is always in 1..12 |
| Period.DefaultMonthLatestPast | period.py:8-11 | when some date is at most today, the default is the month of the latest such date |
| Period.DefaultMonthLatestFuture | period.py:12-14 | when every date is after today, the default is the month of the latest date |
| Period.DefaultMonthNoDates | period.py:15 | without any date, the default is today's month |
| Period.InsertDesc | period.py:25 | inserting a year into a strictly descending list keeps it strictly descending and adds exactly that year |
| Period.YearsDesc | period.py:25 | `sorted(unique years, reverse=True)`: strictly descending, and a year is listed iff some row's date has it |
| Period.YearChoices | period.py:25-27 | the year list is never empty, holds the default year, lists each data year once and no other year; descending, with the default put first when it had no data |
| Period.MonthRows | period.py:43-44 | the month's rows are exactly the rows dated in the selected year and month; none has a null date |
| Period.OfKind | period.py:55-57 | the rows of a type are exactly the rows with that `Tipo` |
| Period.PriorSnapshots | period.py:47-51 | the `Saldo` rows dated before day 1 of the month, keyed by `_norm_txt(Descrição)`, never more than the rows |
| Period.AccountIndex | period.py:52 | the position of an account's entry, or none when the account has none |
| Period.UpsertShape | period.py:52 | one arrival appends a new account, or replaces its account's entry unless that entry is more recent |
| Period.StaysLatest | period.py:52 | a latest snapshot stays latest when another account's, or an older, snapshot arrives |
| Period.NewestLatest | period.py:52 | the newest arrival is latest when no earlier snapshot of its account is more recent |
| Period.UpsertStep | period.py:52 | each arrival keeps the invariant "exactly one entry per account, each that account's latest snapshot" |
| Period.UpsertAppends | period.py:52 | an arrival for an unseen account is appended as that account's latest |
| Period.UpsertOlder | period.py:52 | an arrival older than its account's entry changes nothing |
| Period.UpsertReplaces | period.py:52 | an arrival at least as recent as its account's entry replaces it |
| Period.LatestIsLatestPerAccount | period.py:52 | sort by account and date, then `groupby().tail(1)`, keeps exactly one snapshot per account, the latest, with ties going to the later row |
| Period.OpeningBalanceSumsLatest | period.py:46-53 | `saldo_inicial` is the sum over accounts of each account's latest prior snapshot |
| Period.NoPriorSnapshots | period.py:48-49 | without prior snapshots the opening balance is 0 |
| Period.LaterSnapshotWins | period.py:52-53 | an earlier snapshot of the same account never contributes, in whichever order the rows come |
| Period.CardCashOut | period.py:62-67 | `out_cc` is never negative |
| Period.PeriodFigures | period.py:55-70 | `saldo_final - saldo_final_caixa == out_cc`, with `out_cc` and the expenses non-negative, so the cash close never exceeds the accrual close |
| Period.FiguresAccrual | period.py:55-70 | `saldo_periodo` = income − expense magnitudes over the month's rows; `saldo_final` = opening + result; `saldo_final_caixa` = opening + result − `out_cc` |
| Period.ResultIgnoresOtherKinds | period.py:55-59 | transfers and balance snapshots do not change the period result |
| Period.OfKindAppend | period.py:55-57 | selecting a type distributes over concatenation |
| Period.IncomeNonNegative | period.py:55-59 | in a sign-normalised ledger the month's income is never negative |
| Period.PeriodLabel | period.py:73 | `f"{mes:02d}/{ano}"`: two month digits, then `/` |
| Period.PeriodLabelInjective | period.py:73 | distinct periods have distinct labels |
| Entry.Category | app.py:76-79 | a transfer always gets `"Pagamento Cartão"`; otherwise the chosen category, or the stripped typed one for `"Outra"` |
| Entry.Method | app.py:77-79 | a transfer always gets `"Transferência Bancária"`; otherwise the chosen method, or the stripped typed one for `"Outra"` |
| Entry.StoredValue | app.py:80 | `Receita` keeps `val`; every other type stores a non-positive value of the same magnitude |
| Entry.Record | app.py:88-95 | a record has the seven sheet columns |
| Entry.Records | app.py:82-95 | with installments: exactly `n` records, record `i` being installment `i`; otherwise exactly one record |
| Entry.BuildRecords | app.py:82-95 | the `registros` loop builds exactly `Records` |
| Entry.AppendRecords | app.py:97-98 | the write loop appends the records after the existing rows, in order |
| Entry.Submit | app.py:69-100 | the submission is saved iff the form is not rejected (placeholders, uncategorised non-transfer, `abs(val) <= 0`); a rejection writes nothing; a save appends exactly `Records` |
| Entry.TransferIsSingle | app.py:78-84 | a transfer is never split into installments and is written with the reserved category and method |
| Entry.AcceptedDebitIsNegative | app.py:72-85 | an accepted non-income entry stores a strictly negative value, and its installment share is non-positive |
| Entry.RoundedClose | app.py:85 | `round(x, 2)` is within half a cent of `x` |
| Entry.InstallmentsAddUp | app.py:85-91 | the `n` installments add up to the stored value within `n` half-cents |
| Entry.InstallmentDescInjective | app.py:90 | two installments of the same entry have different descriptions `desc (i+1/n)` |
| Entry.InstallmentReadBack | app.py:87-89 | installment `i` is dated exactly `i` months after the entry date, and reloads with that date when it is inside the `Timestamp` range |
| Entry.SingleDebitReadBack | app.py:80-94 | a single expense or transfer reloads with its stored value rounded to cents |
| Entry.SnapshotRow | app.py:116-118 | the balance snapshot row is `[date, "Sistema", "Saldo", name, "Saldo", name, value]` |
| Entry.RegisterBalance | app.py:110-123 | the snapshot is written iff the account name (stripped typed name for `"Outro"`) is non-empty; otherwise nothing is written |
| Entry.SnapshotReadBack | app.py:116-118 | the snapshot reloads with type `Saldo` and the stripped account name as description. Its date comes back when it is inside the `Timestamp` range |
| Entry.SnapshotAmountReadBack | app.py:118 | the snapshot's value reloads as its magnitude rounded to cents, since `Saldo` is not a debit type |
| Payments.RegisterBill | tabs/pagamentos.py:19-24 | a recurring bill is appended iff a responsible party is chosen, as `[desc, "", day, cat, resp]` |
| Payments.RegisteredDayReadBack | sheets.py:129 | the day written by the bill form reloads as that day |
| Payments.DueDate | tabs/pagamentos.py:34 | `datetime(ano, mes, min(day, 28))`: defined iff the year is in range and the day positive; a valid date in the selected month, day at most 28 and at most the bill's day, equal to it when it is at most 28 |
| Payments.DueDates | tabs/pagamentos.py:34 | the column of due dates is defined iff every bill's is, one per bill |
| Payments.RegisteredDaysAreDue | tabs/pagamentos.py:13-34 | bills registered with days 1..28 are due on exactly that day |
| Payments.PaidKeys | tabs/pagamentos.py:39-44 | the keys of the month's `Despesa` rows, and no other key |
| Payments.PendingBills | tabs/pagamentos.py:33-45 | a bill is pending iff its joined key is not the key of any `Despesa` row of the month |
| Payments.PendingByFields | tabs/pagamentos.py:72-77 | a bill is pending iff no `Despesa` row of the month matches it on the three stripped fields |
| Payments.KeyEqualIff | tabs/pagamentos.py:35-43 | with no `|` in the fields, two keys are equal iff the three stripped fields are equal |
| Payments.PaidKeyIffMatch | tabs/pagamentos.py:35-77 | with no `|` in the fields, a bill's key is paid iff some row matches it field by field |
| Payments.PendingAgree | tabs/pagamentos.py:35-77 | with no `|` in the fields, the key filter and the field-by-field guard select the same pending bills |
| Payments.KeyCollision | tabs/pagamentos.py:35-77 | a bill and a row whose fields differ but whose joined keys coincide: the bill is hidden as paid though the guard would let it be paid |
| Payments.PaymentRow | tabs/pagamentos.py:82-86 | the posted row has seven cells and type `Despesa` |
| Payments.Pay | tabs/pagamentos.py:70-91 | invalid iff not (`v_pago > 0` and a method chosen); duplicate iff valid and a `Despesa` of the month matches the bill; only a posting writes, appending exactly the payment row |
| Payments.AlreadyPaidStep | tabs/pagamentos.py:72-77 | the `.any()` over the first `i+1` rows is the one over the first `i` or a match at row `i` |
| Payments.PostedRowReadBack | tabs/pagamentos.py:82-86 | the posted row reloads with amount `-|v_pago|` rounded to cents, matching the bill it pays. It is dated today when today is inside the `Timestamp` range |
| Payments.RoundedNegated | tabs/pagamentos.py:85 | for a cent-exact payment the reloaded amount is exactly `-v_pago` |
| Payments.PaidBillLeavesPending | tabs/pagamentos.py:35-86 | once the posted row is among the month's rows, the bill is no longer pending under either test and a second payment is a duplicate |
| Payments.SameKeyHides | tabs/pagamentos.py:35-45 | any `Despesa` of the month with the same key hides the bill, whatever its other fields |
| Payments.UnpaidPending | tabs/pagamentos.py:72-80 | a bill no row of the month pays is pending under the field comparison |
| Invoice.NormOfCartaoDeCredito | tabs/fatura.py:30 | the method `"Cartão de Crédito"` normalises to `"cartao de credito"` |
| Invoice.CartaoDeCreditoIsCard | tabs/fatura.py:30-31 | the method `"Cartão de Crédito"` is recognised as a card method |
| Invoice.IsCardMethodIff | tabs/fatura.py:30-31 | a method is a card method iff `\bcartao\s*de\s*credito\b` matches somewhere in its normal form |
| Invoice.CardPhraseAtIsRegex | tabs/fatura.py:31 | on single-spaced text, one of the four spellings (with or without each space) occurs at a word boundary iff the regular expression matches there |
| Invoice.CardPhraseGivesRegex | tabs/fatura.py:31 | an occurrence of one of the four spellings at word boundaries is a match of the regular expression |
| Invoice.RegexGivesCardPhrase | tabs/fatura.py:31 | on single-spaced text, a match of the regular expression is one of the four spellings |
| Invoice.SpellingGivesRegex | tabs/fatura.py:31 | each listed spelling, found at word boundaries, matches the regular expression |
| Invoice.PhraseSpaced | tabs/fatura.py:31 | `cartao`, a gap of at most one space, `de`, a gap, `credito` matches `\s*` in both gaps |
| Invoice.SpaceRunShort | tabs/fatura.py:31 | in single-spaced text a `\s*` run is empty or one space |
| Invoice.IntervalRows | tabs/fatura.py:30-37 | the interval rows are exactly the ledger rows on a card method (the chosen card's method exactly, when one is chosen) dated within `[data_ini, data_fim]`, both ends included |
| Invoice.Expenses | tabs/fatura.py:39 | the expenses are exactly the `Despesa` rows of the interval |
| Invoice.Refunds | tabs/fatura.py:41-47 | refunds are `Receita` rows whose normalised category is `estorno` or `estornos`, all of them when credits are included, none otherwise |
| Invoice.SelectStep | tabs/fatura.py:50-53 | a multiselect filter keeps a row iff the selection is empty, holds the sentinel, or holds the row's value |
| Invoice.SearchStep | tabs/fatura.py:54-60 | the search keeps a row iff the search is blank, or the normalised pattern is found as a regular expression (`.` any character but a newline) in the normalised description, category or responsible party |
| Invoice.LiteralPatternIsSubstring | tabs/fatura.py:57-59 | a pattern without `.` is found iff it occurs as a substring |
| Invoice.DotFindsNonEmpty | tabs/fatura.py:57-59 | the pattern `.` is found in a normalised text iff the text is non-empty |
| Invoice.ApplyFiltersKeeps | tabs/fatura.py:49-61 | `_aplica_filtros` is one mask: the conjunction of the responsible-party, category and search tests |
| Invoice.ApplyFiltersMembers | tabs/fatura.py:49-61 | the filtered rows are exactly the rows passing every active filter |
| Invoice.DefaultChoicesKeepAll | tabs/fatura.py:21-61 | the default choices (`(todos)`, `(todas)`, empty search) keep every row |
| Invoice.EmptyPatternMatches | tabs/fatura.py:54-60 | a search whose normalised pattern is empty keeps every row |
| Invoice.InvoiceTotal | tabs/fatura.py:63-72 | nothing is shown iff both filtered lists are empty; otherwise `total_fatura = max(0, Σ|despesa| − Σ refunds)`, never negative |
| Invoice.InvoiceExpenseRows | tabs/fatura.py:30-63 | a filtered expense is a ledger `Despesa` on the card, in the interval, passing the filters; every such row is listed |
| Invoice.InvoiceRefundRows | tabs/fatura.py:41-64 | a filtered refund is a ledger refund on the card, in the interval, passing the filters; none when credits are excluded |
| Invoice.TotalWithoutRefunds | tabs/fatura.py:47-72 | without refunds the total is exactly the sum of the expenses' magnitudes |
| Invoice.RefundsNonNegative | tabs/fatura.py:71 | `Receita` rows of a sign-normalised ledger add up to a non-negative sum |
| Invoice.TotalAtMostExpenses | tabs/fatura.py:70-72 | on a loaded ledger the total never exceeds the expenses' magnitudes |
| Invoice.RefundsFromLedger | tabs/fatura.py:41-47 | every refund listed is a `Receita` row of the ledger |
| Invoice.ClampedAtMostGross | tabs/fatura.py:70-72 | `max(0, gross - credits)` with non-negative parts never exceeds `gross` |
| Invoice.ExpenseSelected | tabs/fatura.py:30-63 | every listed expense is a ledger `Despesa` on the card, in the interval, passing the filters |
| Invoice.ExpenseListed | tabs/fatura.py:30-63 | every ledger `Despesa` on the card, in the interval, passing the filters is listed |
| Invoice.IncomeRowNonNegative | tabs/fatura.py:71 | a `Receita` row of a sign-normalised ledger has a non-negative amount |
| Detail.DetailFilterKeeps | tabs/detalhamento.py:26-40 | the filter chain (types, categories, responsible parties, methods, regular-expression search) is one mask, the conjunction of all five tests |
| Detail.SaveEnabledIff | tabs/detalhamento.py:42-54 | saving is enabled iff every row of the month passes every filter, and then the view is the whole month |
| Detail.DefaultDetailChoicesEnableSave | tabs/detalhamento.py:13-42 | the default filters keep the whole month, so saving starts enabled |
| Detail.EditNumberText | tabs/detalhamento.py:58-59 | the edited amount text keeps only digits, `,` and `-`, then `,` becomes `.`; every dot is gone |
| Detail.ParseEditValueAsWritten | tabs/detalhamento.py:58-59 | as written: a missing cell stays missing, and `astype(float)` raises exactly when the cleaned text does not parse, including the empty text |
| Detail.ParseEditValue | tabs/detalhamento.py:58-59 | corrected: an empty cleaned text is a missing amount; every other cell as written |
| Detail.ViewValue | tabs/detalhamento.py:46 | the amount shown in the editor starts with `"R$ "` |
| Detail.KeepEditAmount | tabs/detalhamento.py:46-58 | dropping all but digits, `,` and `-` from a formatted amount leaves the sign, the whole digits, `,` and the cents |
| Detail.EditNumberTextOfView | tabs/detalhamento.py:46-59 | the shown amount cleans to its plain `%.2f` text |
| Detail.ParseEditValueOfView | tabs/detalhamento.py:46-59 | an unedited cent-exact amount, or a missing one, is read back unchanged |
| Detail.MissingAmountRaisesAsWritten | tabs/detalhamento.py:46-59 | as written, the text shown for a missing amount makes the save raise |
| Detail.ParseEditDate | tabs/detalhamento.py:60 | `to_datetime(format="%d/%m/%Y")` gives a valid date inside the `Timestamp` range, read day-first from the cell. A non-null cell raises exactly when it does not parse |
| Detail.ParseEditDateOfView | tabs/detalhamento.py:44-60 | a date shown as `%d/%m/%Y` is read back as itself inside the `Timestamp` range, and raises outside it |
| Detail.ViewRow | tabs/detalhamento.py:44-46 | the editor row keeps the five text fields |
| Detail.ParseEditRow | tabs/detalhamento.py:57-60 | an edited row is accepted iff its date and amount are; it keeps the text fields |
| Detail.ParseEdits | tabs/detalhamento.py:57-60 | the whole edit is accepted iff every row is, keeping count and order |
| Detail.ParseEditsOfView | tabs/detalhamento.py:44-60 | saving an unedited view reproduces the month's rows |
| Detail.History | tabs/detalhamento.py:70 | the kept history is exactly the rows whose `MM/YYYY` differs from the label, null-dated rows included |
| Detail.MergeShape | tabs/detalhamento.py:70-71 | the saved ledger is the history, in order, followed by the edited rows; every history row is kept |
| Detail.MonthTextIsLabel | tabs/detalhamento.py:70 | a date's `MM/YYYY` equals the period label iff it has that year and month |
| Detail.HistoryIsOutsideMonth | tabs/detalhamento.py:70 | the history is exactly the rows outside the selected month |
| Detail.UneditedSaveIsPermutation | tabs/detalhamento.py:70-71 | saving the month's rows unedited loses and duplicates nothing: the saved ledger is a permutation of the ledger |
| Detail.SaveOfViewIsPermutation | tabs/detalhamento.py:44-71 | going through the editor unedited, the saved ledger is a permutation of the ledger |
| Detail.HeaderCells | tabs/detalhamento.py:75 | the header written is the seven base column names |
| Detail.SavedRows | tabs/detalhamento.py:72-76 | one written row per saved record, in order |
| Detail.SavedRowsStep | tabs/detalhamento.py:76 | the written rows of a prefix grow by one row per record |
| Detail.SaveMonth | tabs/detalhamento.py:56-76 | the save succeeds iff every edited row parses; a failed save writes nothing; a successful one leaves the header followed by the history and the edited rows |
| Detail.Rewrite | tabs/detalhamento.py:74-76 | clear, append the header, append every row: the sheet is the header followed by the rows |
| Detail.ViewRows | tabs/detalhamento.py:43-46 | the editor holds one row per month row, in order |
| Detail.SavedRow | tabs/detalhamento.py:76 | each written row has the seven base columns |
| Detail.MergeWritable | tabs/detalhamento.py:70-76 | every row of the saved ledger can be written |
| Planning.DropCurrency | tabs/planejamento.py:32 | `replace("R$", "")` never lengthens the text |
| Planning.ToFloat | tabs/planejamento.py:31-32 | `to_float`: dots removed, `,` to `.`, `R$` removed, stripped; empty gives 0; otherwise `float` of the rest, missing when it raises |
| Planning.ToFloatOfFmt | tabs/planejamento.py:32-38 | `to_float(fmt_currency(x))` is `x` rounded to cents |
| Planning.ToFloatRoundTrip | tabs/planejamento.py:32-38 | `to_float` inverts `fmt_currency` on every value with at most two decimals |
| Planning.ToFloatEmpty | tabs/planejamento.py:32 | an empty field, or one holding only the currency sign, reads as 0 |
| Planning.PlanHeader | sheets.py:139 | the header `ws_plan` writes is `Ano`, `Mês`, the four income names and the categories, in that order |
| Planning.PlanHeaderKeyed | sheets.py:139 | in that header `Ano` and `Mês` are read from columns A and B |
| Planning.LongNamesKeyed | sheets.py:139 | a `ws_plan` header whose income and category names are longer than `Ano` and `Mês` is keyed by columns A and B |
| Planning.ColumnOf | tabs/planejamento.py:22-26 | the column a record is keyed by for a name is the last header column with that name, and there is none iff no column has it |
| Planning.NamedNumber | tabs/planejamento.py:23-26 | `float(plan.get(name, 0))` is 0 without that column; otherwise it is defined iff the record's cell is a number, and then it is that number |
| Planning.FirstMatch | tabs/planejamento.py:19-22 | the first record with the selected year and month, none iff no record has them |
| Planning.FindPlan | tabs/planejamento.py:19-22 | the lookup raises iff the frame has no record, no `Ano` or `Mês` column, or a key that `astype(int)` rejects. Otherwise it finds the first record with the selected `Ano` and `Mês`, and there is no plan iff no record matches |
| Planning.EmptyPlanSheetRaises | tabs/planejamento.py:18-19 | a plan sheet holding at most its header row makes the lookup raise (`KeyError: "Ano"`), so the page fails |
| Planning.TextKeyRaises | tabs/planejamento.py:19 | a record whose `Ano` or `Mês` is not a number makes the lookup raise |
| Planning.Zeros | tabs/planejamento.py:28-29 | the no-plan defaults are all 0.0 |
| Planning.Numbers | tabs/planejamento.py:23-26 | the fields are read with `plan.get(name, 0)`; the result is defined iff every one is numeric, each being the named column's number or 0 without that column |
| Planning.InitialFigures | tabs/planejamento.py:19-29 | the page fails when the lookup raises. With no plan it starts from four zero incomes and a zero budget per category. With a plan, each income and budget is read from the plan's column of that name, and the figures exist iff every one is numeric |
| Planning.FillBudget | tabs/planejamento.py:44-47 | the loop fills `orc` with exactly the categories, each with its input |
| Planning.SpendingNonNegative | tabs/planejamento.py:47-49 | budgets are at least 0, so predicted spending is never negative |
| Planning.BalanceAtMostIncome | tabs/planejamento.py:40-51 | the predicted balance never exceeds the predicted income |
| Planning.NoPlanStartsFromZeros | tabs/planejamento.py:27-29 | a searchable frame with no matching record starts the form from zeros |
| Planning.ZerosPredictZero | tabs/planejamento.py:28-51 | from the zero defaults, predicted income, spending and balance are 0 |
| Planning.ZeroFieldReadsZero | tabs/planejamento.py:32-35 | the zero default shown as `R$ 0,00` reads back as 0 |
| Planning.PlanValues | tabs/planejamento.py:54-55 | the saved values are year, month, four incomes and one budget per category, and they match the selected year and month |
| Planning.WrittenKeysMatch | tabs/planejamento.py:54-55 | values keyed with the year and month match that period, and no other, under a header keyed as `ws_plan` writes it |
| Planning.SavePlan | tabs/planejamento.py:53-55 | the header is kept. A found plan is overwritten in its place from column A; without one the values are appended. When the header keeps `Ano` and `Mês` in columns A and B, the plan then found starts with the saved values, at the same record when one existed |
| Planning.AppendedPlanFound | sheets.py:150 | appending a record keyed with the month to a sheet without a plan for it makes that record the plan found |
| Planning.OverwrittenPlanFound | sheets.py:149 | overwriting the plan found with values keyed with the month keeps it the plan found, at the same record |
| Planning.SavedPlanFound | tabs/planejamento.py:53-55 | whether the values were appended or overwrote the plan found, the lookup on the new rows finds a record that starts with them, at the old record when there was one |
| Planning.OverwriteKeepsKeys | sheets.py:149 | overwriting a row from column A with values keyed with a year and month leaves the row keyed with them |
| Planning.UniqueMatchFound | tabs/planejamento.py:19-22 | in a searchable frame the first matching record is the one found |
| Planning.LoadPlanDf | sheets.py:142-146 | corrected (see ## Findings): calling what `load_plan_df` returns gives the sheet's rows |
| Planning.LoadPlanDfAsWritten | sheets.py:142-146 | as written: `load_plan_df` returns the frame of the sheet's rows, and calling it raises |
| Planning.CallSource | tabs/planejamento.py:18 | calling what `load_plan_df` returned succeeds iff it is the loader, giving its rows; calling a frame raises `TypeError` |
| Planning.PlanPageRaisesAsWritten | tabs/planejamento.py:18 | as written, the plan page raises at line 18 whatever the sheet holds |
| Planning.PlanPageOpens | tabs/planejamento.py:18-29 | corrected: the page opens with `InitialFigures` of the sheet, starting from zeros when no record matches |
| Planning.SavedMonthOpens | tabs/planejamento.py:18-55 | a sheet holding the `ws_plan` header and one saved plan opens that plan for its month |
| Planning.SavedMonthFound | tabs/planejamento.py:19-22 | under the `ws_plan` header a single saved record is the plan found for its month |
| Planning.NumericPlanOpens | tabs/planejamento.py:22-26 | a found plan whose named fields are all numeric gives figures |
| Planning.SavedFieldsNumeric | tabs/planejamento.py:54-55 | every field of saved values, read by name under a header no longer than them, is numeric |
| Planning.CompRowOf | tabs/planejamento.py:62-64 | actual is `|Σ amounts|`, never negative; planned is missing for a category without a budget; difference = planned − actual when planned exists |
| Planning.Comparison | tabs/planejamento.py:62-64 | the table has one row per category present in the month's expenses |
| Planning.ActualIsSpent | tabs/planejamento.py:62 | for loaded expenses a category's actual figure is the sum of its amounts' magnitudes |
| Planning.SumOfDebits | tabs/planejamento.py:62 | the sum of debit amounts is minus the sum of their magnitudes |
| Planning.ComparisonSection | tabs/planejamento.py:61-69 | the table is shown iff the planned month is the selected month, with one row per category of that month's expenses; a notice otherwise |

## Left out

- Google Sheets access through gspread is not modelled: worksheet creation, caching and cache invalidation. A sheet is a `Store.Worksheet` of rows, and only the three calls the core makes are modelled.
- The backup copy made before a bulk save (tabs/detalhamento.py:62-68) is not modelled. It writes to another sheet and does not affect the saved ledger.
- Credential handling (`_coerce_google_credentials`) and the `section` chart builder are not part of this model.
- Streamlit is not modelled: widgets, session state, CSS, messages and reruns. Widget values arrive as parameters. The pending-payment dialog's `pm_modal`/`pm_idx` bookkeeping is left out. The icons that label choices are left out. The presentation-only tabs are not part of this model.
- `load_plan_df` is modelled as a value that is either the frame (as written) or a loader (corrected); `st.cache_data` caching and `.clear()` are not. The plan sheet's rows are cells that `get_all_records` has already numericised: a number is `Amount`, anything else `Label`. `load_pm_df` (app.py:147) makes the same call, but is outside this model.
- Planning.ColumnOf: a header naming a column twice is keyed by its last column, as `dict(zip(header, row))` does; some gspread versions refuse such a header instead.
- Planning.NamedNumber: `plan.get` on a missing column is 0, and `float` of a text cell (an empty one included) raises; gspread's `numericise` of texts such as `"1,5"` is not modelled.
- Floating point is not modelled. Amounts are exact reals. Rounding to cents (`round(x, 2)`, `%.2f`) is round-half-even on the exact value, so format round-trips are stated for cent-exact amounts.
- Money.ParseDecimal: accepts an optional `-`, digits and at most one `.`, which is all a cleaned amount can hold. Python's `float` also accepts exponents, `inf`, `nan`, `+`, surrounding spaces, `_` between digits and non-ASCII Unicode digits. Of these, only the plan tab's `to_float` can meet some, and the model reads them as unparseable.
- DateParse.DayFirst: pandas' `to_datetime` format inference is reduced to the day-first `D/M/YYYY` reading plus the spreadsheet-serial fallback. Only four-digit years are read back (DateParse.FormatDMYRoundTrip). The `Timestamp` range is modelled as NaT for a parsed date outside it.
- DateParse.ParseStrippedColumn: works on a sequence value. The in-place `d.loc[mask] = …` is the loop's reassignment of one entry at a time, and aliasing of the pandas series is not modelled.
- Dates.AddDays: dates are unbounded. The `Timestamp` and `Timedelta` bounds of `base + to_timedelta(...)` are stated where the source meets them, in DateParse.ReadStripped and DateParse.ParseStrippedColumn.
- Invoice.SearchAllows: the search pattern is a regular expression. The model gives `.` its meaning (any character but a newline); every other character is matched literally. So `^ $ * + ? { } [ ] \ | ( )` in a search are not modelled: pandas gives them their regex meaning, or raises `re.error` for a malformed pattern. The members built on it inherit this: Invoice.SearchStep, Invoice.ApplyFiltersKeeps, Invoice.ApplyFiltersMembers, Invoice.InvoiceExpenseRows, Invoice.InvoiceRefundRows, Invoice.ExpenseSelected, Invoice.ExpenseListed, Detail.DetailFilterKeeps, Detail.SaveEnabledIff.
- Invoice.SearchStep: as Invoice.SearchAllows; only `.` is a metacharacter.
- Invoice.ApplyFiltersKeeps: as Invoice.SearchAllows; only `.` is a metacharacter.
- Invoice.ApplyFiltersMembers: as Invoice.SearchAllows; only `.` is a metacharacter.
- Invoice.InvoiceExpenseRows: as Invoice.SearchAllows; only `.` is a metacharacter.
- Invoice.InvoiceRefundRows: as Invoice.SearchAllows; only `.` is a metacharacter.
- Invoice.ExpenseSelected: as Invoice.SearchAllows; only `.` is a metacharacter.
- Invoice.ExpenseListed: as Invoice.SearchAllows; only `.` is a metacharacter.
- Detail.DetailFilterKeeps: as Invoice.SearchAllows; only `.` is a metacharacter.
- Detail.SaveEnabledIff: as Invoice.SearchAllows; only `.` is a metacharacter.
- NormText.FoldChar: Unicode NFKD decomposition is given by a table over Latin-1. Other characters fold to nothing, as if non-ASCII without a decomposition.
- Text.Lower: covers the ASCII and Latin-1 letters. Python's full Unicode case mapping is left out.
- Sheets.Score: counts each wanted word once, over the distinct word list, which is what `len(tokens & wanted)` does with the set of normalised cells.
- Planning.ToFloat: a `ValueError` from `float` is the value `None`. The page's crash is not modelled further.
- Entry.SnapshotAmountReadBack: a negative snapshot is read back as its magnitude, because `Saldo` is not a debit type. The model states this rather than a sign-preserving round-trip.
- Payments.RegisterBill: writes the day as its decimal text. The `Dia` coercion on reading (Sheets.PmDay) takes it back.
- Concurrency and last-writer-wins between sessions are not modelled.

## Findings

| source | as written | input that shows it | evidently intended | confidence | as-written member | corrected member |
|---|---|---|---|---|---|---|
| sheets.py:108-110 | `_ajusta_sinal` runs before `Tipo` is stripped and compares the raw cell with `"Despesa"` | a row whose `Tipo` is `" Despesa"` and whose `Valor` is `10`: it loads as a `Despesa` of +10 | every loaded amount carries the sign of its (stripped) type | not executed | Sheets.PaddedTypeSignedWrongly (over Sheets.ToTxnAsWritten) | Sheets.ToTxn, with Sheets.LoadedRowsSignedAndTrimmed |
| tabs/detalhamento.py:46,58-59 | a missing amount is shown as `fmt_currency(NaN)`; the save cleans it to `""` and `astype(float)` raises | a month row with an empty `Valor` cell, saved without edits | an unedited missing amount is saved as missing | not executed | Detail.MissingAmountRaisesAsWritten (over Detail.ParseEditValueAsWritten) | Detail.ParseEditValue, with Detail.ParseEditValueOfView |
| tabs/pagamentos.py:35-45,72-80 | the pending list compares `desc|cat|resp` joined texts, the payment guard compares the three fields | a bill `("a", "b|c", "r")` and a month `Despesa` `("a|b", "c", "r")`: the bill leaves the pending list, yet the guard finds it unpaid | a bill is pending iff no `Despesa` of the month matches it field by field | not executed | Payments.KeyCollision (over Payments.PendingBills) | Payments.PendingByFields, with Payments.PendingAgree |
| sheets.py:142-146 | `load_plan_df` returns `_load()`, a DataFrame, and tabs/planejamento.py:18 calls it with `()`, which raises `TypeError`; line 57 calls `.clear()` on it too | any plan sheet: opening the plan tab raises | `load_plan_df` returns the cached loader `_load`, so `()` loads the frame and `.clear()` empties the cache | not executed | Planning.PlanPageRaisesAsWritten (over Planning.LoadPlanDfAsWritten) | Planning.PlanPageOpens (over Planning.LoadPlanDf) |
