# Bank-statement ingestion and categorization, modelled in Dafny

This project models the core of a personal-finance agent's ingestion pipeline for ING bank
statements (`src/finagent/tools/`). It has three layers:

- **Normalization** (`normalization.py`) parses European amounts ("1.234,56") into signed cents.
  It also pulls a `Valutadatum: dd-mm-yyyy` value date out of a description and normalizes
  whitespace. It strips the volatile tokens (timestamps, card sequence numbers, terminal ids,
  Apple Pay markers, transaction ids) from descriptions. Finally it builds the eight-part,
  `|`-joined pre-image of a transaction fingerprint.
- **Ingesters** turn a bank export into rows of a small SQLite database. There are three:
  - `csv_ingest.py` for ING CSV exports;
  - `excel_ingest.py` for `.xls`/`.xlsx` workbooks, with synonym-based header lookup;
  - `pdf_ingest.py` for PDF statements, with a heuristic line scanner.

  The database has tables for documents, accounts, transactions and parse events. Each ingester:
  - registers the document by its content digest;
  - resolves the account;
  - runs every data row through the same steps: parse, fingerprint, then `INSERT OR IGNORE` of the transaction;
  - logs a failing row as one ok=0 parse event and carries on;
  - ends with an ok=1 summary event.
- **Categorizer** (`categorizer.py`) runs an ordered keyword table over the uncategorized
  transactions and sets the category of the first keyword that matches.

Files:

- `wrappers.dfy`: Option and Result.
- `text.dfy`: the Python `str` operations used (`strip` and whitespace collapsing over Python's whitespace class, ASCII `lower`, `upper` and `title`, `join`, integer rendering).
- `normalization.dfy`: amount parsing, value dates, text and description normalization, and the fingerprint pre-image.
- `ledger.dfy`:
  - the database as a value;
  - the SQL lookups and inserts as functions;
  - the per-row state machine every ingester runs (`ApplyPlan`, `ApplyPlans`);
  - the properties of that machine (counters, isolation of failing rows, idempotent re-import).
- `store.dfy`: the connection as a class whose table fields are updated in place. There is one method per SQL statement, each tied to the `Ledger` functions.
- `csv_ingest.dfy`, `excel_ingest.dfy`, `pdf_ingest.dfy`: per ingester:
  - the pure row parsing;
  - a specification function of the whole run;
  - the imperative run over a `Store`, proved equal to that function;
  - lemmas about the run.
- `categorizer.dfy`: find-or-create of categories, the first-match keyword scan, and the row loop, with its specification and lemmas.

Identifiers are modelled as row positions plus one, because rows are only appended.

Two behaviours of the code that a reader might not expect:

- **The unknown-account bucket.** Every PDF import does an `INSERT OR IGNORE` of its account key. One column of that key is always NULL. The model assumes the schema's constraint UNIQUE(institution, iban, account_no) on accounts, under which SQLite never lets a NULL column conflict, so the insert is never ignored. Each import therefore appends an account row (`PdfIngest.PdfAccount`). All imports still *use* the first such row, so the bucket is shared as an id, but the table holds duplicates.
- **Categories.** The categorizer is the only code that sets a transaction's `category_id`; it is modelled together with the ingesters whose rows it reads.

## Model

| member | source | states |
|---|---|---|
| Normalization.ParseEuAmountToCents | src/finagent/tools/normalization.py:14-24 | succeeds exactly when the cleaned literal is a decimal number; "af" (any case, surrounding spaces) gives a result ≤ 0, anything else ≥ 0; the magnitude is the literal's value in cents |
| Normalization.FloatLiteral | src/finagent/tools/normalization.py:15-19 | the text `float()` receives: stripped, every '.', NBSP and space removed, ',' turned into '.'; no contract of its own, its values are stated by `GroupedLiteral`, `CommaLiteralCents` and `ParseDotDecimalAmount` |
| Normalization.DecimalCents | src/finagent/tools/normalization.py:20-21 | `int(round(float(t) * 100))` for an optional sign, ASCII digits and at most two fraction digits, None for any other literal; no contract of its own, its values are stated by `DecimalCentsOfPoint` and `CommaLiteralCents` |
| Normalization.DecimalCentsOfPoint | src/finagent/tools/normalization.py:20-21 | `round(float("w.f") * 100)` for digits w and one or two fraction digits f is w·100 plus the cents f denotes |
| Normalization.CommaLiteralCents | src/finagent/tools/normalization.py:15-21 | the literal "d…d,dd" reaches `float()` as "d…d.dd" and denotes d…d·100+dd cents |
| Normalization.ParseVia | src/finagent/tools/normalization.py:20-24 | whenever the cleaned literal denotes a non-negative number of cents, the result is that number, negated exactly for "af" |
| Normalization.ParseCommaAmount | src/finagent/tools/normalization.py:14-24 | "d…d,dd" (decimal comma) parses to d…d·100+dd cents, negated for "af" |
| Normalization.ParseFormattedAmount | src/finagent/tools/normalization.py:14-24 | a cents value written as "d…d,dd" parses back to the same cents, negated for "af" |
| Normalization.GroupedLiteral | src/finagent/tools/normalization.py:15-19 | in "h.ggg,dd" the thousands dot is removed and the comma becomes the decimal point: `float()` sees "hggg.dd" |
| Normalization.GroupedCents | src/finagent/tools/normalization.py:15-21 | "h.ggg,dd" denotes hggg·100+dd cents |
| Normalization.ParseGroupedAmount | src/finagent/tools/normalization.py:15-21 | "h.ggg,dd" (thousands dot, decimal comma) parses to hggg·100+dd cents |
| Normalization.ParseDotDecimalAmount | src/finagent/tools/normalization.py:15-21 | every '.' is dropped as a thousands separator, so "w.d" parses as the integer wd, not as a decimal |
| Normalization.DmyToIso | src/finagent/tools/normalization.py:31-32 | `strptime("%d-%m-%Y")` plus `isoformat()`: succeeds exactly for a real calendar date, and the result is `yyyy-mm-dd` holding the same day, month and year |
| Normalization.FindValutaFrom | src/finagent/tools/normalization.py:11 | the first position from which `Valutadatum:`, optional whitespace and a `dd-mm-yyyy` token match |
| Normalization.TryExtractValueDate | src/finagent/tools/normalization.py:27-32 | None exactly when no `Valutadatum:` token occurs; a value only when the first token's date exists in the calendar, and then that date reordered to ISO; an error only when it does not exist |
| Normalization.ValueDateOfFirst | src/finagent/tools/normalization.py:27-32 | given the leftmost token, the result is an error exactly when its date does not exist, and otherwise the ISO form of exactly that date |
| Normalization.NormalizeText | src/finagent/tools/normalization.py:35-39 | the result is stripped and single-spaced, and never longer than the input (its content: `NormalizeTextJoinsWords`) |
| Normalization.NormalizeTextIdempotent | src/finagent/tools/normalization.py:35-39 | normalizing twice equals normalizing once |
| Normalization.Words | src/finagent/tools/normalization.py:38 | `str.split()`: the maximal non-whitespace runs, each non-empty and free of whitespace |
| Normalization.NormalizeTextJoinsWords | src/finagent/tools/normalization.py:35-39 | the result is the input's words, in order and unchanged, joined by single spaces (`" ".join(v.split())`) |
| Normalization.CollapseTrimmed | src/finagent/tools/normalization.py:38 | collapsing whitespace in a stripped text joins its words with single spaces |
| Normalization.WordsTrimLeft | src/finagent/tools/normalization.py:36 | leading whitespace removed by `strip` changes no word |
| Normalization.WordsTrimRight | src/finagent/tools/normalization.py:36 | trailing whitespace removed by `strip` changes no word |
| Normalization.DigitRun | src/finagent/tools/normalization.py:47 | the longest run of digits at the front (`\d+`) |
| Normalization.NonSpaceRun | src/finagent/tools/normalization.py:48-50 | the longest run of non-whitespace at the front (`\S+`) |
| Normalization.MatchVolatile | src/finagent/tools/normalization.py:45-51 | the length of the match of one volatile pattern at the front of a text: never empty, never longer than the text |
| Normalization.RemoveMatches | src/finagent/tools/normalization.py:53 | `re.sub(p, "", s)`: never longer than s; what it keeps and drops is stated by `RemoveMatchesNoMatch`, `RemoveMatchesKeepsPrefix` and `RemoveMatchesDropsToken` |
| Normalization.RemoveMatchesNoMatch | src/finagent/tools/normalization.py:52-53 | `re.sub` of a pattern that matches nowhere leaves the text unchanged |
| Normalization.RemoveMatchesKeepsPrefix | src/finagent/tools/normalization.py:52-53 | text before the first match is kept verbatim |
| Normalization.RemoveMatchesDropsToken | src/finagent/tools/normalization.py:52-53 | a matched volatile token is deleted and the scan resumes after it |
| Normalization.VolatileTokenIgnored | src/finagent/tools/normalization.py:44-53 | two descriptions that differ only in one volatile token (timestamp, sequence number, terminal id, …) normalize alike |
| Normalization.NormalizeDescription | src/finagent/tools/normalization.py:42-55 | the result is stripped, single-spaced and never longer than the input (its content: the two lemmas below) |
| Normalization.RemovePatterns | src/finagent/tools/normalization.py:52-53 | the volatile patterns removed one after the other, in list order: never longer than the text; content by `RemovePatternsNoMatch` and `RemovePatternsFrom` |
| Normalization.RemovePatternsNoMatch | src/finagent/tools/normalization.py:52-53 | patterns that match nowhere leave the text unchanged |
| Normalization.RemovePatternsFrom | src/finagent/tools/normalization.py:52-53 | patterns earlier in the list that match nowhere have no effect on the ones after them |
| Normalization.NormalizeDescriptionNoVolatile | src/finagent/tools/normalization.py:42-55 | a description with no volatile token normalizes to exactly `normalize_text` of it |
| Normalization.VolatileTokenIgnoredInDescription | src/finagent/tools/normalization.py:42-55 | two descriptions whose normalized texts differ only in one token of a volatile pattern (earlier patterns matching nowhere) get the same normalized description |
| Normalization.HashParts | src/finagent/tools/normalization.py:71-80 | the fingerprint pre-image has exactly eight parts |
| Normalization.Fingerprint | src/finagent/tools/normalization.py:70-82 | the '\|'-joined parts standing for their SHA-256; no contract of its own: equal parts give equal fingerprints (`FingerprintDependsOnlyOnParts`) and, for '\|'-free parts, only equal parts do (`FingerprintSeparatesFields`) |
| Normalization.FingerprintDependsOnlyOnParts | src/finagent/tools/normalization.py:70-81 | inputs that agree on account, booking date, value date ("" for None), cents and the upper-cased currency, direction, normalized counterparty and description fingerprint alike |
| Normalization.FingerprintSeparatesFields | src/finagent/tools/normalization.py:70-81 | when no part holds '\|', equal fingerprints mean equal parts, hence the same account id and the same cents |
| Ledger.RegisterDocument | src/finagent/tools/csv_ingest.py:66-80 | a known digest reuses its document id with `docs_new`=0; an unknown one appends one document, sets `docs_new`=1, and the digest then finds it |
| Ledger.RegisterDocumentAgain | src/finagent/tools/csv_ingest.py:66-73 | registering the same digest again inserts nothing and returns the same id |
| Ledger.ResolveAccount | src/finagent/tools/csv_ingest.py:48-60 | `_ensure_account`: an existing key returns its first id and inserts nothing; otherwise exactly one row is appended and its id returned |
| Ledger.ResolveAccountIdempotent | src/finagent/tools/csv_ingest.py:48-60 | a repeated call returns the same id and inserts nothing |
| Ledger.InsertTxnOrIgnore | src/finagent/tools/csv_ingest.py:122-143 | the fingerprint is present afterwards; the table grows by exactly one row iff the fingerprint was absent, that row is the given one, and existing rows never change |
| Ledger.InsertTxnKeepsUnique | src/finagent/tools/csv_ingest.py:122-143 | inserting keeps fingerprints unique |
| Ledger.SetTxnCategory | src/finagent/tools/categorizer.py:82 | only the row with that id changes, and only its category |
| Ledger.ResolveChoice | src/finagent/tools/csv_ingest.py:107 | the account a row names is found afterwards; accounts are only appended, and an existing account is reused |
| Ledger.DirectionOf | src/finagent/tools/csv_ingest.py:117 | always DEBIT or CREDIT; for a stripped token, DEBIT exactly when it lower-cases to "af" |
| Ledger.TxnOf | src/finagent/tools/csv_ingest.py:108-143 | the inserted row: the pending fields, the resolved account id, the document id, the fingerprint of the row's hash input and a NULL category; no contract of its own, `InsertTxnOrIgnore` states it is appended as given |
| Ledger.ApplyPlan | src/finagent/tools/csv_ingest.py:91-151 | one turn of the row loop: a failing row appends its ok=0 event and counts `tx_seen`; a parsed row resolves its account, inserts its transaction unless the fingerprint is present and counts `tx_new` when it was inserted; no contract of its own, `FailingRowIsolated` and `ApplyPlansEffect` state its effect |
| Ledger.ApplyPlans | src/finagent/tools/csv_ingest.py:90-151 | the row loop: `ApplyPlan` over the rows in order; no contract of its own, its effect is stated by `ApplyPlansEffect`, `NewAtMostSeen`, `ApplyPlansKeepsUnique`, `ApplyPlansCovers` and `ReapplyInsertsNothing` |
| Ledger.FailureEvents | src/finagent/tools/csv_ingest.py:147-151 | one event per failing row, each ok=0 at stage "parse" for this document |
| Ledger.ApplyPlansEffect | src/finagent/tools/csv_ingest.py:90-151 | the row loop adds `len(rows)` to `tx_seen` and the number of inserted rows to `tx_new`; it only appends transactions and accounts, appends exactly the failing rows' events, and leaves documents and categories alone |
| Ledger.NewAtMostSeen | src/finagent/tools/csv_ingest.py:144-146 | `tx_new ≤ tx_seen` is preserved by the row loop |
| Ledger.ApplyPlansKeepsUnique | src/finagent/tools/csv_ingest.py:122-146 | the row loop keeps transaction fingerprints unique |
| Ledger.FailingRowIsolated | src/finagent/tools/csv_ingest.py:147-151 | a failing row changes nothing but `tx_seen` (+1) and the events: accounts, transactions and `tx_new` are as if it were absent |
| Ledger.ApplyPlansCovers | src/finagent/tools/csv_ingest.py:107-143 | after the loop every successful row's account and fingerprint are stored |
| Ledger.CoveredRowsInsertNothing | src/finagent/tools/csv_ingest.py:122-146 | rows whose account and fingerprint are already stored insert nothing and count no `tx_new` |
| Ledger.ReapplyInsertsNothing | src/finagent/tools/csv_ingest.py:122-146 | replaying the same rows on any database that kept the first run's rows inserts nothing |
| Storage.Store.InsertDocument | src/finagent/tools/csv_ingest.py:75-80 | appends the document and returns its id |
| Storage.Store.InsertEvent | src/finagent/tools/csv_ingest.py:148-151 | appends one parse event, nothing else changes |
| Storage.Store.EnsureAccount | src/finagent/tools/csv_ingest.py:48-60 | the accounts table and id are those of `ResolveAccount` |
| Storage.Store.InsertAccountOrIgnore | src/finagent/tools/pdf_ingest.py:96-99 | appends the key unless every column is non-NULL and the key is present |
| Storage.Store.InsertTxnOrIgnore | src/finagent/tools/csv_ingest.py:122-146 | the table is `InsertTxnOrIgnore` of the old one, and `changes()>0` exactly when the fingerprint was new |
| Storage.Store.ApplyRow | src/finagent/tools/csv_ingest.py:91-151 | one loop iteration: the new tables and counters are `ApplyPlan` of the old ones |
| Storage.Store.SetCategory | src/finagent/tools/categorizer.py:82 | `UPDATE ... SET category_id`: the transactions become `SetTxnCategory` of the old ones |
| Storage.Store.InsertCategory | src/finagent/tools/categorizer.py:41-45 | appends the category and returns its id |
| CsvIngest.StrippedField | src/finagent/tools/csv_ingest.py:93-106 | `row.get(key, "").strip()`: fails exactly for a present key without a value (short row), is stripped, and is "" for a missing key |
| CsvIngest.BookingIso | src/finagent/tools/csv_ingest.py:95-98 | eight digits become `yyyy-mm-dd` whose digits are the input's; anything else passes through unchanged |
| CsvIngest.ReadHead | src/finagent/tools/csv_ingest.py:93-101 | succeeds exactly when `Datum` and `Mededelingen` have values, `Naam / Omschrijving` has one whenever the stripped `Mededelingen` is empty, the description's `Valutadatum` (if any) is a real date, and `Af Bij` has a value; a value-less `Datum` is the error; the booking date is `BookingIso` of the stripped `Datum`; the description is the stripped `Mededelingen` if non-empty, else the stripped `Naam / Omschrijving`; the value date is what `TryExtractValueDate` finds in it; the direction token is the stripped `Af Bij` |
| CsvIngest.CsvPlan | src/finagent/tools/csv_ingest.py:92-143 | a row whose head is read is exactly `RowPlan` of that head, and a row whose head fails fails; so it succeeds iff both `ReadHead` and `RowPlan` do; a parsed row's sign agrees with its direction; its account is keyed by `Rekening` with no account number; a value date is ISO-shaped |
| CsvIngest.CsvPlanDirection | src/finagent/tools/csv_ingest.py:101-138 | a parsed row is DEBIT exactly when its `Af Bij` cell is "af" up to case and blanks |
| CsvIngest.RowPlan | src/finagent/tools/csv_ingest.py:102-143 | succeeds exactly when `Bedrag (EUR)` (default "0") has a value that `ParseEuAmountToCents` accepts and `Naam / Omschrijving` and `Rekening` have values; the amount is that parse under the head's direction token; direction, dates and description are the head's; the account is keyed by the stripped `Rekening`; the counterparty IBAN and name are the stripped `Tegenrekening` and `Naam / Omschrijving` or None, and the fingerprint's counterparty is IBAN-or-name; the normalized description is `NormalizeDescription` of the description |
| CsvIngest.NonEmpty | src/finagent/tools/csv_ingest.py:104-105 | `x or None`: None exactly for "" |
| CsvIngest.DirectionOfStripped | src/finagent/tools/csv_ingest.py:101-117 | the stored direction is DEBIT exactly when the raw `Af Bij` value is "af" up to case and spaces |
| CsvIngest.StartCsv | src/finagent/tools/csv_ingest.py:64-84 | the document step and its ingest event, as `CsvStart` |
| CsvIngest.CsvRows | src/finagent/tools/csv_ingest.py:90-151 | the row loop leaves the tables and counters `ApplyPlans` gives |
| CsvIngest.IngestCsvSpec | src/finagent/tools/csv_ingest.py:63-158 | a run on the database as a value: the document step and its ingest event, `ApplyPlans` over `CsvPlan` of each row, the summary event; no contract of its own, stated by `IngestCsvCounts`, `IngestCsvEvents` and `IngestCsvTwice` |
| CsvIngest.IngestCsvIng | src/finagent/tools/csv_ingest.py:63-158 | the whole run equals `IngestCsvSpec` |
| CsvIngest.IngestCsvCounts | src/finagent/tools/csv_ingest.py:64-146 | `docs_new` is 1 exactly for an unknown digest; `tx_seen` = number of rows; `tx_new ≤ tx_seen` and equals the growth of the transactions table; accounts and transactions are only appended |
| CsvIngest.IngestCsvEvents | src/finagent/tools/csv_ingest.py:65-156 | the events are: one ok=1 ingest event ("Already imported" or "New document imported"), one ok=0 event per failing row, one ok=1 summary with the final counters |
| CsvIngest.IngestCsvTwice | src/finagent/tools/csv_ingest.py:63-158 | importing the same file again gives `docs_new`=0, `tx_new`=0 and unchanged documents, accounts and transactions |
| ExcelIngest.Or | src/finagent/tools/excel_ingest.py:136-143 | `a or b` on strings |
| ExcelIngest.NormHeaders | src/finagent/tools/excel_ingest.py:94 | every header stripped and case-folded, in order |
| ExcelIngest.Position | src/finagent/tools/excel_ingest.py:99 | `list.index`: the first position holding the value |
| ExcelIngest.Idx | src/finagent/tools/excel_ingest.py:96-100 | None exactly when no synonym is a header; otherwise the first header position of the first synonym, in synonym order, that is present |
| ExcelIngest.CellText | src/finagent/tools/excel_ingest.py:114-118 | "" for no index, an index past the row or an empty cell; otherwise the stripped rendering of the cell |
| ExcelIngest.ExcelBookingDate | src/finagent/tools/excel_ingest.py:120-134 | eight digits become `yyyy-mm-dd`; otherwise a numeric cell at the date column (column 0 when there is none) with a serial-date conversion gives that, and anything else the raw text |
| ExcelIngest.ZeroAmount | src/finagent/tools/excel_ingest.py:139 | the default amount "0" parses to 0 cents under any sign |
| ExcelIngest.DefaultSignIsDebit | src/finagent/tools/excel_ingest.py:138-157 | the default sign "Af" means DEBIT |
| ExcelIngest.ExcelPlan | src/finagent/tools/excel_ingest.py:113-161 | succeeds exactly when the memo-or-name description's value date and the amount-or-"0" under the sign-or-"Af" both parse; a failure is a bad amount or a bad date; on success: booking date is `ExcelBookingDate` of the date column, value date is what `TryExtractValueDate` finds in the description, amount is that parse, sign and direction agree (an empty sign cell gives DEBIT, otherwise DEBIT iff "af"), an empty amount gives 0, the account is keyed by the account cell or None, the counterparty IBAN and name are their cells or None, and the normalized description is `NormalizeDescription` of the description |
| ExcelIngest.ExcelRow | src/finagent/tools/excel_ingest.py:120-161 | given the parsed amount of the amount-or-"0" cell: sign and direction agree, an empty sign cell gives DEBIT, otherwise DEBIT iff "af"; every stored field is tied to its cell |
| ExcelIngest.SourceType | src/finagent/tools/excel_ingest.py:72 | the lower-cased suffix without its leading dots |
| ExcelIngest.StartExcel | src/finagent/tools/excel_ingest.py:63-75 | the document step (no ingest event), as `ExcelStart` |
| ExcelIngest.ExcelRows | src/finagent/tools/excel_ingest.py:111-191 | the row loop leaves the tables and counters `ApplyPlans` gives |
| ExcelIngest.IngestExcelSpec | src/finagent/tools/excel_ingest.py:53-198 | a run on the database as a value: the document step, then one failure event when the library is missing, or `ApplyPlans` over `ExcelPlan` of each row and the summary event; no contract of its own, stated by `IngestExcelMissingLibrary`, `IngestExcelCounts` and `IngestExcelTwice` |
| ExcelIngest.IngestXls | src/finagent/tools/excel_ingest.py:53-198 | the whole run equals `IngestExcelSpec` |
| ExcelIngest.IngestExcelMissingLibrary | src/finagent/tools/excel_ingest.py:80-91 | without the workbook library: one ok=0 event, no row read, no transaction or account added |
| ExcelIngest.IngestExcelCounts | src/finagent/tools/excel_ingest.py:64-196 | `docs_new` is 1 exactly for an unknown digest; `tx_seen` = number of rows; `tx_new` = transactions inserted ≤ `tx_seen`; events are the failing rows' plus one summary |
| ExcelIngest.IngestExcelTwice | src/finagent/tools/excel_ingest.py:53-198 | importing the same workbook again inserts nothing and counts `docs_new`=0, `tx_new`=0 |
| PdfIngest.FirstBreak | src/finagent/tools/pdf_ingest.py:35 | the first line-break character, with none before it |
| PdfIngest.Pieces | src/finagent/tools/pdf_ingest.py:35 | `splitlines()` up to blank pieces: at least one piece, none holding a line break (content: `PiecesWhole`, `PiecesJoin`, `PiecesSplit`); it splits at every boundary character, so "\r\n", a trailing break and "" give blank pieces `splitlines` does not, and `_extract_lines` discards exactly those |
| PdfIngest.PiecesWhole | src/finagent/tools/pdf_ingest.py:35 | a text without line boundaries is one piece, itself |
| PdfIngest.PiecesJoin | src/finagent/tools/pdf_ingest.py:35 | when every boundary is '\n', joining the pieces with '\n' gives back the text |
| PdfIngest.KeepLines | src/finagent/tools/pdf_ingest.py:35 | never more lines than pieces, each non-empty and stripped (content: the lemmas below) |
| PdfIngest.KeepLinesOne | src/finagent/tools/pdf_ingest.py:35 | one piece is kept, stripped, exactly when it is not blank |
| PdfIngest.KeepLinesMembers | src/finagent/tools/pdf_ingest.py:35 | every kept line is a stripped piece, and every non-blank stripped piece is kept |
| PdfIngest.KeepLinesNoBreak | src/finagent/tools/pdf_ingest.py:35 | stripping adds no line break, so the kept lines of break-free pieces are break-free |
| PdfIngest.ExtractLines | src/finagent/tools/pdf_ingest.py:34-35 | every extracted line is non-empty, stripped and free of line breaks (content: `ExtractLinesOne`, `ExtractLinesSplit`) |
| PdfIngest.ExtractLinesOne | src/finagent/tools/pdf_ingest.py:34-35 | a text without line boundaries has exactly one line, itself stripped, unless it is blank |
| PdfIngest.PiecesSplit | src/finagent/tools/pdf_ingest.py:35 | splitting at a line break splits the pieces |
| PdfIngest.KeepLinesAppend | src/finagent/tools/pdf_ingest.py:35 | filtering distributes over concatenation, so line order is kept |
| PdfIngest.ExtractLinesSplit | src/finagent/tools/pdf_ingest.py:34-35 | the lines of `a + "\n" + b` are the lines of a followed by the lines of b |
| PdfIngest.JoinedPagesLines | src/finagent/tools/pdf_ingest.py:91-92 | the lines of the newline-joined pages are the pages' lines in page order |
| PdfIngest.FindIbanFrom | src/finagent/tools/pdf_ingest.py:30-39 | the first word-bounded IBAN-shaped position from i on |
| PdfIngest.GuessAccountIban | src/finagent/tools/pdf_ingest.py:38-40 | None exactly when no IBAN-shaped token occurs; otherwise the 18-character first one |
| PdfIngest.AmountPrefixMatches | src/finagent/tools/pdf_ingest.py:31 | an amount match is still the whole match when cut out of its line |
| PdfIngest.FindDateFrom | src/finagent/tools/pdf_ingest.py:29-46 | the first word-bounded `dd-mm-yyyy` position from i on |
| PdfIngest.FindAmountFrom | src/finagent/tools/pdf_ingest.py:31-47 | the first position from i on where an amount matches |
| PdfIngest.RemoveDatesFrom | src/finagent/tools/pdf_ingest.py:53 | `_DATE_RE.sub("", s)` from position i: never longer than the rest of s |
| PdfIngest.RemoveDatesNoMatch | src/finagent/tools/pdf_ingest.py:53 | where the date search from i finds nothing, the rest of the line is kept as it is |
| PdfIngest.RemoveAmountsFrom | src/finagent/tools/pdf_ingest.py:54 | `_AMOUNT_RE.sub("", s)` from position i: never longer than the rest of s |
| PdfIngest.RemoveAmountsNoMatch | src/finagent/tools/pdf_ingest.py:54 | where the amount search from i finds nothing, the rest of the line is kept as it is |
| PdfIngest.Description | src/finagent/tools/pdf_ingest.py:51-55 | the line without its date and amount matches, stripped, or else the next line, or "" for the last line; no contract of its own, `CandidateAt` states it is the candidate's description |
| PdfIngest.CandidateAt | src/finagent/tools/pdf_ingest.py:45-56 | a line yields a candidate iff it holds both a date and an amount; the candidate's date is the first date match, its amount the first amount match, its description `Description` of the line |
| PdfIngest.LineCandidate | src/finagent/tools/pdf_ingest.py:45-56 | the same for one line and a given description |
| PdfIngest.DateToken | src/finagent/tools/pdf_ingest.py:49 | the matched date text is a `dd-mm-yyyy` token |
| PdfIngest.AmountToken | src/finagent/tools/pdf_ingest.py:50 | the matched amount text is a whole amount match and a prefix of the text |
| PdfIngest.CandidatesFrom | src/finagent/tools/pdf_ingest.py:43-56 | at most one candidate per line, each with a date token and a whole amount token |
| PdfIngest.Candidates | src/finagent/tools/pdf_ingest.py:43-56 | as `CandidatesFrom` over all lines (content: `CandidatesInLineOrder`) |
| PdfIngest.Yields | src/finagent/tools/pdf_ingest.py:43-56 | what each line yields, line by line |
| PdfIngest.SomeIndices | src/finagent/tools/pdf_ingest.py:43-56 | the positions from i on that yield something, all in range |
| PdfIngest.SomeIndicesExact | src/finagent/tools/pdf_ingest.py:43-56 | those positions are exactly the yielding ones, each once, in increasing order |
| PdfIngest.SomesAtIndices | src/finagent/tools/pdf_ingest.py:43-56 | the kept values are, position by position, the values at those positions |
| PdfIngest.CandidatesFromSomes | src/finagent/tools/pdf_ingest.py:43-56 | the scan keeps what each line yields and drops the lines that yield nothing |
| PdfIngest.CandidatesInLineOrder | src/finagent/tools/pdf_ingest.py:43-56 | the k-th candidate is the candidate of the k-th yielding line: none skipped, repeated or reordered |
| PdfIngest.Hint | src/finagent/tools/pdf_ingest.py:124 | "Af" exactly when the stripped amount holds a '-' |
| PdfIngest.PdfCents | src/finagent/tools/pdf_ingest.py:124-125 | succeeds exactly when the token without '-' is a decimal literal; its magnitude is that literal's cents, ≤ 0 when the token had a '-' and ≥ 0 otherwise; a failure names the token without '-' |
| PdfIngest.PdfDirection | src/finagent/tools/pdf_ingest.py:124-135 | DEBIT exactly when the amount holds a '-' |
| PdfIngest.PdfPlan | src/finagent/tools/pdf_ingest.py:120-138 | a token that is not `dd-mm-yyyy` or names no real date is a `BadDate` error; for a `dd-mm-yyyy` token the row succeeds exactly when the date is real and `PdfCents` of the amount succeeds; a parsed row has that amount, sign and direction agreeing (DEBIT iff '-'), the ISO date of the token, the PDF's account, no value date, no counterparty, the candidate's description and its `NormalizeDescription` |
| PdfIngest.PdfAccountKey | src/finagent/tools/pdf_ingest.py:95-116 | ("ING", iban, None) when an IBAN was found, else ("ING", None, "UNKNOWN_PDF") |
| PdfIngest.PdfAccount | src/finagent/tools/pdf_ingest.py:95-116 | the key is always appended; the id is the first row with that key, which is the old one when there was one |
| PdfIngest.PdfAccountStable | src/finagent/tools/pdf_ingest.py:95-116 | a second PDF with the same key gets the same account id |
| PdfIngest.StartPdf | src/finagent/tools/pdf_ingest.py:60-72 | the document step, as `PdfStart` |
| PdfIngest.EnsurePdfAccount | src/finagent/tools/pdf_ingest.py:94-116 | the accounts table and id are those of `PdfAccount` |
| PdfIngest.PdfRows | src/finagent/tools/pdf_ingest.py:118-165 | the row loop leaves the tables and counters `ApplyPlans` gives |
| PdfIngest.IngestPdfSpec | src/finagent/tools/pdf_ingest.py:59-187 | a run on the database as a value: the document step, one failure event for a missing library or an unreadable file, or the account step, `ApplyPlans` over `PdfPlan` of each candidate and the summary event; no contract of its own, stated by `IngestPdfNotRead`, `IngestPdfCounts`, `CandidatesAccountOnly` and `IngestPdfTwice` |
| PdfIngest.IngestPdfGeneric | src/finagent/tools/pdf_ingest.py:59-187 | the whole run equals `IngestPdfSpec` |
| PdfIngest.IngestPdfNotRead | src/finagent/tools/pdf_ingest.py:171-185 | without the library, or when reading fails: one ok=0 event, no row, no account, no transaction |
| PdfIngest.IngestPdfCounts | src/finagent/tools/pdf_ingest.py:60-170 | exactly one account row added; `tx_seen` = number of candidates; `tx_new` = transactions inserted ≤ `tx_seen`; events are the failing rows' plus one summary |
| PdfIngest.CandidatesAccountOnly | src/finagent/tools/pdf_ingest.py:118-160 | the row loop adds no account |
| PdfIngest.IngestPdfTwice | src/finagent/tools/pdf_ingest.py:59-187 | importing the same PDF again reuses document and account id and inserts no transaction (`tx_new`=0) |
| Categorizer.LabelFor | src/finagent/tools/categorizer.py:43 | a non-empty label is kept; otherwise the result is `TitleCased` from the code (same characters up to case, the first letter of each letter run upper-case, the other letters lower-case), which `Text.TitleCasedUnique` shows determines it |
| Text.Title | src/finagent/tools/categorizer.py:43 | `str.title()`: the result is `TitleCased` from its input and upper-cases to the same text |
| Text.TitleCasedUnique | src/finagent/tools/categorizer.py:43 | two title-cased forms of one text are equal, so `TitleCased` determines `title()` |
| Categorizer.EnsureCategorySpec | src/finagent/tools/categorizer.py:36-45 | an existing code returns its first id and inserts nothing; otherwise one category (code, label) is appended and its id returned |
| Categorizer.EnsureCategory | src/finagent/tools/categorizer.py:36-45 | the categories table and id are those of `EnsureCategorySpec` |
| Categorizer.EnsureCodes | src/finagent/tools/categorizer.py:63-66 | categories are only appended, and afterwards every code of the table exists |
| Categorizer.EnsureCodesFound | src/finagent/tools/categorizer.py:63-66 | when every code exists, ensuring them changes nothing |
| Categorizer.EnsureKeepsFound | src/finagent/tools/categorizer.py:36-45 | ensuring one code never changes the id another code finds |
| Categorizer.EnsureUnlessKnown | src/finagent/tools/categorizer.py:65-66 | a code already in `category_ids` is skipped; a new one is ensured and added, and every mapped id is still its code's first category |
| Categorizer.BuildCategoryIds | src/finagent/tools/categorizer.py:63-66 | `category_ids` holds exactly the table's codes, each mapped to its category's id, and the categories are those of `EnsureCodes` |
| Categorizer.FirstKeywordFrom | src/finagent/tools/categorizer.py:75-78 | the first table position from `from` on whose keyword is a substring of the text; None when there is none |
| Categorizer.Choose | src/finagent/tools/categorizer.py:74-78 | Some exactly when some keyword occurs; then the code of the first occurring keyword in table order |
| Categorizer.PickCategory | src/finagent/tools/categorizer.py:74-78 | the `for … break` loop computes `Choose` |
| Categorizer.CategoryFor | src/finagent/tools/categorizer.py:73-81 | a category only for a first-matching keyword with a non-empty code, and then that code's category id; None when no keyword occurs |
| Categorizer.CategoryForFirst | src/finagent/tools/categorizer.py:73-81 | when k is the first keyword that occurs, the category is the id of k's code, or None when that code is empty |
| Categorizer.Categorized | src/finagent/tools/categorizer.py:68-83 | a set category is never changed; a NULL one becomes `CategoryFor` of the row's text |
| Categorizer.Base | src/finagent/tools/categorizer.py:73 | the normalized, lower-cased text of description and counterparty |
| Categorizer.Snapshot | src/finagent/tools/categorizer.py:68-71 | the uncategorized transactions in id order; at most one row per transaction (the rows' content is used through `UpdateRowsPrefix`) |
| Categorizer.UpdateRows | src/finagent/tools/categorizer.py:72-83 | the row loop over the snapshot rows: keeps the number of transactions; its content is `UpdateRowsPrefix` |
| Categorizer.CountUpdates | src/finagent/tools/categorizer.py:81-83 | how many transactions a run sets: never more than there are; `CountIsNewlySet` equates it with the rows newly set |
| Categorizer.CategorizeSpec | src/finagent/tools/categorizer.py:60-85 | `categorize_transactions` on the tables as a value; no contract of its own, stated by `CategorizeEffect` and `CategorizeTwice` |
| Categorizer.UpdateCategories | src/finagent/tools/categorizer.py:72-83 | the row loop leaves the transactions and `tx_updated` that `UpdateRows` gives, and changes no other table |
| Categorizer.CategorizeTransactions | src/finagent/tools/categorizer.py:60-85 | the whole run equals `CategorizeSpec` |
| Categorizer.UpdateRowsPrefix | src/finagent/tools/categorizer.py:68-83 | the loop over the snapshot of NULL rows categorizes every transaction independently and counts the rows it set |
| Categorizer.CountIsNewlySet | src/finagent/tools/categorizer.py:81-83 | the count of updates equals the number of rows whose category went from NULL to set |
| Categorizer.CategorizeEffect | src/finagent/tools/categorizer.py:60-85 | each transaction is categorized on its own; `tx_updated` = rows newly set; `merchants_new` and `categories_new` stay 0; documents, accounts and events are untouched |
| Categorizer.CategorizedStable | src/finagent/tools/categorizer.py:68-83 | categorizing categorized transactions changes nothing and counts 0 updates |
| Categorizer.CategorizeTwice | src/finagent/tools/categorizer.py:60-85 | a second run changes nothing and reports `tx_updated`=0 |

## Left out

- SHA-256 is not modelled. The document digest is an input, and the transaction fingerprint is its `|`-joined pre-image (`Normalization.Fingerprint`), an idealised collision-free hash.
- File reading and `csv.DictReader` are not modelled. A CSV row is a map from header to an optional value; None is the restval of a short row, whose `.strip()` raises.
- Workbook loading (xlrd/openpyxl) is not modelled. A workbook arrives as header strings and rows of cells, or as "library missing". Any other error while loading the workbook (a corrupt or unreadable file) propagates out of `ingest_xls` and is not modelled.
- Errors raised by `csv.DictReader` while it iterates (`csv.Error`, `UnicodeDecodeError`) propagate out of `ingest_csv_ing`, outside the per-row handler, and are not modelled: the rows arrive already read.
- PDF page and table extraction (pdfplumber) is not modelled. A PDF arrives as its page texts, or as "library missing" or "unreadable".
- SQLite is an in-memory value. The schema file is not part of this model; the model assumes the constraints UNIQUE(institution, iban, account_no) on accounts and UNIQUE(txn_hash) on transactions, which are what make the `INSERT OR IGNORE` statements ignore a row. Row ids are positions plus one. `INSERT OR IGNORE` on accounts follows SQLite's UNIQUE rule: a NULL column never conflicts. Commits are not modelled.
- Normalization.ParseEuAmountToCents: the literal grammar is restricted to an optional sign, ASCII digits and at most one '.' followed by at most two digits. Python's `float` also accepts exponents, underscores, `inf`/`nan` and more fraction digits with binary rounding; those inputs are errors here.
- Normalization.ParseEuAmountToCents: exact decimal arithmetic. Python computes `int(round(float(s) * 100))` in binary64, which agrees with it only for amounts below about 4.5·10^13 euros; for example "90071992547409,93" gives 9007199254740994 in Python and 9007199254740993 here.
- Normalization.DecimalCents: exact decimal arithmetic. Python computes `int(round(float(s) * 100))` in binary64, which agrees with it only for amounts below about 4.5·10^13 euros; for example "90071992547409,93" gives 9007199254740994 in Python and 9007199254740993 here.
- Normalization.DecimalCentsOfPoint: exact decimal arithmetic. Python computes `int(round(float(s) * 100))` in binary64, which agrees with it only for amounts below about 4.5·10^13 euros; for example "90071992547409,93" gives 9007199254740994 in Python and 9007199254740993 here.
- Normalization.CommaLiteralCents: exact decimal arithmetic. Python computes `int(round(float(s) * 100))` in binary64, which agrees with it only for amounts below about 4.5·10^13 euros; for example "90071992547409,93" gives 9007199254740994 in Python and 9007199254740993 here.
- Normalization.ParseCommaAmount: exact decimal arithmetic. Python computes `int(round(float(s) * 100))` in binary64, which agrees with it only for amounts below about 4.5·10^13 euros; for example "90071992547409,93" gives 9007199254740994 in Python and 9007199254740993 here.
- Normalization.ParseFormattedAmount: exact decimal arithmetic. Python computes `int(round(float(s) * 100))` in binary64, which agrees with it only for amounts below about 4.5·10^13 euros; for example "90071992547409,93" gives 9007199254740994 in Python and 9007199254740993 here. The round trip therefore holds in Python only for such amounts.
- Normalization.ParseDotDecimalAmount: exact decimal arithmetic. Python computes `int(round(float(s) * 100))` in binary64, which agrees with it only for amounts below about 4.5·10^13 euros; for example "90071992547409,93" gives 9007199254740994 in Python and 9007199254740993 here.
- ExcelIngest.ExcelBookingDate: `xlrd.xldate_as_tuple` is an optional, opaque conversion carried by each numeric cell. The rendering of a numeric cell is an input string.
- Characters: whitespace (`strip`, `split`, `\s`) and line boundaries (`splitlines`) follow Python's Unicode classes, including U+0085, U+00A0, U+1680, U+2000–U+200A, U+2028, U+2029, U+202F, U+205F and U+3000. Letters, digits, case mapping (`lower`, `casefold`, `upper`, `title`) and `\w`/`\b` are ASCII. NFKD normalization is the identity.
- Regular expressions are dedicated matchers for the fixed patterns. Case-insensitive matching is ASCII.
- `_ensure_merchant` is never called and is not modelled.
- `cli.py`, the agents, spending reports, configuration, logging and tracing are not modelled.
- The `Mutatiesoort` column index is computed in the workbook ingester but never used; the model looks it up and ignores it the same way.
- PdfIngest.CandidateAt: the description (the line with all date and amount matches removed, stripped, else the next line) is computed as the code does, but no lemma states what the removal leaves of a line that holds a match; `RemoveDatesNoMatch` and `RemoveAmountsNoMatch` state only that a text without matches is kept.
- Normalization.VolatileTokenIgnoredInDescription: stated only for texts in which the patterns removed before the token's own pattern match nowhere; a token whose removal creates or destroys a match of another pattern is not covered.
- PdfIngest.PiecesJoin: the round trip is stated for texts whose line boundaries are all '\n'; for the other boundary characters `Pieces` is characterized by `PiecesWhole` and `PiecesSplit`.
