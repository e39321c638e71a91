/**
 * `ingest_xls` (src/finagent/tools/excel_ingest.py): import an ING Excel
 * export (.xls or .xlsx). The document is reused by digest or created; the
 * header row is normalised and each wanted column is located by a list of
 * synonyms; every data row becomes a transaction, with defaults for missing
 * cells; a row that raises is logged and skipped; a summary event closes
 * the run. When the workbook library is missing, one failure event is
 * logged and no row is read.
 */
module ExcelIngest {
  import opened Wrappers
  import opened Text
  import opened Normalization
  import opened Ledger
  import opened Storage
  import opened CsvIngest

  /**
   * A worksheet cell as the workbook library returns it: nothing, a string,
   * or a number. A number carries `str(value)` and the outcome of the
   * serial-date conversion the ingester attempts on it (None when that
   * conversion raises or the xls library is absent).
   */
  datatype Cell = Empty | Text(text: string) | Number(rendering: string, serialDate: Option<string>)

  /** What loading the workbook gives: the header strings and the data rows, or a missing library. */
  datatype Load = LibraryMissing | Loaded(headers: seq<string>, rows: seq<seq<Cell>>)

  /** Python's `s or d` on strings. */
  function Or(s: string, d: string): (r: string)
    ensures s != "" ==> r == s
    ensures s == "" ==> r == d
  {
    if s != "" then s else d
  }

  // ---------------------------------------------------------------------------
  // Locating columns

  /** The header synonyms, in the order the ingester tries them. */
  const DatumNames: seq<string> := ["datum", "date"]
  const NameNames: seq<string> := ["naam / omschrijving", "naam/omschrijving", "omschrijving", "description"]
  const RekeningNames: seq<string> := ["rekening", "iban", "account"]
  const TegenNames: seq<string> := ["tegenrekening", "counterparty", "iban tegenrekening"]
  const AfBijNames: seq<string> := ["af bij", "af/bij", "sign"]
  const BedragNames: seq<string> := ["bedrag (eur)", "bedrag", "amount", "amount (eur)"]
  const MutatieNames: seq<string> := ["mutatiesoort", "type"]
  const MededNames: seq<string> := ["mededelingen", "details", "memo"]

  /** The headers stripped and case-folded (ASCII lower-casing). */
  function NormHeaders(headers: seq<string>): (r: seq<string>)
    ensures |r| == |headers|
    ensures forall i :: 0 <= i < |r| ==> r[i] == Lower(Strip(headers[i]))
  {
    seq(|headers|, i requires 0 <= i < |headers| => Lower(Strip(headers[i])))
  }

  /** `list.index`: the first position holding `x`. */
  function Position(s: seq<string>, x: string): (r: nat)
    requires x in s
    ensures r < |s| && s[r] == x
    ensures forall j :: 0 <= j < r ==> s[j] != x
  {
    if s[0] == x then 0 else 1 + Position(s[1..], x)
  }

  /**
   * `idx(name_variants)`: the synonyms are tried in list order and the first
   * one present among the headers gives its first position; None when no
   * synonym is present.
   */
  function Idx(normHeaders: seq<string>, variants: seq<string>): (r: Option<nat>)
    ensures r.None? <==> forall k :: 0 <= k < |variants| ==> variants[k] !in normHeaders
    ensures r.Some? ==> r.value < |normHeaders| && normHeaders[r.value] in variants
    ensures r.Some? ==> forall j :: 0 <= j < r.value ==> normHeaders[j] != normHeaders[r.value]
    ensures r.Some? ==> exists k :: 0 <= k < |variants| && variants[k] == normHeaders[r.value] &&
                                   forall k' :: 0 <= k' < k ==> variants[k'] !in normHeaders
    decreases |variants|
  {
    if variants == [] then None
    else if variants[0] in normHeaders then Some(Position(normHeaders, variants[0]))
    else
      var r := Idx(normHeaders, variants[1..]);
      if r.Some? then
        var k :| 0 <= k < |variants[1..]| && variants[1..][k] == normHeaders[r.value] &&
          forall k' :: 0 <= k' < k ==> variants[1..][k'] !in normHeaders;
        assert variants[k + 1] == normHeaders[r.value];
        r
      else r
  }

  /** The column positions of one workbook (the `mutatiesoort` position is located but never read). */
  datatype Columns = Columns(
    datum: Option<nat>, name: Option<nat>, rekening: Option<nat>, tegen: Option<nat>,
    afBij: Option<nat>, bedrag: Option<nat>, mutatie: Option<nat>, meded: Option<nat>)

  function ColumnsOf(headers: seq<string>): Columns {
    var h := NormHeaders(headers);
    Columns(Idx(h, DatumNames), Idx(h, NameNames), Idx(h, RekeningNames), Idx(h, TegenNames),
            Idx(h, AfBijNames), Idx(h, BedragNames), Idx(h, MutatieNames), Idx(h, MededNames))
  }

  // ---------------------------------------------------------------------------
  // One row

  /** `str(v)` of a cell that is not None. */
  function Render(c: Cell): string
    requires !c.Empty?
  {
    match c
    case Text(s) => s
    case Number(rendering, _) => rendering
  }

  /**
   * `cell(i)`: "" for a missing column, a position past the end of the row or
   * an empty cell; otherwise the cell's text, stripped.
   */
  function CellText(row: seq<Cell>, i: Option<nat>): (r: string)
    ensures Trimmed(r)
    ensures i.None? || i.value >= |row| || row[i.value].Empty? ==> r == ""
    ensures i.Some? && i.value < |row| && !row[i.value].Empty? ==> r == Strip(Render(row[i.value]))
  {
    if i.None? || i.value >= |row| then ""
    else if row[i.value].Empty? then ""
    else Strip(Render(row[i.value]))
  }

  /**
   * The booking date: eight digits are sliced into `YYYY-MM-DD`; otherwise,
   * when the cell at the date position (position 0 when the column is
   * missing) is a number whose serial-date conversion succeeds, that date;
   * otherwise the raw text.
   */
  function ExcelBookingDate(row: seq<Cell>, datum: Option<nat>): (r: string)
    ensures var raw := CellText(row, datum);
      |raw| == 8 && AllDigits(raw) ==> IsoShaped(r) && Without(r, {'-'}) == raw
    ensures var raw := CellText(row, datum);
      var k := datum.GetOr(0);
      !(|raw| == 8 && AllDigits(raw)) ==>
        r == if k < |row| && row[k].Number? && row[k].serialDate.Some? then row[k].serialDate.value else raw
  {
    var raw := CellText(row, datum);
    if raw != "" && AllDigits(raw) && |raw| == 8 then BookingIso(raw)
    else
      var k := datum.GetOr(0);
      if k < |row| && row[k].Number? && row[k].serialDate.Some? then row[k].serialDate.value else raw
  }

  /** The token `"0"` the ingester parses for a missing amount is zero cents. */
  lemma {:induction false} ZeroAmount(debitCredit: string)
    ensures ParseEuAmountToCents("0", debitCredit) == Success(0)
  {
    assert Trimmed("0");
    assert Strip("0") == "0";
    assert Without("0", {'.', NBSP, ' '}) == "0";
    assert FloatLiteral("0") == "0";
    assert DecimalCents("0") == Some(0);
    ParseVia("0", debitCredit);
  }

  /** The token `"Af"` the ingester assumes for a missing sign is a debit. */
  lemma {:induction false} DefaultSignIsDebit()
    ensures IsAf("Af") && DirectionOf("Af") == "DEBIT"
  {
    assert Trimmed("Af");
    assert Lower("Af") == "af";
  }

  /** The description: the memo cell, or the name cell when the memo is empty. */
  function ExcelDescription(row: seq<Cell>, cols: Columns): string {
    Or(CellText(row, cols.meded), CellText(row, cols.name))
  }

  /** The direction token: the sign cell, "Af" when it is empty. */
  function ExcelSign(row: seq<Cell>, cols: Columns): string {
    Or(CellText(row, cols.afBij), "Af")
  }

  /** The amount text: the amount cell, "0" when it is empty. */
  function ExcelAmountText(row: seq<Cell>, cols: Columns): string {
    Or(CellText(row, cols.bedrag), "0")
  }

  /**
   * One worksheet row, in the order of the source's statements. Only the
   * value date and the amount can raise. A missing sign makes the row a
   * debit, a missing amount makes it zero, and a missing account cell leaves
   * the account without an iban.
   */
  function ExcelPlan(row: seq<Cell>, cols: Columns): (r: Plan)
    ensures r.Success? <==>
      && TryExtractValueDate(ExcelDescription(row, cols)).Success?
      && ParseEuAmountToCents(ExcelAmountText(row, cols), ExcelSign(row, cols)).Success?
    ensures r.Failure? ==> r.error.BadAmount? || r.error.BadDate?
    ensures r.Success? ==> SignAgrees(r.value)
    ensures r.Success? && CellText(row, cols.afBij) == "" ==> r.value.debitCredit == "DEBIT"
    ensures r.Success? && CellText(row, cols.afBij) != "" ==>
      (r.value.debitCredit == "DEBIT" <==> IsAf(CellText(row, cols.afBij)))
    ensures CellText(row, cols.bedrag) == "" && r.Success? ==> r.value.amountCents == 0
    ensures r.Success? && CellText(row, cols.rekening) == "" ==> r.value.account == ByKey(None, None)
    ensures r.Success? ==> r.value.description == ExcelDescription(row, cols)
    ensures r.Success? ==>
      && r.value.bookingDate == ExcelBookingDate(row, cols.datum)
      && TryExtractValueDate(r.value.description) == Success(r.value.valueDate)
      && r.value.normalizedDescription == NormalizeDescription(r.value.description)
    ensures r.Success? ==> ParseEuAmountToCents(ExcelAmountText(row, cols), ExcelSign(row, cols)) == Success(r.value.amountCents)
    ensures r.Success? ==> r.value.account == ByKey(NonEmpty(CellText(row, cols.rekening)), None)
    ensures r.Success? ==>
      && r.value.counterpartyIban == NonEmpty(CellText(row, cols.tegen))
      && r.value.counterpartyName == NonEmpty(CellText(row, cols.name))
      && r.value.counterpartyRef == r.value.counterpartyIban.GetOr(r.value.counterpartyName.GetOr(""))
  {
    var valueDate :- TryExtractValueDate(ExcelDescription(row, cols));
    var amountCents :- ParseEuAmountToCents(ExcelAmountText(row, cols), ExcelSign(row, cols));
    Success(ExcelRow(row, cols, valueDate, amountCents))
  }

  /** The pending transaction of a worksheet row whose value date and amount have been parsed. */
  function ExcelRow(row: seq<Cell>, cols: Columns, valueDate: Option<string>, amountCents: int): (p: Pending)
    requires ParseEuAmountToCents(ExcelAmountText(row, cols), ExcelSign(row, cols)) == Success(amountCents)
    ensures SignAgrees(p)
    ensures CellText(row, cols.afBij) == "" ==> p.debitCredit == "DEBIT"
    ensures CellText(row, cols.afBij) != "" ==> (p.debitCredit == "DEBIT" <==> IsAf(CellText(row, cols.afBij)))
    ensures CellText(row, cols.bedrag) == "" ==> amountCents == 0
    ensures p.bookingDate == ExcelBookingDate(row, cols.datum) && p.valueDate == valueDate && p.amountCents == amountCents
    ensures p.debitCredit == DirectionOf(ExcelSign(row, cols))
    ensures p.description == ExcelDescription(row, cols)
    ensures p.normalizedDescription == NormalizeDescription(p.description)
    ensures p.account == ByKey(NonEmpty(CellText(row, cols.rekening)), None)
    ensures p.counterpartyIban == NonEmpty(CellText(row, cols.tegen))
    ensures p.counterpartyName == NonEmpty(CellText(row, cols.name))
    ensures p.counterpartyRef == p.counterpartyIban.GetOr(p.counterpartyName.GetOr(""))
  {
    DefaultSignIsDebit();
    ZeroAmount(ExcelSign(row, cols));
    var description := ExcelDescription(row, cols);
    var counterpartyIban := NonEmpty(CellText(row, cols.tegen));
    var counterpartyName := NonEmpty(CellText(row, cols.name));
    var accountStr := Or(CellText(row, cols.rekening), "");
    Pending(
      ByKey(NonEmpty(accountStr), None),
      ExcelBookingDate(row, cols.datum),
      valueDate,
      amountCents,
      DirectionOf(ExcelSign(row, cols)),
      counterpartyName,
      counterpartyIban,
      counterpartyIban.GetOr(counterpartyName.GetOr("")),
      description,
      NormalizeDescription(description))
  }

  function ExcelPlans(rows: seq<seq<Cell>>, cols: Columns): (plans: seq<Plan>)
    ensures |plans| == |rows|
  {
    seq(|rows|, i requires 0 <= i < |rows| => ExcelPlan(rows[i], cols))
  }

  // ---------------------------------------------------------------------------
  // One run

  /** `suffix.lower().lstrip(".")`: the stored source type. */
  function SourceType(suffix: string): (r: string)
    ensures |r| <= |suffix|
    ensures r == [] || r[0] != '.'
    ensures r == Lower(suffix)[|suffix| - |r|..]
    ensures forall i :: 0 <= i < |suffix| - |r| ==> suffix[i] == '.'
    decreases |suffix|
  {
    var s := Lower(suffix);
    if s != [] && s[0] == '.' then
      assert Lower(suffix)[1..] == Lower(suffix[1..]);
      SourceType(suffix[1..])
    else s
  }

  /** The document step: reuse the document by digest or insert it (no event is logged). */
  function ExcelStart(db: Db, path: string, sha: string, suffix: string): (Run, nat) {
    RegisterDocument(db, Document(path, sha, SourceType(suffix), Some(Institution)))
  }

  /** `ingest_xls` on a database value: the new database and the returned stats. */
  function IngestExcelSpec(db: Db, path: string, sha: string, suffix: string, load: Load): Run {
    var (start, docId) := ExcelStart(db, path, sha, suffix);
    match load
    case LibraryMissing =>
      Run(start.db.(events := start.db.events + [ParseEvent(docId, "parse", false, ParserMissing(Excel))]), start.stats)
    case Loaded(headers, rows) =>
      Finish(ApplyPlans(start, docId, Excel, ExcelPlans(rows, ColumnsOf(headers))), docId, Excel)
  }

  /** The document step of `ingest_xls`. */
  method StartExcel(store: Store, path: string, sha: string, suffix: string) returns (docId: nat, stats: Stats)
    modifies store
    ensures (Run(store.State(), stats), docId) == ExcelStart(old(store.State()), path, sha, suffix)
  {
    stats := Stats(0, 0, 0);
    var found := FindDocument(store.documents, sha);
    if found.Some? {
      docId := found.value;
    } else {
      docId := store.InsertDocument(Document(path, sha, SourceType(suffix), Some(Institution)));
      stats := stats.(docsNew := stats.docsNew + 1);
    }
  }

  /** The row loop of `ingest_xls`, each row read against the located columns. */
  method ExcelRows(store: Store, docId: nat, rows: seq<seq<Cell>>, cols: Columns, stats: Stats) returns (next: Stats)
    modifies store
    ensures Run(store.State(), next) == ApplyPlans(Run(old(store.State()), stats), docId, Excel, ExcelPlans(rows, cols))
  {
    ghost var start := Run(store.State(), stats);
    ghost var plans := ExcelPlans(rows, cols);
    next := stats;
    var i := 0;
    while i < |rows|
      invariant 0 <= i <= |rows|
      invariant Run(store.State(), next) == ApplyPlans(start, docId, Excel, plans[..i])
    {
      ApplyPlansStep(start, docId, Excel, plans, i);
      next := store.ApplyRow(docId, Excel, ExcelPlan(rows[i], cols), next);
      i := i + 1;
    }
    assert plans[..|rows|] == plans;
  }

  /** `ingest_xls(conn, xls_path)`, with the file's digest, suffix and loaded workbook as inputs. */
  method IngestXls(store: Store, path: string, sha: string, suffix: string, load: Load) returns (stats: Stats)
    modifies store
    ensures Run(store.State(), stats) == IngestExcelSpec(old(store.State()), path, sha, suffix, load)
  {
    var docId;
    docId, stats := StartExcel(store, path, sha, suffix);
    match load {
      case LibraryMissing =>
        store.InsertEvent(ParseEvent(docId, "parse", false, ParserMissing(Excel)));
      case Loaded(headers, rows) =>
        stats := ExcelRows(store, docId, rows, ColumnsOf(headers), stats);
        store.InsertEvent(ParseEvent(docId, "parse", true, Summary(Excel, stats.txSeen, stats.txNew)));
    }
  }

  // ---------------------------------------------------------------------------
  // What one run guarantees

  /**
   * Without the workbook library the run logs exactly one ok=0 event and
   * reads no row: no transaction or account is added and both row counters
   * stay 0.
   */
  lemma {:induction false} IngestExcelMissingLibrary(db: Db, path: string, sha: string, suffix: string)
    ensures var r := IngestExcelSpec(db, path, sha, suffix, LibraryMissing);
      var docId := ExcelStart(db, path, sha, suffix).1;
      && r.stats.txSeen == 0 && r.stats.txNew == 0
      && r.db.txns == db.txns && r.db.accounts == db.accounts
      && r.db.events == db.events + [ParseEvent(docId, "parse", false, ParserMissing(Excel))]
  {
  }

  /**
   * The counters of a loaded run and what it did to the tables: a new digest
   * adds one document and counts it; every row is seen; only inserted rows
   * are counted new; stored transactions and accounts are only appended to;
   * the events are the failing rows' ok=0 events and one ok=1 summary.
   */
  lemma {:induction false} IngestExcelCounts(db: Db, path: string, sha: string, suffix: string,
                                             headers: seq<string>, rows: seq<seq<Cell>>)
    ensures var r := IngestExcelSpec(db, path, sha, suffix, Loaded(headers, rows));
      var docId := ExcelStart(db, path, sha, suffix).1;
      var isNew := FindDocument(db.documents, sha).None?;
      var plans := ExcelPlans(rows, ColumnsOf(headers));
      && r.stats.docsNew == (if isNew then 1 else 0)
      && FindDocument(r.db.documents, sha) == Some(docId)
      && r.stats.txSeen == |rows|
      && r.stats.txNew <= r.stats.txSeen
      && db.txns <= r.db.txns
      && |r.db.txns| == |db.txns| + r.stats.txNew
      && db.accounts <= r.db.accounts
      && r.db.events == db.events + FailureEvents(docId, Excel, plans)
                          + [ParseEvent(docId, "parse", true, Summary(Excel, |rows|, r.stats.txNew))]
  {
    var (start, docId) := ExcelStart(db, path, sha, suffix);
    ApplyPlansEffect(start, docId, Excel, ExcelPlans(rows, ColumnsOf(headers)));
  }

  /**
   * Importing the same workbook a second time finds the document, creates
   * no account and inserts no transaction.
   */
  lemma {:induction false} IngestExcelTwice(db: Db, path: string, path2: string, sha: string, suffix: string,
                                            headers: seq<string>, rows: seq<seq<Cell>>)
    ensures var r1 := IngestExcelSpec(db, path, sha, suffix, Loaded(headers, rows));
      var r2 := IngestExcelSpec(r1.db, path2, sha, suffix, Loaded(headers, rows));
      && r2.stats == Stats(0, |rows|, 0)
      && r2.db.documents == r1.db.documents
      && r2.db.accounts == r1.db.accounts
      && r2.db.txns == r1.db.txns
  {
    var plans := ExcelPlans(rows, ColumnsOf(headers));
    var (start1, docId1) := ExcelStart(db, path, sha, suffix);
    ApplyPlansEffect(start1, docId1, Excel, plans);
    var r1 := IngestExcelSpec(db, path, sha, suffix, Loaded(headers, rows));
    assert FindDocument(r1.db.documents, sha).Some?;
    var (start2, docId2) := ExcelStart(r1.db, path2, sha, suffix);
    assert start2.stats == Stats(0, 0, 0);
    ReapplyInsertsNothing(start1, start2, docId1, docId2, Excel, plans);
    ApplyPlansEffect(start2, docId2, Excel, plans);
  }
}
