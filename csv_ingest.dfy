/**
 * `ingest_csv_ing` (src/finagent/tools/csv_ingest.py): import an ING CSV
 * export. The document is reused by digest or created; each data row is
 * turned into a transaction under fixed ING headers; a row that raises is
 * logged and skipped; a summary event closes the run.
 */
module CsvIngest {
  import opened Wrappers
  import opened Text
  import opened Normalization
  import opened Ledger
  import opened Storage

  /**
   * A row as `csv.DictReader` yields it: header to cell, where a header the
   * row is too short for maps to None.
   */
  type CsvRow = map<string, Option<string>>

  /** `row.get(key, default)`: the default only when the header is absent. */
  function Get(row: CsvRow, key: string, default: string): Option<string> {
    if key in row then row[key] else Some(default)
  }

  /** `row.get(key, "").strip()`, which raises AttributeError on a None cell. */
  function StrippedField(row: CsvRow, key: string): (r: Result<string, RowError>)
    ensures r.Failure? <==> key in row && row[key].None?
    ensures r.Success? ==> Trimmed(r.value)
    ensures r.Success? && key !in row ==> r.value == ""
  {
    match Get(row, key, "")
    case None => Failure(MissingValue(key))
    case Some(v) => Success(Strip(v))
  }

  /** ING writes `YYYYMMDD`; eight digits are sliced into `YYYY-MM-DD`, anything else passes through. */
  function BookingIso(d: string): (r: string)
    ensures |d| == 8 && AllDigits(d) ==> IsoShaped(r) && Without(r, {'-'}) == d
    ensures !(|d| == 8 && AllDigits(d)) ==> r == d
  {
    if |d| == 8 && AllDigits(d) then
      var r := d[0..4] + "-" + d[4..6] + "-" + d[6..8];
      assert r[..4] == d[0..4] && r[5..7] == d[4..6] && r[8..] == d[6..8];
      IsoDashesRemoved(d[0..4], d[4..6], d[6..8]);
      assert d[0..4] + d[4..6] + d[6..8] == d;
      r
    else d
  }

  /** Removing the two dashes of `a-b-c` gives back `a + b + c`. */
  lemma {:induction false} IsoDashesRemoved(a: string, b: string, c: string)
    requires AllDigits(a) && AllDigits(b) && AllDigits(c)
    ensures Without(a + "-" + b + "-" + c, {'-'}) == a + b + c
  {
    var drop := {'-'};
    DigitsHaveNoDash(a);
    DigitsHaveNoDash(b);
    DigitsHaveNoDash(c);
    var dash: string := "-";
    assert Without(dash, drop) == [];
    var s1 := a + dash;
    var s2 := s1 + b;
    var s3 := s2 + dash;
    WithoutConcat(a, dash, drop);
    assert Without(s1, drop) == a;
    WithoutConcat(s1, b, drop);
    assert Without(s2, drop) == a + b;
    WithoutConcat(s2, dash, drop);
    assert Without(s3, drop) == a + b;
    WithoutConcat(s3, c, drop);
  }

  lemma {:induction false} DigitsHaveNoDash(s: string)
    requires AllDigits(s)
    ensures Without(s, {'-'}) == s
  {
    forall i | 0 <= i < |s| ensures s[i] !in {'-'} { assert IsDigit(s[i]); }
  }

  /** `Mededelingen` stripped, or `Naam / Omschrijving` stripped when that is empty ("" for a None cell). */
  function CsvDescription(row: CsvRow): string {
    var m := Strip(Get(row, "Mededelingen", "").GetOr(""));
    if m != "" then m else Strip(Get(row, "Naam / Omschrijving", "").GetOr(""))
  }

  /** What a row yields up to its direction token, read in the source's order. */
  datatype CsvHead = CsvHead(bookingDate: string, description: string, valueDate: Option<string>, debitCredit: string)

  /**
   * The first statements of the row body: booking date, description (falling
   * back from `Mededelingen` to `Naam / Omschrijving`), value date and the
   * `Af Bij` token; the first one that raises decides the row error.
   */
  function ReadHead(row: CsvRow): (r: Result<CsvHead, RowError>)
    ensures r.Success? <==>
      && Get(row, "Datum", "").Some?
      && Get(row, "Mededelingen", "").Some?
      && (Strip(Get(row, "Mededelingen", "").value) != "" || Get(row, "Naam / Omschrijving", "").Some?)
      && TryExtractValueDate(CsvDescription(row)).Success?
      && Get(row, "Af Bij", "").Some?
    ensures "Datum" in row && row["Datum"].None? ==> r == Failure(MissingValue("Datum"))
    ensures r.Success? ==> Get(row, "Mededelingen", "").Some?
    ensures r.Success? ==>
      var m := Strip(Get(row, "Mededelingen", "").GetOr(""));
      r.value.description == if m != "" then m else Strip(Get(row, "Naam / Omschrijving", "").GetOr(""))
    ensures r.Success? ==> Get(row, "Af Bij", "").Some? && r.value.debitCredit == Strip(Get(row, "Af Bij", "").value)
    ensures r.Success? && r.value.valueDate.Some? ==> IsoShaped(r.value.valueDate.value)
    ensures r.Success? ==>
      Get(row, "Datum", "").Some? && r.value.bookingDate == BookingIso(Strip(Get(row, "Datum", "").value))
    ensures r.Success? ==> TryExtractValueDate(r.value.description) == Success(r.value.valueDate)
  {
    var booking :- StrippedField(row, "Datum");
    var mededelingen :- StrippedField(row, "Mededelingen");
    var description :- if mededelingen != "" then Success(mededelingen) else StrippedField(row, "Naam / Omschrijving");
    var valueDate :- TryExtractValueDate(description);
    var debitCredit :- StrippedField(row, "Af Bij");
    Success(CsvHead(BookingIso(booking), description, valueDate, debitCredit))
  }

  /**
   * One CSV row, evaluated in the order of the source's statements; the
   * first failing statement decides the row error. A row that goes through
   * is a debit exactly when its `Af Bij` cell is "af" up to case and blanks,
   * and then its amount is never positive.
   */
  function CsvPlan(row: CsvRow): (r: Plan)
    ensures "Datum" in row && row["Datum"].None? ==> r == Failure(MissingValue("Datum"))
    ensures r.Success? ==> SignAgrees(r.value)
    ensures r.Success? ==> Get(row, "Af Bij", "").Some?
    ensures r.Success? ==> r.value.account.ByKey? && r.value.account.iban.Some? && r.value.account.accountNo.None?
    ensures r.Success? && r.value.valueDate.Some? ==> IsoShaped(r.value.valueDate.value)
    ensures r.Success? ==> ReadHead(row).Success? && r == RowPlan(row, ReadHead(row).value)
    ensures ReadHead(row).Success? ==> r == RowPlan(row, ReadHead(row).value)
  {
    var head :- ReadHead(row);
    RowPlan(row, head)
  }

  /** A row that goes through is a debit exactly when its `Af Bij` cell is "af" up to case and blanks. */
  lemma CsvPlanDirection(row: CsvRow)
    ensures CsvPlan(row).Success? ==>
      (CsvPlan(row).value.debitCredit == "DEBIT" <==> IsAf(Get(row, "Af Bij", "").value))
  {
    if CsvPlan(row).Success? {
      DirectionOfStripped(Get(row, "Af Bij", "").value);
    }
  }

  /**
   * The rest of the row body once its head is read: the amount (under the
   * head's direction token), the counterparty, the account number, and the
   * pending transaction built from them.
   */
  function RowPlan(row: CsvRow, head: CsvHead): (r: Plan)
    requires Trimmed(head.debitCredit)
    ensures r.Success? <==>
      && Get(row, "Bedrag (EUR)", "0").Some?
      && ParseEuAmountToCents(Get(row, "Bedrag (EUR)", "0").value, head.debitCredit).Success?
      && Get(row, "Naam / Omschrijving", "").Some?
      && Get(row, "Rekening", "").Some?
    ensures r.Success? ==> SignAgrees(r.value) && r.value.debitCredit == DirectionOf(head.debitCredit)
    ensures r.Success? ==>
      && r.value.bookingDate == head.bookingDate && r.value.valueDate == head.valueDate
      && r.value.description == head.description
      && r.value.normalizedDescription == NormalizeDescription(head.description)
    ensures r.Success? ==>
      && Get(row, "Bedrag (EUR)", "0").Some?
      && ParseEuAmountToCents(Get(row, "Bedrag (EUR)", "0").value, head.debitCredit) == Success(r.value.amountCents)
    ensures r.Success? ==> r.value.account == ByKey(Some(Strip(Get(row, "Rekening", "").GetOr(""))), None)
    ensures r.Success? ==>
      && r.value.counterpartyIban == NonEmpty(Strip(Get(row, "Tegenrekening", "").GetOr("")))
      && r.value.counterpartyName == NonEmpty(Strip(Get(row, "Naam / Omschrijving", "").GetOr("")))
      && r.value.counterpartyRef == r.value.counterpartyIban.GetOr(r.value.counterpartyName.GetOr(""))
  {
    var amountText :- match Get(row, "Bedrag (EUR)", "0")
      case None => Failure(MissingValue("Bedrag (EUR)"))
      case Some(t) => Success(t);
    var amountCents :- ParseEuAmountToCents(amountText, head.debitCredit);
    var counterpartyIban := NonEmpty(Strip(Get(row, "Tegenrekening", "").GetOr("")));
    var name :- StrippedField(row, "Naam / Omschrijving");
    var counterpartyName := NonEmpty(name);
    var accountStr :- StrippedField(row, "Rekening");
    Success(Pending(
      ByKey(Some(accountStr), None),
      head.bookingDate,
      head.valueDate,
      amountCents,
      DirectionOf(head.debitCredit),
      counterpartyName,
      counterpartyIban,
      counterpartyIban.GetOr(counterpartyName.GetOr("")),
      head.description,
      NormalizeDescription(head.description)))
  }

  /** Python's `s or None`. */
  function NonEmpty(s: string): (r: Option<string>)
    ensures r.None? <==> s == ""
    ensures r.GetOr("") == s
  {
    if s == "" then None else Some(s)
  }

  function CsvPlans(rows: seq<CsvRow>): (plans: seq<Plan>)
    ensures |plans| == |rows|
  {
    seq(|rows|, i requires 0 <= i < |rows| => CsvPlan(rows[i]))
  }

  /** The document step of `ingest_csv_ing`, with its ok=1 "ingest" event. */
  function CsvStart(db: Db, path: string, sha: string): (Run, nat) {
    var (r, docId) := RegisterDocument(db, Document(path, sha, "csv", Some(Institution)));
    var message := if FindDocument(db.documents, sha).Some? then AlreadyImported else NewDocumentImported;
    (r.(db := r.db.(events := r.db.events + [ParseEvent(docId, "ingest", true, message)])), docId)
  }

  /** `ingest_csv_ing` on a database value: the new database and the returned stats. */
  function IngestCsvSpec(db: Db, path: string, sha: string, rows: seq<CsvRow>): Run {
    var (start, docId) := CsvStart(db, path, sha);
    Finish(ApplyPlans(start, docId, Csv, CsvPlans(rows)), docId, Csv)
  }

  /** The document step of `ingest_csv_ing`: reuse the document by digest or insert it, then log. */
  method StartCsv(store: Store, path: string, sha: string) returns (docId: nat, stats: Stats)
    modifies store
    ensures (Run(store.State(), stats), docId) == CsvStart(old(store.State()), path, sha)
  {
    stats := Stats(0, 0, 0);
    var found := FindDocument(store.documents, sha);
    if found.Some? {
      docId := found.value;
      store.InsertEvent(ParseEvent(docId, "ingest", true, AlreadyImported));
    } else {
      docId := store.InsertDocument(Document(path, sha, "csv", Some(Institution)));
      stats := stats.(docsNew := stats.docsNew + 1);
      store.InsertEvent(ParseEvent(docId, "ingest", true, NewDocumentImported));
    }
  }

  /** The row loop of `ingest_csv_ing`. */
  method CsvRows(store: Store, docId: nat, rows: seq<CsvRow>, stats: Stats) returns (next: Stats)
    modifies store
    ensures Run(store.State(), next) == ApplyPlans(Run(old(store.State()), stats), docId, Csv, CsvPlans(rows))
  {
    ghost var start := Run(store.State(), stats);
    ghost var plans := CsvPlans(rows);
    next := stats;
    var i := 0;
    while i < |rows|
      invariant 0 <= i <= |rows|
      invariant Run(store.State(), next) == ApplyPlans(start, docId, Csv, plans[..i])
    {
      ApplyPlansStep(start, docId, Csv, plans, i);
      next := store.ApplyRow(docId, Csv, CsvPlan(rows[i]), next);
      i := i + 1;
    }
    assert plans[..|rows|] == plans;
  }

  /** `ingest_csv_ing(conn, csv_path)`, with the file's digest and rows as inputs. */
  method IngestCsvIng(store: Store, path: string, sha: string, rows: seq<CsvRow>) returns (stats: Stats)
    modifies store
    ensures Run(store.State(), stats) == IngestCsvSpec(old(store.State()), path, sha, rows)
  {
    var docId;
    docId, stats := StartCsv(store, path, sha);
    stats := CsvRows(store, docId, rows, stats);
    store.InsertEvent(ParseEvent(docId, "parse", true, Summary(Csv, stats.txSeen, stats.txNew)));
  }

  // ---------------------------------------------------------------------------
  // What one row and one run guarantee

  lemma {:induction false} DirectionOfStripped(dc: string)
    ensures DirectionOf(Strip(dc)) == "DEBIT" <==> IsAf(dc)
  {
    assert Strip(Strip(dc)) == Strip(dc);
  }

  /**
   * The counters of a run and what it did to the tables: a new digest adds
   * one document and counts it, a known one adds nothing; every row is seen;
   * only inserted rows are counted new; stored transactions and accounts are
   * only appended to; categories are untouched.
   */
  lemma {:induction false} IngestCsvCounts(db: Db, path: string, sha: string, rows: seq<CsvRow>)
    ensures var r := IngestCsvSpec(db, path, sha, rows);
      var isNew := FindDocument(db.documents, sha).None?;
      && r.stats.docsNew == (if isNew then 1 else 0)
      && r.db.documents == (if isNew then db.documents + [Document(path, sha, "csv", Some(Institution))] else db.documents)
      && r.stats.txSeen == |rows|
      && r.stats.txNew <= r.stats.txSeen
      && db.txns <= r.db.txns
      && |r.db.txns| == |db.txns| + r.stats.txNew
      && db.accounts <= r.db.accounts
      && r.db.categories == db.categories
  {
    var (start, docId) := CsvStart(db, path, sha);
    ApplyPlansEffect(start, docId, Csv, CsvPlans(rows));
  }

  /**
   * The events of a run, in order: one ok=1 ingest event naming whether the
   * document was known, one ok=0 event per failing row, and one ok=1 summary
   * with the final counters; all of them name the document of this digest.
   */
  lemma {:induction false} IngestCsvEvents(db: Db, path: string, sha: string, rows: seq<CsvRow>)
    ensures var r := IngestCsvSpec(db, path, sha, rows);
      var docId := CsvStart(db, path, sha).1;
      var isNew := FindDocument(db.documents, sha).None?;
      && FindDocument(r.db.documents, sha) == Some(docId)
      && r.db.events ==
        db.events
        + [ParseEvent(docId, "ingest", true, if isNew then NewDocumentImported else AlreadyImported)]
        + FailureEvents(docId, Csv, CsvPlans(rows))
        + [ParseEvent(docId, "parse", true, Summary(Csv, |rows|, r.stats.txNew))]
      && |FailureEvents(docId, Csv, CsvPlans(rows))| == Failures(CsvPlans(rows))
  {
    var plans := CsvPlans(rows);
    var (start, docId) := CsvStart(db, path, sha);
    var isNew := FindDocument(db.documents, sha).None?;
    var ingest := ParseEvent(docId, "ingest", true, if isNew then NewDocumentImported else AlreadyImported);
    assert start.db.events == db.events + [ingest];
    assert start.stats.txSeen == 0;
    var a := ApplyPlans(start, docId, Csv, plans);
    ApplyPlansEffect(start, docId, Csv, plans);
    assert a.db.events == db.events + [ingest] + FailureEvents(docId, Csv, plans);
    assert a.stats.txSeen == |rows|;
  }

  /**
   * Importing the same file a second time finds the document, creates no
   * account and inserts no transaction: `docs_new` and `tx_new` are 0 and
   * only the events grow.
   */
  lemma {:induction false} IngestCsvTwice(db: Db, path: string, path2: string, sha: string, rows: seq<CsvRow>)
    ensures var r1 := IngestCsvSpec(db, path, sha, rows);
      var r2 := IngestCsvSpec(r1.db, path2, sha, rows);
      && r2.stats == Stats(0, |rows|, 0)
      && r2.db.documents == r1.db.documents
      && r2.db.accounts == r1.db.accounts
      && r2.db.txns == r1.db.txns
      && r2.db.categories == r1.db.categories
  {
    var plans := CsvPlans(rows);
    var (start1, docId1) := CsvStart(db, path, sha);
    var r1 := IngestCsvSpec(db, path, sha, rows);
    ApplyPlansEffect(start1, docId1, Csv, plans);
    assert FindDocument(r1.db.documents, sha).Some?;
    var (start2, docId2) := CsvStart(r1.db, path2, sha);
    assert start2.stats == Stats(0, 0, 0);
    ReapplyInsertsNothing(start1, start2, docId1, docId2, Csv, plans);
    ApplyPlansEffect(start2, docId2, Csv, plans);
  }
}
