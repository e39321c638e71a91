/**
 * The bookkeeping database shared by the three ingesters and the
 * categorizer, as a value: the documents, accounts, transactions, parse
 * events and categories tables, each a sequence whose row id is its position
 * plus one (rows are only ever appended). On top of it, the per-row state
 * machine that every ingester runs: a row either fails (one ok=0 parse
 * event, nothing else) or resolves its account and inserts its transaction
 * unless a transaction with the same fingerprint is already stored.
 */
module Ledger {
  import opened Wrappers
  import opened Text
  import opened Normalization

  datatype Document = Document(path: string, sha256: string, sourceType: string, bankHint: Option<string>)

  datatype Account = Account(institution: string, iban: Option<string>, accountNo: Option<string>)

  datatype Txn = Txn(
    accountId: nat,
    documentId: nat,
    txnHash: string,
    bookingDate: string,
    valueDate: Option<string>,
    amountCents: int,
    currency: string,
    debitCredit: string,
    counterpartyName: Option<string>,
    counterpartyIban: Option<string>,
    description: string,
    categoryId: Option<nat>)

  datatype Category = Category(code: string, labelText: string)  // the `label` column

  /** Which ingester wrote an event; the three word their messages differently. */
  datatype Format = Csv | Excel | Pdf

  /** The content of a parse event's message. */
  datatype Message =
    | AlreadyImported                      // "Already imported; reprocessing parse only"
    | NewDocumentImported                  // "New document imported"
    | RowFailed(format: Format, error: RowError)
    | ParserMissing(format: Format)        // the workbook or PDF library is not installed
    | ReadFailed                           // the PDF library could not open the file
    | Summary(format: Format, seen: nat, inserted: nat)

  datatype ParseEvent = ParseEvent(documentId: nat, stage: string, ok: bool, message: Message)

  datatype Db = Db(
    documents: seq<Document>,
    accounts: seq<Account>,
    txns: seq<Txn>,
    events: seq<ParseEvent>,
    categories: seq<Category>)

  /** `IngestStats`: documents created, data rows read, transactions inserted. */
  datatype Stats = Stats(docsNew: nat, txSeen: nat, txNew: nat)

  /** The database together with the counters of the ingestion that is running. */
  datatype Run = Run(db: Db, stats: Stats)

  const Institution: string := "ING"
  const Currency: string := "EUR"

  // ---------------------------------------------------------------------------
  // Lookups: `SELECT id ... fetchone()` returns the first matching row.

  /** The id (position plus one) of the first element satisfying p. */
  function FirstMatch<T>(s: seq<T>, p: T -> bool): (r: Option<nat>)
    ensures r.Some? ==> 1 <= r.value <= |s| && p(s[r.value - 1])
    ensures r.Some? ==> forall i :: 0 <= i < r.value - 1 ==> !p(s[i])
    ensures r.None? ==> forall i :: 0 <= i < |s| ==> !p(s[i])
  {
    if s == [] then None
    else if p(s[0]) then Some(1)
    else match FirstMatch(s[1..], p)
      case None => None
      case Some(k) => Some(k + 1)
  }

  /** Appending rows never changes which row a lookup finds first. */
  lemma {:induction false} FirstMatchExtend<T>(s: seq<T>, t: seq<T>, p: T -> bool)
    requires FirstMatch(s, p).Some?
    ensures FirstMatch(s + t, p) == FirstMatch(s, p)
  {
    var k := FirstMatch(s, p).value;
    assert (s + t)[k - 1] == s[k - 1];
    assert forall i :: 0 <= i < k - 1 ==> (s + t)[i] == s[i];
  }

  /** A lookup that finds nothing finds an appended matching row. */
  lemma {:induction false} FirstMatchAppendHit<T>(s: seq<T>, x: T, p: T -> bool)
    requires FirstMatch(s, p).None? && p(x)
    ensures FirstMatch(s + [x], p) == Some(|s| + 1)
  {
    assert (s + [x])[|s|] == x;
    assert forall i :: 0 <= i < |s| ==> (s + [x])[i] == s[i];
  }

  /** `SELECT id FROM documents WHERE sha256=?`. */
  function FindDocument(documents: seq<Document>, sha: string): Option<nat> {
    FirstMatch(documents, (d: Document) => d.sha256 == sha)
  }

  /**
   * `SELECT id FROM accounts WHERE institution=? AND iban IS ? AND account_no IS ?`:
   * `IS` treats two NULLs as equal, which is equality of the optional values.
   */
  function FindAccount(accounts: seq<Account>, key: Account): Option<nat> {
    FirstMatch(accounts, (a: Account) => a == key)
  }

  /** `SELECT id FROM categories WHERE code=?`. */
  function FindCategory(categories: seq<Category>, code: string): Option<nat> {
    FirstMatch(categories, (c: Category) => c.code == code)
  }

  /** Whether a transaction with this fingerprint is stored. */
  predicate HashPresent(txns: seq<Txn>, h: string) {
    exists i :: 0 <= i < |txns| && txns[i].txnHash == h
  }

  /**
   * The start of every ingestion: reuse the document with this digest, or
   * insert `doc` and count it in `docs_new`.
   */
  function RegisterDocument(db: Db, doc: Document): (r: (Run, nat))
    ensures FindDocument(r.0.db.documents, doc.sha256) == Some(r.1)
    ensures FindDocument(db.documents, doc.sha256).Some? ==> r.0 == Run(db, Stats(0, 0, 0))
    ensures FindDocument(db.documents, doc.sha256).None? ==>
      r.0 == Run(db.(documents := db.documents + [doc]), Stats(1, 0, 0))
  {
    match FindDocument(db.documents, doc.sha256)
    case Some(id) => (Run(db, Stats(0, 0, 0)), id)
    case None =>
      FirstMatchAppendHit(db.documents, doc, (d: Document) => d.sha256 == doc.sha256);
      (Run(db.(documents := db.documents + [doc]), Stats(1, 0, 0)), |db.documents| + 1)
  }

  /** Registering a file whose digest is stored reuses that document and creates none. */
  lemma {:induction false} RegisterDocumentAgain(db: Db, doc: Document, db': Db, doc': Document)
    requires doc'.sha256 == doc.sha256
    requires db'.documents == RegisterDocument(db, doc).0.db.documents
    ensures RegisterDocument(db', doc') == (Run(db', Stats(0, 0, 0)), RegisterDocument(db, doc).1)
  {
  }

  /** The UNIQUE constraint on `txn_hash`. */
  predicate UniqueHashes(txns: seq<Txn>) {
    forall i, j :: 0 <= i < j < |txns| ==> txns[i].txnHash != txns[j].txnHash
  }

  // ---------------------------------------------------------------------------
  // Find-or-create

  /**
   * `_ensure_account`: the id of the first account with this key, or else the
   * id of a new row appended for it.
   */
  function ResolveAccount(accounts: seq<Account>, key: Account): (r: (seq<Account>, nat))
    ensures FindAccount(r.0, key) == Some(r.1)
    ensures FindAccount(accounts, key).Some? ==> r.0 == accounts
    ensures FindAccount(accounts, key).None? ==> r.0 == accounts + [key]
  {
    match FindAccount(accounts, key)
    case Some(id) => (accounts, id)
    case None =>
      FirstMatchAppendHit(accounts, key, (a: Account) => a == key);
      (accounts + [key], |accounts| + 1)
  }

  /** Resolving an account twice gives the same id and adds no second row. */
  lemma {:induction false} ResolveAccountIdempotent(accounts: seq<Account>, key: Account)
    ensures var (acc1, id1) := ResolveAccount(accounts, key);
      ResolveAccount(acc1, key) == (acc1, id1)
  {
  }

  /**
   * `INSERT OR IGNORE INTO transactions`: the row is added unless its
   * fingerprint is already stored; a stored row is never changed.
   */
  function InsertTxnOrIgnore(txns: seq<Txn>, t: Txn): (r: seq<Txn>)
    ensures HashPresent(r, t.txnHash)
    ensures txns <= r && |r| <= |txns| + 1
    ensures |r| == |txns| + 1 <==> !HashPresent(txns, t.txnHash)
    ensures !HashPresent(txns, t.txnHash) ==> r[|txns|] == t
  {
    if HashPresent(txns, t.txnHash) then txns
    else
      assert (txns + [t])[|txns|] == t;
      txns + [t]
  }

  /** The insert keeps fingerprints unique. */
  lemma {:induction false} InsertTxnKeepsUnique(txns: seq<Txn>, t: Txn)
    requires UniqueHashes(txns)
    ensures UniqueHashes(InsertTxnOrIgnore(txns, t))
  {
    if !HashPresent(txns, t.txnHash) {
      var r := txns + [t];
      forall i, j | 0 <= i < j < |r| ensures r[i].txnHash != r[j].txnHash {
        if j == |txns| {
          assert r[i] == txns[i];
        } else {
          assert r[i] == txns[i] && r[j] == txns[j];
        }
      }
    }
  }

  /**
   * Whether `INSERT OR IGNORE INTO accounts` would be ignored under a UNIQUE
   * (institution, iban, account_no) constraint: SQLite never counts a NULL
   * as equal to anything, so only a row with every value present can clash.
   */
  predicate AccountConflict(accounts: seq<Account>, a: Account) {
    a.iban.Some? && a.accountNo.Some? && a in accounts
  }

  /** `UPDATE transactions SET category_id=? WHERE id=?`: no row changes when the id is unknown. */
  function SetTxnCategory(txns: seq<Txn>, txId: nat, categoryId: nat): (r: seq<Txn>)
    ensures |r| == |txns|
    ensures forall i :: 0 <= i < |txns| && i != txId - 1 ==> r[i] == txns[i]
    ensures 1 <= txId <= |txns| ==> r[txId - 1] == txns[txId - 1].(categoryId := Some(categoryId))
  {
    if 1 <= txId <= |txns| then txns[txId - 1 := txns[txId - 1].(categoryId := Some(categoryId))] else txns
  }

  // ---------------------------------------------------------------------------
  // One data row

  /** How a row names its account: by key (CSV, Excel) or by a fixed id (PDF). */
  datatype AccountChoice = ByKey(iban: Option<string>, accountNo: Option<string>) | Fixed(id: nat)

  /** Everything a row yields before its account is resolved. */
  datatype Pending = Pending(
    account: AccountChoice,
    bookingDate: string,
    valueDate: Option<string>,
    amountCents: int,
    debitCredit: string,          // "DEBIT" or "CREDIT"
    counterpartyName: Option<string>,
    counterpartyIban: Option<string>,
    counterpartyRef: string,      // what the fingerprint uses for the counterparty
    description: string,
    normalizedDescription: string)

  /**
   * The direction and the sign of the amount agree: a debit is never
   * positive and a credit never negative.
   */
  predicate SignAgrees(p: Pending) {
    && (p.debitCredit == "DEBIT" || p.debitCredit == "CREDIT")
    && (p.debitCredit == "DEBIT" ==> p.amountCents <= 0)
    && (p.debitCredit == "CREDIT" ==> p.amountCents >= 0)
  }

  /** A row that was read: what it yields, or the exception it raised. */
  type Plan = Result<Pending, RowError>

  /** The fingerprint input of a row once its account id is known. */
  function HashInputOf(p: Pending, accountId: nat): TxnHashInput {
    TxnHashInput(accountId, p.bookingDate, p.valueDate, p.amountCents, Currency,
                 p.debitCredit, p.counterpartyRef, p.normalizedDescription)
  }

  /** The transaction row the ingesters insert (its category is still NULL). */
  function TxnOf(p: Pending, accountId: nat, docId: nat): Txn {
    Txn(accountId, docId, Fingerprint(HashInputOf(p, accountId)), p.bookingDate, p.valueDate,
        p.amountCents, Currency, p.debitCredit, p.counterpartyName, p.counterpartyIban,
        p.description, None)
  }

  /** The id a row's account has in these accounts, if it has one yet. */
  function AccountFor(accounts: seq<Account>, choice: AccountChoice): Option<nat> {
    match choice
    case ByKey(iban, accountNo) => FindAccount(accounts, Account(Institution, iban, accountNo))
    case Fixed(id) => Some(id)
  }

  /** The accounts after resolving a row's account, and the id it got. */
  function ResolveChoice(accounts: seq<Account>, choice: AccountChoice): (r: (seq<Account>, nat))
    ensures AccountFor(r.0, choice) == Some(r.1)
    ensures accounts <= r.0
    ensures AccountFor(accounts, choice).Some? ==> r == (accounts, AccountFor(accounts, choice).value)
  {
    match choice
    case ByKey(iban, accountNo) => ResolveAccount(accounts, Account(Institution, iban, accountNo))
    case Fixed(id) => (accounts, id)
  }

  /** The stored direction: "DEBIT" exactly when the token lower-cases to "af". */
  function DirectionOf(debitCredit: string): (r: string)
    ensures r == "DEBIT" || r == "CREDIT"
    ensures Trimmed(debitCredit) ==> (r == "DEBIT" <==> IsAf(debitCredit))
  {
    if Lower(debitCredit) == "af" then "DEBIT" else "CREDIT"
  }

  /** The ok=1 summary event with the final counters. */
  function Finish(r: Run, docId: nat, format: Format): Run {
    Run(r.db.(events := r.db.events + [ParseEvent(docId, "parse", true, Summary(format, r.stats.txSeen, r.stats.txNew))]), r.stats)
  }

  function RowFailedEvent(docId: nat, format: Format, e: RowError): ParseEvent {
    ParseEvent(docId, "parse", false, RowFailed(format, e))
  }

  /**
   * The body of the row loop: count the row; on an exception append one
   * ok=0 event; otherwise resolve the account, insert the transaction if its
   * fingerprint is new and count it when it was.
   */
  function ApplyPlan(r: Run, docId: nat, format: Format, plan: Plan): Run {
    var seen := r.stats.txSeen + 1;
    match plan
    case Failure(e) =>
      Run(r.db.(events := r.db.events + [RowFailedEvent(docId, format, e)]), r.stats.(txSeen := seen))
    case Success(p) =>
      var (accounts, accountId) := ResolveChoice(r.db.accounts, p.account);
      var t := TxnOf(p, accountId, docId);
      var txns := InsertTxnOrIgnore(r.db.txns, t);
      var added := if |txns| > |r.db.txns| then 1 else 0;
      Run(r.db.(accounts := accounts, txns := txns), r.stats.(txSeen := seen, txNew := r.stats.txNew + added))
  }

  /** The row loop: the rows applied in order. */
  function ApplyPlans(r: Run, docId: nat, format: Format, plans: seq<Plan>): Run
    decreases |plans|
  {
    if plans == [] then r
    else ApplyPlan(ApplyPlans(r, docId, format, plans[..|plans| - 1]), docId, format, plans[|plans| - 1])
  }

  /** One more turn of the row loop. */
  lemma {:induction false} ApplyPlansStep(r: Run, docId: nat, format: Format, plans: seq<Plan>, i: nat)
    requires i < |plans|
    ensures ApplyPlans(r, docId, format, plans[..i + 1]) == ApplyPlan(ApplyPlans(r, docId, format, plans[..i]), docId, format, plans[i])
  {
    assert plans[..i + 1][..i] == plans[..i];
    assert plans[..i + 1][i] == plans[i];
  }

  /** The ok=0 events that the failing rows append, in row order. */
  function FailureEvents(docId: nat, format: Format, plans: seq<Plan>): (es: seq<ParseEvent>)
    ensures |es| <= |plans|
    ensures forall e :: e in es ==> !e.ok && e.documentId == docId && e.stage == "parse"
    decreases |plans|
  {
    if plans == [] then []
    else
      var init := FailureEvents(docId, format, plans[..|plans| - 1]);
      match plans[|plans| - 1]
      case Failure(e) => init + [RowFailedEvent(docId, format, e)]
      case Success(_) => init
  }

  /** The number of rows that raised. */
  function Failures(plans: seq<Plan>): (n: nat)
    ensures n <= |plans|
    decreases |plans|
  {
    if plans == [] then 0
    else Failures(plans[..|plans| - 1]) + (if plans[|plans| - 1].Failure? then 1 else 0)
  }

  // ---------------------------------------------------------------------------
  // What the row loop guarantees

  /**
   * The loop counts every row in `tx_seen`, counts in `tx_new` exactly the
   * rows it inserted, leaves the stored rows as they were (it only appends),
   * appends one ok=0 event per failing row and nothing else to the events,
   * and touches neither documents nor categories.
   */
  lemma {:induction false} ApplyPlansEffect(r: Run, docId: nat, format: Format, plans: seq<Plan>)
    ensures var r' := ApplyPlans(r, docId, format, plans);
      && r'.stats.docsNew == r.stats.docsNew
      && r'.stats.txSeen == r.stats.txSeen + |plans|
      && r.db.txns <= r'.db.txns
      && r'.stats.txNew == r.stats.txNew + (|r'.db.txns| - |r.db.txns|)
      && |r'.db.txns| <= |r.db.txns| + |plans| - Failures(plans)
      && r.db.accounts <= r'.db.accounts
      && r'.db.events == r.db.events + FailureEvents(docId, format, plans)
      && |FailureEvents(docId, format, plans)| == Failures(plans)
      && r'.db.documents == r.db.documents
      && r'.db.categories == r.db.categories
    decreases |plans|
  {
    if plans != [] {
      var init := plans[..|plans| - 1];
      ApplyPlansEffect(r, docId, format, init);
      var r1 := ApplyPlans(r, docId, format, init);
      match plans[|plans| - 1]
      case Failure(e) =>
        assert FailureEvents(docId, format, plans) == FailureEvents(docId, format, init) + [RowFailedEvent(docId, format, e)];
      case Success(p) =>
    }
  }

  /** `tx_new <= tx_seen` holds after the loop whenever it held before. */
  lemma {:induction false} NewAtMostSeen(r: Run, docId: nat, format: Format, plans: seq<Plan>)
    requires r.stats.txNew <= r.stats.txSeen
    ensures ApplyPlans(r, docId, format, plans).stats.txNew <= ApplyPlans(r, docId, format, plans).stats.txSeen
  {
    ApplyPlansEffect(r, docId, format, plans);
  }

  /** The loop keeps the fingerprints of the stored transactions unique. */
  lemma {:induction false} ApplyPlansKeepsUnique(r: Run, docId: nat, format: Format, plans: seq<Plan>)
    requires UniqueHashes(r.db.txns)
    ensures UniqueHashes(ApplyPlans(r, docId, format, plans).db.txns)
    decreases |plans|
  {
    if plans != [] {
      var r1 := ApplyPlans(r, docId, format, plans[..|plans| - 1]);
      ApplyPlansKeepsUnique(r, docId, format, plans[..|plans| - 1]);
      match plans[|plans| - 1]
      case Failure(_) =>
      case Success(p) =>
        var (_, accountId) := ResolveChoice(r1.db.accounts, p.account);
        InsertTxnKeepsUnique(r1.db.txns, TxnOf(p, accountId, docId));
    }
  }

  /**
   * A failing row changes nothing but `tx_seen` and the events: the rows
   * after it store the same accounts and transactions, and count the same
   * new transactions, as if it had not been there (the loop continues).
   */
  lemma {:induction false} FailingRowIsolated(r: Run, docId: nat, format: Format, a: seq<Plan>, e: RowError, b: seq<Plan>)
    ensures var with := ApplyPlans(r, docId, format, a + [Failure(e)] + b);
      var without := ApplyPlans(r, docId, format, a + b);
      && with.db.accounts == without.db.accounts
      && with.db.txns == without.db.txns
      && with.stats.txNew == without.stats.txNew
      && with.stats.txSeen == without.stats.txSeen + 1
    decreases |b|
  {
    if b == [] {
      assert a + [Failure(e)] + b == a + [Failure(e)];
      assert (a + [Failure(e)])[..|a|] == a;
      assert a + b == a;
    } else {
      var b' := b[..|b| - 1];
      var x := b[|b| - 1];
      assert (a + [Failure(e)] + b)[..|a + [Failure(e)] + b| - 1] == a + [Failure(e)] + b';
      assert (a + b)[..|a + b| - 1] == a + b';
      assert (a + [Failure(e)] + b)[|a + [Failure(e)] + b| - 1] == x;
      assert (a + b)[|a + b| - 1] == x;
      FailingRowIsolated(r, docId, format, a, e, b');
    }
  }

  // ---------------------------------------------------------------------------
  // Re-ingestion

  /** The row's account is known and its fingerprint is stored. */
  predicate Covered(db: Db, p: Pending) {
    match AccountFor(db.accounts, p.account)
    case None => false
    case Some(accountId) => HashPresent(db.txns, Fingerprint(HashInputOf(p, accountId)))
  }

  /** Every row that did not raise is covered. */
  predicate AllCovered(db: Db, plans: seq<Plan>) {
    forall k :: 0 <= k < |plans| && plans[k].Success? ==> Covered(db, plans[k].value)
  }

  /** Appending accounts and transactions keeps a row covered. */
  lemma {:induction false} CoveredExtend(db: Db, db': Db, p: Pending)
    requires Covered(db, p) && db.accounts <= db'.accounts && db.txns <= db'.txns
    ensures Covered(db', p)
  {
    match p.account {
      case ByKey(iban, accountNo) =>
        assert db'.accounts == db.accounts + db'.accounts[|db.accounts|..];
        var key := Account(Institution, iban, accountNo);
        FirstMatchExtend(db.accounts, db'.accounts[|db.accounts|..], (a: Account) => a == key);
      case Fixed(_) =>
    }
    var accountId := AccountFor(db.accounts, p.account).value;
    var h := Fingerprint(HashInputOf(p, accountId));
    var i :| 0 <= i < |db.txns| && db.txns[i].txnHash == h;
    assert db'.txns[i] == db.txns[i];
  }

  lemma {:induction false} AllCoveredExtend(db: Db, db': Db, plans: seq<Plan>)
    requires AllCovered(db, plans) && db.accounts <= db'.accounts && db.txns <= db'.txns
    ensures AllCovered(db', plans)
  {
    forall k | 0 <= k < |plans| && plans[k].Success? ensures Covered(db', plans[k].value) {
      CoveredExtend(db, db', plans[k].value);
    }
  }

  /** After the loop, every row that did not raise is covered. */
  lemma {:induction false} ApplyPlansCovers(r: Run, docId: nat, format: Format, plans: seq<Plan>)
    ensures AllCovered(ApplyPlans(r, docId, format, plans).db, plans)
    decreases |plans|
  {
    if plans != [] {
      var init := plans[..|plans| - 1];
      var r1 := ApplyPlans(r, docId, format, init);
      var r2 := ApplyPlans(r, docId, format, plans);
      ApplyPlansCovers(r, docId, format, init);
      ApplyPlansEffect(r1, docId, format, [plans[|plans| - 1]]);
      assert [plans[|plans| - 1]][..0] == [];
      AllCoveredExtend(r1.db, r2.db, init);
      forall k | 0 <= k < |plans| && plans[k].Success? ensures Covered(r2.db, plans[k].value) {
        if k < |plans| - 1 {
          assert plans[k] == init[k];
        } else {
          var p := plans[k].value;
          var (_, accountId) := ResolveChoice(r1.db.accounts, p.account);
          assert AccountFor(r2.db.accounts, p.account) == Some(accountId);
        }
      }
    }
  }

  /**
   * Rows that are all covered change nothing: no account is created, no
   * transaction inserted, and `tx_new` does not move.
   */
  lemma {:induction false} CoveredRowsInsertNothing(r: Run, docId: nat, format: Format, plans: seq<Plan>)
    requires AllCovered(r.db, plans)
    ensures var r' := ApplyPlans(r, docId, format, plans);
      r'.db.accounts == r.db.accounts && r'.db.txns == r.db.txns && r'.stats.txNew == r.stats.txNew
    decreases |plans|
  {
    if plans != [] {
      var init := plans[..|plans| - 1];
      forall k | 0 <= k < |init| && init[k].Success? ensures Covered(r.db, init[k].value) {
        assert init[k] == plans[k];
      }
      CoveredRowsInsertNothing(r, docId, format, init);
      var r1 := ApplyPlans(r, docId, format, init);
      match plans[|plans| - 1]
      case Failure(_) =>
      case Success(p) =>
        assert Covered(r.db, p);
        assert AccountFor(r1.db.accounts, p.account) == AccountFor(r.db.accounts, p.account);
    }
  }

  /**
   * Running the same rows again, on the database the first run left or on any
   * database that only appended to it, inserts nothing and creates no account.
   */
  lemma {:induction false} ReapplyInsertsNothing(r: Run, r2: Run, docId: nat, docId2: nat, format: Format, plans: seq<Plan>)
    requires ApplyPlans(r, docId, format, plans).db.accounts <= r2.db.accounts
    requires ApplyPlans(r, docId, format, plans).db.txns <= r2.db.txns
    ensures var r' := ApplyPlans(r2, docId2, format, plans);
      r'.db.accounts == r2.db.accounts && r'.db.txns == r2.db.txns && r'.stats.txNew == r2.stats.txNew
  {
    ApplyPlansCovers(r, docId, format, plans);
    AllCoveredExtend(ApplyPlans(r, docId, format, plans).db, r2.db, plans);
    CoveredRowsInsertNothing(r2, docId2, format, plans);
  }
}
