/**
 * The SQLite connection the ingesters and the categorizer write through,
 * as an object whose tables are fields that its methods update in place.
 * Each method is one SQL statement (or, for `EnsureAccount` and `ApplyRow`,
 * the few statements the source always issues together); its contract ties
 * the new tables to the `Ledger` functions of the old ones.
 */
module Storage {
  import opened Wrappers
  import opened Normalization
  import opened Ledger

  class Store {
    var documents: seq<Document>
    var accounts: seq<Account>
    var txns: seq<Txn>
    var events: seq<ParseEvent>
    var categories: seq<Category>

    /** The tables as a value. */
    function State(): Db
      reads this
    {
      Db(documents, accounts, txns, events, categories)
    }

    constructor (db: Db)
      ensures State() == db
    {
      documents := db.documents;
      accounts := db.accounts;
      txns := db.txns;
      events := db.events;
      categories := db.categories;
    }

    /** `INSERT INTO documents(...)`, returning `lastrowid`. */
    method InsertDocument(doc: Document) returns (id: nat)
      modifies this
      ensures State() == old(State()).(documents := old(documents) + [doc])
      ensures id == |documents|
    {
      documents := documents + [doc];
      id := |documents|;
    }

    /** `INSERT INTO parse_events(document_id, stage, ok, message)`. */
    method InsertEvent(e: ParseEvent)
      modifies this
      ensures State() == old(State()).(events := old(events) + [e])
    {
      events := events + [e];
    }

    /**
     * `_ensure_account` (src/finagent/tools/csv_ingest.py): select the first
     * ING account whose iban and account number match null-aware, else
     * insert one and return its new id.
     */
    method EnsureAccount(iban: Option<string>, accountNo: Option<string>) returns (id: nat)
      modifies this
      ensures (accounts, id) == ResolveAccount(old(accounts), Account(Institution, iban, accountNo))
      ensures State() == old(State()).(accounts := accounts)
    {
      var key := Account(Institution, iban, accountNo);
      var found := FindAccount(accounts, key);
      if found.Some? {
        id := found.value;
      } else {
        accounts := accounts + [key];
        id := |accounts|;
      }
    }

    /**
     * `INSERT OR IGNORE INTO accounts(...)`. The row is ignored only when it
     * would repeat an existing (institution, iban, account_no) with all three
     * values present: SQLite never treats two NULLs as a uniqueness conflict.
     */
    method InsertAccountOrIgnore(a: Account)
      modifies this
      ensures accounts == (if AccountConflict(old(accounts), a) then old(accounts) else old(accounts) + [a])
      ensures State() == old(State()).(accounts := accounts)
    {
      if !AccountConflict(accounts, a) {
        accounts := accounts + [a];
      }
    }

    /**
     * `INSERT OR IGNORE INTO transactions(...)` followed by `SELECT changes()`:
     * whether the row was added.
     */
    method InsertTxnOrIgnore(t: Txn) returns (changed: bool)
      modifies this
      ensures txns == Ledger.InsertTxnOrIgnore(old(txns), t)
      ensures changed <==> !HashPresent(old(txns), t.txnHash)
      ensures State() == old(State()).(txns := txns)
    {
      changed := !HashPresent(txns, t.txnHash);
      if changed {
        txns := txns + [t];
      }
    }

    /**
     * The body of every ingester's row loop, from `stats.tx_seen += 1` to the
     * `except` branch that logs the row error.
     */
    method ApplyRow(docId: nat, format: Format, plan: Plan, stats: Stats) returns (next: Stats)
      modifies this
      ensures Run(State(), next) == ApplyPlan(Run(old(State()), stats), docId, format, plan)
    {
      next := stats.(txSeen := stats.txSeen + 1);
      match plan {
        case Failure(e) =>
          InsertEvent(RowFailedEvent(docId, format, e));
        case Success(p) =>
          var accountId: nat;
          match p.account {
            case ByKey(iban, accountNo) =>
              accountId := EnsureAccount(iban, accountNo);
            case Fixed(id) =>
              accountId := id;
          }
          assert (accounts, accountId) == ResolveChoice(old(accounts), p.account);
          ghost var before := txns;
          var changed := InsertTxnOrIgnore(TxnOf(p, accountId, docId));
          assert changed <==> |txns| > |before|;
          if changed {
            next := next.(txNew := next.txNew + 1);
          }
      }
    }

    /** `UPDATE transactions SET category_id=? WHERE id=?`. */
    method SetCategory(txId: nat, categoryId: nat)
      modifies this
      ensures txns == SetTxnCategory(old(txns), txId, categoryId)
      ensures State() == old(State()).(txns := txns)
    {
      if 1 <= txId <= |txns| {
        txns := txns[txId - 1 := txns[txId - 1].(categoryId := Some(categoryId))];
      }
    }

    /** `INSERT INTO categories(code, label)`, returning `lastrowid`. */
    method InsertCategory(c: Category) returns (id: nat)
      modifies this
      ensures State() == old(State()).(categories := old(categories) + [c])
      ensures id == |categories|
    {
      categories := categories + [c];
      id := |categories|;
    }
  }
}
