/**
 * The keyword categorizer that runs after ingestion
 * (src/finagent/tools/categorizer.py). It makes sure every category code of
 * an ordered keyword table exists, then walks the transactions whose
 * category is still NULL and gives each the code of the first keyword, in
 * table order, that occurs in its normalized, lower-cased description and
 * counterparty name. Rows without a matching keyword are left alone.
 */
module Categorizer {
  import opened Wrappers
  import opened Text
  import opened Normalization
  import opened Ledger
  import opened Storage

  /** One entry of the keyword table: a lower-case keyword and its category code. */
  datatype Rule = Rule(keyword: string, code: string)

  /** `CategorizeStats`; `merchants_new` and `categories_new` are never incremented. */
  datatype CategorizeStats = CategorizeStats(merchantsNew: nat, categoriesNew: nat, txUpdated: nat)

  /** `DEFAULT_CATEGORY_MAP`, in its insertion order. */
  const DefaultCategoryMap: seq<Rule> := [
    Rule("albert heijn", "GROCERIES"),
    Rule("jumbo", "GROCERIES"),
    Rule("lidle", "GROCERIES"),
    Rule("action", "HOUSEHOLD"),
    Rule("brabantwonen", "RENT"),
    Rule("huur", "RENT"),
    Rule("vgz", "HEALTH"),
    Rule("nn schadeverzekering", "INSURANCE"),
    Rule("verzekering", "INSURANCE"),
    Rule("ing creditcard", "CREDIT_CARD"),
    Rule("betaalpakket", "BANK_FEES"),
    Rule("rente", "INTEREST"),
    Rule("amazon", "SHOPPING"),
    Rule("washin7", "TRANSPORT")
  ]

  /** The category codes a table names. */
  function CodesOf(table: seq<Rule>): set<string> {
    set k | 0 <= k < |table| :: table[k].code
  }

  // ---------------------------------------------------------------------------
  // _ensure_category

  /** `label or code.title()`. */
  function LabelFor(labelText: Option<string>, code: string): (r: string)
    ensures labelText.Some? && labelText.value != "" ==> r == labelText.value
    ensures labelText.None? || labelText.value == "" ==> Upper(r) == Upper(code) && TitleCased(code, r)
  {
    if labelText.Some? && labelText.value != "" then labelText.value else Title(code)
  }

  /**
   * `_ensure_category`: the id of the first category with this code, or a new
   * category appended with the given label (defaulting to the title-cased
   * code) and its new id.
   */
  function EnsureCategorySpec(categories: seq<Category>, code: string, labelText: Option<string>): (r: (seq<Category>, nat))
    ensures FindCategory(r.0, code) == Some(r.1)
    ensures FindCategory(categories, code).Some? ==> r.0 == categories
    ensures FindCategory(categories, code).None? ==>
      r.0 == categories + [Category(code, LabelFor(labelText, code))] && r.1 == |categories| + 1
  {
    match FindCategory(categories, code)
    case Some(id) => (categories, id)
    case None =>
      var c := Category(code, LabelFor(labelText, code));
      FirstMatchAppendHit(categories, c, (x: Category) => x.code == code);
      (categories + [c], |categories| + 1)
  }

  method EnsureCategory(store: Store, code: string, labelText: Option<string>) returns (id: nat)
    modifies store
    ensures (store.categories, id) == EnsureCategorySpec(old(store.categories), code, labelText)
    ensures store.State() == old(store.State()).(categories := store.categories)
  {
    var found := FindCategory(store.categories, code);
    if found.Some? {
      id := found.value;
    } else {
      id := store.InsertCategory(Category(code, LabelFor(labelText, code)));
    }
  }

  /** The category table after `_ensure_category` of every code of the table, in order. */
  function EnsureCodes(categories: seq<Category>, table: seq<Rule>): (r: seq<Category>)
    ensures |categories| <= |r| && r[..|categories|] == categories
    ensures forall k :: 0 <= k < |table| ==> FindCategory(r, table[k].code).Some?
    decreases |table|
  {
    if table == [] then categories
    else
      var before := EnsureCodes(categories, table[..|table| - 1]);
      var after := EnsureCategorySpec(before, table[|table| - 1].code, None).0;
      forall k | 0 <= k < |table| - 1
        ensures FindCategory(after, table[k].code).Some?
      {
        assert table[..|table| - 1][k] == table[k];
        if after != before {
          FirstMatchExtend(before, [after[|after| - 1]], (x: Category) => x.code == table[k].code);
        }
      }
      after
  }

  /** Ensuring the codes of a table again changes nothing. */
  lemma {:induction false} EnsureCodesFound(categories: seq<Category>, table: seq<Rule>)
    requires forall k :: 0 <= k < |table| ==> FindCategory(categories, table[k].code).Some?
    ensures EnsureCodes(categories, table) == categories
    decreases |table|
  {
    if table != [] {
      var front := table[..|table| - 1];
      forall k | 0 <= k < |front|
        ensures FindCategory(categories, front[k].code).Some?
      {
        assert front[k] == table[k];
      }
      EnsureCodesFound(categories, front);
    }
  }

  /** Ensuring one more code extends the table by one step. */
  lemma {:induction false} EnsureCodesStep(categories: seq<Category>, table: seq<Rule>, k: nat)
    requires k < |table|
    ensures EnsureCodes(categories, table[..k + 1]) == EnsureCategorySpec(EnsureCodes(categories, table[..k]), table[k].code, None).0
  {
    assert table[..k + 1][..k] == table[..k];
    assert table[..k + 1][k] == table[k];
  }

  lemma {:induction false} CodesOfStep(table: seq<Rule>, k: nat)
    requires k < |table|
    ensures CodesOf(table[..k + 1]) == CodesOf(table[..k]) + {table[k].code}
  {
    assert table[..k + 1][k] == table[k];
    forall c | c in CodesOf(table[..k + 1]) ensures c in CodesOf(table[..k]) + {table[k].code} {
      var j :| 0 <= j < k + 1 && table[..k + 1][j].code == c;
      if j < k {
        assert table[..k][j] == table[..k + 1][j];
      }
    }
    forall c | c in CodesOf(table[..k]) ensures c in CodesOf(table[..k + 1]) {
      var j :| 0 <= j < k && table[..k][j].code == c;
      assert table[..k + 1][j] == table[..k][j];
    }
  }

  /** Ensuring a code never moves a category another code already finds. */
  lemma {:induction false} EnsureKeepsFound(categories: seq<Category>, code: string, c: string)
    requires FindCategory(categories, c).Some?
    ensures FindCategory(EnsureCategorySpec(categories, code, None).0, c) == FindCategory(categories, c)
  {
    var after := EnsureCategorySpec(categories, code, None).0;
    if after != categories {
      FirstMatchExtend(categories, [after[|after| - 1]], (x: Category) => x.code == c);
    }
  }

  /** One turn of the `category_ids` loop: `_ensure_category` of a code not yet in the map. */
  method EnsureUnlessKnown(store: Store, code: string, ids: map<string, nat>) returns (ids': map<string, nat>)
    requires forall c :: c in ids ==> FindCategory(store.categories, c) == Some(ids[c])
    modifies store
    ensures store.State() == old(store.State()).(categories := EnsureCategorySpec(old(store.categories), code, None).0)
    ensures ids'.Keys == ids.Keys + {code}
    ensures forall c :: c in ids' ==> FindCategory(store.categories, c) == Some(ids'[c])
  {
    ids' := ids;
    if code !in ids {
      ghost var before := store.categories;
      var id := EnsureCategory(store, code, None);
      forall c | c in ids
        ensures FindCategory(store.categories, c) == Some(ids[c])
      {
        EnsureKeepsFound(before, code, c);
      }
      ids' := ids[code := id];
    }
  }

  /**
   * The `category_ids` loop: every code of the table is ensured once, in
   * table order, and mapped to its category id.
   */
  method BuildCategoryIds(store: Store, table: seq<Rule>) returns (ids: map<string, nat>)
    modifies store
    ensures store.State() == old(store.State()).(categories := EnsureCodes(old(store.categories), table))
    ensures ids.Keys == CodesOf(table)
    ensures forall c :: c in ids ==> FindCategory(store.categories, c) == Some(ids[c])
  {
    ids := map[];
    var k := 0;
    while k < |table|
      invariant k <= |table|
      invariant store.State() == old(store.State()).(categories := EnsureCodes(old(store.categories), table[..k]))
      invariant ids.Keys == CodesOf(table[..k])
      invariant forall c :: c in ids ==> FindCategory(store.categories, c) == Some(ids[c])
    {
      EnsureCodesStep(old(store.categories), table, k);
      CodesOfStep(table, k);
      ids := EnsureUnlessKnown(store, table[k].code, ids);
      k := k + 1;
    }
    assert table[..k] == table;
  }

  // ---------------------------------------------------------------------------
  // Choosing a category

  /** `normalize_text((desc or "") + " " + (cp or "")).lower()`. */
  function Base(description: string, counterpartyName: Option<string>): (r: string)
    ensures |r| <= |description| + 1 + |counterpartyName.GetOr("")|
  {
    Lower(NormalizeText(description + " " + counterpartyName.GetOr("")))
  }

  /** The first table position, from `from` on, whose keyword occurs in `base`. */
  function FirstKeywordFrom(table: seq<Rule>, base: string, from: nat): (r: Option<nat>)
    requires from <= |table|
    ensures r.Some? ==> from <= r.value < |table| && IsSubstring(table[r.value].keyword, base)
    ensures r.Some? ==> forall j :: from <= j < r.value ==> !IsSubstring(table[j].keyword, base)
    ensures r.None? ==> forall j :: from <= j < |table| ==> !IsSubstring(table[j].keyword, base)
    decreases |table| - from
  {
    if from == |table| then None
    else if IsSubstring(table[from].keyword, base) then Some(from)
    else FirstKeywordFrom(table, base, from + 1)
  }

  /**
   * The code of the first keyword, in table order, that is a substring of
   * `base`; None when no keyword occurs.
   */
  function Choose(table: seq<Rule>, base: string): (r: Option<string>)
    ensures r.Some? <==> exists k :: 0 <= k < |table| && IsSubstring(table[k].keyword, base)
    ensures r.Some? ==> exists k :: (0 <= k < |table| && IsSubstring(table[k].keyword, base) && r.value == table[k].code
                                     && forall j :: 0 <= j < k ==> !IsSubstring(table[j].keyword, base))
  {
    match FirstKeywordFrom(table, base, 0)
    case Some(k) => Some(table[k].code)
    case None => None
  }

  /** The inner `for kw, code in ...: if kw in base: chosen = code; break` loop. */
  method PickCategory(table: seq<Rule>, base: string) returns (chosen: Option<string>)
    ensures chosen == Choose(table, base)
  {
    chosen := None;
    var k := 0;
    while k < |table|
      invariant k <= |table|
      invariant FirstKeywordFrom(table, base, 0) == FirstKeywordFrom(table, base, k)
    {
      if IsSubstring(table[k].keyword, base) {
        chosen := Some(table[k].code);
        return;
      }
      k := k + 1;
    }
  }

  /**
   * The category a row with this text gets: the id of the chosen code, or
   * None when no keyword occurs or the chosen code is empty (`if not chosen`).
   */
  function CategoryFor(table: seq<Rule>, categories: seq<Category>, description: string, counterpartyName: Option<string>): (r: Option<nat>)
    ensures r.Some? ==> exists k :: (0 <= k < |table| && IsSubstring(table[k].keyword, Base(description, counterpartyName))
                                     && table[k].code != "" && FindCategory(categories, table[k].code) == r
                                     && forall j :: 0 <= j < k ==> !IsSubstring(table[j].keyword, Base(description, counterpartyName)))
    ensures (forall k :: 0 <= k < |table| ==> !IsSubstring(table[k].keyword, Base(description, counterpartyName))) ==> r.None?
  {
    var chosen := Choose(table, Base(description, counterpartyName));
    if chosen.Some? && chosen.value != "" then FindCategory(categories, chosen.value) else None
  }

  /**
   * Conversely, once k is the first keyword that occurs, the category is
   * the id of k's code, or None when that code is empty.
   */
  lemma CategoryForFirst(table: seq<Rule>, categories: seq<Category>, description: string, counterpartyName: Option<string>, k: nat)
    requires k < |table| && IsSubstring(table[k].keyword, Base(description, counterpartyName))
    requires forall j :: 0 <= j < k ==> !IsSubstring(table[j].keyword, Base(description, counterpartyName))
    ensures CategoryFor(table, categories, description, counterpartyName) ==
      if table[k].code != "" then FindCategory(categories, table[k].code) else None
  {
    var base := Base(description, counterpartyName);
    var f := FirstKeywordFrom(table, base, 0);
    assert f.Some?;
    assert f.value == k;
  }

  /** A transaction after categorization: only a NULL category can be set. */
  function Categorized(table: seq<Rule>, categories: seq<Category>, t: Txn): (r: Txn)
    ensures t.categoryId.Some? ==> r == t
    ensures r == t || (t.categoryId.None? && r == t.(categoryId := CategoryFor(table, categories, t.description, t.counterpartyName)))
    ensures r.categoryId.Some? || CategoryFor(table, categories, t.description, t.counterpartyName).None?
  {
    if t.categoryId.None? then
      match CategoryFor(table, categories, t.description, t.counterpartyName)
      case Some(id) => t.(categoryId := Some(id))
      case None => t
    else t
  }

  /** Whether categorization sets this transaction's category. */
  predicate Updates(table: seq<Rule>, categories: seq<Category>, t: Txn) {
    t.categoryId.None? && CategoryFor(table, categories, t.description, t.counterpartyName).Some?
  }

  /** Every transaction categorized. */
  function CategorizeAll(table: seq<Rule>, categories: seq<Category>, txns: seq<Txn>): (r: seq<Txn>)
    ensures |r| == |txns|
  {
    seq(|txns|, i requires 0 <= i < |txns| => Categorized(table, categories, txns[i]))
  }

  /** How many transactions categorization sets. */
  function CountUpdates(table: seq<Rule>, categories: seq<Category>, txns: seq<Txn>): (n: nat)
    ensures n <= |txns|
  {
    if txns == [] then 0
    else CountUpdates(table, categories, txns[..|txns| - 1]) + if Updates(table, categories, txns[|txns| - 1]) then 1 else 0
  }

  /** How many rows went from a NULL category to a set one. */
  function NewlySet(before: seq<Txn>, after: seq<Txn>): nat
    requires |before| == |after|
  {
    if before == [] then 0
    else
      var n := |before| - 1;
      NewlySet(before[..n], after[..n]) + if before[n].categoryId.None? && after[n].categoryId.Some? then 1 else 0
  }

  // ---------------------------------------------------------------------------
  // The row loop

  /** One row of `SELECT id, description, counterparty_name ... WHERE category_id IS NULL`. */
  datatype Row = Row(id: nat, description: string, counterpartyName: Option<string>)

  /** The uncategorized transactions, in id order. */
  function Snapshot(txns: seq<Txn>): (rows: seq<Row>)
    ensures |rows| <= |txns|
  {
    if txns == [] then []
    else
      var n := |txns| - 1;
      Snapshot(txns[..n]) + if txns[n].categoryId.None? then [Row(n + 1, txns[n].description, txns[n].counterpartyName)] else []
  }

  /** One turn of the row loop: the UPDATE and `tx_updated += 1`, or `continue`. */
  function Step(table: seq<Rule>, categories: seq<Category>, txns: seq<Txn>, updated: nat, row: Row): (seq<Txn>, nat) {
    match CategoryFor(table, categories, row.description, row.counterpartyName)
    case Some(id) => (SetTxnCategory(txns, row.id, id), updated + 1)
    case None => (txns, updated)
  }

  /** The row loop over the snapshot rows, in order. */
  function UpdateRows(table: seq<Rule>, categories: seq<Category>, txns: seq<Txn>, rows: seq<Row>): (r: (seq<Txn>, nat))
    ensures |r.0| == |txns|
  {
    if rows == [] then (txns, 0)
    else
      var (t, n) := UpdateRows(table, categories, txns, rows[..|rows| - 1]);
      Step(table, categories, t, n, rows[|rows| - 1])
  }

  /** `categorize_transactions`, on the tables as a value. */
  function CategorizeSpec(db: Db, table: seq<Rule>): (Db, CategorizeStats) {
    var categories := EnsureCodes(db.categories, table);
    var (txns, updated) := UpdateRows(table, categories, db.txns, Snapshot(db.txns));
    (db.(categories := categories, txns := txns), CategorizeStats(0, 0, updated))
  }

  /** The row loop over a snapshot of the uncategorized transactions. */
  method UpdateCategories(store: Store, table: seq<Rule>, ids: map<string, nat>, rows: seq<Row>) returns (updated: nat)
    requires ids.Keys == CodesOf(table)
    requires forall c :: c in ids ==> FindCategory(store.categories, c) == Some(ids[c])
    modifies store
    ensures (store.txns, updated) == UpdateRows(table, store.categories, old(store.txns), rows)
    ensures store.State() == old(store.State()).(txns := store.txns)
  {
    updated := 0;
    var k := 0;
    while k < |rows|
      invariant k <= |rows|
      invariant (store.txns, updated) == UpdateRows(table, store.categories, old(store.txns), rows[..k])
      invariant store.State() == old(store.State()).(txns := store.txns)
    {
      var row := rows[k];
      UpdateRowsAt(table, store.categories, old(store.txns), rows, k);
      var chosen := PickCategory(table, Base(row.description, row.counterpartyName));
      StepByChoice(table, store.categories, ids, store.txns, updated, row, chosen);
      if chosen.Some? && chosen.value != "" {
        store.SetCategory(row.id, ids[chosen.value]);
        updated := updated + 1;
      }
      k := k + 1;
    }
    assert rows[..k] == rows;
  }

  /** `categorize_transactions`. */
  method CategorizeTransactions(store: Store, table: seq<Rule>) returns (stats: CategorizeStats)
    modifies store
    ensures (store.State(), stats) == CategorizeSpec(old(store.State()), table)
  {
    var ids := BuildCategoryIds(store, table);
    var rows := Snapshot(store.txns);
    var updated := UpdateCategories(store, table, ids, rows);
    stats := CategorizeStats(0, 0, updated);
  }

  // ---------------------------------------------------------------------------
  // Properties

  lemma {:induction false} SnapshotStep(txns: seq<Txn>, n: nat)
    requires 0 < n <= |txns|
    ensures Snapshot(txns[..n]) == Snapshot(txns[..n - 1])
      + if txns[n - 1].categoryId.None? then [Row(n, txns[n - 1].description, txns[n - 1].counterpartyName)] else []
  {
    assert txns[..n][..n - 1] == txns[..n - 1];
    assert txns[..n][n - 1] == txns[n - 1];
  }

  lemma {:induction false} UpdateRowsStep(table: seq<Rule>, categories: seq<Category>, txns: seq<Txn>, rows: seq<Row>, row: Row)
    ensures UpdateRows(table, categories, txns, rows + [row])
      == Step(table, categories, UpdateRows(table, categories, txns, rows).0, UpdateRows(table, categories, txns, rows).1, row)
  {
    assert (rows + [row])[..|rows|] == rows;
  }

  lemma {:induction false} UpdateRowsAt(table: seq<Rule>, categories: seq<Category>, txns: seq<Txn>, rows: seq<Row>, k: nat)
    requires k < |rows|
    ensures UpdateRows(table, categories, txns, rows[..k + 1])
      == Step(table, categories, UpdateRows(table, categories, txns, rows[..k]).0, UpdateRows(table, categories, txns, rows[..k]).1, rows[k])
  {
    assert rows[..k + 1] == rows[..k] + [rows[k]];
    UpdateRowsStep(table, categories, txns, rows[..k], rows[k]);
  }

  /**
   * With every code of the table mapped to its category id, a turn of the
   * row loop writes the id of the chosen code, and skips the row when no
   * keyword occurs or the chosen code is empty.
   */
  lemma StepByChoice(table: seq<Rule>, categories: seq<Category>, ids: map<string, nat>, txns: seq<Txn>, updated: nat,
                     row: Row, chosen: Option<string>)
    requires ids.Keys == CodesOf(table)
    requires forall c :: c in ids ==> FindCategory(categories, c) == Some(ids[c])
    requires chosen == Choose(table, Base(row.description, row.counterpartyName))
    ensures chosen.Some? && chosen.value != "" ==> chosen.value in ids
    ensures Step(table, categories, txns, updated, row)
      == if chosen.Some? && chosen.value != "" then (SetTxnCategory(txns, row.id, ids[chosen.value]), updated + 1) else (txns, updated)
  {
    if chosen.Some? {
      var k :| 0 <= k < |table| && chosen.value == table[k].code;
      assert table[k].code in CodesOf(table);
    }
  }

  /** Categorizing one more transaction sets one more position. */
  lemma {:induction false} CategorizeAllStep(table: seq<Rule>, categories: seq<Category>, txns: seq<Txn>, n: nat)
    requires 0 < n <= |txns|
    ensures CategorizeAll(table, categories, txns[..n]) + txns[n..]
      == (CategorizeAll(table, categories, txns[..n - 1]) + txns[n - 1..])[n - 1 := Categorized(table, categories, txns[n - 1])]
  {
  }

  /** One snapshot row's turn of the loop (or its absence) categorizes that one position. */
  lemma StepAt(table: seq<Rule>, categories: seq<Category>, t: seq<Txn>, cnt: nat, n: nat, x: Txn)
    requires 0 < n <= |t| && t[n - 1] == x
    ensures (if x.categoryId.None? then Step(table, categories, t, cnt, Row(n, x.description, x.counterpartyName)) else (t, cnt))
      == (t[n - 1 := Categorized(table, categories, x)], cnt + if Updates(table, categories, x) then 1 else 0)
  {
    if x.categoryId.None? {
      match CategoryFor(table, categories, x.description, x.counterpartyName)
      case Some(id) =>
        assert SetTxnCategory(t, n, id) == t[n - 1 := Categorized(table, categories, x)];
      case None =>
        assert t[n - 1 := Categorized(table, categories, x)] == t;
    } else {
      assert t[n - 1 := x] == t;
    }
  }

  /** The row loop over the first n snapshot rows categorizes exactly the first n transactions. */
  lemma {:induction false} UpdateRowsPrefix(table: seq<Rule>, categories: seq<Category>, txns: seq<Txn>, n: nat)
    requires n <= |txns|
    ensures UpdateRows(table, categories, txns, Snapshot(txns[..n]))
      == (CategorizeAll(table, categories, txns[..n]) + txns[n..], CountUpdates(table, categories, txns[..n]))
  {
    if n == 0 {
      assert txns[..0] == [];
      assert CategorizeAll(table, categories, []) + txns[0..] == txns;
    } else {
      UpdateRowsPrefix(table, categories, txns, n - 1);
      UpdateRowsPrefixStep(table, categories, txns, n);
    }
  }

  /** One more transaction: the loop's turn for it (if it is a snapshot row) categorizes position n - 1. */
  lemma UpdateRowsPrefixStep(table: seq<Rule>, categories: seq<Category>, txns: seq<Txn>, n: nat)
    requires 0 < n <= |txns|
    requires UpdateRows(table, categories, txns, Snapshot(txns[..n - 1]))
      == (CategorizeAll(table, categories, txns[..n - 1]) + txns[n - 1..], CountUpdates(table, categories, txns[..n - 1]))
    ensures UpdateRows(table, categories, txns, Snapshot(txns[..n]))
      == (CategorizeAll(table, categories, txns[..n]) + txns[n..], CountUpdates(table, categories, txns[..n]))
  {
    SnapshotStep(txns, n);
    CategorizeAllStep(table, categories, txns, n);
    CountUpdatesStep(table, categories, txns, n);
    var t := CategorizeAll(table, categories, txns[..n - 1]) + txns[n - 1..];
    assert t[n - 1] == txns[n - 1];
    StepAt(table, categories, t, CountUpdates(table, categories, txns[..n - 1]), n, txns[n - 1]);
    var rows := Snapshot(txns[..n - 1]);
    if txns[n - 1].categoryId.None? {
      var row := Row(n, txns[n - 1].description, txns[n - 1].counterpartyName);
      UpdateRowsStep(table, categories, txns, rows, row);
      assert Snapshot(txns[..n]) == rows + [row];
    } else {
      assert Snapshot(txns[..n]) == rows;
    }
  }

  lemma {:induction false} CountUpdatesStep(table: seq<Rule>, categories: seq<Category>, txns: seq<Txn>, n: nat)
    requires 0 < n <= |txns|
    ensures CountUpdates(table, categories, txns[..n])
      == CountUpdates(table, categories, txns[..n - 1]) + if Updates(table, categories, txns[n - 1]) then 1 else 0
  {
    assert txns[..n][..n - 1] == txns[..n - 1];
    assert txns[..n][n - 1] == txns[n - 1];
  }

  /** Counting the rows categorization sets is counting the rows that went from NULL to set. */
  lemma {:induction false} CountIsNewlySet(table: seq<Rule>, categories: seq<Category>, txns: seq<Txn>)
    ensures CountUpdates(table, categories, txns) == NewlySet(txns, CategorizeAll(table, categories, txns))
    decreases |txns|
  {
    if txns != [] {
      var n := |txns| - 1;
      assert CategorizeAll(table, categories, txns)[..n] == CategorizeAll(table, categories, txns[..n]);
      CountIsNewlySet(table, categories, txns[..n]);
    }
  }

  /**
   * The effect of `categorize_transactions`: every code of the table exists
   * afterwards, each transaction is categorized independently (a NULL
   * category gets the first matching keyword's category, a set one is kept),
   * `tx_updated` counts the rows whose category went from NULL to set, the
   * other counters stay 0, and no other table changes.
   */
  lemma {:induction false} CategorizeEffect(db: Db, table: seq<Rule>)
    ensures var (db', stats) := CategorizeSpec(db, table);
      && db'.categories == EnsureCodes(db.categories, table)
      && db'.txns == CategorizeAll(table, db'.categories, db.txns)
      && stats.txUpdated == NewlySet(db.txns, db'.txns)
      && stats.merchantsNew == 0 && stats.categoriesNew == 0
      && db'.documents == db.documents && db'.accounts == db.accounts && db'.events == db.events
  {
    var categories := EnsureCodes(db.categories, table);
    UpdateRowsPrefix(table, categories, db.txns, |db.txns|);
    assert db.txns[..|db.txns|] == db.txns;
    CountIsNewlySet(table, categories, db.txns);
  }

  /** Categorizing twice with the same table is categorizing once. */
  lemma {:induction false} CategorizedStable(table: seq<Rule>, categories: seq<Category>, txns: seq<Txn>)
    ensures CategorizeAll(table, categories, CategorizeAll(table, categories, txns)) == CategorizeAll(table, categories, txns)
    ensures CountUpdates(table, categories, CategorizeAll(table, categories, txns)) == 0
    decreases |txns|
  {
    if txns != [] {
      var n := |txns| - 1;
      var once := CategorizeAll(table, categories, txns);
      assert once[..n] == CategorizeAll(table, categories, txns[..n]);
      CategorizedStable(table, categories, txns[..n]);
    }
  }

  /**
   * A second run with no new transactions changes nothing and updates 0
   * rows: the categories it needs exist, matched rows are no longer NULL and
   * unmatched rows still match nothing.
   */
  lemma {:induction false} CategorizeTwice(db: Db, table: seq<Rule>)
    ensures var (db1, _) := CategorizeSpec(db, table);
      var (db2, stats2) := CategorizeSpec(db1, table);
      db2 == db1 && stats2.txUpdated == 0
  {
    var (db1, _) := CategorizeSpec(db, table);
    CategorizeEffect(db, table);
    CategorizeEffect(db1, table);
    EnsureCodesFound(db1.categories, table);
    CategorizedStable(table, db1.categories, db.txns);
    CountIsNewlySet(table, db1.categories, db1.txns);
    UpdateRowsPrefix(table, db1.categories, db1.txns, |db1.txns|);
    assert db1.txns[..|db1.txns|] == db1.txns;
  }
}
