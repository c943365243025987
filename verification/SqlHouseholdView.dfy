/**
  What the AI view denotes: the joined transactions, postings and accounts of one household, and the proof that the rewriter's
  subquery evaluates to exactly these rows wherever it is put.
  */
module SqlHouseholdView {
  import opened Results
  import opened SqlSemantics
  import opened SqlRewrite

  // ----- The multi-household database -----

  datatype Txn = Txn(householdId: Value, id: Value, date: Value, description: Value, status: Value, reconciledAt: Value)

  datatype Posting = Posting(householdId: Value, transactionId: Value, accountId: Value, amount: Value, currency: Value)

  datatype Account = Account(householdId: Value, id: Value, code: Value, name: Value, kind: Value)

  datatype Db = Db(transactions: seq<Txn>, postings: seq<Posting>, accounts: seq<Account>)

  const TRANSACTION_COLUMNS := ["household_id", "id", "date", "description", "status", "reconciled_at"]

  const POSTING_COLUMNS := ["household_id", "transaction_id", "account_id", "amount", "currency"]

  const ACCOUNT_COLUMNS := ["household_id", "id", "code", "name", "type"]

  function TxnTuple(t: Txn): Tuple {
    [t.householdId, t.id, t.date, t.description, t.status, t.reconciledAt]
  }

  function PostingTuple(p: Posting): Tuple {
    [p.householdId, p.transactionId, p.accountId, p.amount, p.currency]
  }

  function AccountTuple(a: Account): Tuple {
    [a.householdId, a.id, a.code, a.name, a.kind]
  }

  function FullTables(db: Db): map<string, Rel> {
    map[
      "transactions" := Rel(TRANSACTION_COLUMNS,
        seq(|db.transactions|, i requires 0 <= i < |db.transactions| => TxnTuple(db.transactions[i]))),
      "postings" := Rel(POSTING_COLUMNS,
        seq(|db.postings|, i requires 0 <= i < |db.postings| => PostingTuple(db.postings[i]))),
      "accounts" := Rel(ACCOUNT_COLUMNS,
        seq(|db.accounts|, i requires 0 <= i < |db.accounts| => AccountTuple(db.accounts[i])))
    ]
  }

  // ----- The household's rows, independently of any query -----

  /** SQL equality that holds: equal and not NULL. */
  predicate Same(a: Value, b: Value) {
    a == b && !a.Null?
  }

  predicate PostingOf(p: Posting, t: Txn) {
    Same(p.householdId, t.householdId) && Same(p.transactionId, t.id)
  }

  predicate AccountOf(a: Account, p: Posting) {
    Same(a.householdId, p.householdId) && Same(a.id, p.accountId)
  }

  function Amount(engine: Engine, v: Value): Value {
    engine.scalar("/", [engine.scalar("*", [v, Real(1.0)]), Real(100000000.0)])
  }

  function ViewTuple(engine: Engine, t: Txn, p: Posting, a: Account): Tuple {
    [t.id, t.date, t.description, Amount(engine, p.amount), p.currency, a.code, a.name, a.kind, t.status, t.reconciledAt]
  }

  function AccountRows(engine: Engine, t: Txn, p: Posting, accounts: seq<Account>): seq<Tuple> {
    if accounts == [] then []
    else (if AccountOf(accounts[0], p) then [ViewTuple(engine, t, p, accounts[0])] else [])
         + AccountRows(engine, t, p, accounts[1..])
  }

  function PostingRows(engine: Engine, t: Txn, postings: seq<Posting>, accounts: seq<Account>): seq<Tuple> {
    if postings == [] then []
    else (if PostingOf(postings[0], t) then AccountRows(engine, t, postings[0], accounts) else [])
         + PostingRows(engine, t, postings[1..], accounts)
  }

  function HouseholdRows(
      engine: Engine, transactions: seq<Txn>, postings: seq<Posting>, accounts: seq<Account>, h: Value): seq<Tuple>
  {
    if transactions == [] then []
    else (if Same(transactions[0].householdId, h) then PostingRows(engine, transactions[0], postings, accounts) else [])
         + HouseholdRows(engine, transactions[1..], postings, accounts, h)
  }

  /** The row that a transaction, a posting and an account of household `h` give when they are joined. */
  predicate JoinedRow(engine: Engine, t: Txn, p: Posting, a: Account, h: Value, row: Tuple) {
    && t.householdId == p.householdId == a.householdId == h && h != Null
    && p.transactionId == t.id && t.id != Null && a.id == p.accountId && a.id != Null
    && row == [t.id, t.date, t.description,
               engine.scalar("/", [engine.scalar("*", [p.amount, Real(1.0)]), Real(100000000.0)]), p.currency,
               a.code, a.name, a.kind, t.status, t.reconciledAt]
  }

  /** A row is in the view exactly if it joins a transaction, a posting and an account that all belong to `h`. */
  lemma HouseholdRowsAre(
      engine: Engine, transactions: seq<Txn>, postings: seq<Posting>, accounts: seq<Account>, h: Value, row: Tuple)
    ensures row in HouseholdRows(engine, transactions, postings, accounts, h) <==>
            exists t, p, a :: t in transactions && p in postings && a in accounts && JoinedRow(engine, t, p, a, h, row)
  {
    HouseholdRowsJoin(engine, transactions, postings, accounts, h, row);
    forall t, p, a
      ensures JoinedRow(engine, t, p, a, h, row) <==>
              PostingOf(p, t) && AccountOf(a, p) && Same(t.householdId, h) && row == ViewTuple(engine, t, p, a)
    {
    }
  }

  lemma {:induction false} HouseholdRowsJoin(
      engine: Engine, transactions: seq<Txn>, postings: seq<Posting>, accounts: seq<Account>, h: Value, row: Tuple)
    ensures row in HouseholdRows(engine, transactions, postings, accounts, h) <==>
            exists t, p, a ::
              && t in transactions && p in postings && a in accounts
              && PostingOf(p, t) && AccountOf(a, p) && Same(t.householdId, h)
              && row == ViewTuple(engine, t, p, a)
  {
    if transactions != [] {
      PostingRowsAre(engine, transactions[0], postings, accounts, row);
      HouseholdRowsJoin(engine, transactions[1..], postings, accounts, h, row);
      assert transactions == [transactions[0]] + transactions[1..];
    }
  }

  lemma {:induction false} PostingRowsAre(engine: Engine, t: Txn, postings: seq<Posting>, accounts: seq<Account>, row: Tuple)
    ensures row in PostingRows(engine, t, postings, accounts) <==>
            exists p, a :: p in postings && a in accounts && PostingOf(p, t) && AccountOf(a, p) && row == ViewTuple(engine, t, p, a)
  {
    if postings != [] {
      AccountRowsAre(engine, t, postings[0], accounts, row);
      PostingRowsAre(engine, t, postings[1..], accounts, row);
      assert postings == [postings[0]] + postings[1..];
    }
  }

  lemma {:induction false} AccountRowsAre(engine: Engine, t: Txn, p: Posting, accounts: seq<Account>, row: Tuple)
    ensures row in AccountRows(engine, t, p, accounts) <==>
            exists a :: a in accounts && AccountOf(a, p) && row == ViewTuple(engine, t, p, a)
  {
    if accounts != [] {
      AccountRowsAre(engine, t, p, accounts[1..], row);
      assert accounts == [accounts[0]] + accounts[1..];
    }
  }

  // ----- The two databases a statement can be run on -----

  function Params(h: Value): map<string, Value> {
    map["household_id" := h]
  }

  /** The real database, with every household's rows. */
  function FullContext(db: Db, h: Value, engine: Engine): Context {
    Context(FullTables(db), Params(h), engine)
  }

  /** An ideal database that has only the view, holding only this household's joined rows. */
  function ViewContext(db: Db, h: Value, engine: Engine): Context {
    Context(map[VIEW_NAME := Rel(VIEW_COLUMNS, HouseholdRows(engine, db.transactions, db.postings, db.accounts, h))],
            Params(h), engine)
  }

  // ----- Filtering combined rows -----

  function Filter(rows: seq<seq<Tuple>>, f: seq<Tuple> -> bool): seq<seq<Tuple>> {
    if rows == [] then [] else (if f(rows[0]) then [rows[0]] else []) + Filter(rows[1..], f)
  }

  lemma {:induction false} KeptIsFilter(engine: Engine, rows: seq<seq<Tuple>>, conditions: seq<Tuple>, f: seq<Tuple> -> bool)
    requires |conditions| == |rows|
    requires forall i | 0 <= i < |rows| :: AllTrue(engine, conditions[i]) == f(rows[i])
    ensures Kept(engine, rows, conditions) == Filter(rows, f)
  {
    if rows != [] {
      KeptIsFilter(engine, rows[1..], conditions[1..], f);
    }
  }

  lemma {:induction false} FilterConcat(a: seq<seq<Tuple>>, b: seq<seq<Tuple>>, f: seq<Tuple> -> bool)
    ensures Filter(a + b, f) == Filter(a, f) + Filter(b, f)
  {
    if a == [] {
      assert a + b == b;
    } else {
      assert (a + b)[1..] == a[1..] + b;
      FilterConcat(a[1..], b, f);
    }
  }

  lemma {:induction false} PairsConcat(a: seq<seq<Tuple>>, b: seq<seq<Tuple>>, right: seq<seq<Tuple>>)
    ensures Pairs(a + b, right) == Pairs(a, right) + Pairs(b, right)
  {
    if a == [] {
      assert a + b == b;
    } else {
      assert (a + b)[1..] == a[1..] + b;
      PairsConcat(a[1..], b, right);
    }
  }

  lemma {:induction false} EvalOverAt(list: Node, frames: seq<Frame>, env: Env, ctx: Context, i: nat)
    requires i < |frames|
    ensures EvalOver(list, frames, env, ctx)[i] == EvalList(list, 0, [frames[i]] + env, ctx)
  {
    if i > 0 {
      EvalOverAt(list, frames[1..], env, ctx, i - 1);
    }
  }

  // ----- Column lookups inside the subquery -----

  const T_SHAPE := [Source("t", TRANSACTION_COLUMNS)]

  const TP_SHAPE := [Source("t", TRANSACTION_COLUMNS), Source("p", POSTING_COLUMNS)]

  const TPA_SHAPE := [Source("t", TRANSACTION_COLUMNS), Source("p", POSTING_COLUMNS), Source("a", ACCOUNT_COLUMNS)]

  /** A qualified column resolves to the first item with that alias, in the innermost frame: nothing outside can capture it. */
  lemma {:induction false} QualifiedColumn(f: Frame, env: Env, qualifier: string, name: string, j: nat, k: nat)
    requires qualifier != "" && j < |f.shape| && j < |f.row|
    requires f.shape[j].alias == qualifier && forall m | 0 <= m < j :: f.shape[m].alias != qualifier
    requires IndexFrom(f.shape[j].cols, name, 0) == Some(k)
    ensures LookUp([f] + env, qualifier, name) == At(f.row[j], k)
  {
    FindQualified(f, qualifier, name, j, k, 0);
  }

  lemma {:induction false} FindQualified(f: Frame, qualifier: string, name: string, j: nat, k: nat, i: nat)
    requires qualifier != "" && i <= j < |f.shape| && j < |f.row|
    requires f.shape[j].alias == qualifier && forall m | 0 <= m < j :: f.shape[m].alias != qualifier
    requires IndexFrom(f.shape[j].cols, name, 0) == Some(k)
    ensures FindColumn(f, qualifier, name, i) == Some(At(f.row[j], k))
    decreases j - i
  {
    if i < j {
      FindQualified(f, qualifier, name, j, k, i + 1);
    }
  }

  lemma TransactionColumns()
    ensures IndexFrom(TRANSACTION_COLUMNS, "household_id", 0) == Some(0)
    ensures IndexFrom(TRANSACTION_COLUMNS, "id", 0) == Some(1)
    ensures IndexFrom(TRANSACTION_COLUMNS, "date", 0) == Some(2)
    ensures IndexFrom(TRANSACTION_COLUMNS, "description", 0) == Some(3)
    ensures IndexFrom(TRANSACTION_COLUMNS, "status", 0) == Some(4)
    ensures IndexFrom(TRANSACTION_COLUMNS, "reconciled_at", 0) == Some(5)
  {
  }

  lemma PostingColumns()
    ensures IndexFrom(POSTING_COLUMNS, "household_id", 0) == Some(0)
    ensures IndexFrom(POSTING_COLUMNS, "transaction_id", 0) == Some(1)
    ensures IndexFrom(POSTING_COLUMNS, "account_id", 0) == Some(2)
    ensures IndexFrom(POSTING_COLUMNS, "amount", 0) == Some(3)
    ensures IndexFrom(POSTING_COLUMNS, "currency", 0) == Some(4)
  {
  }

  lemma AccountColumns()
    ensures IndexFrom(ACCOUNT_COLUMNS, "household_id", 0) == Some(0)
    ensures IndexFrom(ACCOUNT_COLUMNS, "id", 0) == Some(1)
    ensures IndexFrom(ACCOUNT_COLUMNS, "code", 0) == Some(2)
    ensures IndexFrom(ACCOUNT_COLUMNS, "name", 0) == Some(3)
    ensures IndexFrom(ACCOUNT_COLUMNS, "type", 0) == Some(4)
  {
  }
}
