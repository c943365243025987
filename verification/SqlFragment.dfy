/** The rewriter's household subquery, evaluated on the full database in any surrounding scope, yields the household's rows. */
module SqlFragment {
  import opened Results
  import opened SqlSemantics
  import opened SqlRewrite
  import opened SqlHouseholdView

  // ----- The three conditions and the outputs, as facts about combined rows -----

  predicate OnPosting(row: seq<Tuple>) {
    |row| == 2 && Same(At(row[1], 0), At(row[0], 0)) && Same(At(row[1], 1), At(row[0], 1))
  }

  predicate OnAccount(row: seq<Tuple>) {
    |row| == 3 && Same(At(row[2], 0), At(row[1], 0)) && Same(At(row[2], 1), At(row[1], 2))
  }

  function InScope(h: Value): seq<Tuple> -> bool {
    (row: seq<Tuple>) => |row| == 3 && Same(At(row[0], 0), h)
  }

  function Project(engine: Engine, row: seq<Tuple>): Tuple
    requires |row| == 3
  {
    [At(row[0], 1), At(row[0], 2), At(row[0], 3), Amount(engine, At(row[1], 3)), At(row[1], 4),
     At(row[2], 2), At(row[2], 3), At(row[2], 4), At(row[0], 4), At(row[0], 5)]
  }

  lemma EqAnd(engine: Engine, a: Value, b: Value, c: Value, d: Value)
    ensures IsTrue(engine, SqlAnd(engine, SqlEq(a, b), SqlEq(c, d))) == (Same(a, b) && Same(c, d))
  {
  }

  lemma SingleExpression(e: Node, env: Env, ctx: Context)
    requires e != Tree(Star, [])
    ensures EvalList(ListOf([e]), 0, env, ctx) == [EvalExpr(e, env, ctx)]
    ensures AllTrue(ctx.engine, EvalList(ListOf([e]), 0, env, ctx)) == IsTrue(ctx.engine, EvalExpr(e, env, ctx))
  {
    var list := ListOf([e]);
    assert EvalList(list, 1, env, ctx) == [];
    assert EvalExpr(e, env, ctx) in [EvalExpr(e, env, ctx)];
  }

  /** `x = y AND u = v` over four columns of one row. */
  lemma EqualColumns(f: Frame, env: Env, ctx: Context, e: Node, x: Value, y: Value, u: Value, v: Value)
    requires e.Tree? && e.op.And? && |e.args| == 2
    requires forall i | 0 <= i < 2 :: e.args[i].Tree? && e.args[i].op.Eq? && |e.args[i].args| == 2
    requires EvalExpr(e.args[0].args[0], [f] + env, ctx) == x && EvalExpr(e.args[0].args[1], [f] + env, ctx) == y
    requires EvalExpr(e.args[1].args[0], [f] + env, ctx) == u && EvalExpr(e.args[1].args[1], [f] + env, ctx) == v
    ensures AllTrue(ctx.engine, EvalList(ListOf([e]), 0, [f] + env, ctx)) == (Same(x, y) && Same(u, v))
  {
    EqAnd(ctx.engine, x, y, u, v);
    SingleExpression(e, [f] + env, ctx);
    assert EvalExpr(e.args[0], [f] + env, ctx) == SqlEq(x, y) && EvalExpr(e.args[1], [f] + env, ctx) == SqlEq(u, v);
  }

  lemma JoinPostingsHolds(row: seq<Tuple>, env: Env, ctx: Context)
    requires |row| == 2
    ensures AllTrue(ctx.engine, EvalList(JoinPostings(), 0, [Frame(TP_SHAPE, row, [row])] + env, ctx)) == OnPosting(row)
  {
    var f := Frame(TP_SHAPE, row, [row]);
    TransactionColumns();
    PostingColumns();
    QualifiedColumn(f, env, "p", "household_id", 1, 0);
    QualifiedColumn(f, env, "t", "household_id", 0, 0);
    QualifiedColumn(f, env, "p", "transaction_id", 1, 1);
    QualifiedColumn(f, env, "t", "id", 0, 1);
    EqualColumns(f, env, ctx, JoinPostings().args[0], At(row[1], 0), At(row[0], 0), At(row[1], 1), At(row[0], 1));
  }

  lemma JoinAccountsHolds(row: seq<Tuple>, env: Env, ctx: Context)
    requires |row| == 3
    ensures AllTrue(ctx.engine, EvalList(JoinAccounts(), 0, [Frame(TPA_SHAPE, row, [row])] + env, ctx)) == OnAccount(row)
  {
    var f := Frame(TPA_SHAPE, row, [row]);
    PostingColumns();
    AccountColumns();
    QualifiedColumn(f, env, "a", "household_id", 2, 0);
    QualifiedColumn(f, env, "p", "household_id", 1, 0);
    QualifiedColumn(f, env, "a", "id", 2, 1);
    QualifiedColumn(f, env, "p", "account_id", 1, 2);
    EqualColumns(f, env, ctx, JoinAccounts().args[0], At(row[2], 0), At(row[1], 0), At(row[2], 1), At(row[1], 2));
  }

  lemma TenantScopeHolds(row: seq<Tuple>, env: Env, ctx: Context, h: Value)
    requires |row| == 3 && ctx.params == Params(h)
    ensures AllTrue(ctx.engine, EvalList(TenantScope(), 0, [Frame(TPA_SHAPE, row, [row])] + env, ctx)) == InScope(h)(row)
  {
    var f := Frame(TPA_SHAPE, row, [row]);
    TransactionColumns();
    QualifiedColumn(f, env, "t", "household_id", 0, 0);
    SingleExpression(TenantScope().args[0], [f] + env, ctx);
  }

  lemma TxnColumn(row: seq<Tuple>, env: Env, ctx: Context, name: string, k: nat)
    requires |row| == 3 && IndexFrom(TRANSACTION_COLUMNS, name, 0) == Some(k)
    ensures EvalExpr(Col("t", name), [Frame(TPA_SHAPE, row, [row])] + env, ctx) == At(row[0], k)
  {
    QualifiedColumn(Frame(TPA_SHAPE, row, [row]), env, "t", name, 0, k);
  }

  lemma AccountColumn(row: seq<Tuple>, env: Env, ctx: Context, name: string, k: nat)
    requires |row| == 3 && IndexFrom(ACCOUNT_COLUMNS, name, 0) == Some(k)
    ensures EvalExpr(Col("a", name), [Frame(TPA_SHAPE, row, [row])] + env, ctx) == At(row[2], k)
  {
    QualifiedColumn(Frame(TPA_SHAPE, row, [row]), env, "a", name, 2, k);
  }

  lemma OutputsProject(row: seq<Tuple>, env: Env, ctx: Context)
    requires |row| == 3
    ensures EvalList(ViewOutputs(), 0, [Frame(TPA_SHAPE, row, [row])] + env, ctx) == Project(ctx.engine, row)
  {
    var f := Frame(TPA_SHAPE, row, [row]);
    forall k | 0 <= k < 10
      ensures EvalExpr(ViewOutputs().args[k], [f] + env, ctx) == Project(ctx.engine, row)[k]
    {
      OutputValue(row, env, ctx, k);
    }
    EvalPlainList(ViewOutputs(), 0, [f] + env, ctx, Project(ctx.engine, row));
  }

  lemma OutputValue(row: seq<Tuple>, env: Env, ctx: Context, k: nat)
    requires |row| == 3 && k < 10
    ensures EvalExpr(ViewOutputs().args[k], [Frame(TPA_SHAPE, row, [row])] + env, ctx) == Project(ctx.engine, row)[k]
  {
    var f := Frame(TPA_SHAPE, row, [row]);
    TransactionColumns();
    PostingColumns();
    AccountColumns();
    match k {
      case 0 => TxnColumn(row, env, ctx, "id", 1);
      case 1 => TxnColumn(row, env, ctx, "date", 2);
      case 2 => TxnColumn(row, env, ctx, "description", 3);
      case 3 => AmountValue(f, env, ctx);
      case 4 => QualifiedColumn(f, env, "p", "currency", 1, 4);
      case 5 => AccountColumn(row, env, ctx, "code", 2);
      case 6 => AccountColumn(row, env, ctx, "name", 3);
      case 7 => AccountColumn(row, env, ctx, "type", 4);
      case 8 => TxnColumn(row, env, ctx, "status", 4);
      case _ => TxnColumn(row, env, ctx, "reconciled_at", 5);
    }
  }

  lemma AmountValue(f: Frame, env: Env, ctx: Context)
    requires f.shape == TPA_SHAPE && |f.row| == 3
    ensures EvalExpr(ScaledAmount(), [f] + env, ctx) == Amount(ctx.engine, At(f.row[1], 3))
  {
    PostingColumns();
    QualifiedColumn(f, env, "p", "amount", 1, 3);
    var product := ScaledAmount().args[0];
    var v := At(f.row[1], 3);
    EvalPlainList(product, 0, [f] + env, ctx, [v, Real(1.0)]);
    assert EvalExpr(product, [f] + env, ctx) == ctx.engine.scalar("*", [v, Real(1.0)]);
    EvalPlainList(ScaledAmount(), 0, [f] + env, ctx, [ctx.engine.scalar("*", [v, Real(1.0)]), Real(100000000.0)]);
  }

  /** A list without stars evaluates to the values of its expressions. */
  lemma {:induction false} EvalPlainList(list: Node, i: nat, env: Env, ctx: Context, values: Tuple)
    requires list.Tree? && (list.op.List? || list.op.Scalar?) && |values| == |list.args| && i <= |values|
    requires forall k | 0 <= k < |values| :: list.args[k] != Tree(Star, []) && EvalExpr(list.args[k], env, ctx) == values[k]
    ensures EvalList(list, i, env, ctx) == values[i..]
    decreases |values| - i
  {
    if i < |values| {
      EvalPlainList(list, i + 1, env, ctx, values);
    }
  }

  // ----- The FROM clause -----

  function TxnRows(ts: seq<Txn>): (r: seq<seq<Tuple>>)
    ensures |r| == |ts| && forall i | 0 <= i < |r| :: r[i] == [TxnTuple(ts[i])]
  {
    seq(|ts|, i requires 0 <= i < |ts| => [TxnTuple(ts[i])])
  }

  function PostingTuples(ps: seq<Posting>): (r: seq<seq<Tuple>>)
    ensures |r| == |ps| && forall i | 0 <= i < |r| :: r[i] == [PostingTuple(ps[i])]
  {
    seq(|ps|, i requires 0 <= i < |ps| => [PostingTuple(ps[i])])
  }

  function AccountTuples(accounts: seq<Account>): (r: seq<seq<Tuple>>)
    ensures |r| == |accounts| && forall i | 0 <= i < |r| :: r[i] == [AccountTuple(accounts[i])]
  {
    seq(|accounts|, i requires 0 <= i < |accounts| => [AccountTuple(accounts[i])])
  }

  lemma {:induction false} PairsWidth(left: seq<seq<Tuple>>, right: seq<seq<Tuple>>, m: nat, n: nat)
    requires forall i | 0 <= i < |left| :: |left[i]| == m
    requires forall i | 0 <= i < |right| :: |right[i]| == n
    ensures forall i | 0 <= i < |Pairs(left, right)| :: |Pairs(left, right)[i]| == m + n
  {
    if left != [] {
      PairsWidth(left[1..], right, m, n);
    }
  }

  lemma {:induction false} FilterKeeps(rows: seq<seq<Tuple>>, f: seq<Tuple> -> bool)
    ensures forall i | 0 <= i < |Filter(rows, f)| :: f(Filter(rows, f)[i])
  {
    if rows != [] {
      FilterKeeps(rows[1..], f);
    }
  }

  lemma FromTransactionsPostings(db: Db, env: Env, ctx: Context)
    requires ctx.tables == FullTables(db)
    ensures EvalFrom(ViewFrom().args[0], env, ctx)
         == Scopes(TP_SHAPE, Filter(Pairs(TxnRows(db.transactions), PostingTuples(db.postings)), OnPosting))
  {
    var n := ViewFrom().args[0];
    var left, right := EvalFrom(n.args[0], env, ctx), EvalFrom(n.args[1], env, ctx);
    assert left.shape == T_SHAPE && left.rows == TxnRows(db.transactions);
    assert right.shape == [Source("p", POSTING_COLUMNS)] && right.rows == PostingTuples(db.postings);
    assert left.shape + right.shape == TP_SHAPE;
    var pairs := Pairs(left.rows, right.rows);
    PairsWidth(left.rows, right.rows, 1, 1);
    var on := EvalOver(n.args[2], Frames(TP_SHAPE, pairs), env, ctx);
    forall i | 0 <= i < |pairs|
      ensures AllTrue(ctx.engine, on[i]) == OnPosting(pairs[i])
    {
      EvalOverAt(n.args[2], Frames(TP_SHAPE, pairs), env, ctx, i);
      JoinPostingsHolds(pairs[i], env, ctx);
    }
    KeptIsFilter(ctx.engine, pairs, on, OnPosting);
  }

  /** The rows of the subquery's FROM clause. */
  function JoinedRows(db: Db): seq<seq<Tuple>> {
    Filter(Pairs(Filter(Pairs(TxnRows(db.transactions), PostingTuples(db.postings)), OnPosting), AccountTuples(db.accounts)),
           OnAccount)
  }

  lemma FromAll(db: Db, env: Env, ctx: Context)
    requires ctx.tables == FullTables(db)
    ensures EvalFrom(ViewFrom(), env, ctx) == Scopes(TPA_SHAPE, JoinedRows(db))
  {
    var n := ViewFrom();
    FromTransactionsPostings(db, env, ctx);
    var left, right := EvalFrom(n.args[0], env, ctx), EvalFrom(n.args[1], env, ctx);
    assert right.shape == [Source("a", ACCOUNT_COLUMNS)] && right.rows == AccountTuples(db.accounts);
    assert left.shape + right.shape == TPA_SHAPE;
    var pairs := Pairs(left.rows, right.rows);
    FilterKeeps(Pairs(TxnRows(db.transactions), PostingTuples(db.postings)), OnPosting);
    PairsWidth(left.rows, right.rows, 2, 1);
    var on := EvalOver(n.args[2], Frames(TPA_SHAPE, pairs), env, ctx);
    forall i | 0 <= i < |pairs|
      ensures AllTrue(ctx.engine, on[i]) == OnAccount(pairs[i])
    {
      EvalOverAt(n.args[2], Frames(TPA_SHAPE, pairs), env, ctx, i);
      JoinAccountsHolds(pairs[i], env, ctx);
    }
    KeptIsFilter(ctx.engine, pairs, on, OnAccount);
  }

  // ----- The whole subquery -----

  function ProjectAll(engine: Engine, rows: seq<seq<Tuple>>): (r: seq<Tuple>)
    requires forall i | 0 <= i < |rows| :: |rows[i]| == 3
    ensures |r| == |rows| && forall i | 0 <= i < |r| :: r[i] == Project(engine, rows[i])
  {
    seq(|rows|, i requires 0 <= i < |rows| => Project(engine, rows[i]))
  }

  lemma {:induction false} NoHaving(engine: Engine, frames: seq<Frame>, conditions: seq<Tuple>)
    requires |conditions| == |frames| && forall i | 0 <= i < |conditions| :: conditions[i] == []
    ensures KeptFrames(engine, frames, conditions) == frames
  {
    if frames != [] {
      NoHaving(engine, frames[1..], conditions[1..]);
    }
  }

  lemma JoinedWidth(db: Db)
    ensures forall i | 0 <= i < |JoinedRows(db)| :: |JoinedRows(db)[i]| == 3
  {
    FilterKeeps(Pairs(Filter(Pairs(TxnRows(db.transactions), PostingTuples(db.postings)), OnPosting), AccountTuples(db.accounts)),
                OnAccount);
  }

  lemma WhereIsScope(rows: seq<seq<Tuple>>, env: Env, ctx: Context, h: Value)
    requires ctx.params == Params(h) && forall i | 0 <= i < |rows| :: |rows[i]| == 3
    ensures Kept(ctx.engine, rows, EvalOver(TenantScope(), Frames(TPA_SHAPE, rows), env, ctx)) == Filter(rows, InScope(h))
  {
    var wheres := EvalOver(TenantScope(), Frames(TPA_SHAPE, rows), env, ctx);
    forall i | 0 <= i < |rows|
      ensures AllTrue(ctx.engine, wheres[i]) == InScope(h)(rows[i])
    {
      EvalOverAt(TenantScope(), Frames(TPA_SHAPE, rows), env, ctx, i);
      TenantScopeHolds(rows[i], env, ctx, h);
    }
    KeptIsFilter(ctx.engine, rows, wheres, InScope(h));
  }

  lemma OutputsProjectAll(kept: seq<seq<Tuple>>, env: Env, ctx: Context)
    requires forall i | 0 <= i < |kept| :: |kept[i]| == 3
    ensures EvalOver(ViewOutputs(), Frames(TPA_SHAPE, kept), env, ctx) == ProjectAll(ctx.engine, kept)
  {
    var frames := Frames(TPA_SHAPE, kept);
    forall i | 0 <= i < |frames|
      ensures EvalOver(ViewOutputs(), frames, env, ctx)[i] == Project(ctx.engine, kept[i])
    {
      EvalOverAt(ViewOutputs(), frames, env, ctx, i);
      OutputsProject(kept[i], env, ctx);
    }
  }

  lemma NoHavingClause(frames: seq<Frame>, env: Env, ctx: Context)
    ensures KeptFrames(ctx.engine, frames, EvalOver(ListOf([]), frames, env, ctx)) == frames
  {
    var having := EvalOver(ListOf([]), frames, env, ctx);
    forall i | 0 <= i < |frames|
      ensures having[i] == []
    {
      EvalOverAt(ListOf([]), frames, env, ctx, i);
    }
    NoHaving(ctx.engine, frames, having);
  }

  lemma FragmentRows(db: Db, env: Env, ctx: Context, h: Value)
    requires ctx.tables == FullTables(db) && ctx.params == Params(h)
    ensures forall i | 0 <= i < |Filter(JoinedRows(db), InScope(h))| :: |Filter(JoinedRows(db), InScope(h))[i]| == 3
    ensures EvalQuery(HouseholdQuery(), env, ctx)
         == Rel(VIEW_COLUMNS, ProjectAll(ctx.engine, Filter(JoinedRows(db), InScope(h))))
  {
    var n, rows := HouseholdQuery(), JoinedRows(db);
    FromAll(db, env, ctx);
    JoinedWidth(db);
    WhereIsScope(rows, env, ctx, h);
    var kept := Filter(rows, InScope(h));
    FilterKeeps(rows, InScope(h));
    NoHavingClause(Frames(TPA_SHAPE, kept), env, ctx);
    OutputsProjectAll(kept, env, ctx);
    assert n.args[1] == TenantScope() && n.args[3] == ListOf([]) && n.args[4] == ViewOutputs();
    assert n.args[4] != ListOf([Tree(Star, [])]);
  }

  // ----- Those rows are the household's rows -----

  /** What the account condition, the tenant scope and the projection make of combined rows. */
  function Finishing(engine: Engine, rows: seq<seq<Tuple>>, h: Value): seq<Tuple> {
    FilterKeeps(Filter(rows, OnAccount), InScope(h));
    ProjectAll(engine, Filter(Filter(rows, OnAccount), InScope(h)))
  }

  lemma FinishingConcat(engine: Engine, a: seq<seq<Tuple>>, b: seq<seq<Tuple>>, h: Value)
    ensures Finishing(engine, a + b, h) == Finishing(engine, a, h) + Finishing(engine, b, h)
  {
    FilterConcat(a, b, OnAccount);
    FilterConcat(Filter(a, OnAccount), Filter(b, OnAccount), InScope(h));
  }

  function Stage(engine: Engine, tp: seq<seq<Tuple>>, accounts: seq<seq<Tuple>>, h: Value): seq<Tuple> {
    Finishing(engine, Pairs(tp, accounts), h)
  }

  lemma StageConcat(engine: Engine, a: seq<seq<Tuple>>, b: seq<seq<Tuple>>, accounts: seq<seq<Tuple>>, h: Value)
    ensures Stage(engine, a + b, accounts, h) == Stage(engine, a, accounts, h) + Stage(engine, b, accounts, h)
  {
    PairsConcat(a, b, accounts);
    FinishingConcat(engine, Pairs(a, accounts), Pairs(b, accounts), h);
  }

  lemma FinishingOne(engine: Engine, t: Txn, p: Posting, a: Account, h: Value)
    ensures Finishing(engine, [[TxnTuple(t), PostingTuple(p), AccountTuple(a)]], h)
         == if Same(t.householdId, h) && AccountOf(a, p) then [ViewTuple(engine, t, p, a)] else []
  {
    var row := [TxnTuple(t), PostingTuple(p), AccountTuple(a)];
    assert Filter([row], OnAccount) == if AccountOf(a, p) then [row] else [];
    assert Filter([row], InScope(h)) == if Same(t.householdId, h) then [row] else [];
    assert Project(engine, row) == ViewTuple(engine, t, p, a);
  }

  lemma {:induction false} FinishingOfPair(engine: Engine, t: Txn, p: Posting, accounts: seq<Account>, h: Value)
    ensures Finishing(engine, PairWith([TxnTuple(t), PostingTuple(p)], AccountTuples(accounts)), h)
         == if Same(t.householdId, h) then AccountRows(engine, t, p, accounts) else []
  {
    if accounts != [] {
      var tp, rest := [TxnTuple(t), PostingTuple(p)], accounts[1..];
      var first := [TxnTuple(t), PostingTuple(p), AccountTuple(accounts[0])];
      assert tp + AccountTuples(accounts)[0] == first;
      assert AccountTuples(accounts)[1..] == AccountTuples(rest);
      assert PairWith(tp, AccountTuples(accounts)) == [first] + PairWith(tp, AccountTuples(rest));
      FinishingConcat(engine, [first], PairWith(tp, AccountTuples(rest)), h);
      FinishingOne(engine, t, p, accounts[0], h);
      FinishingOfPair(engine, t, p, rest, h);
    }
  }

  lemma StageOfPair(engine: Engine, t: Txn, p: Posting, accounts: seq<Account>, h: Value)
    ensures Stage(engine, [[TxnTuple(t), PostingTuple(p)]], AccountTuples(accounts), h)
         == if Same(t.householdId, h) then AccountRows(engine, t, p, accounts) else []
  {
    var tp := [TxnTuple(t), PostingTuple(p)];
    assert [tp][1..] == [];
    assert Pairs([tp], AccountTuples(accounts)) == PairWith(tp, AccountTuples(accounts));
    FinishingOfPair(engine, t, p, accounts, h);
  }

  /** The rows a transaction makes with the first posting and with the others. */
  lemma FirstPosting(t: Txn, postings: seq<Posting>)
    requires postings != []
    ensures var first := [TxnTuple(t), PostingTuple(postings[0])];
            Filter(PairWith([TxnTuple(t)], PostingTuples(postings)), OnPosting)
            == (if OnPosting(first) then [first] else [])
               + Filter(PairWith([TxnTuple(t)], PostingTuples(postings[1..])), OnPosting)
  {
    var pairs, first := PairWith([TxnTuple(t)], PostingTuples(postings)), [TxnTuple(t), PostingTuple(postings[0])];
    assert PostingTuples(postings)[1..] == PostingTuples(postings[1..]);
    assert [TxnTuple(t)] + PostingTuples(postings)[0] == first;
    assert pairs[0] == first && pairs[1..] == PairWith([TxnTuple(t)], PostingTuples(postings[1..]));
  }

  lemma StageOfFirst(engine: Engine, t: Txn, p: Posting, accounts: seq<Account>, h: Value)
    ensures var first := [TxnTuple(t), PostingTuple(p)];
            Stage(engine, if OnPosting(first) then [first] else [], AccountTuples(accounts), h)
            == if Same(t.householdId, h) && PostingOf(p, t) then AccountRows(engine, t, p, accounts) else []
  {
    StageOfPair(engine, t, p, accounts, h);
  }

  lemma {:induction false} StageOfTransaction(engine: Engine, t: Txn, postings: seq<Posting>, accounts: seq<Account>, h: Value)
    ensures Stage(engine, Filter(PairWith([TxnTuple(t)], PostingTuples(postings)), OnPosting), AccountTuples(accounts), h)
         == if Same(t.householdId, h) then PostingRows(engine, t, postings, accounts) else []
  {
    if postings != [] {
      var first := [TxnTuple(t), PostingTuple(postings[0])];
      var others := Filter(PairWith([TxnTuple(t)], PostingTuples(postings[1..])), OnPosting);
      FirstPosting(t, postings);
      StageConcat(engine, if OnPosting(first) then [first] else [], others, AccountTuples(accounts), h);
      StageOfFirst(engine, t, postings[0], accounts, h);
      StageOfTransaction(engine, t, postings[1..], accounts, h);
    }
  }

  lemma {:induction false} StageOfAll(
      engine: Engine, transactions: seq<Txn>, postings: seq<Posting>, accounts: seq<Account>, h: Value)
    ensures Stage(engine, Filter(Pairs(TxnRows(transactions), PostingTuples(postings)), OnPosting), AccountTuples(accounts), h)
         == HouseholdRows(engine, transactions, postings, accounts, h)
  {
    if transactions != [] {
      var rest := transactions[1..];
      var head := PairWith([TxnTuple(transactions[0])], PostingTuples(postings));
      assert TxnRows(transactions)[1..] == TxnRows(rest);
      FilterConcat(head, Pairs(TxnRows(rest), PostingTuples(postings)), OnPosting);
      StageConcat(engine, Filter(head, OnPosting), Filter(Pairs(TxnRows(rest), PostingTuples(postings)), OnPosting),
                  AccountTuples(accounts), h);
      StageOfTransaction(engine, transactions[0], postings, accounts, h);
      StageOfAll(engine, rest, postings, accounts, h);
    }
  }

  /** The scoped subquery means the household's rows, whatever query levels surround it. */
  lemma FragmentMeaning(db: Db, env: Env, h: Value, engine: Engine)
    ensures EvalQuery(HouseholdQuery(), env, FullContext(db, h, engine))
         == Rel(["transaction_id", "date", "description", "amount", "currency",
                 "account_code", "account_name", "account_type", "status", "reconciled_at"],
                HouseholdRows(engine, db.transactions, db.postings, db.accounts, h))
  {
    FragmentRows(db, env, FullContext(db, h, engine), h);
    StageOfAll(engine, db.transactions, db.postings, db.accounts, h);
  }
}
