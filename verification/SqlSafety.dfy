/**
  The guarantees of `validate_and_rewrite`: an accepted statement, rewritten and run on the full multi-household database,
  means what the emitted statement means on an ideal database that holds only the caller's household, if every table alias is
  read back as the name it is. Plain identifiers are; what happens with other aliases is stated at the end of the scoping part.
  */
module SqlSafety {
  import opened Results
  import opened SqlSemantics
  import opened SqlRewrite
  import opened SqlHouseholdView
  import opened SqlFragment

  // ----- Rewriting preserves meaning, by induction on the tree -----

  lemma RewriteShape(n: Node)
    ensures Rewrite(n) == Tree(List, []) <==> n == Tree(List, [])
    ensures Rewrite(n) == Tree(Star, []) <==> n == Tree(Star, [])
    ensures Rewrite(n) == Tree(List, [Tree(Star, [])]) <==> n == Tree(List, [Tree(Star, [])])
  {
    if n.Tree? && |n.args| == 1 {
      assert Rewrite(n).args == [Rewrite(n.args[0])];
      assert n.args == [n.args[0]];
    }
  }

  lemma {:induction false} QueryPreserved(n: Node, env: Env, db: Db, h: Value, engine: Engine)
    requires OnlyViews(n)
    ensures EvalQuery(Rewrite(n), env, FullContext(db, h, engine)) == EvalQuery(n, env, ViewContext(db, h, engine))
    decreases n, 0
  {
    var full, view := FullContext(db, h, engine), ViewContext(db, h, engine);
    if n.Table? {
      return;
    }
    var r := Rewrite(n);
    if n.op.Select? && |n.args| == 6 {
      var from := EvalFrom(n.args[0], env, view);
      var wheres := EvalOver(n.args[1], Frames(from.shape, from.rows), env, view);
      var kept := Kept(engine, from.rows, wheres);
      var singles := Frames(from.shape, kept);
      var keys := EvalOver(n.args[2], singles, env, view);
      var frames := if n.op.grouped then GroupFrames(from.shape, kept, keys, n.args[2] == Tree(List, [])) else singles;
      var having := KeptFrames(engine, frames, EvalOver(n.args[3], frames, env, view));
      FromPreserved(n.args[0], env, db, h, engine);
      OverPreserved(n.args[1], Frames(from.shape, from.rows), env, db, h, engine);
      OverPreserved(n.args[2], singles, env, db, h, engine);
      OverPreserved(n.args[3], frames, env, db, h, engine);
      OverPreserved(n.args[4], having, env, db, h, engine);
      OverPreserved(n.args[5], having, env, db, h, engine);
      RewriteShape(n.args[2]);
      RewriteShape(n.args[4]);
      RewriteShape(n.args[5]);
    } else if n.op.SetOp? && |n.args| == 2 {
      QueryPreserved(n.args[0], env, db, h, engine);
      QueryPreserved(n.args[1], env, db, h, engine);
    }
  }

  lemma {:induction false} FromPreserved(n: Node, env: Env, db: Db, h: Value, engine: Engine)
    requires OnlyViews(n)
    ensures EvalFrom(Rewrite(n), env, FullContext(db, h, engine)) == EvalFrom(n, env, ViewContext(db, h, engine))
    decreases n, 0
  {
    var view := ViewContext(db, h, engine);
    if n.Table? {
      FragmentMeaning(db, env, h, engine);
    } else if n.op.Derived? && |n.args| == 1 {
      QueryPreserved(n.args[0], env, db, h, engine);
    } else if (n.op.Join? || n.op.LeftJoin?) && |n.args| == 3 {
      FromPreserved(n.args[0], env, db, h, engine);
      FromPreserved(n.args[1], env, db, h, engine);
      var left, right := EvalFrom(n.args[0], env, view), EvalFrom(n.args[1], env, view);
      OverPreserved(n.args[2], Frames(left.shape + right.shape, Pairs(left.rows, right.rows)), env, db, h, engine);
    }
  }

  lemma {:induction false} OverPreserved(list: Node, frames: seq<Frame>, env: Env, db: Db, h: Value, engine: Engine)
    requires OnlyViews(list)
    ensures EvalOver(Rewrite(list), frames, env, FullContext(db, h, engine))
         == EvalOver(list, frames, env, ViewContext(db, h, engine))
    decreases list, 1, |frames|
  {
    if frames != [] {
      ListPreserved(list, 0, [frames[0]] + env, db, h, engine);
      OverPreserved(list, frames[1..], env, db, h, engine);
    }
  }

  lemma {:induction false} ListPreserved(list: Node, i: nat, env: Env, db: Db, h: Value, engine: Engine)
    requires OnlyViews(list)
    ensures EvalList(Rewrite(list), i, env, FullContext(db, h, engine)) == EvalList(list, i, env, ViewContext(db, h, engine))
    decreases list, 0, if list.Tree? then |list.args| - i else 0
  {
    if list.Tree? && i < |list.args| && (list.op.List? || list.op.Scalar?) {
      RewriteShape(list.args[i]);
      ExprPreserved(list.args[i], env, db, h, engine);
      ListPreserved(list, i + 1, env, db, h, engine);
    }
  }

  lemma {:induction false} ExprPreserved(n: Node, env: Env, db: Db, h: Value, engine: Engine)
    requires OnlyViews(n)
    ensures EvalExpr(Rewrite(n), env, FullContext(db, h, engine)) == EvalExpr(n, env, ViewContext(db, h, engine))
    decreases n, 1
  {
    if n.Table? {
      return;
    }
    match n.op {
      case Eq => PairPreserved(n, env, db, h, engine);
      case And => PairPreserved(n, env, db, h, engine);
      case Scalar(_) => ListPreserved(n, 0, env, db, h, engine);
      case Aggregate(_) => AggregatePreserved(n, env, db, h, engine);
      case _ => SubqueryPreserved(n, env, db, h, engine);
    }
  }

  lemma {:induction false} PairPreserved(n: Node, env: Env, db: Db, h: Value, engine: Engine)
    requires OnlyViews(n) && n.Tree? && (n.op.Eq? || n.op.And?)
    ensures EvalExpr(Rewrite(n), env, FullContext(db, h, engine)) == EvalExpr(n, env, ViewContext(db, h, engine))
    decreases n, 0
  {
    if |n.args| == 2 {
      ExprPreserved(n.args[0], env, db, h, engine);
      ExprPreserved(n.args[1], env, db, h, engine);
    }
  }

  lemma {:induction false} AggregatePreserved(n: Node, env: Env, db: Db, h: Value, engine: Engine)
    requires OnlyViews(n) && n.Tree? && n.op.Aggregate?
    ensures EvalExpr(Rewrite(n), env, FullContext(db, h, engine)) == EvalExpr(n, env, ViewContext(db, h, engine))
    decreases n, 0
  {
    if |n.args| == 1 && env != [] {
      OverPreserved(n.args[0], Frames(env[0].shape, env[0].group), env[1..], db, h, engine);
    }
  }

  lemma {:induction false} SubqueryPreserved(n: Node, env: Env, db: Db, h: Value, engine: Engine)
    requires OnlyViews(n) && n.Tree? && !n.op.Eq? && !n.op.And? && !n.op.Scalar? && !n.op.Aggregate?
    ensures EvalExpr(Rewrite(n), env, FullContext(db, h, engine)) == EvalExpr(n, env, ViewContext(db, h, engine))
    decreases n, 0
  {
    match n.op {
      case Exists =>
        if |n.args| == 1 {
          QueryPreserved(n.args[0], env, db, h, engine);
        }
      case In =>
        if |n.args| == 2 {
          ExprPreserved(n.args[0], env, db, h, engine);
          QueryPreserved(n.args[1], env, db, h, engine);
        }
      case ScalarQuery =>
        if |n.args| == 1 {
          QueryPreserved(n.args[0], env, db, h, engine);
        }
      case _ =>
    }
  }

  // ----- The guarantees of an accepted statement -----

  /** Running a safe statement against the full database. */
  function RunSafe(safe: SafeSql, db: Db, engine: Engine): Rel {
    EvalQuery(safe.tree, [], Context(FullTables(db), safe.params, engine))
  }

  /** The emitted statement on the ideal one-household database, cut to 100 rows if it is a top-level SELECT with no limit. */
  function Intended(tree: Node, householdId: string, db: Db, engine: Engine): Rel {
    var r := EvalQuery(tree, [], ViewContext(db, Text(householdId), engine));
    if tree.Tree? && tree.op.Select? && tree.op.limit.None? && |r.rows| > 100 then Rel(r.cols, r.rows[..100]) else r
  }

  /**
    Meaning is preserved at any nesting depth, on every database, for every accepted statement whose aliases are kept. The
    tree that runs is then the intended one, and only then (`IntendedExactly`).
    */
  lemma RewritePreservesMeaning(tree: Node, householdId: string, parser: Parser, db: Db, engine: Engine)
    requires Validated(Parsed(tree), householdId, parser).Ok? && KeepsNames(tree, parser)
    ensures RunSafe(Validated(Parsed(tree), householdId, parser).value, db, engine) == Intended(tree, householdId, db, engine)
  {
    var h := Text(householdId);
    IntendedExactly(tree, parser);
    QueryPreserved(tree, [], db, h, engine);
    if tree.op.Select? && tree.op.limit.None? {
      var plain := Rewrite(tree);
      var bounded := BoundRows(plain);
      assert bounded.args == plain.args;
      LimitTakesPrefix(plain, FullContext(db, h, engine));
    }
  }

  lemma LimitTakesPrefix(n: Node, ctx: Context)
    requires n.Tree? && n.op.Select? && n.op.limit.None?
    ensures var r := EvalQuery(n, [], ctx);
            EvalQuery(Tree(n.op.(limit := Some(ROW_LIMIT)), n.args), [], ctx) == Rel(r.cols, Take(r.rows, Some(ROW_LIMIT)))
  {
  }

  // ----- Isolation -----

  function OwnTxns(ts: seq<Txn>, h: Value): seq<Txn> {
    if ts == [] then [] else (if Same(ts[0].householdId, h) then [ts[0]] else []) + OwnTxns(ts[1..], h)
  }

  function OwnPostings(ps: seq<Posting>, h: Value): seq<Posting> {
    if ps == [] then [] else (if Same(ps[0].householdId, h) then [ps[0]] else []) + OwnPostings(ps[1..], h)
  }

  function OwnAccounts(accounts: seq<Account>, h: Value): seq<Account> {
    if accounts == [] then []
    else (if Same(accounts[0].householdId, h) then [accounts[0]] else []) + OwnAccounts(accounts[1..], h)
  }

  /** What household `h` owns in each table. */
  function Own(db: Db, h: Value): Db {
    Db(OwnTxns(db.transactions, h), OwnPostings(db.postings, h), OwnAccounts(db.accounts, h))
  }

  lemma {:induction false} AccountRowsOwn(engine: Engine, t: Txn, p: Posting, accounts: seq<Account>, h: Value)
    requires Same(p.householdId, h)
    ensures AccountRows(engine, t, p, accounts) == AccountRows(engine, t, p, OwnAccounts(accounts, h))
  {
    if accounts != [] {
      AccountRowsOwn(engine, t, p, accounts[1..], h);
      if Same(accounts[0].householdId, h) {
        assert OwnAccounts(accounts, h)[1..] == OwnAccounts(accounts[1..], h);
      } else {
        assert OwnAccounts(accounts, h) == OwnAccounts(accounts[1..], h);
      }
    }
  }

  lemma {:induction false} PostingRowsOwn(engine: Engine, t: Txn, postings: seq<Posting>, accounts: seq<Account>, h: Value)
    requires Same(t.householdId, h)
    ensures PostingRows(engine, t, postings, accounts) == PostingRows(engine, t, OwnPostings(postings, h), OwnAccounts(accounts, h))
  {
    if postings != [] {
      PostingRowsOwn(engine, t, postings[1..], accounts, h);
      if Same(postings[0].householdId, h) {
        AccountRowsOwn(engine, t, postings[0], accounts, h);
        assert OwnPostings(postings, h)[1..] == OwnPostings(postings[1..], h);
      } else {
        assert OwnPostings(postings, h) == OwnPostings(postings[1..], h);
      }
    }
  }

  /** The scope on `t` reaches `p` and `a` through the joins: rows of other households never matter. */
  lemma {:induction false} HouseholdRowsOwn(
      engine: Engine, transactions: seq<Txn>, postings: seq<Posting>, accounts: seq<Account>, h: Value)
    ensures HouseholdRows(engine, transactions, postings, accounts, h)
         == HouseholdRows(engine, OwnTxns(transactions, h), OwnPostings(postings, h), OwnAccounts(accounts, h), h)
  {
    if transactions != [] {
      HouseholdRowsOwn(engine, transactions[1..], postings, accounts, h);
      if Same(transactions[0].householdId, h) {
        PostingRowsOwn(engine, transactions[0], postings, accounts, h);
        assert OwnTxns(transactions, h)[1..] == OwnTxns(transactions[1..], h);
      } else {
        assert OwnTxns(transactions, h) == OwnTxns(transactions[1..], h);
      }
    }
  }

  /** Two databases that agree on one household's rows give that household equal results, under the same condition. */
  lemma ResultsAreIsolated(tree: Node, householdId: string, parser: Parser, db: Db, db': Db, engine: Engine)
    requires Validated(Parsed(tree), householdId, parser).Ok? && KeepsNames(tree, parser)
    requires Own(db, Text(householdId)) == Own(db', Text(householdId))
    ensures RunSafe(Validated(Parsed(tree), householdId, parser).value, db, engine)
         == RunSafe(Validated(Parsed(tree), householdId, parser).value, db', engine)
  {
    var h := Text(householdId);
    RewritePreservesMeaning(tree, householdId, parser, db, engine);
    RewritePreservesMeaning(tree, householdId, parser, db', engine);
    HouseholdRowsOwn(engine, db.transactions, db.postings, db.accounts, h);
    HouseholdRowsOwn(engine, db'.transactions, db'.postings, db'.accounts, h);
  }

  // ----- No unscoped reference is left -----

  /** Every table reference of `n` lies inside a household subquery. */
  predicate FullyScoped(n: Node) {
    n == HouseholdQuery() || (n.Tree? && forall i | 0 <= i < |n.args| :: FullyScoped(n.args[i]))
  }

  /** What each table alias of `n` is read as has no unscoped reference. */
  predicate ReadsScoped(n: Node, parser: Parser) {
    match n
    case Table(_, _) => FullyScoped(Reading(n, parser))
    case Tree(_, args) => forall i | 0 <= i < |args| :: ReadsScoped(args[i], parser)
  }

  /** A rewritten tree is never the bare subquery: that one's FROM has bare tables, and replacements start with a subquery. */
  lemma RewriteNotFragment(n: Node, parser: Parser)
    requires n.Tree? && Readable(n, parser) && ReadsSubqueries(parser)
    ensures RewriteRead(n, parser) != HouseholdQuery()
  {
    assert HouseholdQuery().args[0] == ViewFrom() && ViewFrom().args[1].Table? && !StartsScoped(ViewFrom());
    if |n.args| == 6 {
      var from := n.args[0];
      assert RewriteRead(n, parser).args[0] == RewriteRead(from, parser);
      if from.Table? {
        assert Readable(from, parser) && StartsScoped(Reading(from, parser));
      } else if |from.args| == 3 {
        assert Readable(from, parser) && Readable(from.args[1], parser);
        assert RewriteRead(from, parser).args[1] == RewriteRead(from.args[1], parser);
      }
    }
  }

  lemma {:induction false} ScopedExactly(n: Node, parser: Parser)
    requires Readable(n, parser) && ReadsSubqueries(parser)
    ensures FullyScoped(RewriteRead(n, parser)) <==> ReadsScoped(n, parser)
  {
    if n.Tree? {
      RewriteNotFragment(n, parser);
      forall i | 0 <= i < |n.args|
        ensures FullyScoped(RewriteRead(n, parser).args[i]) <==> ReadsScoped(n.args[i], parser)
      {
        ScopedExactly(n.args[i], parser);
      }
    }
  }

  /** An accepted statement is fully scoped if and only if every table alias is read as something fully scoped. */
  lemma AcceptedIsFullyScoped(tree: Node, householdId: string, parser: Parser)
    requires Validated(Parsed(tree), householdId, parser).Ok? && ReadsSubqueries(parser)
    ensures FullyScoped(Validated(Parsed(tree), householdId, parser).value.tree) <==> ReadsScoped(tree, parser)
  {
    var plain := RewriteRead(tree, parser);
    var bounded := BoundRows(plain);
    assert bounded.args == plain.args;
    ScopedExactly(tree, parser);
    RewriteNotFragment(tree, parser);
    assert bounded != HouseholdQuery();
    assert FullyScoped(bounded) <==> forall i | 0 <= i < |plain.args| :: FullyScoped(plain.args[i]);
  }

  lemma {:induction false} KeptNamesAreScoped(n: Node, parser: Parser)
    requires KeepsNames(n, parser)
    ensures ReadsScoped(n, parser)
  {
    if n.Tree? {
      forall i | 0 <= i < |n.args| {
        KeptNamesAreScoped(n.args[i], parser);
      }
    } else {
      assert FullyScoped(Scoped(n).args[0]);
    }
  }

  /** With plain identifiers for aliases the parser's error cannot come up, the meaning is kept and no reference is unscoped. */
  lemma PlainAliasesAreSafe(tree: Node, householdId: string, parser: Parser, db: Db, engine: Engine)
    requires ReadsNames(parser) && ReadsSubqueries(parser) && PlainAliases(tree, parser.reserved)
    ensures Validated(Parsed(tree), householdId, parser) != Err(AliasUnreadable)
    ensures Validated(Parsed(tree), householdId, parser).Ok? ==>
              var safe := Validated(Parsed(tree), householdId, parser).value;
              RunSafe(safe, db, engine) == Intended(tree, householdId, db, engine) && FullyScoped(safe.tree)
  {
    PlainKeepsNames(tree, parser);
    KeepsNamesReadable(tree, parser);
    if Validated(Parsed(tree), householdId, parser).Ok? {
      RewritePreservesMeaning(tree, householdId, parser, db, engine);
      KeptNamesAreScoped(tree, parser);
      AcceptedIsFullyScoped(tree, householdId, parser);
    }
  }

  // ----- Aliases that are no identifiers -----

  /** `SELECT * FROM ai_view_transactions AS "..."`, alone. */
  function SelectAllAs(name: string): Node {
    Tree(Select([], false, false, None),
         [Table(VIEW_NAME, name), ListOf([]), ListOf([]), ListOf([]), ListOf([Tree(Star, [])]), ListOf([])])
  }

  /** An alias that the parser cannot read, such as one with a space in it, ends in the parser's own error. */
  lemma UnreadableAliasRaises(householdId: string, parser: Parser)
    requires parser.read("my rows") == None
    ensures Validated(Parsed(SelectAllAs("my rows")), householdId, parser) == Err(AliasUnreadable)
  {
    var n := SelectAllAs("my rows");
    SelectAllIsSafe("my rows");
    NoStatements(n);
    assert !Readable(n.args[0], parser);
  }

  const UNION_ALIAS := "x UNION ALL SELECT id FROM transactions"

  /** The alias text after the scoped subquery, read as a set operation. */
  function UnionReading(): Node {
    Tree(SetOp(UnionAll, None), [
      Named("x"),
      Tree(Select(["id"], false, false, None),
           [Table("transactions", ""), ListOf([]), ListOf([]), ListOf([]), ListOf([Col("", "id")]), ListOf([])])])
  }

  /** An alias that goes on as SQL is accepted and brings in a reference that no check has seen. */
  lemma AliasCanEscapeTheScope(householdId: string, parser: Parser)
    requires parser.read(UNION_ALIAS) == Some(UnionReading()) && ReadsSubqueries(parser)
    ensures Validated(Parsed(SelectAllAs(UNION_ALIAS)), householdId, parser).Ok?
    ensures !FullyScoped(Validated(Parsed(SelectAllAs(UNION_ALIAS)), householdId, parser).value.tree)
  {
    var n := SelectAllAs(UNION_ALIAS);
    SelectAllIsSafe(UNION_ALIAS);
    LeavesAreReadable(n, parser);
    PureIsAccepted(n, householdId, parser);
    AcceptedIsFullyScoped(n, householdId, parser);
    assert !FullyScoped(UnionReading()) by {
      var select := UnionReading().args[1];
      assert !FullyScoped(select.args[0]);
      assert select.op != HouseholdQuery().op by {
        assert |VIEW_COLUMNS| == 10;
      }
      assert !FullyScoped(select);
    }
    assert !ReadsScoped(n.args[0], parser);
  }

  // ----- The row bound -----

  /** Rows of an accepted statement are capped by its own non-negative limit, or by 100 if it is a SELECT that has none. */
  lemma RowBound(tree: Node, householdId: string, parser: Parser, db: Db, engine: Engine)
    requires Validated(Parsed(tree), householdId, parser).Ok?
    ensures var rows := RunSafe(Validated(Parsed(tree), householdId, parser).value, db, engine).rows;
            && (tree.op.Select? && tree.op.limit.None? ==> |rows| <= 100)
            && (tree.op.Select? && tree.op.limit.Some? && tree.op.limit.value >= 0 && |tree.args| == 6 ==>
                  |rows| <= tree.op.limit.value)
            && (tree.op.SetOp? && tree.op.setLimit.Some? && tree.op.setLimit.value >= 0 && |tree.args| == 2 ==>
                  |rows| <= tree.op.setLimit.value)
  {
    var plain := RewriteRead(tree, parser);
    if tree.op.Select? && tree.op.limit.None? {
      LimitTakesPrefix(plain, FullContext(db, Text(householdId), engine));
    }
  }

  predicate StatesLimit(n: Node) {
    n.Tree? && ((n.op.Select? && n.op.limit.Some?) || (n.op.SetOp? && n.op.setLimit.Some?))
  }

  /** The executed statement carries a row limit exactly if the emitted one is a SELECT or limits its own set operation. */
  lemma LimitedExactly(tree: Node, householdId: string, parser: Parser)
    requires Validated(Parsed(tree), householdId, parser).Ok?
    ensures StatesLimit(Validated(Parsed(tree), householdId, parser).value.tree) <==> tree.op.Select? || tree.op.setLimit.Some?
  {
  }

  /** Two copies of `SELECT * FROM ai_view_transactions` under UNION ALL: accepted, but a set operation gets no `LIMIT 100`. */
  function UnboundedUnion(): Node {
    Tree(SetOp(UnionAll, None), [SelectAllAs(""), SelectAllAs("")])
  }

  /** The union is accepted and returns twice the household's rows, however many there are. */
  lemma SetOperationsAreUnbounded(householdId: string, parser: Parser, db: Db, engine: Engine)
    requires parser.read(VIEW_NAME) == Some(Named(VIEW_NAME))
    ensures Validated(Parsed(UnboundedUnion()), householdId, parser).Ok?
    ensures |RunSafe(Validated(Parsed(UnboundedUnion()), householdId, parser).value, db, engine).rows|
         == 2 * |HouseholdRows(engine, db.transactions, db.postings, db.accounts, Text(householdId))|
  {
    UnionIsAccepted(householdId, parser);
    RewritePreservesMeaning(UnboundedUnion(), householdId, parser, db, engine);
    SelectAllRows(ViewContext(db, Text(householdId), engine));
  }

  lemma FirstChildHasTable(n: Node)
    requires n.Tree? && n.args != [] && TablePaths(n.args[0]) != []
    ensures TablePaths(n) != []
  {
    assert TablePathsFrom(n, 0) == Under(0, TablePaths(n.args[0])) + TablePathsFrom(n, 1);
  }

  /** No statement node, only views, and at least one of them. */
  predicate Acceptable(n: Node) {
    OnlyViews(n) && PureQuery(n) && TablePaths(n) != []
  }

  lemma ChildrenAcceptable(n: Node)
    requires n.Tree? && !n.op.Statement? && n.args != [] && TablePaths(n.args[0]) != []
    requires forall i | 0 <= i < |n.args| :: OnlyViews(n.args[i]) && PureQuery(n.args[i])
    ensures Acceptable(n)
  {
    FirstChildHasTable(n);
  }

  lemma SelectAllIsSafe(name: string)
    ensures Acceptable(SelectAllAs(name))
  {
    var n, star := SelectAllAs(name), Tree(Star, []);
    assert OnlyViews(star) && PureQuery(star);
    assert OnlyViews(ListOf([])) && PureQuery(ListOf([]));
    assert OnlyViews(ListOf([star])) && PureQuery(ListOf([star])) by {
      assert ListOf([star]).args == [star];
    }
    assert TablePaths(n.args[0]) == [[]];
    ChildrenAcceptable(n);
  }

  lemma LeavesAreReadable(n: Node, parser: Parser)
    requires n.Tree? && n.args != [] && n.args[0].Table? && parser.read(AliasText(n.args[0])).Some?
    requires forall i | 1 <= i < |n.args| :: n.args[i] == ListOf([]) || n.args[i] == ListOf([Tree(Star, [])])
    ensures Readable(n, parser)
    ensures KeepsNames(n.args[0], parser) ==> KeepsNames(n, parser)
  {
    var star := Tree(Star, []);
    assert Readable(star, parser) && KeepsNames(star, parser);
    assert ListOf([star]).args == [star];
  }

  lemma UnionIsSafe(a: Node, parser: Parser)
    requires Acceptable(a) && KeepsNames(a, parser)
    ensures Acceptable(Tree(SetOp(UnionAll, None), [a, a])) && KeepsNames(Tree(SetOp(UnionAll, None), [a, a]), parser)
  {
    ChildrenAcceptable(Tree(SetOp(UnionAll, None), [a, a]));
  }

  lemma UnionIsAccepted(householdId: string, parser: Parser)
    requires parser.read(VIEW_NAME) == Some(Named(VIEW_NAME))
    ensures Validated(Parsed(UnboundedUnion()), householdId, parser).Ok? && KeepsNames(UnboundedUnion(), parser)
  {
    SelectAllIsSafe("");
    LeavesAreReadable(SelectAllAs(""), parser);
    UnionIsSafe(SelectAllAs(""), parser);
    KeepsNamesReadable(UnboundedUnion(), parser);
    PureIsAccepted(UnboundedUnion(), householdId, parser);
  }

  lemma PureIsAccepted(tree: Node, householdId: string, parser: Parser)
    requires TopLevelSelect(tree) && Acceptable(tree) && Readable(tree, parser)
    ensures Validated(Parsed(tree), householdId, parser).Ok?
  {
    NoStatements(tree);
  }

  /** The tree holds no statement node. */
  predicate PureQuery(n: Node) {
    n.Tree? ==> !n.op.Statement? && forall i | 0 <= i < |n.args| :: PureQuery(n.args[i])
  }

  lemma {:induction false} NoStatements(n: Node)
    requires PureQuery(n)
    ensures forall m | m in Nodes(n) :: !Dangerous(m)
    decreases n, 1
  {
    if n.Tree? {
      NoStatementsFrom(n, 0);
    }
  }

  lemma {:induction false} NoStatementsFrom(n: Node, i: nat)
    requires n.Tree? && PureQuery(n)
    ensures forall m | m in NodesFrom(n, i) :: !Dangerous(m)
    decreases n, 0, |n.args| - i
  {
    if i < |n.args| {
      NoStatements(n.args[i]);
      NoStatementsFrom(n, i + 1);
    }
  }

  lemma SelectAllRows(ctx: Context)
    ensures |EvalQuery(SelectAllAs(""), [], ctx).rows| == |TableRel(ctx, VIEW_NAME).rows|
  {
    var n := SelectAllAs("");
    var from := EvalFrom(n.args[0], [], ctx);
    var frames := Frames(from.shape, from.rows);
    var wheres := EvalOver(n.args[1], frames, [], ctx);
    var having := EvalOver(n.args[3], frames, [], ctx);
    forall i | 0 <= i < |frames|
      ensures wheres[i] == [] && having[i] == []
    {
      EvalOverAt(n.args[1], frames, [], ctx, i);
      EvalOverAt(n.args[3], frames, [], ctx, i);
    }
    NoWhere(ctx.engine, from.rows, wheres);
    NoHaving(ctx.engine, frames, having);
  }

  lemma {:induction false} NoWhere(engine: Engine, rows: seq<seq<Tuple>>, conditions: seq<Tuple>)
    requires |conditions| == |rows| && forall i | 0 <= i < |conditions| :: conditions[i] == []
    ensures Kept(engine, rows, conditions) == rows
  {
    if rows != [] {
      NoWhere(engine, rows[1..], conditions[1..]);
    }
  }
}
