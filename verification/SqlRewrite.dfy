/**
  `validate_and_rewrite` of `tulip_ai/sql_safety.py`: checks an emitted statement and replaces, in place, every reference to
  an AI view by a subquery scoped to one household.
  */
module SqlRewrite {
  import opened Results
  import opened SqlSemantics
  import Strings

  // ----- The one registered view -----

  const VIEW_NAME := "ai_view_transactions"

  const VIEW_COLUMNS := [
    "transaction_id", "date", "description", "amount", "currency",
    "account_code", "account_name", "account_type", "status", "reconciled_at"
  ]

  function Col(qualifier: string, name: string): Node {
    Tree(Column(qualifier, name), [])
  }

  function ListOf(args: seq<Node>): Node {
    Tree(List, args)
  }

  function JoinPostings(): Node {
    ListOf([Tree(And, [
      Tree(Eq, [Col("p", "household_id"), Col("t", "household_id")]),
      Tree(Eq, [Col("p", "transaction_id"), Col("t", "id")])])])
  }

  function JoinAccounts(): Node {
    ListOf([Tree(And, [
      Tree(Eq, [Col("a", "household_id"), Col("p", "household_id")]),
      Tree(Eq, [Col("a", "id"), Col("p", "account_id")])])])
  }

  function TenantScope(): Node {
    ListOf([Tree(Eq, [Col("t", "household_id"), Tree(Param("household_id"), [])])])
  }

  function ScaledAmount(): Node {
    Tree(Scalar("/"), [
      Tree(Scalar("*"), [Col("p", "amount"), Tree(Literal(Real(1.0)), [])]),
      Tree(Literal(Real(100000000.0)), [])])
  }

  function ViewOutputs(): Node {
    ListOf([
      Col("t", "id"), Col("t", "date"), Col("t", "description"), ScaledAmount(), Col("p", "currency"),
      Col("a", "code"), Col("a", "name"), Col("a", "type"), Col("t", "status"), Col("t", "reconciled_at")])
  }

  function ViewFrom(): Node {
    Tree(Join, [
      Tree(Join, [Table("transactions", "t"), Table("postings", "p"), JoinPostings()]),
      Table("accounts", "a"), JoinAccounts()])
  }

  /** The view's `select_fragment` followed by `WHERE t.household_id = :household_id`. */
  function HouseholdQuery(): Node {
    Tree(Select(VIEW_COLUMNS, false, false, None),
         [ViewFrom(), TenantScope(), ListOf([]), ListOf([]), ViewOutputs(), ListOf([])])
  }

  /** `table.alias or table.name`: the text, with any quotes gone, that the surrounding query knows the table by. */
  function AliasText(table: Node): string
    requires table.Table?
  {
    if table.tableAlias == "" then table.table else table.tableAlias
  }

  /** The scoped subquery under a name. */
  function Named(name: string): Node {
    Tree(Derived(name), [HouseholdQuery()])
  }

  /** The derived table that is meant to take the place of a table node. */
  function Scoped(table: Node): Node
    requires table.Table?
  {
    Named(AliasText(table))
  }

  // ----- Reading the replacement -----

  /**
    The code does not build the replacement: it writes the alias text, unquoted, behind the scoped subquery and parses that.
    `read` is what the parser makes of the text for an alias, if it can parse it; `reserved` are its keywords in lower case.
    */
  datatype Parser = Parser(reserved: set<string>, read: string -> Option<Node>)

  predicate IsNameChar(c: char, first: bool) {
    'a' <= c <= 'z' || 'A' <= c <= 'Z' || c == '_' || (!first && '0' <= c <= '9')
  }

  /** An identifier that means the same with and without quotes. */
  predicate PlainName(name: string, reserved: set<string>) {
    && name != "" && Strings.Lower(name) !in reserved
    && forall i | 0 <= i < |name| :: IsNameChar(name[i], i == 0)
  }

  /** Plain identifiers are read as the name of the subquery. */
  ghost predicate ReadsNames(parser: Parser) {
    forall name | PlainName(name, parser.reserved) :: parser.read(name) == Some(Named(name))
  }

  /** The node reads off its leftmost part as a scoped subquery, as any text does that starts with one. */
  predicate StartsScoped(n: Node) {
    && n.Tree? && n.args != []
    && (if n.op.Derived? then n.args == [HouseholdQuery()] else StartsScoped(n.args[0]))
  }

  ghost predicate ReadsSubqueries(parser: Parser) {
    forall text | parser.read(text).Some? :: StartsScoped(parser.read(text).value)
  }

  /** What takes the place of a table node; the node itself if its alias cannot be read. */
  function Reading(table: Node, parser: Parser): Node
    requires table.Table?
  {
    match parser.read(AliasText(table))
    case Some(m) => m
    case None => table
  }

  /** Every table alias of the tree can be read. */
  predicate Readable(n: Node, parser: Parser) {
    match n
    case Table(_, _) => parser.read(AliasText(n)).Some?
    case Tree(_, args) => forall i | 0 <= i < |args| :: Readable(args[i], parser)
  }

  /** Every table alias of the tree is read as the name it is. */
  predicate KeepsNames(n: Node, parser: Parser) {
    match n
    case Table(_, _) => parser.read(AliasText(n)) == Some(Scoped(n))
    case Tree(_, args) => forall i | 0 <= i < |args| :: KeepsNames(args[i], parser)
  }

  /** Every table alias of the tree is a plain identifier. */
  predicate PlainAliases(n: Node, reserved: set<string>) {
    match n
    case Table(_, _) => PlainName(AliasText(n), reserved)
    case Tree(_, args) => forall i | 0 <= i < |args| :: PlainAliases(args[i], reserved)
  }

  // ----- Walking the tree -----

  type Path = seq<nat>

  predicate HasPath(n: Node, p: Path)
    decreases |p|
  {
    p == [] || (n.Tree? && p[0] < |n.args| && HasPath(n.args[p[0]], p[1..]))
  }

  function NodeAt(n: Node, p: Path): Node
    requires HasPath(n, p)
    decreases |p|
  {
    if p == [] then n else NodeAt(n.args[p[0]], p[1..])
  }

  /** `node.replace(m)` for the node at `p`. */
  function ReplaceAt(n: Node, p: Path, m: Node): Node
    requires HasPath(n, p)
    decreases |p|
  {
    if p == [] then m else Tree(n.op, n.args[p[0] := ReplaceAt(n.args[p[0]], p[1..], m)])
  }

  /** `tree.walk()`: every node of the tree. */
  function Nodes(n: Node): seq<Node>
    decreases n, 1
  {
    [n] + if n.Table? then [] else NodesFrom(n, 0)
  }

  function NodesFrom(n: Node, i: nat): seq<Node>
    requires n.Tree?
    decreases n, 0, |n.args| - i
  {
    if i >= |n.args| then [] else Nodes(n.args[i]) + NodesFrom(n, i + 1)
  }

  /** `_walk_tables`: where the table references are. */
  function TablePaths(n: Node): seq<Path>
    decreases n, 1
  {
    if n.Table? then [[]] else TablePathsFrom(n, 0)
  }

  function TablePathsFrom(n: Node, i: nat): seq<Path>
    requires n.Tree?
    decreases n, 0, |n.args| - i
  {
    if i >= |n.args| then [] else Under(i, TablePaths(n.args[i])) + TablePathsFrom(n, i + 1)
  }

  function Under(i: nat, paths: seq<Path>): (r: seq<Path>)
    ensures |r| == |paths| && forall k | 0 <= k < |r| :: r[k] == [i] + paths[k]
  {
    seq(|paths|, k requires 0 <= k < |paths| => [i] + paths[k])
  }

  // ----- Validation -----

  const DANGEROUS := ["Insert", "Update", "Delete", "Create", "Drop", "Alter", "Pragma", "Command"]

  predicate Dangerous(n: Node) {
    n.Tree? && n.op.Statement? && n.op.keyword in DANGEROUS
  }

  predicate TopLevelSelect(n: Node) {
    n.Tree? && (n.op.Select? || n.op.SetOp?)
  }

  /** Every table reference in the tree names an allowlisted view. */
  predicate OnlyViews(n: Node) {
    match n
    case Table(name, _) => name == VIEW_NAME
    case Tree(_, args) => forall i | 0 <= i < |args| :: OnlyViews(args[i])
  }

  // ----- The rewriting, as a function -----

  /** What the pass is meant to compute. */
  function Rewrite(n: Node): (r: Node)
    ensures r.Tree?
    ensures n.Tree? ==> r.op == n.op && |r.args| == |n.args|
  {
    match n
    case Table(_, _) => Scoped(n)
    case Tree(op, args) => Tree(op, seq(|args|, i requires 0 <= i < |args| => Rewrite(args[i])))
  }

  /** What it computes: each table replaced by what its alias text is read as. */
  function RewriteRead(n: Node, parser: Parser): (r: Node)
    ensures n.Tree? ==> r.Tree? && r.op == n.op && |r.args| == |n.args|
  {
    match n
    case Table(_, _) => Reading(n, parser)
    case Tree(op, args) => Tree(op, seq(|args|, i requires 0 <= i < |args| => RewriteRead(args[i], parser)))
  }

  const ROW_LIMIT := 100

  /** `LIMIT 100`, for a top-level SELECT that states no limit of its own. */
  function BoundRows(n: Node): Node {
    if n.Tree? && n.op.Select? && n.op.limit.None? then Tree(n.op.(limit := Some(ROW_LIMIT)), n.args) else n
  }

  datatype Emitted = Blank | Unparsable | Parsed(tree: Node)

  /** The last one is the parser's own error, which the code does not catch. */
  datatype SqlError = Empty | ParseError | NotSelect | DangerousNode | NoTables | TableNotAllowed | AliasUnreadable

  datatype SafeSql = SafeSql(tree: Node, params: map<string, Value>)

  function Validated(emitted: Emitted, householdId: string, parser: Parser): Result<SafeSql, SqlError> {
    match emitted
    case Blank => Err(Empty)
    case Unparsable => Err(ParseError)
    case Parsed(tree) =>
      if !TopLevelSelect(tree) then Err(NotSelect)
      else if exists n | n in Nodes(tree) :: Dangerous(n) then Err(DangerousNode)
      else if TablePaths(tree) == [] then Err(NoTables)
      else if !OnlyViews(tree) then Err(TableNotAllowed)
      else if !Readable(tree, parser) then Err(AliasUnreadable)
      else Ok(SafeSql(BoundRows(RewriteRead(tree, parser)), map["household_id" := Text(householdId)]))
  }

  // ----- The rewriting, in place -----

  class Statement {
    var tree: Node

    constructor (tree: Node)
      ensures this.tree == tree
    {
      this.tree := tree;
    }

    method Replace(p: Path, m: Node)
      requires HasPath(tree, p)
      modifies this
      ensures tree == ReplaceAt(old(tree), p, m)
    {
      tree := ReplaceAt(tree, p, m);
    }

    method SetLimit(limit: int)
      requires tree.Tree? && tree.op.Select?
      modifies this
      ensures tree == Tree(old(tree).op.(limit := Some(limit)), old(tree).args)
    {
      tree := Tree(tree.op.(limit := Some(limit)), tree.args);
    }
  }

  method ValidateAndRewrite(emitted: Emitted, householdId: string, parser: Parser) returns (r: Result<SafeSql, SqlError>)
    ensures r == Validated(emitted, householdId, parser)
  {
    if emitted.Blank? {
      return Err(Empty);
    }
    if emitted.Unparsable? {
      return Err(ParseError);
    }
    ghost var source := emitted.tree;
    var statement := new Statement(emitted.tree);
    if !TopLevelSelect(statement.tree) {
      return Err(NotSelect);
    }
    var nodes := Nodes(statement.tree);
    for i := 0 to |nodes|
      invariant forall k | 0 <= k < i :: !Dangerous(nodes[k])
    {
      if Dangerous(nodes[i]) {
        return Err(DangerousNode);
      }
    }
    var referenced := TablePaths(statement.tree);
    if |referenced| == 0 {
      return Err(NoTables);
    }
    TablePathsExact(source);
    for i := 0 to |referenced|
      invariant forall k | 0 <= k < i :: NodeAt(source, referenced[k]).table == VIEW_NAME
    {
      if NodeAt(statement.tree, referenced[i]).table != VIEW_NAME {
        OnlyViewsByPath(source);
        assert referenced[i] in TablePaths(source);
        return Err(TableNotAllowed);
      }
    }
    OnlyViewsByPath(source);
    PartialNone(source, parser);
    assert AsSet(referenced[..0]) == {};
    for i := 0 to |referenced|
      invariant statement.tree == Partial(source, AsSet(referenced[..i]), parser)
      invariant forall k | 0 <= k < i :: parser.read(AliasText(NodeAt(source, referenced[k]))).Some?
    {
      var path := referenced[i];
      PartialStep(source, AsSet(referenced[..i]), path, parser);
      var table := NodeAt(statement.tree, path);
      var node := parser.read(AliasText(table));
      if node.None? {
        ReadableByPath(source, parser);
        assert path in TablePaths(source) && !ReadAt(source, path, parser);
        return Err(AliasUnreadable);
      }
      statement.Replace(path, node.value);
      assert AsSet(referenced[..i + 1]) == AsSet(referenced[..i]) + {path};
    }
    assert referenced[..|referenced|] == referenced;
    PartialAll(source, AsSet(referenced), parser);
    ReadableByPath(source, parser);
    if statement.tree.op.Select? && statement.tree.op.limit.None? {
      statement.SetLimit(ROW_LIMIT);
    }
    r := Ok(SafeSql(statement.tree, map["household_id" := Text(householdId)]));
  }

  // ----- Why replacing node by node computes `RewriteRead` -----

  /** The listed paths are exactly the table references, each once. */
  lemma {:induction false} TablePathsExact(n: Node)
    ensures forall p :: p in TablePaths(n) <==> HasPath(n, p) && NodeAt(n, p).Table?
    ensures forall i, j | 0 <= i < j < |TablePaths(n)| :: TablePaths(n)[i] != TablePaths(n)[j]
    decreases n, 1
  {
    if n.Tree? {
      TablePathsFromExact(n, 0);
    }
  }

  lemma {:induction false} TablePathsFromExact(n: Node, i: nat)
    requires n.Tree?
    ensures forall p :: p in TablePathsFrom(n, i) <==> p != [] && i <= p[0] && HasPath(n, p) && NodeAt(n, p).Table?
    ensures forall j, k | 0 <= j < k < |TablePathsFrom(n, i)| :: TablePathsFrom(n, i)[j] != TablePathsFrom(n, i)[k]
    decreases n, 0, |n.args| - i
  {
    if i < |n.args| {
      TablePathsExact(n.args[i]);
      TablePathsFromExact(n, i + 1);
      var here, rest := Under(i, TablePaths(n.args[i])), TablePathsFrom(n, i + 1);
      forall p
        ensures p in here <==> p != [] && p[0] == i && HasPath(n, p) && NodeAt(n, p).Table?
      {
        if p in here {
          var k :| 0 <= k < |here| && here[k] == p;
          var tail := TablePaths(n.args[i])[k];
          assert p == [i] + tail && p[1..] == tail && tail in TablePaths(n.args[i]);
        }
        if p != [] && p[0] == i && HasPath(n, p) && NodeAt(n, p).Table? {
          assert p[1..] in TablePaths(n.args[i]);
          var k :| 0 <= k < |here| && TablePaths(n.args[i])[k] == p[1..];
          assert p == [i] + p[1..];
          assert here[k] == p;
        }
      }
      forall j, k | 0 <= j < k < |here|
        ensures here[j] != here[k]
      {
        assert here[j][1..] == TablePaths(n.args[i])[j] && here[k][1..] == TablePaths(n.args[i])[k];
      }
      forall j, k | 0 <= j < |here| && 0 <= k < |rest|
        ensures here[j] != rest[k]
      {
        assert here[j][0] == i && rest[k] in rest;
      }
    }
  }

  predicate ViewAt(n: Node, p: Path) {
    HasPath(n, p) && NodeAt(n, p).Table? && NodeAt(n, p).table == VIEW_NAME
  }

  lemma {:induction false} OnlyViewsByPath(n: Node)
    ensures OnlyViews(n) <==> forall p | p in TablePaths(n) :: ViewAt(n, p)
  {
    TablePathsExact(n);
    if n.Table? {
      assert [] in TablePaths(n);
    } else {
      forall i | 0 <= i < |n.args|
        ensures OnlyViews(n.args[i]) <==> forall p | p in TablePaths(n.args[i]) :: ViewAt(n.args[i], p)
        ensures forall p | p in TablePaths(n.args[i]) :: [i] + p in TablePaths(n) && ViewAt(n, [i] + p) == ViewAt(n.args[i], p)
      {
        OnlyViewsByPath(n.args[i]);
        TablePathsExact(n.args[i]);
        forall p | p in TablePaths(n.args[i])
          ensures HasPath(n, [i] + p) && NodeAt(n, [i] + p) == NodeAt(n.args[i], p)
        {
          assert ([i] + p)[1..] == p;
        }
      }
      forall p | p in TablePaths(n)
        ensures p != [] && p[0] < |n.args| && p[1..] in TablePaths(n.args[p[0]]) && p == [p[0]] + p[1..]
      {
        TablePathsExact(n.args[p[0]]);
      }
    }
  }

  predicate ReadAt(n: Node, p: Path, parser: Parser) {
    HasPath(n, p) && NodeAt(n, p).Table? && parser.read(AliasText(NodeAt(n, p))).Some?
  }

  lemma {:induction false} ReadableByPath(n: Node, parser: Parser)
    ensures Readable(n, parser) <==> forall p | p in TablePaths(n) :: ReadAt(n, p, parser)
  {
    TablePathsExact(n);
    if n.Table? {
      assert [] in TablePaths(n);
    } else {
      forall i | 0 <= i < |n.args|
        ensures Readable(n.args[i], parser) <==> forall p | p in TablePaths(n.args[i]) :: ReadAt(n.args[i], p, parser)
        ensures forall p | p in TablePaths(n.args[i]) ::
                  [i] + p in TablePaths(n) && ReadAt(n, [i] + p, parser) == ReadAt(n.args[i], p, parser)
      {
        ReadableByPath(n.args[i], parser);
        TablePathsExact(n.args[i]);
        forall p | p in TablePaths(n.args[i])
          ensures HasPath(n, [i] + p) && NodeAt(n, [i] + p) == NodeAt(n.args[i], p)
        {
          assert ([i] + p)[1..] == p;
        }
      }
      forall p | p in TablePaths(n)
        ensures p != [] && p[0] < |n.args| && p[1..] in TablePaths(n.args[p[0]]) && p == [p[0]] + p[1..]
      {
        TablePathsExact(n.args[p[0]]);
      }
    }
  }

  function AsSet(paths: seq<Path>): set<Path> {
    set p | p in paths
  }

  function Tails(done: set<Path>, i: nat): set<Path> {
    set p | p in done && p != [] && p[0] == i :: p[1..]
  }

  /** `n` with the tables at the paths in `done` replaced and the others left. */
  function Partial(n: Node, done: set<Path>, parser: Parser): (r: Node)
    ensures n.Tree? ==> r.Tree? && r.op == n.op && |r.args| == |n.args|
  {
    match n
    case Table(_, _) => if [] in done then Reading(n, parser) else n
    case Tree(op, args) => Tree(op, seq(|args|, i requires 0 <= i < |args| => Partial(args[i], Tails(done, i), parser)))
  }

  lemma {:induction false} PartialNone(n: Node, parser: Parser)
    ensures Partial(n, {}, parser) == n
  {
    if n.Tree? {
      forall i | 0 <= i < |n.args|
        ensures Partial(n, {}, parser).args[i] == n.args[i]
      {
        PartialNone(n.args[i], parser);
        assert Tails({}, i) == {};
      }
      assert Partial(n, {}, parser).args == n.args;
    }
  }

  lemma {:induction false} PartialAll(n: Node, done: set<Path>, parser: Parser)
    requires forall p | p in TablePaths(n) :: p in done
    ensures Partial(n, done, parser) == RewriteRead(n, parser)
  {
    if n.Table? {
      assert [] in TablePaths(n);
    } else {
      TablePathsExact(n);
      forall i | 0 <= i < |n.args|
        ensures Partial(n, done, parser).args[i] == RewriteRead(n, parser).args[i]
      {
        forall p | p in TablePaths(n.args[i])
          ensures p in Tails(done, i)
        {
          TablePathsExact(n.args[i]);
          assert ([i] + p)[1..] == p;
          assert [i] + p in TablePaths(n);
        }
        PartialAll(n.args[i], Tails(done, i), parser);
      }
      assert Partial(n, done, parser).args == RewriteRead(n, parser).args;
    }
  }

  /** Replacing one more table: earlier replacements neither moved it nor changed it. */
  lemma {:induction false} PartialStep(n: Node, done: set<Path>, p: Path, parser: Parser)
    requires HasPath(n, p) && NodeAt(n, p).Table? && p !in done
    ensures HasPath(Partial(n, done, parser), p) && NodeAt(Partial(n, done, parser), p) == NodeAt(n, p)
    ensures ReplaceAt(Partial(n, done, parser), p, Reading(NodeAt(n, p), parser)) == Partial(n, done + {p}, parser)
    decreases |p|
  {
    if p != [] {
      var i, tail := p[0], p[1..];
      assert p == [i] + tail;
      assert tail !in Tails(done, i) by {
        forall q | q in done && q != []
          ensures q == [q[0]] + q[1..]
        {
        }
      }
      PartialStep(n.args[i], Tails(done, i), tail, parser);
      var before, after := Partial(n, done, parser), Partial(n, done + {p}, parser);
      forall j | 0 <= j < |n.args|
        ensures after.args[j] == ReplaceAt(before, p, Reading(NodeAt(n, p), parser)).args[j]
      {
        assert Tails(done + {p}, j) == if j == i then Tails(done, i) + {tail} else Tails(done, j);
      }
      assert after.args == ReplaceAt(before, p, Reading(NodeAt(n, p), parser)).args;
    }
  }

  // ----- When the pass computes what it is meant to -----

  /** The result is the intended one if and only if every table alias is read as the name it is. */
  lemma {:induction false} IntendedExactly(n: Node, parser: Parser)
    requires Readable(n, parser)
    ensures RewriteRead(n, parser) == Rewrite(n) <==> KeepsNames(n, parser)
  {
    if n.Tree? {
      forall i | 0 <= i < |n.args|
        ensures RewriteRead(n, parser).args[i] == Rewrite(n).args[i] <==> KeepsNames(n.args[i], parser)
      {
        IntendedExactly(n.args[i], parser);
      }
      assert RewriteRead(n, parser) == Rewrite(n) <==> RewriteRead(n, parser).args == Rewrite(n).args;
    }
  }

  lemma {:induction false} KeepsNamesReadable(n: Node, parser: Parser)
    requires KeepsNames(n, parser)
    ensures Readable(n, parser)
  {
    if n.Tree? {
      forall i | 0 <= i < |n.args| {
        KeepsNamesReadable(n.args[i], parser);
      }
    }
  }

  /** Plain identifiers are always kept. */
  lemma {:induction false} PlainKeepsNames(n: Node, parser: Parser)
    requires ReadsNames(parser) && PlainAliases(n, parser.reserved)
    ensures KeepsNames(n, parser)
  {
    if n.Tree? {
      forall i | 0 <= i < |n.args| {
        PlainKeepsNames(n.args[i], parser);
      }
    }
  }
}
