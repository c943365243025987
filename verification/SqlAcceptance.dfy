/** Which statements `validate_and_rewrite` refuses, and with which error, read off the nodes that paths of the tree lead to. */
module SqlAcceptance {
  import opened Results
  import opened SqlSemantics
  import opened SqlRewrite

  predicate IsQuery(n: Node) {
    n.Tree? && (n.op.Select? || n.op.SetOp?)
  }

  predicate NodeIs(n: Node, p: Path, m: Node) {
    HasPath(n, p) && NodeAt(n, p) == m
  }

  /** The path leads to a node that mutates state or escapes the SELECT box. */
  predicate StatementAt(n: Node, p: Path) {
    && HasPath(n, p) && NodeAt(n, p).Tree? && NodeAt(n, p).op.Statement?
    && NodeAt(n, p).op.keyword in ["Insert", "Update", "Delete", "Create", "Drop", "Alter", "Pragma", "Command"]
  }

  predicate TableAt(n: Node, p: Path) {
    HasPath(n, p) && NodeAt(n, p).Table?
  }

  predicate ForeignTableAt(n: Node, p: Path) {
    TableAt(n, p) && NodeAt(n, p).table != "ai_view_transactions"
  }

  /** The path leads to a table whose alias, or name if it has none, cannot be parsed behind the subquery. */
  predicate UnreadableAt(n: Node, p: Path, parser: Parser) {
    && TableAt(n, p)
    && parser.read(if NodeAt(n, p).tableAlias == "" then NodeAt(n, p).table else NodeAt(n, p).tableAlias).None?
  }

  // ----- The walk meets exactly the nodes that paths lead to -----

  lemma {:induction false} NodesByPath(n: Node, m: Node)
    ensures m in Nodes(n) <==> exists p :: NodeIs(n, p, m)
    decreases n, 1
  {
    assert n == m ==> NodeIs(n, [], m);
    if n.Tree? {
      NodesFromByPath(n, 0, m);
      if m in NodesFrom(n, 0) {
        var p :| p != [] && NodeIs(n, p, m);
      }
      if p :| NodeIs(n, p, m) {
        assert p == [] ==> m == n;
      }
    }
  }

  lemma {:induction false} NodesFromByPath(n: Node, i: nat, m: Node)
    requires n.Tree?
    ensures m in NodesFrom(n, i) <==> exists p :: p != [] && i <= p[0] && NodeIs(n, p, m)
    decreases n, 0, |n.args| - i
  {
    if i < |n.args| {
      NodesByPath(n.args[i], m);
      NodesFromByPath(n, i + 1, m);
      if tail :| NodeIs(n.args[i], tail, m) {
        assert ([i] + tail)[1..] == tail && NodeIs(n, [i] + tail, m);
      }
      if p :| p != [] && i <= p[0] && NodeIs(n, p, m) {
        assert p[0] == i ==> NodeIs(n.args[i], p[1..], m);
      }
    }
  }

  lemma DangerousByPath(n: Node)
    ensures (exists m | m in Nodes(n) :: Dangerous(m)) <==> exists p :: StatementAt(n, p)
  {
    if m :| m in Nodes(n) && Dangerous(m) {
      NodesByPath(n, m);
      var p :| NodeIs(n, p, m);
      assert StatementAt(n, p);
    }
    if p :| StatementAt(n, p) {
      NodesByPath(n, NodeAt(n, p));
      assert NodeIs(n, p, NodeAt(n, p)) && Dangerous(NodeAt(n, p));
    }
  }

  lemma TablesByPath(n: Node)
    ensures TablePaths(n) != [] <==> exists p :: TableAt(n, p)
  {
    TablePathsExact(n);
    if TablePaths(n) != [] {
      assert TablePaths(n)[0] in TablePaths(n) && TableAt(n, TablePaths(n)[0]);
    }
  }

  lemma ForeignByPath(n: Node)
    ensures OnlyViews(n) <==> !exists p :: ForeignTableAt(n, p)
  {
    TablePathsExact(n);
    OnlyViewsByPath(n);
    if !OnlyViews(n) {
      var p :| p in TablePaths(n) && !ViewAt(n, p);
      assert ForeignTableAt(n, p);
    }
    if p :| ForeignTableAt(n, p) {
      assert p in TablePaths(n) && !ViewAt(n, p);
    }
  }

  lemma UnreadableByPath(n: Node, parser: Parser)
    ensures Readable(n, parser) <==> !exists p :: UnreadableAt(n, p, parser)
  {
    TablePathsExact(n);
    ReadableByPath(n, parser);
    if !Readable(n, parser) {
      var p :| p in TablePaths(n) && !ReadAt(n, p, parser);
      assert UnreadableAt(n, p, parser);
    }
    if p :| UnreadableAt(n, p, parser) {
      assert p in TablePaths(n) && !ReadAt(n, p, parser);
    }
  }

  /**
    Every refusal exactly: the first of the five faults that the statement has, in this order. A statement with none of them
    is accepted, with the household for its only parameter.
    */
  lemma RefusedExactly(tree: Node, householdId: string, parser: Parser)
    ensures var r := Validated(Parsed(tree), householdId, parser);
            var hasStatement, hasTable := exists p :: StatementAt(tree, p), exists p :: TableAt(tree, p);
            var hasForeign, hasUnreadable := exists p :: ForeignTableAt(tree, p), exists p :: UnreadableAt(tree, p, parser);
            && (r == Err(NotSelect) <==> !IsQuery(tree))
            && (r == Err(DangerousNode) <==> IsQuery(tree) && hasStatement)
            && (r == Err(NoTables) <==> IsQuery(tree) && !hasStatement && !hasTable)
            && (r == Err(TableNotAllowed) <==> IsQuery(tree) && !hasStatement && hasTable && hasForeign)
            && (r == Err(AliasUnreadable) <==> IsQuery(tree) && !hasStatement && hasTable && !hasForeign && hasUnreadable)
            && (r.Ok? <==> IsQuery(tree) && !hasStatement && hasTable && !hasForeign && !hasUnreadable)
            && (r.Ok? ==> r.value.params == map["household_id" := Text(householdId)])
  {
    DangerousByPath(tree);
    TablesByPath(tree);
    ForeignByPath(tree);
    UnreadableByPath(tree, parser);
  }

  /** `SELECT 1` */
  function SelectOne(): Node {
    Tree(Select(["1"], false, false, None),
         [Tree(NoFrom, []), ListOf([]), ListOf([]), ListOf([]), ListOf([Tree(Literal(Int(1)), [])]), ListOf([])])
  }

  lemma SelectOneNodes(p: Path)
    requires HasPath(SelectOne(), p)
    ensures !StatementAt(SelectOne(), p) && !TableAt(SelectOne(), p)
  {
    var tree := SelectOne();
    if p != [] {
      var child, rest := tree.args[p[0]], p[1..];
      assert HasPath(child, rest) && NodeAt(tree, p) == NodeAt(child, rest);
      assert child == Tree(NoFrom, []) || child == ListOf([]) || child == ListOf([Tree(Literal(Int(1)), [])]);
      if rest != [] {
        assert NodeAt(child, rest) == NodeAt(Tree(Literal(Int(1)), []), rest[1..]) && HasPath(Tree(Literal(Int(1)), []), rest[1..]);
      }
    }
  }

  /** It has no table, so it is refused. */
  lemma SelectOneIsRefused(householdId: string, parser: Parser)
    ensures Validated(Parsed(SelectOne()), householdId, parser) == Err(NoTables)
  {
    RefusedExactly(SelectOne(), householdId, parser);
    forall p
      ensures !StatementAt(SelectOne(), p) && !TableAt(SelectOne(), p)
    {
      if HasPath(SelectOne(), p) {
        SelectOneNodes(p);
      }
    }
  }
}
