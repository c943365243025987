/**
  A SELECT language as the rewriter's parser sees it: one generic tree type, as in sqlglot, with a denotational evaluator.
  The evaluator is parametrised by an engine, so that nothing below depends on how a particular function, aggregate, collation
  or sort order works.
  */
module SqlSemantics {
  import opened Results

  // ----- Values and relations -----

  datatype Value = Null | Int(i: int) | Real(r: real) | Text(s: string)

  type Tuple = seq<Value>

  /** The result of a query: output column names and rows. */
  datatype Rel = Rel(cols: seq<string>, rows: seq<Tuple>)

  /** One FROM item: the alias that qualifies its columns. */
  datatype Source = Source(alias: string, cols: seq<string>)

  /** The result of a FROM clause: its items, and per combined row one tuple for each item. */
  datatype Scopes = Scopes(shape: seq<Source>, rows: seq<seq<Tuple>>)

  /** What an expression sees of one query level: a combined row, and the rows of its group for aggregates. */
  datatype Frame = Frame(shape: seq<Source>, row: seq<Tuple>, group: seq<seq<Tuple>>)

  /** Innermost level first, so a correlated subquery looks outward last. */
  type Env = seq<Frame>

  // ----- Syntax -----

  datatype SetKind = Union | UnionAll | Intersect | Except

  datatype Op =
    | Select(names: seq<string>, distinct: bool, grouped: bool, limit: Option<int>) // [from, where, keys, having, outputs, order]
    | SetOp(kind: SetKind, setLimit: Option<int>) // [left, right]
    | Derived(alias: string) // [query]
    | Join // [left, right, on]
    | LeftJoin // [left, right, on]
    | NoFrom
    | List // any number of expressions
    | Column(qualifier: string, name: string)
    | Star
    | Literal(value: Value)
    | Param(param: string)
    | Eq | And
    | Scalar(fn: string) // every other operator and scalar function
    | Aggregate(aggregate: string) // [a list of one expression]
    | Exists // [query]
    | In // [expression, query]
    | ScalarQuery // [query]
    | Statement(keyword: string) // anything that is not part of a SELECT, such as INSERT or PRAGMA

  /** A table reference is always a leaf; everything else is an operator over its arguments. */
  datatype Node =
    | Table(table: string, tableAlias: string)
    | Tree(op: Op, args: seq<Node>)

  // ----- The engine and its data -----

  datatype Engine = Engine(
    scalar: (string, seq<Value>) -> Value,
    aggregate: (string, seq<Tuple>) -> Value,
    truthy: string -> bool,
    order: seq<(Tuple, Tuple)> -> seq<Tuple>)

  datatype Context = Context(tables: map<string, Rel>, params: map<string, Value>, engine: Engine)

  function TableRel(ctx: Context, name: string): Rel {
    if name in ctx.tables then ctx.tables[name] else Rel([], [])
  }

  // ----- Scalar semantics -----

  predicate IsTrue(engine: Engine, v: Value) {
    match v
    case Null => false
    case Int(i) => i != 0
    case Real(r) => r != 0.0
    case Text(s) => engine.truthy(s)
  }

  function Bool(b: bool): Value {
    Int(if b then 1 else 0)
  }

  /** `=` is NULL when either side is. */
  function SqlEq(a: Value, b: Value): Value {
    if a.Null? || b.Null? then Null else Bool(a == b)
  }

  /** Three-valued AND. */
  function SqlAnd(engine: Engine, a: Value, b: Value): Value {
    if (!a.Null? && !IsTrue(engine, a)) || (!b.Null? && !IsTrue(engine, b)) then Bool(false)
    else if a.Null? || b.Null? then Null
    else Bool(true)
  }

  function IndexFrom(cols: seq<string>, name: string, i: nat): (r: Option<nat>)
    requires i <= |cols|
    ensures r.Some? ==> i <= r.value < |cols|
    decreases |cols| - i
  {
    if i == |cols| then None else if cols[i] == name then Some(i) else IndexFrom(cols, name, i + 1)
  }

  function At(t: Tuple, i: nat): Value {
    if i < |t| then t[i] else Null
  }

  /** The first item from `i` on that has the column and, if the reference is qualified, the alias. */
  function FindColumn(f: Frame, qualifier: string, name: string, i: nat): Option<Value>
    decreases |f.shape| - i
  {
    if i >= |f.shape| then None
    else
      var k := if qualifier == "" || qualifier == f.shape[i].alias then IndexFrom(f.shape[i].cols, name, 0) else None;
      if k.Some? then Some(if i < |f.row| then At(f.row[i], k.value) else Null)
      else FindColumn(f, qualifier, name, i + 1)
  }

  function LookUp(env: Env, qualifier: string, name: string): Value {
    if env == [] then Null
    else
      match FindColumn(env[0], qualifier, name, 0)
      case Some(v) => v
      case None => LookUp(env[1..], qualifier, name)
  }

  // ----- Relational operations on already evaluated parts -----

  function Flatten(row: seq<Tuple>): Tuple {
    if row == [] then [] else row[0] + Flatten(row[1..])
  }

  function AllColumns(shape: seq<Source>): seq<string> {
    if shape == [] then [] else shape[0].cols + AllColumns(shape[1..])
  }

  function Dedup(rows: seq<Tuple>): seq<Tuple> {
    if rows == [] then []
    else
      var front := Dedup(rows[..|rows| - 1]);
      var last := rows[|rows| - 1];
      if last in front then front else front + [last]
  }

  function KeepIn(rows: seq<Tuple>, other: seq<Tuple>, keep: bool): seq<Tuple> {
    if rows == [] then []
    else (if (rows[0] in other) == keep then [rows[0]] else []) + KeepIn(rows[1..], other, keep)
  }

  function Combine(kind: SetKind, left: Rel, right: Rel): Rel {
    Rel(left.cols,
        match kind
        case UnionAll => left.rows + right.rows
        case Union => Dedup(left.rows + right.rows)
        case Intersect => Dedup(KeepIn(left.rows, right.rows, true))
        case Except => Dedup(KeepIn(left.rows, right.rows, false)))
  }

  /** SQLite reads a negative LIMIT as no limit. */
  function Take(rows: seq<Tuple>, limit: Option<int>): seq<Tuple> {
    match limit
    case None => rows
    case Some(n) => if 0 <= n <= |rows| then rows[..n] else rows
  }

  function Pairs(left: seq<seq<Tuple>>, right: seq<seq<Tuple>>): (r: seq<seq<Tuple>>)
    ensures |r| == |left| * |right|
  {
    if left == [] then [] else PairWith(left[0], right) + Pairs(left[1..], right)
  }

  function PairWith(l: seq<Tuple>, right: seq<seq<Tuple>>): (r: seq<seq<Tuple>>)
    ensures |r| == |right|
    ensures forall i | 0 <= i < |r| :: r[i] == l + right[i]
  {
    seq(|right|, i requires 0 <= i < |right| => l + right[i])
  }

  /** The rows whose evaluated conditions all hold. */
  function Kept(engine: Engine, rows: seq<seq<Tuple>>, conditions: seq<Tuple>): seq<seq<Tuple>>
    requires |conditions| == |rows|
  {
    if rows == [] then []
    else (if AllTrue(engine, conditions[0]) then [rows[0]] else []) + Kept(engine, rows[1..], conditions[1..])
  }

  predicate AllTrue(engine: Engine, vs: Tuple) {
    forall v | v in vs :: IsTrue(engine, v)
  }

  function Nulls(shape: seq<Source>): seq<Tuple> {
    seq(|shape|, i requires 0 <= i < |shape| => seq(|shape[i].cols|, _ => Null))
  }

  /** Left rows without a partner are padded with NULLs. `conditions` covers the pairs in row-major order. */
  function LeftKept(
      engine: Engine, left: seq<seq<Tuple>>, right: seq<seq<Tuple>>, conditions: seq<Tuple>, padding: seq<Tuple>): seq<seq<Tuple>>
    requires |conditions| == |left| * |right|
  {
    if left == [] then []
    else
      assert |left| * |right| == |right| + |left[1..]| * |right|;
      var here := Kept(engine, PairWith(left[0], right), conditions[..|right|]);
      (if here == [] then [left[0] + padding] else here)
      + LeftKept(engine, left[1..], right, conditions[|right|..], padding)
  }

  /** Rows with equal keys, in order of first occurrence of the key. */
  function Partition(rows: seq<seq<Tuple>>, keys: seq<Tuple>): seq<seq<seq<Tuple>>>
    requires |keys| == |rows|
    decreases |rows|
  {
    if rows == [] then []
    else [WithKey(rows, keys, keys[0], true)] + PartitionRest(rows, keys)
  }

  function PartitionRest(rows: seq<seq<Tuple>>, keys: seq<Tuple>): seq<seq<seq<Tuple>>>
    requires |keys| == |rows| && rows != []
    decreases |rows|, 0
  {
    var others := WithKey(rows, keys, keys[0], false);
    var otherKeys := KeysWith(keys, keys[0]);
    WithKeyShorter(rows, keys, keys[0]);
    Partition(others, otherKeys)
  }

  function WithKey(rows: seq<seq<Tuple>>, keys: seq<Tuple>, key: Tuple, equal: bool): seq<seq<Tuple>>
    requires |keys| == |rows|
  {
    if rows == [] then []
    else (if (keys[0] == key) == equal then [rows[0]] else []) + WithKey(rows[1..], keys[1..], key, equal)
  }

  function KeysWith(keys: seq<Tuple>, key: Tuple): seq<Tuple> {
    if keys == [] then [] else (if keys[0] != key then [keys[0]] else []) + KeysWith(keys[1..], key)
  }

  lemma {:induction false} WithKeyShorter(rows: seq<seq<Tuple>>, keys: seq<Tuple>, key: Tuple)
    requires |keys| == |rows|
    ensures |WithKey(rows, keys, key, false)| == |KeysWith(keys, key)| <= |rows|
    ensures rows != [] && keys[0] == key ==> |KeysWith(keys, key)| < |rows|
  {
    if rows != [] {
      WithKeyShorter(rows[1..], keys[1..], key);
    }
  }

  function Frames(shape: seq<Source>, rows: seq<seq<Tuple>>): (r: seq<Frame>)
    ensures |r| == |rows| && forall i | 0 <= i < |r| :: r[i] == Frame(shape, rows[i], [rows[i]])
  {
    seq(|rows|, i requires 0 <= i < |rows| => Frame(shape, rows[i], [rows[i]]))
  }

  /** With no GROUP BY keys an aggregate query has exactly one group, even over no rows. */
  function GroupFrames(shape: seq<Source>, rows: seq<seq<Tuple>>, keys: seq<Tuple>, noKeys: bool): seq<Frame>
    requires |keys| == |rows|
  {
    var groups := if noKeys then [rows] else Partition(rows, keys);
    seq(|groups|, i requires 0 <= i < |groups| =>
      Frame(shape, if groups[i] == [] then Nulls(shape) else groups[i][0], groups[i]))
  }

  function KeptFrames(engine: Engine, frames: seq<Frame>, conditions: seq<Tuple>): seq<Frame>
    requires |conditions| == |frames|
  {
    if frames == [] then []
    else (if AllTrue(engine, conditions[0]) then [frames[0]] else []) + KeptFrames(engine, frames[1..], conditions[1..])
  }

  function Zip(keys: seq<Tuple>, rows: seq<Tuple>): seq<(Tuple, Tuple)>
    requires |keys| == |rows|
  {
    seq(|rows|, i requires 0 <= i < |rows| => (keys[i], rows[i]))
  }

  /** ORDER BY (when present), DISTINCT and LIMIT, in the order SQL applies them to the projected rows. */
  function Finish(engine: Engine, op: Op, ordered: bool, keys: seq<Tuple>, rows: seq<Tuple>): seq<Tuple>
    requires op.Select? && |keys| == |rows|
  {
    var sorted := if ordered then engine.order(Zip(keys, rows)) else rows;
    Take(if op.distinct then Dedup(sorted) else sorted, op.limit)
  }

  // ----- Evaluation -----

  function EvalQuery(n: Node, env: Env, ctx: Context): Rel
    decreases n, 0
  {
    if n.Tree? && n.op.Select? && |n.args| == 6 then
      var from := EvalFrom(n.args[0], env, ctx);
      var wheres := EvalOver(n.args[1], Frames(from.shape, from.rows), env, ctx);
      var kept := Kept(ctx.engine, from.rows, wheres);
      var singles := Frames(from.shape, kept);
      var frames := if n.op.grouped
                    then GroupFrames(from.shape, kept, EvalOver(n.args[2], singles, env, ctx), n.args[2] == Tree(List, []))
                    else singles;
      var having := KeptFrames(ctx.engine, frames, EvalOver(n.args[3], frames, env, ctx));
      var outputs := EvalOver(n.args[4], having, env, ctx);
      var keys := EvalOver(n.args[5], having, env, ctx);
      Rel(OutputNames(n.op.names, n.args[4], from.shape),
          Finish(ctx.engine, n.op, n.args[5] != Tree(List, []), keys, outputs))
    else if n.Tree? && n.op.SetOp? && |n.args| == 2 then
      var r := Combine(n.op.kind, EvalQuery(n.args[0], env, ctx), EvalQuery(n.args[1], env, ctx));
      Rel(r.cols, Take(r.rows, n.op.setLimit))
    else
      Rel([], [])
  }

  function EvalFrom(n: Node, env: Env, ctx: Context): Scopes
    decreases n, 0
  {
    if n.Table? then
      Bind(if n.tableAlias == "" then n.table else n.tableAlias, TableRel(ctx, n.table))
    else if n.op.Derived? && |n.args| == 1 then
      Bind(n.op.alias, EvalQuery(n.args[0], env, ctx))
    else if (n.op.Join? || n.op.LeftJoin?) && |n.args| == 3 then
      var left, right := EvalFrom(n.args[0], env, ctx), EvalFrom(n.args[1], env, ctx);
      var shape := left.shape + right.shape;
      var pairs := Pairs(left.rows, right.rows);
      var on := EvalOver(n.args[2], Frames(shape, pairs), env, ctx);
      Scopes(shape, if n.op.Join? then Kept(ctx.engine, pairs, on)
                    else LeftKept(ctx.engine, left.rows, right.rows, on, Nulls(right.shape)))
    else if n.op.NoFrom? then
      Scopes([], [[]])
    else
      Scopes([], [])
  }

  function Bind(alias: string, r: Rel): Scopes {
    Scopes([Source(alias, r.cols)], seq(|r.rows|, i requires 0 <= i < |r.rows| => [r.rows[i]]))
  }

  /** The output names; a star stands for every column of every FROM item. */
  function OutputNames(names: seq<string>, outputs: Node, shape: seq<Source>): seq<string> {
    if outputs == Tree(List, [Tree(Star, [])]) then AllColumns(shape) else names
  }

  /** The values of the expressions of a list, for each frame. */
  function EvalOver(list: Node, frames: seq<Frame>, env: Env, ctx: Context): (r: seq<Tuple>)
    ensures |r| == |frames|
    decreases list, 1, |frames|
  {
    if frames == [] then []
    else [EvalList(list, 0, [frames[0]] + env, ctx)] + EvalOver(list, frames[1..], env, ctx)
  }

  /** The values of the expressions of a list from position `i` on. */
  function EvalList(list: Node, i: nat, env: Env, ctx: Context): Tuple
    decreases list, 0, if list.Tree? then |list.args| - i else 0
  {
    if list.Table? || !(list.op.List? || list.op.Scalar?) || i >= |list.args| then []
    else
      (if list.args[i] == Tree(Star, []) && env != [] then Flatten(env[0].row) else [EvalExpr(list.args[i], env, ctx)])
      + EvalList(list, i + 1, env, ctx)
  }

  function EvalExpr(n: Node, env: Env, ctx: Context): Value
    decreases n, 1
  {
    if n.Table? then Null
    else
      match n.op
      case Column(q, c) => LookUp(env, q, c)
      case Literal(v) => v
      case Param(p) => if p in ctx.params then ctx.params[p] else Null
      case Eq => if |n.args| == 2 then SqlEq(EvalExpr(n.args[0], env, ctx), EvalExpr(n.args[1], env, ctx)) else Null
      case And =>
        if |n.args| == 2 then SqlAnd(ctx.engine, EvalExpr(n.args[0], env, ctx), EvalExpr(n.args[1], env, ctx)) else Null
      case Scalar(f) => ctx.engine.scalar(f, EvalList(n, 0, env, ctx))
      case Aggregate(f) =>
        if |n.args| == 1 && env != []
        then ctx.engine.aggregate(f, EvalOver(n.args[0], Frames(env[0].shape, env[0].group), env[1..], ctx)) else Null
      case Exists => if |n.args| == 1 then Bool(EvalQuery(n.args[0], env, ctx).rows != []) else Null
      case In =>
        if |n.args| == 2
        then Membership(EvalExpr(n.args[0], env, ctx), EvalQuery(n.args[1], env, ctx).rows) else Null
      case ScalarQuery =>
        if |n.args| == 1
        then (var rows := EvalQuery(n.args[0], env, ctx).rows; if rows == [] then Null else At(rows[0], 0)) else Null
      case _ => Null
  }

  /** `v IN (...)`: true if some row equals it, else NULL if some comparison is NULL, else false. */
  function Membership(v: Value, rows: seq<Tuple>): Value {
    if exists t | t in rows :: SqlEq(v, At(t, 0)) == Bool(true) then Bool(true)
    else if exists t | t in rows :: SqlEq(v, At(t, 0)) == Null then Null
    else Bool(false)
  }
}
