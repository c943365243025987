/**
  The chart of accounts behind `routers/accounts.py`: direct creation, the two `create_parents` walkers and reparenting.
  An account's id is its position in the table, so a fresh id is the table's length.
  */
module Accounts {
  import opened Results
  import opened Strings

  datatype Account = Account(
    code: Option<string>, name: string, kind: string, currency: string,
    private: bool, active: bool, parent: Option<nat>, creator: nat)

  datatype Claims = Claims(admin: bool, user: nat)

  datatype CreateBody = CreateBody(
    name: string, kind: string, currency: string, code: Option<string>, private: bool, parent: Option<nat>, createParents: bool)

  datatype UpdateBody = UpdateBody(name: Option<string>, code: Option<string>, private: Option<bool>, parent: Option<nat>)

  datatype AccountError =
    | NotFound | Forbidden
    | ParentNotFound | ParentCycle | ParentTypeMismatch | ParentCurrencyMismatch | ParentVisibility
    | PathMissing | PathSingleSegment | PathEmptySegment | PathUnknownRoot | PathTypeMismatch
    | PathAmbiguous | PathAbsent
    | DuplicateCode

  type Table = seq<Account>

  // ----- The parent graph -----

  /** The `n`-th ancestor of `x`. */
  function Climb(t: Table, x: nat, n: nat): Option<nat>
    decreases n
  {
    if n == 0 then Some(x)
    else if x < |t| && t[x].parent.Some? then Climb(t, t[x].parent.value, n - 1)
    else None
  }

  ghost predicate Reaches(t: Table, x: nat, ancestor: nat) {
    exists n: nat :: Climb(t, x, n) == Some(ancestor)
  }

  /** `x` is its own proper ancestor. */
  ghost predicate OnCycle(t: Table, x: nat) {
    exists n: nat :: 0 < n && Climb(t, x, n) == Some(x)
  }

  predicate ParentsExist(t: Table) {
    forall x | 0 <= x < |t| && t[x].parent.Some? :: t[x].parent.value < |t|
  }

  predicate Ranked(t: Table, rank: seq<nat>) {
    && |rank| == |t| && ParentsExist(t)
    && forall x | 0 <= x < |t| && t[x].parent.Some? :: rank[t[x].parent.value] < rank[x]
  }

  /** Every climb ends, because some rank falls with each step up. */
  ghost predicate Acyclic(t: Table) {
    exists rank :: Ranked(t, rank)
  }

  lemma {:induction false} ClimbLowersRank(t: Table, rank: seq<nat>, x: nat, n: nat)
    requires Ranked(t, rank) && x < |t| && Climb(t, x, n).Some?
    ensures Climb(t, x, n).value < |t|
    ensures rank[Climb(t, x, n).value] + n <= rank[x]
    decreases n
  {
    if n > 0 {
      ClimbLowersRank(t, rank, t[x].parent.value, n - 1);
    }
  }

  lemma {:induction false} ClimbAdds(t: Table, x: nat, m: nat, n: nat)
    requires Climb(t, x, m).Some?
    ensures Climb(t, x, m + n) == Climb(t, Climb(t, x, m).value, n)
    decreases m
  {
    if m > 0 {
      ClimbAdds(t, t[x].parent.value, m - 1, n);
    }
  }

  /** In an acyclic chart no account is its own proper ancestor, and every climb runs out. */
  lemma AcyclicClimbs(t: Table, x: nat)
    requires Acyclic(t) && x < |t|
    ensures !OnCycle(t, x)
    ensures exists n: nat :: Climb(t, x, n) == None
  {
    var rank :| Ranked(t, rank);
    forall n: nat | n > 0
      ensures Climb(t, x, n) != Some(x)
    {
      if Climb(t, x, n).Some? {
        ClimbLowersRank(t, rank, x, n);
      }
    }
    if Climb(t, x, rank[x] + 1).Some? {
      ClimbLowersRank(t, rank, x, rank[x] + 1);
    }
  }

  // ----- Validating a parent -----

  predicate MayView(a: Account, claims: Claims) {
    !a.private || claims.admin || a.creator == claims.user
  }

  /** `_validate_parent`; `child` is absent on creation. */
  ghost function ParentVerdict(
      t: Table, parent: nat, child: Option<nat>, kind: string, currency: string, private: bool, claims: Claims
  ): Result<nat, AccountError>
  {
    if parent >= |t| || !t[parent].active || !MayView(t[parent], claims) then Err(ParentNotFound)
    else if child.Some? && Reaches(t, parent, child.value) then Err(ParentCycle)
    else if t[parent].kind != kind then Err(ParentTypeMismatch)
    else if t[parent].currency != currency then Err(ParentCurrencyMismatch)
    else if t[parent].private && !private then Err(ParentVisibility)
    else Ok(parent)
  }

  method ValidateParent(
      t: Table, parent: nat, child: Option<nat>, kind: string, currency: string, private: bool, claims: Claims
  ) returns (r: Result<nat, AccountError>)
    requires Acyclic(t)
    ensures r == ParentVerdict(t, parent, child, kind, currency, private, claims)
  {
    if parent >= |t| || !t[parent].active || !MayView(t[parent], claims) {
      return Err(ParentNotFound);
    }
    if child.Some? {
      ghost var rank :| Ranked(t, rank);
      ghost var n: nat := 0;
      var cursor := parent;
      while true
        invariant cursor < |t| && Climb(t, parent, n) == Some(cursor)
        invariant forall m: nat | m < n :: Climb(t, parent, m) != Some(child.value)
        decreases rank[cursor]
      {
        if cursor == child.value {
          return Err(ParentCycle);
        }
        if t[cursor].parent.None? {
          break;
        }
        ClimbAdds(t, parent, n, 1);
        cursor := t[cursor].parent.value;
        n := n + 1;
      }
      forall m: nat | m > n
        ensures Climb(t, parent, m) == None
      {
        ClimbAdds(t, parent, n, m - n);
      }
    }
    if t[parent].kind != kind {
      return Err(ParentTypeMismatch);
    }
    if t[parent].currency != currency {
      return Err(ParentCurrencyMismatch);
    }
    if t[parent].private && !private {
      return Err(ParentVisibility);
    }
    r := Ok(parent);
  }

  /** A climb that never meets `child` does not notice that `child` got another parent. */
  lemma {:induction false} ClimbIgnoresReparent(t: Table, child: nat, a: Account, x: nat, n: nat)
    requires child < |t|
    requires forall m: nat | m < n :: Climb(t, x, m) != Some(child)
    ensures Climb(t[child := a], x, n) == Climb(t, x, n)
    decreases n
  {
    if n > 0 {
      assert Climb(t, x, 0) == Some(x);
      if x < |t| && t[x].parent.Some? {
        forall m: nat | m < n - 1
          ensures Climb(t, t[x].parent.value, m) != Some(child)
        {
          assert Climb(t, x, m + 1) == Climb(t, t[x].parent.value, m);
        }
        ClimbIgnoresReparent(t, child, a, t[x].parent.value, n - 1);
      }
    }
  }

  lemma {:induction false} FirstReach(t: Table, x: nat, ancestor: nat, n: nat) returns (first: nat)
    requires Climb(t, x, n) == Some(ancestor)
    ensures first <= n && Climb(t, x, first) == Some(ancestor)
    ensures forall m: nat | m < first :: Climb(t, x, m) != Some(ancestor)
  {
    first := 0;
    while Climb(t, x, first) != Some(ancestor)
      invariant first <= n
      invariant forall m: nat | m < first :: Climb(t, x, m) != Some(ancestor)
      decreases n - first
    {
      first := first + 1;
    }
  }

  /**
    The cycle check is exact. Reparenting `child` under `parent` leaves the chart acyclic if the climb from `parent` misses
    `child`, and puts `child` on a cycle if it does not.
    */
  lemma CycleCheckExact(t: Table, child: nat, parent: nat, a: Account)
    requires Acyclic(t) && child < |t| && parent < |t| && a.parent == Some(parent)
    ensures !Reaches(t, parent, child) ==> Acyclic(t[child := a])
    ensures Reaches(t, parent, child) ==> OnCycle(t[child := a], child)
    ensures Reaches(t, parent, child) <==> !Acyclic(t[child := a])
  {
    var rank :| Ranked(t, rank);
    if Reaches(t, parent, child) {
      var n: nat :| Climb(t, parent, n) == Some(child);
      var first := FirstReach(t, parent, child, n);
      ClimbIgnoresReparent(t, child, a, parent, first);
      assert Climb(t[child := a], child, first + 1) == Climb(t[child := a], parent, first);
      if Acyclic(t[child := a]) {
        AcyclicClimbs(t[child := a], child);
        assert false;
      }
    } else {
      // Lift `child` and everything below it above `parent`.
      var lifted := seq(|t|, x requires 0 <= x < |t| => if Reaches(t, x, child) then rank[x] + rank[parent] + 1 else rank[x]);
      var t' := t[child := a];
      forall x | 0 <= x < |t'| && t'[x].parent.Some?
        ensures lifted[t'[x].parent.value] < lifted[x]
      {
        if x == child {
          assert Climb(t, child, 0) == Some(child);
        } else {
          ReachesThroughParent(t, x, child);
        }
      }
      assert Ranked(t', lifted);
    }
  }

  lemma ReachesThroughParent(t: Table, x: nat, ancestor: nat)
    requires x < |t| && t[x].parent.Some? && x != ancestor
    ensures Reaches(t, x, ancestor) <==> Reaches(t, t[x].parent.value, ancestor)
  {
    var p := t[x].parent.value;
    if Reaches(t, x, ancestor) {
      var n: nat :| Climb(t, x, n) == Some(ancestor);
      assert Climb(t, p, n - 1) == Some(ancestor);
    }
    if Reaches(t, p, ancestor) {
      var n: nat :| Climb(t, p, n) == Some(ancestor);
      assert Climb(t, x, n + 1) == Some(ancestor);
    }
  }

  lemma AppendKeepsAcyclic(t: Table, a: Account)
    requires Acyclic(t) && (a.parent.Some? ==> a.parent.value < |t|)
    ensures Acyclic(t + [a])
  {
    var rank :| Ranked(t, rank);
    assert Ranked(t + [a], rank + [if a.parent.Some? then rank[a.parent.value] + 1 else 0]);
  }

  // ----- Parsing the colon-path -----

  const PATH_ROOT_TYPES: map<string, string> := map[
    "asset" := "asset", "assets" := "asset",
    "liability" := "liability", "liabilities" := "liability",
    "equity" := "equity", "equities" := "equity",
    "income" := "income", "incomes" := "income",
    "expense" := "expense", "expenses" := "expense"
  ]

  /** Five types, each under its singular and its plural, are roots. */
  lemma RootTypes(root: string, kind: string)
    ensures root in PATH_ROOT_TYPES && PATH_ROOT_TYPES[root] == kind <==>
            || (kind == "asset" && (root == "asset" || root == "assets"))
            || (kind == "liability" && (root == "liability" || root == "liabilities"))
            || (kind == "equity" && (root == "equity" || root == "equities"))
            || (kind == "income" && (root == "income" || root == "incomes"))
            || (kind == "expense" && (root == "expense" || root == "expenses"))
  {
  }

  function ParseAccountPath(path: Option<string>, kind: string): Result<seq<string>, AccountError> {
    if path.None? || path.value == "" then Err(PathMissing)
    else if ':' !in path.value then Err(PathSingleSegment)
    else
      var raw := SplitOn(path.value, ':');
      if exists i | 0 <= i < |raw| :: Strip(raw[i]) == "" then Err(PathEmptySegment)
      else
        var segments := StripAll(raw);
        var root := Lower(segments[0]);
        if root !in PATH_ROOT_TYPES then Err(PathUnknownRoot)
        else if PATH_ROOT_TYPES[root] != kind then Err(PathTypeMismatch)
        else Ok(segments)
  }

  /** What an accepted path looks like once split: the lists the walkers are ever given. */
  predicate WalkableFor(segments: seq<string>, kind: string) {
    && |segments| >= 2
    && (forall i | 0 <= i < |segments| :: segments[i] != "" && Trimmed(segments[i]) && ':' !in segments[i])
    && Lower(segments[0]) in PATH_ROOT_TYPES && PATH_ROOT_TYPES[Lower(segments[0])] == kind
  }

  lemma {:induction false} SplitOnShape(s: string, c: char)
    ensures forall i | 0 <= i < |SplitOn(s, c)| :: c !in SplitOn(s, c)[i]
    ensures c in s <==> |SplitOn(s, c)| >= 2
  {
    if s != [] {
      SplitOnShape(s[1..], c);
      assert s == [s[0]] + s[1..];
    }
  }

  lemma {:induction false} SplitOnSegment(segment: string, rest: string, c: char)
    requires c !in segment && (rest == "" || rest[0] == c)
    ensures SplitOn(segment + rest, c) == if rest == "" then [segment] else [segment] + SplitOn(rest[1..], c)
  {
    if segment == "" {
      assert segment + rest == rest;
    } else {
      assert (segment + rest)[1..] == segment[1..] + rest;
      assert segment == [segment[0]] + segment[1..];
      SplitOnSegment(segment[1..], rest, c);
    }
  }

  lemma {:induction false} SplitOnJoin(segments: seq<string>)
    requires |segments| > 0 && forall i | 0 <= i < |segments| :: ':' !in segments[i]
    ensures SplitOn(Join(":", segments), ':') == segments
  {
    if |segments| == 1 {
      SplitOnSegment(segments[0], "", ':');
      assert segments[0] + "" == segments[0];
    } else {
      var rest := ":" + Join(":", segments[1..]);
      assert Join(":", segments) == segments[0] + rest;
      SplitOnSegment(segments[0], rest, ':');
      assert rest[1..] == Join(":", segments[1..]);
      SplitOnJoin(segments[1..]);
    }
  }

  /** Parsing accepts only walkable lists, and reads back every walkable list from its plain colon-join. */
  lemma ParseExact(path: Option<string>, kind: string, segments: seq<string>)
    ensures ParseAccountPath(path, kind).Ok? ==> WalkableFor(ParseAccountPath(path, kind).value, kind)
    ensures ParseAccountPath(Some(Join(":", segments)), kind) == Ok(segments) <==> WalkableFor(segments, kind)
  {
    if ParseAccountPath(path, kind).Ok? {
      ParsedIsWalkable(path.value, kind);
    }
    var joined := Join(":", segments);
    if ParseAccountPath(Some(joined), kind) == Ok(segments) {
      ParsedIsWalkable(joined, kind);
    }
    if WalkableFor(segments, kind) {
      SplitOnJoin(segments);
      SplitOnShape(joined, ':');
      forall i | 0 <= i < |segments| {
        StripFixedPoints(segments[i]);
      }
      assert StripAll(segments) == segments;
      assert joined != "";
    }
  }

  lemma ParsedIsWalkable(path: string, kind: string)
    requires ParseAccountPath(Some(path), kind).Ok?
    ensures WalkableFor(ParseAccountPath(Some(path), kind).value, kind)
  {
    SplitOnShape(path, ':');
    var raw := SplitOn(path, ':');
    forall i | 0 <= i < |raw|
      ensures Trimmed(Strip(raw[i])) && ':' !in Strip(raw[i])
    {
      StripFixedPoints(raw[i]);
      StripKeepsOut(raw[i], ':');
    }
  }

  lemma StripKeepsOut(s: string, c: char)
    requires c !in s
    ensures c !in Strip(s)
  {
    StripLeftKeepsOut(s, c);
    StripRightShape(StripLeft(s));
  }

  lemma {:induction false} StripLeftKeepsOut(s: string, c: char)
    requires c !in s
    ensures c !in StripLeft(s)
  {
    if s != [] && IsSpace(s[0]) {
      StripLeftKeepsOut(s[1..], c);
    }
  }
}
