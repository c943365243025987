/** The account handlers of `routers/accounts.py` as one mutable service, and what every run of them keeps. */
module AccountService {
  import opened Results
  import Strings
  import opened Accounts
  import opened AccountCreation
  import opened CodeWalker
  import Paths = AccountPaths

  // ----- What each handler commits -----

  /** `_create_with_parents`: the hierarchy is in the name or in the code, never in both. */
  function CreateWithParentsSpec(t: Table, body: CreateBody, claims: Claims): Result<Walk, AccountError> {
    var nameIsPath := ':' in body.name;
    var codeIsPath := body.code.Some? && ':' in body.code.value;
    if nameIsPath && codeIsPath then Err(PathAmbiguous)
    else if !nameIsPath && !codeIsPath then Err(PathAbsent)
    else
      match ParseAccountPath(if nameIsPath then Some(body.name) else body.code, body.kind)
      case Err(e) => Err(e)
      case Ok(segments) =>
        if nameIsPath then Ok(NameWalk(t, body, claims, segments, 0, None, []))
        else CodeWalk(t, body, claims, segments, 0, None, [])
  }

  function NewDirect(body: CreateBody, claims: Claims): Account {
    Account(body.code, body.name, body.kind, body.currency, body.private, true, body.parent, claims.user)
  }

  ghost function CreateSpec(t: Table, body: CreateBody, claims: Claims): Result<Walk, AccountError> {
    if body.createParents then CreateWithParentsSpec(t, body, claims)
    else if body.parent.Some?
         && ParentVerdict(t, body.parent.value, None, body.kind, body.currency, body.private, claims).Err? then
      Err(ParentVerdict(t, body.parent.value, None, body.kind, body.currency, body.private, claims).error)
    else Ok(Walk(t + [NewDirect(body, claims)], Some(|t|), []))
  }

  function Updated(a: Account, body: UpdateBody): Account {
    a.(name := if body.name.Some? then body.name.value else a.name,
       code := if body.code.Some? then body.code else a.code,
       private := if body.private.Some? then body.private.value else a.private,
       parent := if body.parent.Some? then body.parent else a.parent)
  }

  ghost function UpdateSpec(t: Table, id: nat, body: UpdateBody, claims: Claims): Result<Table, AccountError> {
    if id >= |t| || !MayView(t[id], claims) then Err(NotFound)
    else if !claims.admin && t[id].private && t[id].creator != claims.user then Err(Forbidden)
    else
      var private := if body.private.Some? then body.private.value else t[id].private;
      if body.parent.Some?
         && ParentVerdict(t, body.parent.value, Some(id), t[id].kind, t[id].currency, private, claims).Err? then
        Err(ParentVerdict(t, body.parent.value, Some(id), t[id].kind, t[id].currency, private, claims).error)
      else Ok(t[id := Updated(t[id], body)])
  }

  function DeactivateSpec(t: Table, id: nat): Result<Table, AccountError> {
    if id >= |t| then Err(NotFound) else Ok(t[id := t[id].(active := false)])
  }

  // ----- The handlers -----

  class Service {
    var accounts: Table

    ghost predicate Valid()
      reads this
    {
      Acyclic(accounts)
    }

    constructor ()
      ensures Valid() && accounts == []
    {
      accounts := [];
      new;
      assert Ranked([], []);
    }

    method CreateAccount(body: CreateBody, claims: Claims) returns (r: Result<(nat, seq<nat>), AccountError>)
      requires Valid()
      modifies this
      ensures Valid()
      ensures match CreateSpec(old(accounts), body, claims)
              case Err(e) => r == Err(e) && accounts == old(accounts)
              case Ok(w) => w.leaf.Some? && r == Ok((w.leaf.value, w.created)) && accounts == w.table
    {
      CreateKeepsAcyclic(accounts, body, claims);
      if body.createParents {
        r := CreateWithParents(body, claims);
        return;
      }
      if body.parent.Some? {
        var verdict := ValidateParent(accounts, body.parent.value, None, body.kind, body.currency, body.private, claims);
        if verdict.Err? {
          return Err(verdict.error);
        }
      }
      var id := |accounts|;
      accounts := accounts + [NewDirect(body, claims)];
      r := Ok((id, []));
    }

    method CreateWithParents(body: CreateBody, claims: Claims) returns (r: Result<(nat, seq<nat>), AccountError>)
      modifies this
      ensures match CreateWithParentsSpec(old(accounts), body, claims)
              case Err(e) => r == Err(e) && accounts == old(accounts)
              case Ok(w) => w.leaf.Some? && r == Ok((w.leaf.value, w.created)) && accounts == w.table
    {
      var nameIsPath := ':' in body.name;
      var codeIsPath := body.code.Some? && ':' in body.code.value;
      if nameIsPath && codeIsPath {
        return Err(PathAmbiguous);
      }
      if !nameIsPath && !codeIsPath {
        return Err(PathAbsent);
      }
      var parsed := ParseAccountPath(if nameIsPath then Some(body.name) else body.code, body.kind);
      if parsed.Err? {
        return Err(parsed.error);
      }
      ParseExact(if nameIsPath then Some(body.name) else body.code, body.kind, []);
      if nameIsPath {
        var rows, leaf, parentsCreated := WalkNamePath(accounts, body, claims, parsed.value);
        accounts := rows;
        r := Ok((leaf, parentsCreated));
      } else {
        var w := WalkCodePath(accounts, body, claims, parsed.value);
        if w.Err? {
          return Err(w.error);
        }
        CodeCreateIdempotent(accounts, body, claims, parsed.value);
        accounts := w.value.table;
        r := Ok((w.value.leaf.value, w.value.created));
      }
    }

    method UpdateAccount(id: nat, body: UpdateBody, claims: Claims) returns (r: Result<nat, AccountError>)
      requires Valid()
      modifies this
      ensures Valid()
      ensures match UpdateSpec(old(accounts), id, body, claims)
              case Err(e) => r == Err(e) && accounts == old(accounts)
              case Ok(t) => r == Ok(id) && accounts == t
    {
      UpdateKeepsAcyclic(accounts, id, body, claims);
      if id >= |accounts| || !MayView(accounts[id], claims) {
        return Err(NotFound);
      }
      var a := accounts[id];
      if !claims.admin && a.private && a.creator != claims.user {
        return Err(Forbidden);
      }
      if body.parent.Some? {
        var private := if body.private.Some? then body.private.value else a.private;
        var verdict := ValidateParent(accounts, body.parent.value, Some(id), a.kind, a.currency, private, claims);
        if verdict.Err? {
          return Err(verdict.error);
        }
      }
      if body.name.Some? {
        a := a.(name := body.name.value);
      }
      if body.code.Some? {
        a := a.(code := body.code);
      }
      if body.private.Some? {
        a := a.(private := body.private.value);
      }
      if body.parent.Some? {
        a := a.(parent := body.parent);
      }
      accounts := accounts[id := a];
      r := Ok(id);
    }
  }

  // ----- Acyclicity, one handler at a time -----

  lemma {:induction false} NameWalkAcyclic(
      t: Table, body: CreateBody, claims: Claims, segments: seq<string>, i: nat, parent: Option<nat>, created: seq<nat>)
    requires i <= |segments| && Acyclic(t) && (parent.Some? ==> parent.value < |t|)
    ensures Acyclic(NameWalk(t, body, claims, segments, i, parent, created).table)
    decreases |segments| - i
  {
    if i < |segments| {
      match GetByParentAndName(t, parent, segments[i])
      case Some(existing) => NameWalkAcyclic(t, body, claims, segments, i + 1, Some(existing), created);
      case None =>
        var a := NewByName(body, claims, segments, i, parent);
        AppendKeepsAcyclic(t, a);
        NameWalkAcyclic(t + [a], body, claims, segments, i + 1, Some(|t|),
                        if i == |segments| - 1 then created else created + [|t|]);
    }
  }

  lemma {:induction false} CodeWalkAcyclic(
      t: Table, body: CreateBody, claims: Claims, segments: seq<string>, i: nat, parent: Option<nat>, created: seq<nat>)
    requires i <= |segments| && Acyclic(t) && (parent.Some? ==> parent.value < |t|)
    requires CodeWalk(t, body, claims, segments, i, parent, created).Ok?
    ensures Acyclic(CodeWalk(t, body, claims, segments, i, parent, created).value.table)
    decreases |segments| - i
  {
    if i < |segments| {
      var m := CodeMatches(t, Prefix(segments, i));
      if |m| == 1 {
        CodeMatchesCarry(t, Prefix(segments, i));
        assert m[0] in m;
        CodeWalkAcyclic(t, body, claims, segments, i + 1, Some(m[0]), created);
      } else {
        var a := NewByCode(body, claims, segments, i, parent);
        AppendKeepsAcyclic(t, a);
        CodeWalkAcyclic(t + [a], body, claims, segments, i + 1, Some(|t|),
                        if i == |segments| - 1 then created else created + [|t|]);
      }
    }
  }

  lemma CreateKeepsAcyclic(t: Table, body: CreateBody, claims: Claims)
    requires Acyclic(t)
    ensures CreateSpec(t, body, claims).Ok? ==> Acyclic(CreateSpec(t, body, claims).value.table)
  {
    if CreateSpec(t, body, claims).Ok? {
      if body.createParents {
        var nameIsPath := ':' in body.name;
        var segments := ParseAccountPath(if nameIsPath then Some(body.name) else body.code, body.kind).value;
        if nameIsPath {
          NameWalkAcyclic(t, body, claims, segments, 0, None, []);
        } else {
          CodeWalkAcyclic(t, body, claims, segments, 0, None, []);
        }
      } else {
        AppendKeepsAcyclic(t, NewDirect(body, claims));
      }
    }
  }

  lemma SameParentsAcyclic(t: Table, id: nat, a: Account)
    requires Acyclic(t) && id < |t| && a.parent == t[id].parent
    ensures Acyclic(t[id := a])
  {
    var rank :| Ranked(t, rank);
    assert Ranked(t[id := a], rank);
  }

  /** The "forbidden" answer never comes: an account the caller may not see is reported as missing first. */
  lemma UpdateNeverForbids(t: Table, id: nat, body: UpdateBody, claims: Claims)
    ensures UpdateSpec(t, id, body, claims) != Err(Forbidden)
    ensures id < |t| && !claims.admin && t[id].private && t[id].creator != claims.user ==>
              UpdateSpec(t, id, body, claims) == Err(NotFound)
  {
  }

  /** A PATCH commits an acyclic chart, and it is refused as a cycle exactly when committing it would have closed one. */
  lemma UpdateKeepsAcyclic(t: Table, id: nat, body: UpdateBody, claims: Claims)
    requires Acyclic(t)
    ensures UpdateSpec(t, id, body, claims).Ok? ==> Acyclic(UpdateSpec(t, id, body, claims).value)
    ensures UpdateSpec(t, id, body, claims) == Err(ParentCycle) <==>
            && id < |t| && MayView(t[id], claims)
            && body.parent.Some? && body.parent.value < |t|
            && t[body.parent.value].active && MayView(t[body.parent.value], claims)
            && !Acyclic(t[id := Updated(t[id], body)])
  {
    if id < |t| {
      if body.parent.Some? && body.parent.value < |t| {
        CycleCheckExact(t, id, body.parent.value, Updated(t[id], body));
      } else if body.parent.None? {
        SameParentsAcyclic(t, id, Updated(t[id], body));
      }
    }
  }

  // ----- Whole runs -----

  datatype Op =
    | Create(body: CreateBody)
    | Update(id: nat, patch: UpdateBody)
    | Deactivate(target: nat)

  /** The table after one request; a refused request leaves it alone. */
  ghost function Apply(t: Table, op: Op, claims: Claims): Table {
    match op
    case Create(body) => (match CreateSpec(t, body, claims) case Ok(w) => w.table case Err(_) => t)
    case Update(id, patch) => (match UpdateSpec(t, id, patch, claims) case Ok(t') => t' case Err(_) => t)
    case Deactivate(id) => (match DeactivateSpec(t, id) case Ok(t') => t' case Err(_) => t)
  }

  ghost function Run(t: Table, ops: seq<(Op, Claims)>): Table
    decreases |ops|
  {
    if ops == [] then t else Run(Apply(t, ops[0].0, ops[0].1), ops[1..])
  }

  /** Every run keeps the parent graph acyclic, so no account is ever its own ancestor and every ancestor walk ends. */
  lemma {:induction false} RunsStayAcyclic(t: Table, ops: seq<(Op, Claims)>)
    requires Acyclic(t)
    ensures Acyclic(Run(t, ops))
    ensures forall x | 0 <= x < |Run(t, ops)| :: !OnCycle(Run(t, ops), x)
    decreases |ops|
  {
    if ops == [] {
      forall x | 0 <= x < |t|
        ensures !OnCycle(t, x)
      {
        AcyclicClimbs(t, x);
      }
    } else {
      var op, claims := ops[0].0, ops[0].1;
      match op {
        case Create(body) => CreateKeepsAcyclic(t, body, claims);
        case Update(id, patch) => UpdateKeepsAcyclic(t, id, patch, claims);
        case Deactivate(id) =>
          if id < |t| {
            SameParentsAcyclic(t, id, t[id].(active := false));
          }
      }
      RunsStayAcyclic(Apply(t, op, claims), ops[1..]);
    }
  }

  /** Each account agrees with its parent on type and currency. */
  predicate Uniform(t: Table) {
    && ParentsExist(t)
    && forall x | 0 <= x < |t| && t[x].parent.Some? ::
         t[x].kind == t[t[x].parent.value].kind && t[x].currency == t[t[x].parent.value].currency
  }

  lemma StepStaysUniform(t: Table, op: Op, claims: Claims)
    requires Uniform(t) && (op.Create? ==> !op.body.createParents)
    ensures Uniform(Apply(t, op, claims))
  {
  }

  lemma {:induction false} RunsStayUniform(t: Table, ops: seq<(Op, Claims)>)
    requires Uniform(t)
    requires forall i | 0 <= i < |ops| :: ops[i].0.Create? ==> !ops[i].0.body.createParents
    ensures Uniform(Run(t, ops))
    decreases |ops|
  {
    if ops != [] {
      StepStaysUniform(t, ops[0].0, ops[0].1);
      RunsStayUniform(Apply(t, ops[0].0, ops[0].1), ops[1..]);
    }
  }

  /** In runs without `create_parents`, every account has the type and currency of its root and of all its ancestors. */
  lemma RunsShareRootKind(ops: seq<(Op, Claims)>, x: nat, n: nat)
    requires forall i | 0 <= i < |ops| :: ops[i].0.Create? ==> !ops[i].0.body.createParents
    ensures var t := Run([], ops);
            x < |t| && Climb(t, x, n).Some? ==>
              var r := Climb(t, x, n).value; r < |t| && t[r].kind == t[x].kind && t[r].currency == t[x].currency
  {
    RunsStayUniform([], ops);
    var t := Run([], ops);
    if x < |t| && Climb(t, x, n).Some? {
      UniformClimb(t, x, n);
    }
  }

  lemma {:induction false} UniformClimb(t: Table, x: nat, n: nat)
    requires Uniform(t) && x < |t| && Climb(t, x, n).Some?
    ensures var r := Climb(t, x, n).value; r < |t| && t[r].kind == t[x].kind && t[r].currency == t[x].currency
    decreases n
  {
    if n > 0 {
      UniformClimb(t, t[x].parent.value, n - 1);
    }
  }

  lemma {:induction false} AcyclicFullLine(t: Table, rank: seq<nat>, x: nat) returns (line: seq<nat>)
    requires Ranked(t, rank) && x < |t|
    ensures Paths.FullLine(ChartOf(t), x, line) && !Paths.Dangling(ChartOf(t), line)
    ensures forall k | 0 <= k < |line| :: Climb(t, x, k) == Some(line[k])
    ensures Climb(t, x, |line|) == None
    decreases rank[x]
  {
    if t[x].parent.None? {
      line := [x];
      assert Climb(t, x, 1) == None;
    } else {
      var p := t[x].parent.value;
      var rest := AcyclicFullLine(t, rank, p);
      line := [x] + rest;
      assert line[1..] == rest;
      assert line[|line| - 1] == rest[|rest| - 1];
    }
  }

  /** On an acyclic chart the printed path of each account lists exactly its ancestors, with no "?" marker. */
  lemma AcyclicPathsListAncestors(t: Table, x: nat, raw: string) returns (line: seq<nat>)
    requires Acyclic(t) && x < |t|
    ensures ListsAncestors(t, x, line)
    ensures Paths.PathSpec(ChartOf(t), x, raw)
         == Strings.Join(":", [Paths.TypeLabel(t[x].kind)] + Paths.EscapeAll(Paths.NamesOf(ChartOf(t), line)))
  {
    var rank :| Ranked(t, rank);
    var up := AcyclicFullLine(t, rank, x);
    Paths.PathListsAncestors(ChartOf(t), x, up, raw);
    Paths.ReverseAt(up);
    line := Paths.Reverse(up);
    var head := [Paths.TypeLabel(t[x].kind)];
    assert head + [] == head;
  }

  /** The accounts on the way up from `x`, root first. */
  predicate ListsAncestors(t: Table, x: nat, line: seq<nat>) {
    && (forall k | 0 <= k < |line| :: line[k] < |t| && Climb(t, x, |line| - 1 - k) == Some(line[k]))
    && Climb(t, x, |line|) == None
  }

  /** So it is on every chart that a run can reach. */
  lemma PrintedPathsListAncestors(ops: seq<(Op, Claims)>, x: nat, raw: string) returns (line: seq<nat>)
    requires x < |Run([], ops)|
    ensures var t := Run([], ops);
            && ListsAncestors(t, x, line)
            && Paths.PathSpec(ChartOf(t), x, raw)
               == Strings.Join(":", [Paths.TypeLabel(t[x].kind)] + Paths.EscapeAll(Paths.NamesOf(ChartOf(t), line)))
  {
    assert Acyclic([]) by {
      assert Ranked([], []);
    }
    RunsStayAcyclic([], ops);
    line := AcyclicPathsListAncestors(Run([], ops), x, raw);
  }
}
