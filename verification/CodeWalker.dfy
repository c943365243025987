/** The `--create-parents --code` walker of `routers/accounts.py`: every prefix of the colon-code names an account. */
module CodeWalker {
  import opened Results
  import opened Strings
  import opened Accounts
  import opened AccountCreation

  function Prefix(segments: seq<string>, i: nat): string
    requires i < |segments|
  {
    Join(":", segments[..i + 1])
  }

  function NewByCode(body: CreateBody, claims: Claims, segments: seq<string>, i: nat, parent: Option<nat>): Account
    requires i < |segments|
  {
    Account(Some(Prefix(segments, i)), if i == |segments| - 1 then body.name else segments[i], body.kind, body.currency,
            body.private, true, parent, claims.user)
  }

  /**
    One level: the account it ends on, in a table that may have a new row for it. `get_by_code` raises when two accounts carry
    the code: nothing in the schema keeps codes apart.
    */
  function CodeLevel(
      t: Table, body: CreateBody, claims: Claims, segments: seq<string>, i: nat, parent: Option<nat>, created: seq<nat>
  ): Result<Walk, AccountError>
    requires i < |segments|
  {
    var m := CodeMatches(t, Prefix(segments, i));
    if |m| > 1 then Err(DuplicateCode)
    else if |m| == 1 then Ok(Walk(t, Some(m[0]), created))
    else Ok(Walk(t + [NewByCode(body, claims, segments, i, parent)], Some(|t|), Created(segments, i, created, |t|)))
  }

  function CodeWalk(
      t: Table, body: CreateBody, claims: Claims, segments: seq<string>, i: nat, parent: Option<nat>, created: seq<nat>
  ): Result<Walk, AccountError>
    requires i <= |segments|
    decreases |segments| - i
  {
    if i == |segments| then Ok(Walk(t, parent, created))
    else
      match CodeLevel(t, body, claims, segments, i, parent, created)
      case Err(e) => Err(e)
      case Ok(w) => CodeWalk(w.table, body, claims, segments, i + 1, w.leaf, w.created)
  }

  method WalkCodePath(t: Table, body: CreateBody, claims: Claims, segments: seq<string>)
    returns (r: Result<Walk, AccountError>)
    ensures r == CodeWalk(t, body, claims, segments, 0, None, [])
  {
    var rows := t;
    var parentsCreated: seq<nat> := [];
    var parent: Option<nat> := None;
    for i := 0 to |segments|
      invariant CodeWalk(rows, body, claims, segments, i, parent, parentsCreated) == CodeWalk(t, body, claims, segments, 0, None, [])
    {
      var existing := CodeMatches(rows, Prefix(segments, i));
      var isLeaf := i == |segments| - 1;
      if |existing| > 1 {
        return Err(DuplicateCode);
      }
      if |existing| == 1 {
        parent := Some(existing[0]);
        continue;
      }
      var id := |rows|;
      rows := rows + [NewByCode(body, claims, segments, i, parent)];
      parent := Some(id);
      if !isLeaf {
        parentsCreated := parentsCreated + [id];
      }
    }
    r := Ok(Walk(rows, parent, parentsCreated));
  }

  // ----- Distinct prefixes have distinct codes -----

  lemma {:induction false} JoinGrows(parts: seq<string>, i: nat)
    requires 0 < i < |parts|
    ensures |Join(":", parts[..i])| < |Join(":", parts[..i + 1])|
  {
    if i == 1 {
      assert parts[..2][1..] == [parts[1]] && parts[..1] == [parts[0]];
    } else {
      assert parts[..i][1..] == parts[1..][..i - 1] && parts[..i + 1][1..] == parts[1..][..i];
      JoinGrows(parts[1..], i - 1);
    }
  }

  lemma {:induction false} PrefixesDiffer(segments: seq<string>, i: nat, j: nat)
    requires i < j < |segments|
    ensures |Prefix(segments, i)| < |Prefix(segments, j)|
  {
    JoinGrows(segments, j);
    if i < j - 1 {
      PrefixesDiffer(segments, i, j - 1);
    }
  }

  // ----- What the walk leaves behind -----

  /** The prefixes from level `i` on that no account of `t` carries, shortest first. */
  function Missing(t: Table, segments: seq<string>, i: nat): seq<nat>
    requires i <= |segments|
    decreases |segments| - i
  {
    if i == |segments| then []
    else (if CodeMatches(t, Prefix(segments, i)) == [] then [i] else []) + Missing(t, segments, i + 1)
  }

  /** The added rows carry exactly the missing prefixes, in order, with the rest from the body. */
  predicate AddsMissing(t: Table, t': Table, body: CreateBody, claims: Claims, segments: seq<string>, levels: seq<nat>) {
    && t <= t' && |t'| == |t| + |levels|
    && forall k | 0 <= k < |levels| ::
         && levels[k] < |segments|
         && t'[|t| + k].code == Some(Prefix(segments, levels[k]))
         && FromBody(t'[|t| + k], body, claims)
  }

  lemma OtherCodeUnaffected(t: Table, a: Account, code: string)
    requires a.code != Some(code)
    ensures CodeMatches(t + [a], code) == CodeMatches(t, code)
  {
    assert (t + [a])[..|t|] == t;
  }

  lemma {:induction false} MissingUnaffected(t: Table, a: Account, segments: seq<string>, i: nat, j: nat)
    requires j < i <= |segments| && a.code == Some(Prefix(segments, j))
    ensures Missing(t + [a], segments, i) == Missing(t, segments, i)
    decreases |segments| - i
  {
    if i < |segments| {
      PrefixesDiffer(segments, j, i);
      OtherCodeUnaffected(t, a, Prefix(segments, i));
      MissingUnaffected(t, a, segments, i + 1, j);
    }
  }

  /** Accepted walks add exactly the missing prefixes. */
  lemma {:induction false} CodeWalkAdds(
      t: Table, body: CreateBody, claims: Claims, segments: seq<string>, i: nat, parent: Option<nat>, created: seq<nat>)
    requires i <= |segments| && CodeWalk(t, body, claims, segments, i, parent, created).Ok?
    ensures AddsMissing(t, CodeWalk(t, body, claims, segments, i, parent, created).value.table, body, claims, segments,
                        Missing(t, segments, i))
    decreases |segments| - i
  {
    if i == |segments| {
      return;
    }
    var m := CodeMatches(t, Prefix(segments, i));
    if |m| == 1 {
      CodeWalkAdds(t, body, claims, segments, i + 1, Some(m[0]), created);
      assert Missing(t, segments, i) == Missing(t, segments, i + 1);
    } else {
      var a := NewByCode(body, claims, segments, i, parent);
      var created1 := if i == |segments| - 1 then created else created + [|t|];
      MissingUnaffected(t, a, segments, i + 1, i);
      CodeWalkAdds(t + [a], body, claims, segments, i + 1, Some(|t|), created1);
      var w := CodeWalk(t + [a], body, claims, segments, i + 1, Some(|t|), created1).value;
      AddsMissingCreate(t, a, w.table, body, claims, segments, i, Missing(t, segments, i + 1));
    }
  }

  /** A walk fails exactly when some prefix is carried by two accounts. */
  lemma {:induction false} CodeWalkFails(
      t: Table, body: CreateBody, claims: Claims, segments: seq<string>, i: nat, parent: Option<nat>, created: seq<nat>)
    requires i <= |segments|
    ensures CodeWalk(t, body, claims, segments, i, parent, created).Err?
            <==> exists j :: i <= j < |segments| && |CodeMatches(t, Prefix(segments, j))| > 1
    decreases |segments| - i
  {
    if i < |segments| {
      var m := CodeMatches(t, Prefix(segments, i));
      if |m| == 1 {
        CodeWalkFails(t, body, claims, segments, i + 1, Some(m[0]), created);
      } else if m == [] {
        var a := NewByCode(body, claims, segments, i, parent);
        CodeWalkCreate(t, a, segments, i);
        CodeWalkFails(t + [a], body, claims, segments, i + 1, Some(|t|),
                      if i == |segments| - 1 then created else created + [|t|]);
      }
    }
  }

  lemma CodeWalkCreate(t: Table, a: Account, segments: seq<string>, i: nat)
    requires i < |segments| && a.code == Some(Prefix(segments, i)) && CodeMatches(t, Prefix(segments, i)) == []
    ensures CodeMatches(t + [a], Prefix(segments, i)) == [|t|]
    ensures forall j | i < j < |segments| :: CodeMatches(t + [a], Prefix(segments, j)) == CodeMatches(t, Prefix(segments, j))
  {
    assert (t + [a])[..|t|] == t;
    forall j | i < j < |segments|
      ensures CodeMatches(t + [a], Prefix(segments, j)) == CodeMatches(t, Prefix(segments, j))
    {
      PrefixesDiffer(segments, i, j);
      CodeMatchesExtend(t, t + [a], Prefix(segments, j));
    }
  }

  lemma AddsMissingCreate(
      t: Table, a: Account, t': Table, body: CreateBody, claims: Claims, segments: seq<string>, i: nat, levels: seq<nat>)
    requires i < |segments| && a.code == Some(Prefix(segments, i)) && FromBody(a, body, claims)
    requires AddsMissing(t + [a], t', body, claims, segments, levels)
    ensures AddsMissing(t, t', body, claims, segments, [i] + levels)
  {
    assert t <= t + [a];
    assert t'[|t|] == (t + [a])[|t|];
    forall k | 0 <= k < |[i] + levels|
      ensures ([i] + levels)[k] < |segments|
      ensures t'[|t| + k].code == Some(Prefix(segments, ([i] + levels)[k])) && FromBody(t'[|t| + k], body, claims)
    {
      if k > 0 {
        assert t'[|t + [a]| + (k - 1)].code == Some(Prefix(segments, levels[k - 1]));
      }
    }
  }

  // ----- Calling it again -----

  /** Later levels leave the match of level `i` alone: their codes are longer. */
  lemma LaterLevelsKeepMatch(t: Table, body: CreateBody, claims: Claims, segments: seq<string>, i: nat,
                             parent: Option<nat>, created: seq<nat>)
    requires i < |segments| && CodeWalk(t, body, claims, segments, i + 1, parent, created).Ok?
    ensures var w := CodeWalk(t, body, claims, segments, i + 1, parent, created).value;
            CodeMatches(w.table, Prefix(segments, i)) == CodeMatches(t, Prefix(segments, i))
  {
    var w := CodeWalk(t, body, claims, segments, i + 1, parent, created).value;
    CodeWalkAdds(t, body, claims, segments, i + 1, parent, created);
    var levels := Missing(t, segments, i + 1);
    forall x | |t| <= x < |w.table|
      ensures w.table[x].code != Some(Prefix(segments, i))
    {
      MissingAbove(t, segments, i + 1, x - |t|);
      PrefixesDiffer(segments, i, levels[x - |t|]);
      assert w.table[|t| + (x - |t|)].code == Some(Prefix(segments, levels[x - |t|]));
    }
    CodeMatchesExtend(t, w.table, Prefix(segments, i));
  }

  lemma {:induction false} CodeWalkSettled(
      t: Table, body: CreateBody, claims: Claims, segments: seq<string>, i: nat, parent: Option<nat>, created: seq<nat>,
      again: seq<nat>)
    requires i <= |segments|
    requires CodeWalk(t, body, claims, segments, i, parent, created).Ok?
    ensures var w := CodeWalk(t, body, claims, segments, i, parent, created).value;
            && CodeWalk(w.table, body, claims, segments, i, parent, again) == Ok(Walk(w.table, w.leaf, again))
            && (i < |segments| ==> w.leaf.Some? && CodeMatches(w.table, Prefix(segments, |segments| - 1)) == [w.leaf.value])
    decreases |segments| - i
  {
    if i == |segments| {
      return;
    }
    var l := CodeLevel(t, body, claims, segments, i, parent, created).value;
    var w := CodeWalk(l.table, body, claims, segments, i + 1, l.leaf, l.created).value;
    LevelMatches(t, body, claims, segments, i, parent, created);
    LaterLevelsKeepMatch(l.table, body, claims, segments, i, l.leaf, l.created);
    CodeWalkSettled(l.table, body, claims, segments, i + 1, l.leaf, l.created, again);
    LevelAgain(w.table, body, claims, segments, i, parent, again, l.leaf.value);
  }

  lemma LevelMatches(
      t: Table, body: CreateBody, claims: Claims, segments: seq<string>, i: nat, parent: Option<nat>, created: seq<nat>)
    requires i < |segments| && CodeLevel(t, body, claims, segments, i, parent, created).Ok?
    ensures var l := CodeLevel(t, body, claims, segments, i, parent, created).value;
            l.leaf.Some? && CodeMatches(l.table, Prefix(segments, i)) == [l.leaf.value]
  {
    var m := CodeMatches(t, Prefix(segments, i));
    if m == [] {
      FreshMatch(t, NewByCode(body, claims, segments, i, parent), Prefix(segments, i));
    } else {
      assert m == [m[0]];
    }
  }

  lemma FreshMatch(t: Table, a: Account, code: string)
    requires a.code == Some(code) && CodeMatches(t, code) == []
    ensures CodeMatches(t + [a], code) == [|t|]
  {
    assert (t + [a])[..|t|] == t;
  }

  lemma LevelAgain(
      t: Table, body: CreateBody, claims: Claims, segments: seq<string>, i: nat, parent: Option<nat>, created: seq<nat>, x: nat)
    requires i < |segments| && CodeMatches(t, Prefix(segments, i)) == [x]
    ensures CodeLevel(t, body, claims, segments, i, parent, created) == Ok(Walk(t, Some(x), created))
  {
  }

  lemma {:induction false} MissingAbove(t: Table, segments: seq<string>, i: nat, k: nat)
    requires i <= |segments| && k < |Missing(t, segments, i)|
    ensures i <= Missing(t, segments, i)[k] < |segments|
    decreases |segments| - i
  {
    var here: nat := if CodeMatches(t, Prefix(segments, i)) == [] then 1 else 0;
    if k >= here {
      MissingAbove(t, segments, i + 1, k - here);
    }
  }

  /**
    A code-path create that succeeded can be repeated at any time before the next change: it returns the same leaf, the one
    account carrying the full code, and creates nothing.
    */
  lemma CodeCreateIdempotent(t: Table, body: CreateBody, claims: Claims, segments: seq<string>)
    requires |segments| > 0
    requires CodeWalk(t, body, claims, segments, 0, None, []).Ok?
    ensures var w := CodeWalk(t, body, claims, segments, 0, None, []).value;
            && w.leaf.Some? && CodeMatches(w.table, Join(":", segments)) == [w.leaf.value]
            && CodeWalk(w.table, body, claims, segments, 0, None, []) == Ok(Walk(w.table, w.leaf, []))
  {
    CodeWalkSettled(t, body, claims, segments, 0, None, [], []);
    assert segments[..|segments|] == segments;
  }

  // ----- The rows a walk adds -----

  /** `parent` is where the walk stands before level `i`: the one account that carries the prefix above. */
  predicate StandsAt(t: Table, segments: seq<string>, i: nat, parent: Option<nat>)
    requires i <= |segments|
  {
    if i == 0 then parent == None else parent.Some? && CodeMatches(t, Prefix(segments, i - 1)) == [parent.value]
  }

  /** Row `x` is the account of one level: its prefix for a code, its name, and under the account of the level above. */
  predicate RowOfLevel(t: Table, x: nat, body: CreateBody, claims: Claims, segments: seq<string>, level: nat) {
    && x < |t| && level < |segments|
    && t[x].code == Some(Prefix(segments, level))
    && t[x].name == (if level == |segments| - 1 then body.name else segments[level])
    && StandsAt(t, segments, level, t[x].parent)
    && FromBody(t[x], body, claims)
  }

  /** The rows from `first` on are the accounts of these levels. */
  predicate RowsOfLevels(t: Table, first: nat, body: CreateBody, claims: Claims, segments: seq<string>, levels: seq<nat>) {
    forall k | 0 <= k < |levels| :: RowOfLevel(t, first + k, body, claims, segments, levels[k])
  }

  lemma RowsAfterCreate(
      t: Table, t': Table, body: CreateBody, claims: Claims, segments: seq<string>, i: nat, parent: Option<nat>, levels: seq<nat>)
    requires i < |segments| && StandsAt(t', segments, i, parent)
    requires |t| < |t'| && t'[|t|] == NewByCode(body, claims, segments, i, parent)
    requires RowsOfLevels(t', |t| + 1, body, claims, segments, levels)
    ensures RowsOfLevels(t', |t|, body, claims, segments, [i] + levels)
  {
    forall k | 0 <= k < |[i] + levels|
      ensures RowOfLevel(t', |t| + k, body, claims, segments, ([i] + levels)[k])
    {
      assert k > 0 ==> RowOfLevel(t', |t| + 1 + (k - 1), body, claims, segments, levels[k - 1]);
    }
  }

  /** The account of the level above stays the only one with its code. */
  lemma StandsAfterwards(
      t: Table, body: CreateBody, claims: Claims, segments: seq<string>, i: nat, parent: Option<nat>, created: seq<nat>)
    requires i <= |segments| && StandsAt(t, segments, i, parent)
    requires CodeWalk(t, body, claims, segments, i, parent, created).Ok?
    ensures StandsAt(CodeWalk(t, body, claims, segments, i, parent, created).value.table, segments, i, parent)
  {
    if i > 0 {
      LaterLevelsKeepMatch(t, body, claims, segments, i - 1, parent, created);
    }
  }

  /** How many of the missing levels are above the leaf's. */
  function MissingAncestors(t: Table, segments: seq<string>, i: nat): nat
    requires i <= |segments|
    decreases |segments| - i
  {
    if i >= |segments| - 1 then 0
    else (if CodeMatches(t, Prefix(segments, i)) == [] then 1 else 0) + MissingAncestors(t, segments, i + 1)
  }

  lemma {:induction false} AncestorsUnaffected(t: Table, a: Account, segments: seq<string>, i: nat, j: nat)
    requires j < i <= |segments| && a.code == Some(Prefix(segments, j))
    ensures MissingAncestors(t + [a], segments, i) == MissingAncestors(t, segments, i)
    decreases |segments| - i
  {
    if i < |segments| - 1 {
      PrefixesDiffer(segments, j, i);
      OtherCodeUnaffected(t, a, Prefix(segments, i));
      AncestorsUnaffected(t, a, segments, i + 1, j);
    }
  }

  /** A row for each missing level from `i` on, and those above the leaf reported. */
  predicate AddsRows(t: Table, w: Walk, body: CreateBody, claims: Claims, segments: seq<string>, i: nat, created: seq<nat>)
    requires i <= |segments|
  {
    && w.created == created + Ids(|t|, MissingAncestors(t, segments, i))
    && RowsOfLevels(w.table, |t|, body, claims, segments, Missing(t, segments, i))
  }

  lemma {:induction false} CodeWalkRows(
      t: Table, body: CreateBody, claims: Claims, segments: seq<string>, i: nat, parent: Option<nat>, created: seq<nat>)
    requires i <= |segments| && StandsAt(t, segments, i, parent)
    requires CodeWalk(t, body, claims, segments, i, parent, created).Ok?
    ensures AddsRows(t, CodeWalk(t, body, claims, segments, i, parent, created).value, body, claims, segments, i, created)
    decreases |segments| - i, 1
  {
    if i == |segments| {
      return;
    }
    var m := CodeMatches(t, Prefix(segments, i));
    if |m| == 1 {
      CodeWalkRows(t, body, claims, segments, i + 1, Some(m[0]), created);
      assert Missing(t, segments, i) == Missing(t, segments, i + 1);
    } else {
      var w := CodeWalk(t, body, claims, segments, i, parent, created).value;
      CodeWalkRowsCreate(t, body, claims, segments, i, parent, created, w);
    }
  }

  lemma CreatedFirst(created: seq<nat>, id: nat, n: nat)
    ensures created + [id] + Ids(id + 1, n) == created + Ids(id, n + 1)
  {
  }

  lemma CreatedAtLevel(t: Table, w: Walk, segments: seq<string>, i: nat, created: seq<nat>)
    requires i < |segments| && CodeMatches(t, Prefix(segments, i)) == []
    requires w.created == Created(segments, i, created, |t|) + Ids(|t| + 1, MissingAncestors(t, segments, i + 1))
    ensures w.created == created + Ids(|t|, MissingAncestors(t, segments, i))
  {
    var n := MissingAncestors(t, segments, i + 1);
    if i == |segments| - 1 {
      assert n == 0 && Ids(|t| + 1, 0) == Ids(|t|, 0);
    } else {
      CreatedFirst(created, |t|, n);
    }
  }

  /** What a walk from level `i` added, given what it added after creating the row of that level. */
  lemma OneMoreLevel(
      t: Table, w: Walk, body: CreateBody, claims: Claims, segments: seq<string>, i: nat, parent: Option<nat>, created: seq<nat>)
    requires i < |segments| && CodeMatches(t, Prefix(segments, i)) == [] && StandsAt(w.table, segments, i, parent)
    requires |t| < |w.table| && w.table[|t|] == NewByCode(body, claims, segments, i, parent)
    requires w.created == Created(segments, i, created, |t|) + Ids(|t| + 1, MissingAncestors(t, segments, i + 1))
    requires RowsOfLevels(w.table, |t| + 1, body, claims, segments, Missing(t, segments, i + 1))
    ensures AddsRows(t, w, body, claims, segments, i, created)
  {
    RowsAfterCreate(t, w.table, body, claims, segments, i, parent, Missing(t, segments, i + 1));
    CreatedAtLevel(t, w, segments, i, created);
  }

  lemma {:induction false} CodeWalkRowsCreate(
      t: Table, body: CreateBody, claims: Claims, segments: seq<string>, i: nat, parent: Option<nat>, created: seq<nat>, w: Walk)
    requires i < |segments| && StandsAt(t, segments, i, parent) && CodeMatches(t, Prefix(segments, i)) == []
    requires CodeWalk(t, body, claims, segments, i, parent, created) == Ok(w)
    requires var a := NewByCode(body, claims, segments, i, parent);
             CodeWalk(t + [a], body, claims, segments, i + 1, Some(|t|), Created(segments, i, created, |t|)) == Ok(w)
    ensures AddsRows(t, w, body, claims, segments, i, created)
    decreases |segments| - i, 0
  {
    var a := NewByCode(body, claims, segments, i, parent);
    var t1, created1, next := t + [a], Created(segments, i, created, |t|), i + 1;
    StandsAfterwards(t, body, claims, segments, i, parent, created);
    FreshMatch(t, a, Prefix(segments, i));
    MissingUnaffected(t, a, segments, next, i);
    AncestorsUnaffected(t, a, segments, next, i);
    CodeWalkRows(t1, body, claims, segments, next, Some(|t|), created1);
    CodeWalkAdds(t1, body, claims, segments, next, Some(|t|), created1);
    assert w.table[|t|] == t1[|t|];
    OneMoreLevel(t, w, body, claims, segments, i, parent, created);
  }

  /**
    An accepted code-path create adds one row for each prefix that no account carried, in order: with its code, its name,
    the body's fields, and under the one account that carries the prefix above. Earlier rows are untouched, and
    `parents_created` lists exactly the added rows above the leaf.
    */
  lemma CodeCreateMeetsPath(t: Table, body: CreateBody, claims: Claims, segments: seq<string>)
    requires |segments| > 0 && CodeWalk(t, body, claims, segments, 0, None, []).Ok?
    ensures var w, levels := CodeWalk(t, body, claims, segments, 0, None, []).value, Missing(t, segments, 0);
            && t <= w.table && |w.table| == |t| + |levels|
            && (forall k | 0 <= k < |levels| :: RowOfLevel(w.table, |t| + k, body, claims, segments, levels[k]))
            && w.created == Ids(|t|, MissingAncestors(t, segments, 0))
            && w.leaf.Some? && CodeMatches(w.table, Join(":", segments)) == [w.leaf.value]
  {
    CodeWalkAdds(t, body, claims, segments, 0, None, []);
    CodeWalkRows(t, body, claims, segments, 0, None, []);
    CodeCreateIdempotent(t, body, claims, segments);
  }
}
