/**
  Creating accounts (`routers/accounts.py`): the name-path and code-path walkers of `create_parents`, what they leave in the
  chart, and when calling them again changes nothing.
  */
module AccountCreation {
  import opened Results
  import opened Strings
  import opened Accounts
  import Paths = AccountPaths

  // ----- Repository lookups -----

  predicate Named(a: Account, parent: Option<nat>, name: string) {
    a.parent == parent && a.name == name
  }

  /** The ids of the accounts called `name` under `parent`, in table order. */
  function NameMatches(t: Table, parent: Option<nat>, name: string): (r: seq<nat>)
    ensures forall x | x in r :: x < |t| && Named(t[x], parent, name)
  {
    if t == [] then []
    else
      var n := |t| - 1;
      NameMatches(t[..n], parent, name) + if Named(t[n], parent, name) then [n] else []
  }

  /** `get_by_parent_and_name`: two siblings with one name count as no match. */
  function GetByParentAndName(t: Table, parent: Option<nat>, name: string): (r: Option<nat>)
    ensures r.Some? ==> r.value < |t| && Named(t[r.value], parent, name)
  {
    var m := NameMatches(t, parent, name);
    if |m| == 1 then assert m[0] in m; Some(m[0]) else None
  }

  function CodeMatches(t: Table, code: string): seq<nat> {
    if t == [] then []
    else
      var n := |t| - 1;
      CodeMatches(t[..n], code) + if t[n].code == Some(code) then [n] else []
  }

  lemma {:induction false} NameMatchesExtend(t: Table, t': Table, parent: Option<nat>, name: string)
    requires t <= t'
    ensures NameMatches(t, parent, name) <= NameMatches(t', parent, name)
    ensures (forall x | |t| <= x < |t'| :: !Named(t'[x], parent, name)) ==>
              NameMatches(t', parent, name) == NameMatches(t, parent, name)
    decreases |t'|
  {
    if |t| < |t'| {
      NameMatchesExtend(t, t'[..|t'| - 1], parent, name);
    } else {
      assert t == t';
    }
  }

  lemma {:induction false} NameMatchesComplete(t: Table, parent: Option<nat>, name: string, x: nat)
    requires x < |t| && Named(t[x], parent, name)
    ensures x in NameMatches(t, parent, name)
  {
    if x < |t| - 1 {
      NameMatchesComplete(t[..|t| - 1], parent, name, x);
    }
  }

  lemma {:induction false} CodeMatchesCarry(t: Table, code: string)
    ensures forall x | x in CodeMatches(t, code) :: x < |t| && t[x].code == Some(code)
  {
    if t != [] {
      CodeMatchesCarry(t[..|t| - 1], code);
    }
  }

  lemma {:induction false} CodeMatchesExtend(t: Table, t': Table, code: string)
    requires t <= t'
    ensures CodeMatches(t, code) <= CodeMatches(t', code)
    ensures (forall x | |t| <= x < |t'| :: t'[x].code != Some(code)) ==> CodeMatches(t', code) == CodeMatches(t, code)
    decreases |t'|
  {
    if |t| < |t'| {
      CodeMatchesExtend(t, t'[..|t'| - 1], code);
    } else {
      assert t == t';
    }
  }

  // ----- The name-path walker -----

  /** The table after a walk, the account it ends on and the ancestors it created. */
  datatype Walk = Walk(table: Table, leaf: Option<nat>, created: seq<nat>)

  function NewByName(body: CreateBody, claims: Claims, segments: seq<string>, i: nat, parent: Option<nat>): Account
    requires i < |segments|
  {
    Account(if i == |segments| - 1 then body.code else None, segments[i], body.kind, body.currency,
            body.private, true, parent, claims.user)
  }

  function NameWalk(
      t: Table, body: CreateBody, claims: Claims, segments: seq<string>, i: nat, parent: Option<nat>, created: seq<nat>): Walk
    requires i <= |segments|
    decreases |segments| - i
  {
    if i == |segments| then Walk(t, parent, created)
    else
      match GetByParentAndName(t, parent, segments[i])
      case Some(existing) => NameWalk(t, body, claims, segments, i + 1, Some(existing), created)
      case None =>
        NameWalk(t + [NewByName(body, claims, segments, i, parent)], body, claims, segments, i + 1, Some(|t|),
                 if i == |segments| - 1 then created else created + [|t|])
  }

  method WalkNamePath(t: Table, body: CreateBody, claims: Claims, segments: seq<string>)
    returns (rows: Table, leaf: nat, parentsCreated: seq<nat>)
    requires |segments| > 0
    ensures Walk(rows, Some(leaf), parentsCreated) == NameWalk(t, body, claims, segments, 0, None, [])
  {
    rows, parentsCreated := t, [];
    var parent: Option<nat> := None;
    for i := 0 to |segments|
      invariant i > 0 ==> parent.Some?
      invariant NameWalk(rows, body, claims, segments, i, parent, parentsCreated) == NameWalk(t, body, claims, segments, 0, None, [])
    {
      var isLeaf := i == |segments| - 1;
      var existing := GetByParentAndName(rows, parent, segments[i]);
      if existing.Some? {
        parent := existing;
        continue;
      }
      var id := |rows|;
      rows := rows + [NewByName(body, claims, segments, i, parent)];
      parent := Some(id);
      if !isLeaf {
        parentsCreated := parentsCreated + [id];
      }
    }
    leaf := parent.value;
  }

  // ----- What a name walk leaves behind -----

  function Ids(from: nat, count: nat): (r: seq<nat>)
    ensures |r| == count && forall k | 0 <= k < count :: r[k] == from + k
  {
    seq(count, k requires 0 <= k < count => from + k)
  }

  /** `trail` names the account at each level from `i` on: each has the segment's name and hangs under the level above. */
  predicate Trail(t: Table, segments: seq<string>, i: nat, parent: Option<nat>, trail: seq<nat>)
    decreases |trail|
  {
    if trail == [] then i == |segments|
    else
      && i < |segments| && trail[0] < |t| && Named(t[trail[0]], parent, segments[i])
      && Trail(t, segments, i + 1, Some(trail[0]), trail[1..])
  }

  lemma {:induction false} TrailAt(t: Table, segments: seq<string>, i: nat, parent: Option<nat>, trail: seq<nat>, k: nat)
    requires Trail(t, segments, i, parent, trail)
    ensures i + |trail| == |segments|
    ensures k < |trail| ==>
              trail[k] < |t| && Named(t[trail[k]], if k == 0 then parent else Some(trail[k - 1]), segments[i + k])
    decreases |trail|
  {
    if trail != [] {
      TrailAt(t, segments, i + 1, Some(trail[0]), trail[1..], if k == 0 then 0 else k - 1);
    }
  }

  predicate FromBody(a: Account, body: CreateBody, claims: Claims) {
    a.kind == body.kind && a.currency == body.currency && a.private == body.private && a.active && a.creator == claims.user
  }

  /**
    `w` extends `t`: the first `reused` levels of `trail` are old rows, all the others one block of fresh ids, root first;
    the old rows stay as they were; only the last fresh row takes the code; and exactly the fresh ids above the leaf are
    reported as created ancestors.
    */
  predicate WalkShape(t: Table, w: Walk, body: CreateBody, claims: Claims, created: seq<nat>, trail: seq<nat>, reused: nat) {
    && reused <= |trail|
    && (forall k | 0 <= k < reused :: trail[k] < |t|)
    && (forall k | reused <= k < |trail| :: trail[k] == |t| + k - reused)
    && w.created == created + Ids(|t|, if reused < |trail| then |trail| - reused - 1 else 0)
    && t <= w.table && |w.table| == |t| + |trail| - reused
    && (forall x | |t| <= x < |w.table| ::
          FromBody(w.table[x], body, claims) && w.table[x].code == if x == |w.table| - 1 then body.code else None)
  }

  /** A walk from level `i` under `parent` ended at the foot of `trail`, changing the table as `WalkShape` says. */
  predicate Walked(
      t: Table, w: Walk, body: CreateBody, claims: Claims, segments: seq<string>, i: nat, parent: Option<nat>,
      created: seq<nat>, trail: seq<nat>, reused: nat)
  {
    && Trail(w.table, segments, i, parent, trail)
    && w.leaf == (if trail == [] then parent else Some(trail[|trail| - 1]))
    && WalkShape(t, w, body, claims, created, trail, reused)
  }

  /** `parents_created` after a row was added for level `i`: the leaf is not among them. */
  function Created(segments: seq<string>, i: nat, created: seq<nat>, id: nat): seq<nat> {
    if i == |segments| - 1 then created else created + [id]
  }

  lemma WalkedReuse(
      t: Table, w: Walk, body: CreateBody, claims: Claims, segments: seq<string>, i: nat, parent: Option<nat>,
      created: seq<nat>, x: nat, tail: seq<nat>, r: nat)
    requires i < |segments| && x < |t| && Named(t[x], parent, segments[i])
    requires Walked(t, w, body, claims, segments, i + 1, Some(x), created, tail, r)
    ensures Walked(t, w, body, claims, segments, i, parent, created, [x] + tail, r + 1)
  {
    assert ([x] + tail)[1..] == tail;
    assert w.table[x] == t[x];
  }

  lemma WalkedCreate(
      t: Table, w: Walk, body: CreateBody, claims: Claims, segments: seq<string>, i: nat, parent: Option<nat>,
      created: seq<nat>, a: Account, tail: seq<nat>)
    requires i < |segments| && a == NewByName(body, claims, segments, i, parent)
    requires Walked(t + [a], w, body, claims, segments, i + 1, Some(|t|), Created(segments, i, created, |t|), tail, 0)
    ensures Walked(t, w, body, claims, segments, i, parent, created, [|t|] + tail, 0)
  {
    TrailAt(w.table, segments, i + 1, Some(|t|), tail, 0);
    assert ([|t|] + tail)[1..] == tail;
    assert w.table[|t|] == (t + [a])[|t|];
    assert t <= t + [a];
    if tail == [] {
      assert Ids(|t| + 1, 0) == Ids(|t|, 0);
    } else {
      assert created + [|t|] + Ids(|t| + 1, |tail| - 1) == created + Ids(|t|, |tail|);
    }
  }

  lemma TrailAfterReuse(
      t: Table, body: CreateBody, claims: Claims, segments: seq<string>, i: nat, parent: Option<nat>, created: seq<nat>,
      x: nat, tail: seq<nat>, r: nat)
    requires i < |segments| && (parent.Some? ==> parent.value < |t|)
    requires GetByParentAndName(t, parent, segments[i]) == Some(x) && x < |t|
    requires Walked(t, NameWalk(t, body, claims, segments, i + 1, Some(x), created), body, claims, segments, i + 1, Some(x),
                    created, tail, r)
    ensures Walked(t, NameWalk(t, body, claims, segments, i, parent, created), body, claims, segments, i, parent,
                   created, [x] + tail, r + 1)
    ensures t[x].parent == parent
  {
    WalkedReuse(t, NameWalk(t, body, claims, segments, i + 1, Some(x), created), body, claims, segments, i, parent, created,
                x, tail, r);
  }

  lemma TrailAfterCreate(
      t: Table, body: CreateBody, claims: Claims, segments: seq<string>, i: nat, parent: Option<nat>, created: seq<nat>,
      tail: seq<nat>)
    requires i < |segments| && (parent.Some? ==> parent.value < |t|)
    requires GetByParentAndName(t, parent, segments[i]) == None
    requires var a := NewByName(body, claims, segments, i, parent);
             Walked(t + [a], NameWalk(t + [a], body, claims, segments, i + 1, Some(|t|), Created(segments, i, created, |t|)),
                    body, claims, segments, i + 1, Some(|t|), Created(segments, i, created, |t|), tail, 0)
    ensures Walked(t, NameWalk(t, body, claims, segments, i, parent, created), body, claims, segments, i, parent,
                   created, [|t|] + tail, 0)
  {
    var a := NewByName(body, claims, segments, i, parent);
    WalkedCreate(t, NameWalk(t + [a], body, claims, segments, i + 1, Some(|t|), Created(segments, i, created, |t|)),
                 body, claims, segments, i, parent, created, a, tail);
  }

  lemma {:induction false} NameWalkTrail(
      t: Table, body: CreateBody, claims: Claims, segments: seq<string>, i: nat, parent: Option<nat>, created: seq<nat>)
    returns (trail: seq<nat>, reused: nat)
    requires i <= |segments| && (parent.Some? ==> parent.value < |t|)
    requires ParentsExist(t)
    ensures Walked(t, NameWalk(t, body, claims, segments, i, parent, created), body, claims, segments, i, parent,
                   created, trail, reused)
    ensures parent.Some? && (forall x | 0 <= x < |t| :: t[x].parent != parent) ==> reused == 0
    decreases |segments| - i
  {
    if i == |segments| {
      trail, reused := [], 0;
      return;
    }
    var found := GetByParentAndName(t, parent, segments[i]);
    if found.Some? {
      var tail, r := NameWalkTrail(t, body, claims, segments, i + 1, found, created);
      TrailAfterReuse(t, body, claims, segments, i, parent, created, found.value, tail, r);
      trail, reused := [found.value] + tail, r + 1;
    } else {
      var a := NewByName(body, claims, segments, i, parent);
      assert forall x | 0 <= x <= |t| :: (t + [a])[x].parent != Some(|t|);
      var tail, r := NameWalkTrail(t + [a], body, claims, segments, i + 1, Some(|t|), Created(segments, i, created, |t|));
      TrailAfterCreate(t, body, claims, segments, i, parent, created, tail);
      trail, reused := [|t|] + tail, 0;
    }
  }

  /** The account `n` steps above `leaf` has this name. */
  predicate AncestorIs(t: Table, leaf: nat, n: nat, name: string) {
    var x := Climb(t, leaf, n); x.Some? && x.value < |t| && t[x.value].name == name
  }

  /** The accounts met climbing from `leaf` are called exactly `names`, root first, and the topmost has no parent. */
  predicate AncestorsAre(t: Table, leaf: nat, names: seq<string>) {
    && (forall k | 0 <= k < |names| :: AncestorIs(t, leaf, |names| - 1 - k, names[k]))
    && Climb(t, leaf, |names|) == None
  }

  lemma {:induction false} TrailClimb(t: Table, segments: seq<string>, trail: seq<nat>, k: nat, n: nat)
    requires Trail(t, segments, 0, None, trail) && n <= k < |trail|
    ensures Climb(t, trail[k], n) == Some(trail[k - n])
    decreases n
  {
    if n > 0 {
      TrailAt(t, segments, 0, None, trail, k);
      TrailClimb(t, segments, trail, k - 1, n - 1);
    }
  }

  lemma TrailIsAncestry(t: Table, segments: seq<string>, trail: seq<nat>)
    requires Trail(t, segments, 0, None, trail) && trail != []
    ensures AncestorsAre(t, trail[|trail| - 1], segments)
  {
    var leaf := trail[|trail| - 1];
    forall k | 0 <= k < |segments|
      ensures AncestorIs(t, leaf, |segments| - 1 - k, segments[k])
    {
      TrailAncestor(t, segments, trail, k);
    }
    TrailTop(t, segments, trail);
  }

  lemma TrailAncestor(t: Table, segments: seq<string>, trail: seq<nat>, k: nat)
    requires Trail(t, segments, 0, None, trail) && trail != [] && k < |segments|
    ensures AncestorIs(t, trail[|trail| - 1], |segments| - 1 - k, segments[k])
  {
    TrailAt(t, segments, 0, None, trail, k);
    TrailClimb(t, segments, trail, |trail| - 1, |segments| - 1 - k);
  }

  lemma TrailTop(t: Table, segments: seq<string>, trail: seq<nat>)
    requires Trail(t, segments, 0, None, trail) && trail != []
    ensures Climb(t, trail[|trail| - 1], |segments|) == None
  {
    var last := |trail| - 1;
    TrailAt(t, segments, 0, None, trail, 0);
    TrailClimb(t, segments, trail, last, last);
    ClimbAdds(t, trail[last], last, 1);
    assert Climb(t, trail[0], 1) == None;
  }

  /** The fresh rows carry the fields of the body, and only `leaf` its code. */
  predicate FreshRows(t: Table, t': Table, leaf: nat, body: CreateBody, claims: Claims) {
    && t <= t'
    && forall x | |t| <= x < |t'| :: FromBody(t'[x], body, claims) && t'[x].code == if x == leaf then body.code else None
  }

  /**
    After a name-path create the leaf's ancestor chain is exactly the given segments; every earlier row is untouched; the
    created rows take their fields from the body; and `parents_created` lists exactly the fresh ancestors, root first, each
    as far above the leaf as it is from the end of the list. A fresh leaf is the row after them.
    */
  lemma NameCreateMeetsPath(t: Table, body: CreateBody, claims: Claims, segments: seq<string>)
    requires Acyclic(t) && |segments| > 0
    ensures var w := NameWalk(t, body, claims, segments, 0, None, []);
            && w.leaf.Some? && w.leaf.value < |w.table| && AncestorsAre(w.table, w.leaf.value, segments)
            && FreshRows(t, w.table, w.leaf.value, body, claims)
            && w.created == Ids(|t|, |w.created|)
            && (if w.leaf.value < |t| then w.table == t && w.created == []
                else w.leaf.value == |t| + |w.created| && |w.table| == |t| + |w.created| + 1)
            && (forall k | 0 <= k < |w.created| :: Climb(w.table, w.leaf.value, |w.created| - k) == Some(w.created[k]))
  {
    var w := NameWalk(t, body, claims, segments, 0, None, []);
    var trail, reused := NameWalkTrail(t, body, claims, segments, 0, None, []);
    TrailIsAncestry(w.table, segments, trail);
    WalkedLeaf(t, w, body, claims, segments, trail, reused);
    WalkedAncestors(t, w, body, claims, segments, trail, reused);
  }

  lemma WalkedLeaf(t: Table, w: Walk, body: CreateBody, claims: Claims, segments: seq<string>, trail: seq<nat>, reused: nat)
    requires Walked(t, w, body, claims, segments, 0, None, [], trail, reused) && trail != []
    ensures w.leaf.Some? && FreshRows(t, w.table, w.leaf.value, body, claims) && w.created == Ids(|t|, |w.created|)
    ensures if w.leaf.value < |t| then w.table == t && w.created == []
            else w.leaf.value == |t| + |w.created| && |w.table| == |t| + |w.created| + 1
  {
    var last := |trail| - 1;
    if reused == |trail| {
      assert trail[last] < |t|;
    } else {
      assert trail[last] == |t| + last - reused;
    }
  }

  lemma WalkedAncestors(t: Table, w: Walk, body: CreateBody, claims: Claims, segments: seq<string>, trail: seq<nat>, reused: nat)
    requires Walked(t, w, body, claims, segments, 0, None, [], trail, reused) && trail != []
    ensures forall k | 0 <= k < |w.created| :: Climb(w.table, w.leaf.value, |w.created| - k) == Some(w.created[k])
  {
    forall k | 0 <= k < |w.created|
      ensures Climb(w.table, w.leaf.value, |w.created| - k) == Some(w.created[k])
    {
      assert trail[reused + k] == |t| + k;
      TrailClimb(w.table, segments, trail, |trail| - 1, |w.created| - k);
    }
  }

  /** The chart as the path printers see it. */
  function ChartOf(t: Table): map<nat, Paths.Entry<nat>> {
    map x: nat | x < |t| :: Paths.Entry(t[x].name, t[x].kind, t[x].parent)
  }

  lemma {:induction false} TrailIsFullLine(t: Table, segments: seq<string>, trail: seq<nat>, k: nat)
    requires Trail(t, segments, 0, None, trail) && k < |trail|
    ensures Paths.FullLine(ChartOf(t), trail[k], Paths.Reverse(trail[..k + 1]))
    ensures !Paths.Dangling(ChartOf(t), Paths.Reverse(trail[..k + 1]))
  {
    var line := Paths.Reverse(trail[..k + 1]);
    TrailAt(t, segments, 0, None, trail, k);
    TrailAt(t, segments, 0, None, trail, 0);
    Paths.ReverseAt(trail[..k + 1]);
    assert line[|line| - 1] == trail[0];
    if k > 0 {
      assert trail[..k] + [trail[k]] == trail[..k + 1];
      Paths.ReverseAppend(trail[..k], [trail[k]]);
      assert Paths.Reverse([trail[k]]) == [trail[k]];
      assert line[1..] == Paths.Reverse(trail[..k]);
      assert trail[..k] == trail[..k - 1 + 1];
      TrailIsFullLine(t, segments, trail, k - 1);
    }
  }

  lemma TrailNames(t: Table, segments: seq<string>, trail: seq<nat>)
    requires Trail(t, segments, 0, None, trail)
    ensures |trail| == |segments|
    ensures forall k | 0 <= k < |trail| :: trail[k] < |t| && t[trail[k]].name == segments[k]
  {
    TrailAt(t, segments, 0, None, trail, 0);
    forall k | 0 <= k < |trail|
      ensures trail[k] < |t| && t[trail[k]].name == segments[k]
    {
      TrailAt(t, segments, 0, None, trail, k);
    }
  }

  lemma ReverseTwice(s: seq<nat>)
    ensures Paths.Reverse(Paths.Reverse(s)) == s
  {
    Paths.ReverseAt(s);
    Paths.ReverseAt(Paths.Reverse(s));
  }

  lemma TrailPath(t: Table, segments: seq<string>, trail: seq<nat>, leaf: nat, raw: string)
    requires Trail(t, segments, 0, None, trail) && trail != [] && leaf == trail[|trail| - 1] && leaf < |t|
    ensures Paths.PathSpec(ChartOf(t), leaf, raw) == Join(":", [Paths.TypeLabel(t[leaf].kind)] + [] + Paths.EscapeAll(segments))
  {
    var chart, line := ChartOf(t), Paths.Reverse(trail);
    assert trail[..|trail| - 1 + 1] == trail;
    TrailIsFullLine(t, segments, trail, |trail| - 1);
    ReverseTwice(trail);
    TrailNames(t, segments, trail);
    Paths.PathListsAncestors(chart, leaf, line, raw);
    assert Paths.NamesOf(chart, trail) == segments;
  }

  lemma LabelledPathReadsBack(kind: string, segments: seq<string>)
    requires Paths.StoredKind(kind) && Paths.Printable(segments)
    ensures var title := Paths.TypeLabel(kind);
            Paths.SplitSpec(Join(":", [title] + [] + Paths.EscapeAll(segments))) == Some([title] + segments)
  {
    var title := Paths.TypeLabel(kind);
    LabelIsPlain(kind);
    PlainEscape(title);
    assert [title] + [] + Paths.EscapeAll(segments) == Paths.EscapeAll([title] + segments);
    Paths.PrintThenSplit([title] + segments);
  }

  /** Splitting the printed path of the leaf gives the leaf's type label followed by the segments that created it. */
  lemma CreatedPathReadsBack(t: Table, body: CreateBody, claims: Claims, segments: seq<string>, raw: string)
    requires Acyclic(t) && WalkableFor(segments, body.kind)
    requires (forall x | 0 <= x < |t| :: Paths.StoredKind(t[x].kind)) && Paths.StoredKind(body.kind)
    ensures var w := NameWalk(t, body, claims, segments, 0, None, []);
            && w.leaf.Some? && w.leaf.value < |w.table|
            && Paths.SplitSpec(Paths.PathSpec(ChartOf(w.table), w.leaf.value, raw))
               == Some([Paths.TypeLabel(w.table[w.leaf.value].kind)] + segments)
  {
    var w := NameWalk(t, body, claims, segments, 0, None, []);
    var trail, _ := NameWalkTrail(t, body, claims, segments, 0, None, []);
    TrailNames(w.table, segments, trail);
    var leaf := trail[|trail| - 1];
    assert Paths.StoredKind(w.table[leaf].kind);
    TrailPath(w.table, segments, trail, leaf, raw);
    LabelledPathReadsBack(w.table[leaf].kind, segments);
  }

  /** A segment with nothing to escape and nothing to trim. */
  predicate Plain(s: string) {
    s != "" && Trimmed(s) && forall i | 0 <= i < |s| :: s[i] != '\\' && s[i] != ':'
  }

  lemma LowerLetters(s: string)
    requires forall i | 0 <= i < |s| :: 'a' <= s[i] <= 'z'
    ensures Lower(s) == s
  {
  }

  lemma StoredIsLower(kind: string)
    requires Paths.StoredKind(kind)
    ensures Lower(kind) == kind
  {
    LowerLetters(kind);
  }

  /** The five labels that stored kinds have. */
  predicate IsLabel(s: string) {
    s == "Asset" || s == "Liability" || s == "Equity" || s == "Income" || s == "Expense"
  }

  lemma LabelIsPlain(kind: string)
    requires Paths.StoredKind(kind)
    ensures Plain(Paths.TypeLabel(kind))
  {
    StoredIsLower(kind);
    LabelsArePlain(Paths.TypeLabel(kind));
  }

  lemma LabelsArePlain(s: string)
    requires IsLabel(s)
    ensures Plain(s)
  {
    LettersArePlain(s);
  }

  lemma LettersArePlain(s: string)
    requires s != "" && forall i | 0 <= i < |s| :: 'A' <= s[i] <= 'Z' || 'a' <= s[i] <= 'z'
    ensures Plain(s)
  {
  }

  lemma PlainEscape(s: string)
    requires Plain(s)
    ensures Paths.EscapeSegment(s) == s
  {
    PlainReplace(s, '\\', "\\\\");
    PlainReplace(s, ':', "\\:");
  }

  lemma {:induction false} PlainReplace(s: string, c: char, with: string)
    requires forall i | 0 <= i < |s| :: s[i] != c
    ensures Paths.Replace(s, c, with) == s
  {
    if s != [] {
      PlainReplace(s[1..], c, with);
    }
  }

  // ----- Calling it again -----

  /** Walking the segments down the chart meets, at some level, two siblings that share the wanted name. */
  predicate Ambiguous(t: Table, segments: seq<string>, i: nat, parent: Option<nat>)
    decreases |segments| - i
  {
    i < |segments| &&
    var m := NameMatches(t, parent, segments[i]);
    |m| > 1 || (|m| == 1 && Ambiguous(t, segments, i + 1, Some(m[0])))
  }

  lemma {:induction false} NameWalkGrows(
      t: Table, body: CreateBody, claims: Claims, segments: seq<string>, i: nat, parent: Option<nat>, created: seq<nat>)
    requires i <= |segments|
    ensures t <= NameWalk(t, body, claims, segments, i, parent, created).table
    decreases |segments| - i
  {
    if i < |segments| {
      match GetByParentAndName(t, parent, segments[i])
      case Some(existing) => NameWalkGrows(t, body, claims, segments, i + 1, Some(existing), created);
      case None =>
        NameWalkGrows(t + [NewByName(body, claims, segments, i, parent)], body, claims, segments, i + 1, Some(|t|),
                      if i == |segments| - 1 then created else created + [|t|]);
    }
  }

  /** The rows of `t'` past those of `t` hang under new rows, or under old rows ranked at least `floor`. */
  predicate HangBelow(t: Table, t': Table, rank: seq<nat>, floor: nat)
    requires |rank| == |t|
  {
    && t <= t'
    && forall x | |t| <= x < |t'| ::
         t'[x].parent.Some? && (t'[x].parent.value < |t| ==> rank[t'[x].parent.value] >= floor)
  }

  lemma {:induction false} NewRowsHangBelow(
      t: Table, rank: seq<nat>, body: CreateBody, claims: Claims, segments: seq<string>, i: nat, p: nat, created: seq<nat>)
    requires i <= |segments| && Ranked(t, rank) && p < |t|
    ensures HangBelow(t, NameWalk(t, body, claims, segments, i, Some(p), created).table, rank, rank[p])
    decreases |segments| - i
  {
    if i < |segments| {
      match GetByParentAndName(t, Some(p), segments[i])
      case Some(existing) => NewRowsHangBelow(t, rank, body, claims, segments, i + 1, existing, created);
      case None =>
        var a := NewByName(body, claims, segments, i, Some(p));
        var created' := if i == |segments| - 1 then created else created + [|t|];
        var rank' := rank + [rank[p] + 1];
        NewRowsHangBelow(t + [a], rank', body, claims, segments, i + 1, |t|, created');
        HangBelowCreate(t, a, NameWalk(t, body, claims, segments, i, Some(p), created).table, rank, rank', p);
    }
  }

  lemma HangBelowCreate(t: Table, a: Account, t': Table, rank: seq<nat>, rank': seq<nat>, p: nat)
    requires |rank| == |t| && p < |t| && rank' == rank + [rank[p] + 1] && a.parent == Some(p)
    requires HangBelow(t + [a], t', rank', rank[p] + 1)
    ensures HangBelow(t, t', rank, rank[p])
  {
    assert t <= t + [a];
    assert t'[|t|] == (t + [a])[|t|];
  }

  /** The level at which a walk starts keeps its single match, or its lack of one turned into the created row. */
  lemma MatchesAfterReuse(t: Table, t': Table, rank: seq<nat>, parent: Option<nat>, name: string, x: nat)
    requires Ranked(t, rank) && x < |t| && NameMatches(t, parent, name) == [x] && HangBelow(t, t', rank, rank[x])
    ensures NameMatches(t', parent, name) == [x]
  {
    assert x in NameMatches(t, parent, name);
    NameMatchesExtend(t, t', parent, name);
  }

  lemma MatchesAfterCreate(t: Table, a: Account, t': Table, rank: seq<nat>, parent: Option<nat>, name: string)
    requires ParentsExist(t) && NameMatches(t, parent, name) == [] && Named(a, parent, name)
    requires parent.Some? ==> parent.value < |t|
    requires |rank| == |t| + 1 && HangBelow(t + [a], t', rank, rank[|t|])
    requires parent.Some? ==> rank[parent.value] < rank[|t|]
    ensures NameMatches(t', parent, name) == [|t|]
  {
    assert (t + [a])[..|t|] == t;
    assert NameMatches(t + [a], parent, name) == [|t|];
    NameMatchesExtend(t + [a], t', parent, name);
  }

  lemma HeadIsMember(s: seq<nat>)
    requires s != []
    ensures exists x :: x in s
  {
    assert s[0] in s;
  }

  lemma NoChildrenYet(t: Table, a: Account, name: string)
    requires ParentsExist(t) && a.parent != Some(|t|)
    ensures NameMatches(t + [a], Some(|t|), name) == []
  {
    var m := NameMatches(t + [a], Some(|t|), name);
    if m != [] {
      HeadIsMember(m);
    }
  }

  /** What repeating a walk does: it adds rows if some level was ambiguous, and otherwise ends on the same leaf with no new row. */
  predicate RepeatOutcome(w: Walk, w': Walk, again: seq<nat>, ambiguous: bool) {
    if ambiguous then |w'.table| > |w.table| else w' == Walk(w.table, w.leaf, again)
  }

  lemma RankedChild(t: Table, rank: seq<nat>, a: Account)
    requires Ranked(t, rank) && (a.parent.Some? ==> a.parent.value < |t|)
    ensures var rank1 := rank + [if a.parent.Some? then rank[a.parent.value] + 1 else 0];
            Ranked(t + [a], rank1) && (a.parent.Some? ==> rank1[a.parent.value] < rank1[|t|])
  {
  }

  /** The walk repeated on its own result: it stops on the same leaf and adds nothing, unless some level is ambiguous. */
  lemma {:induction false} NameWalkAgain(
      t: Table, rank: seq<nat>, body: CreateBody, claims: Claims, segments: seq<string>,
      i: nat, parent: Option<nat>, created: seq<nat>, again: seq<nat>)
    requires i <= |segments| && Ranked(t, rank) && (parent.Some? ==> parent.value < |t|)
    ensures Repeats(t, body, claims, segments, i, parent, created, again)
    decreases |segments| - i
  {
    if i == |segments| {
      return;
    }
    var m := NameMatches(t, parent, segments[i]);
    if |m| == 1 {
      assert m[0] in m && m == [m[0]];
      NameWalkAgain(t, rank, body, claims, segments, i + 1, Some(m[0]), created, again);
      AgainAfterReuse(t, rank, body, claims, segments, i, parent, created, again, m[0]);
    } else if m == [] {
      var a := NewByName(body, claims, segments, i, parent);
      var rank1 := rank + [if parent.Some? then rank[parent.value] + 1 else 0];
      RankedChild(t, rank, a);
      NameWalkAgain(t + [a], rank1, body, claims, segments, i + 1, Some(|t|), Created(segments, i, created, |t|), again);
      AgainAfterCreate(t, rank1, body, claims, segments, i, parent, created, again);
    } else {
      AgainWhenAmbiguous(t, body, claims, segments, i, parent, created, again);
    }
  }

  /** What `NameWalkAgain` states, at one level. */
  predicate Repeats(
      t: Table, body: CreateBody, claims: Claims, segments: seq<string>, i: nat, parent: Option<nat>,
      created: seq<nat>, again: seq<nat>)
    requires i <= |segments|
  {
    var w := NameWalk(t, body, claims, segments, i, parent, created);
    RepeatOutcome(w, NameWalk(w.table, body, claims, segments, i, parent, again), again, Ambiguous(t, segments, i, parent))
  }

  /** A level that was found is found again. */
  lemma AgainAfterReuse(
      t: Table, rank: seq<nat>, body: CreateBody, claims: Claims, segments: seq<string>,
      i: nat, parent: Option<nat>, created: seq<nat>, again: seq<nat>, x: nat)
    requires i < |segments| && Ranked(t, rank) && (parent.Some? ==> parent.value < |t|)
    requires NameMatches(t, parent, segments[i]) == [x] && x < |t|
    requires Repeats(t, body, claims, segments, i + 1, Some(x), created, again)
    ensures Repeats(t, body, claims, segments, i, parent, created, again)
  {
    var w := NameWalk(t, body, claims, segments, i + 1, Some(x), created);
    NewRowsHangBelow(t, rank, body, claims, segments, i + 1, x, created);
    MatchesAfterReuse(t, w.table, rank, parent, segments[i], x);
  }

  /** A level that was created is found the second time. */
  lemma AgainAfterCreate(
      t: Table, rank1: seq<nat>, body: CreateBody, claims: Claims, segments: seq<string>,
      i: nat, parent: Option<nat>, created: seq<nat>, again: seq<nat>)
    requires i < |segments| && (parent.Some? ==> parent.value < |t|) && ParentsExist(t)
    requires NameMatches(t, parent, segments[i]) == []
    requires Ranked(t + [NewByName(body, claims, segments, i, parent)], rank1)
    requires parent.Some? ==> rank1[parent.value] < rank1[|t|]
    requires Repeats(t + [NewByName(body, claims, segments, i, parent)], body, claims, segments, i + 1, Some(|t|),
                     Created(segments, i, created, |t|), again)
    ensures Repeats(t, body, claims, segments, i, parent, created, again)
  {
    var a := NewByName(body, claims, segments, i, parent);
    var w := NameWalk(t + [a], body, claims, segments, i + 1, Some(|t|), Created(segments, i, created, |t|));
    NewRowsHangBelow(t + [a], rank1, body, claims, segments, i + 1, |t|, Created(segments, i, created, |t|));
    MatchesAfterCreate(t, a, w.table, rank1, parent, segments[i]);
    if i + 1 < |segments| {
      NoChildrenYet(t, a, segments[i + 1]);
    }
  }

  /** A level with two matches is created again each time. */
  lemma AgainWhenAmbiguous(
      t: Table, body: CreateBody, claims: Claims, segments: seq<string>,
      i: nat, parent: Option<nat>, created: seq<nat>, again: seq<nat>)
    requires i < |segments| && (parent.Some? ==> parent.value < |t|) && |NameMatches(t, parent, segments[i])| > 1
    ensures Repeats(t, body, claims, segments, i, parent, created, again)
  {
    var w := NameWalk(t, body, claims, segments, i, parent, created);
    var a := NewByName(body, claims, segments, i, parent);
    var again1 := Created(segments, i, again, |w.table|);
    NameWalkGrows(t, body, claims, segments, i, parent, created);
    NameMatchesExtend(t, w.table, parent, segments[i]);
    assert NameWalk(w.table, body, claims, segments, i, parent, again)
        == NameWalk(w.table + [a], body, claims, segments, i + 1, Some(|w.table|), again1);
    NameWalkGrows(w.table + [a], body, claims, segments, i + 1, Some(|w.table|), again1);
  }

  /**
    Repeating a name-path create returns the same leaf and creates nothing if and only if, before the first call, no level
    of the path was ambiguous: a lookup that finds two siblings is treated as finding none, and creates one more each time.
    */
  lemma NameCreateIdempotent(t: Table, body: CreateBody, claims: Claims, segments: seq<string>)
    requires Acyclic(t)
    ensures var w := NameWalk(t, body, claims, segments, 0, None, []);
            NameWalk(w.table, body, claims, segments, 0, None, []) == Walk(w.table, w.leaf, [])
            <==> !Ambiguous(t, segments, 0, None)
  {
    var rank :| Ranked(t, rank);
    NameWalkAgain(t, rank, body, claims, segments, 0, None, [], []);
  }

  /** A chart, made by two direct creates, on which every repetition of the call adds rows. */
  lemma NameCreateNotAlwaysIdempotent(body: CreateBody, claims: Claims)
    ensures var a := Account(None, "Assets", "asset", "USD", false, true, None, claims.user);
            var w := NameWalk([a, a], body, claims, ["Assets", "Cash"], 0, None, []);
            Acyclic([a, a]) && |NameWalk(w.table, body, claims, ["Assets", "Cash"], 0, None, []).table| > |w.table|
  {
    var a := Account(None, "Assets", "asset", "USD", false, true, None, claims.user);
    assert Ranked([a, a], [0, 0]);
    NameMatchesComplete([a, a], None, "Assets", 0);
    NameMatchesComplete([a, a], None, "Assets", 1);
    assert Ambiguous([a, a], ["Assets", "Cash"], 0, None);
    NameWalkAgain([a, a], [0, 0], body, claims, ["Assets", "Cash"], 0, None, [], []);
  }
}
