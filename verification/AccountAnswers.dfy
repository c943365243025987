/** Which account requests are accepted, in terms of the rows they name, and what an accepted one writes, field by field. */
module AccountAnswers {
  import opened Results
  import Strings
  import opened Accounts
  import opened AccountCreation
  import opened CodeWalker
  import opened AccountService

  /** An account may hang here: its parent is there, active and visible to the caller, and agrees on type and currency. */
  predicate ParentFits(t: Table, parent: nat, kind: string, currency: string, private: bool, claims: Claims) {
    && parent < |t| && t[parent].active && (t[parent].private ==> claims.admin || t[parent].creator == claims.user)
    && t[parent].kind == kind && t[parent].currency == currency && (t[parent].private ==> private)
  }

  /** A direct create is accepted exactly if its parent, if any, fits; the new row is the last one and has the body's fields. */
  lemma DirectCreateExactly(t: Table, body: CreateBody, claims: Claims)
    requires !body.createParents
    ensures CreateSpec(t, body, claims).Ok? <==>
            (body.parent.Some? ==> ParentFits(t, body.parent.value, body.kind, body.currency, body.private, claims))
    ensures CreateSpec(t, body, claims).Ok? ==>
              var w := CreateSpec(t, body, claims).value;
              && |w.table| == |t| + 1 && w.table[..|t|] == t && w.leaf == Some(|t|) && w.created == []
              && var a := w.table[|t|];
                 && a.name == body.name && a.code == body.code && a.kind == body.kind && a.currency == body.currency
                 && a.parent == body.parent && (a.private <==> body.private) && a.active && a.creator == claims.user
  {
  }

  /** A field that the PATCH names takes its value; a field that it leaves out stays. */
  predicate Patched<T(==)>(before: T, patch: Option<T>, after: T) {
    after == if patch.Some? then patch.value else before
  }

  /**
    A PATCH is accepted exactly if the caller may see the account and a new parent, if any, fits its new visibility and is not
    below it. Only the named fields of that one row change.
    */
  lemma UpdateExactly(t: Table, id: nat, body: UpdateBody, claims: Claims)
    ensures UpdateSpec(t, id, body, claims).Ok? <==>
            && id < |t| && (t[id].private ==> claims.admin || t[id].creator == claims.user)
            && (body.parent.Some? ==>
                  && ParentFits(t, body.parent.value, t[id].kind, t[id].currency,
                                if body.private.Some? then body.private.value else t[id].private, claims)
                  && !Reaches(t, body.parent.value, id))
    ensures UpdateSpec(t, id, body, claims).Ok? ==>
              var t' := UpdateSpec(t, id, body, claims).value;
              && |t'| == |t| && (forall x | 0 <= x < |t| && x != id :: t'[x] == t[x])
              && var a, a' := t[id], t'[id];
                 && Patched(a.name, body.name, a'.name) && Patched(a.private, body.private, a'.private)
                 && a'.code == (if body.code.Some? then body.code else a.code)
                 && a'.parent == (if body.parent.Some? then body.parent else a.parent)
                 && a'.kind == a.kind && a'.currency == a.currency && (a'.active <==> a.active) && a'.creator == a.creator
  {
  }

  /** A create by name path builds exactly the path that its name spells out. */
  lemma NamePathCreate(t: Table, body: CreateBody, claims: Claims, segments: seq<string>)
    requires Acyclic(t) && body.createParents && body.name == Strings.Join(":", segments) && WalkableFor(segments, body.kind)
    requires body.code.Some? ==> ':' !in body.code.value
    ensures CreateSpec(t, body, claims).Ok?
    ensures var w := CreateSpec(t, body, claims).value;
            w.leaf.Some? && AncestorsAre(w.table, w.leaf.value, segments) && FreshRows(t, w.table, w.leaf.value, body, claims)
  {
    ParseExact(Some(body.name), body.kind, segments);
    JoinHasColon(segments);
    NameCreateMeetsPath(t, body, claims, segments);
  }

  lemma JoinHasColon(segments: seq<string>)
    requires |segments| >= 2
    ensures ':' in Strings.Join(":", segments)
  {
    var joined := Strings.Join(":", segments);
    assert joined == segments[0] + ":" + Strings.Join(":", segments[1..]);
    assert joined[|segments[0]|] == ':';
  }

  /** A create by code path is accepted unless a prefix has two carriers, and ends on the one account with its code. */
  lemma CodePathCreate(t: Table, body: CreateBody, claims: Claims, segments: seq<string>)
    requires body.createParents && body.code == Some(Strings.Join(":", segments)) && WalkableFor(segments, body.kind)
    requires ':' !in body.name
    ensures CreateSpec(t, body, claims).Ok? <==> !exists j :: 0 <= j < |segments| && |CodeMatches(t, Prefix(segments, j))| > 1
    ensures CreateSpec(t, body, claims).Ok? ==>
              var w := CreateSpec(t, body, claims).value; w.leaf.Some? && CodeMatches(w.table, body.code.value) == [w.leaf.value]
  {
    ParseExact(body.code, body.kind, segments);
    JoinHasColon(segments);
    CodeWalkFails(t, body, claims, segments, 0, None, []);
    if CodeWalk(t, body, claims, segments, 0, None, []).Ok? {
      CodeCreateIdempotent(t, body, claims, segments);
    }
  }

  /** A hierarchy in both fields or in neither is refused. */
  lemma PathInOneField(t: Table, body: CreateBody, claims: Claims)
    requires body.createParents
    ensures CreateSpec(t, body, claims) == Err(PathAmbiguous) <==>
            ':' in body.name && body.code.Some? && ':' in body.code.value
    ensures CreateSpec(t, body, claims) == Err(PathAbsent) <==>
            ':' !in body.name && (body.code.Some? ==> ':' !in body.code.value)
  {
    if ':' !in body.name && body.code.Some? && ':' in body.code.value {
      var parsed := ParseAccountPath(body.code, body.kind);
      if parsed.Ok? {
        CodeWalkErrors(t, body, claims, parsed.value, 0, None, []);
      }
    }
  }

  lemma {:induction false} CodeWalkErrors(
      t: Table, body: CreateBody, claims: Claims, segments: seq<string>, i: nat, parent: Option<nat>, created: seq<nat>)
    requires i <= |segments|
    ensures CodeWalk(t, body, claims, segments, i, parent, created).Err? ==>
              CodeWalk(t, body, claims, segments, i, parent, created) == Err(DuplicateCode)
    decreases |segments| - i
  {
    if i < |segments| {
      var l := CodeLevel(t, body, claims, segments, i, parent, created);
      if l.Ok? {
        CodeWalkErrors(l.value.table, body, claims, segments, i + 1, l.value.leaf, l.value.created);
      }
    }
  }
}
