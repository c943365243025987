/**
  The path printer and splitter behind `Type:Name:...:Name` labels: `tulip_cli/_account_path.py` and its
  server-side copy `tulip_reports/_account_path.py`.
  */
module AccountPaths {
  import opened Results
  import opened Strings

  // ----- Escaping one segment -----

  /** `s.replace(c, with)` for a one-character needle. */
  function Replace(s: string, c: char, with: string): string {
    if s == [] then "" else (if s[0] == c then with else [s[0]]) + Replace(s[1..], c, with)
  }

  function EscapeSegment(name: string): string {
    Replace(Replace(name, '\\', "\\\\"), ':', "\\:")
  }

  function EscapeChar(c: char): string {
    if c == '\\' then "\\\\" else if c == ':' then "\\:" else [c]
  }

  lemma {:induction false} ReplaceConcat(a: string, b: string, c: char, with: string)
    ensures Replace(a + b, c, with) == Replace(a, c, with) + Replace(b, c, with)
  {
    if a == [] {
      assert a + b == b;
    } else {
      assert (a + b)[1..] == a[1..] + b;
      ReplaceConcat(a[1..], b, c, with);
    }
  }

  /** The two passes together escape each character on its own: the second never touches what the first wrote. */
  lemma {:induction false} EscapeStep(c: char, rest: string)
    ensures EscapeSegment([c] + rest) == EscapeChar(c) + EscapeSegment(rest)
  {
    var first := Replace([c], '\\', "\\\\");
    ReplaceConcat([c], rest, '\\', "\\\\");
    ReplaceConcat(first, Replace(rest, '\\', "\\\\"), ':', "\\:");
    assert Replace(first, ':', "\\:") == EscapeChar(c) by {
      ReplaceConcat("\\", "\\", ':', "\\:");
    }
  }

  function UnescapeSpec(s: string): string {
    if s == [] then ""
    else if s[0] == '\\' && |s| > 1 then [s[1]] + UnescapeSpec(s[2..])
    else [s[0]] + UnescapeSpec(s[1..])
  }

  method UnescapeSegment(segment: string) returns (name: string)
    ensures name == UnescapeSpec(segment)
  {
    name := "";
    var i := 0;
    while i < |segment|
      invariant 0 <= i <= |segment|
      invariant name + UnescapeSpec(segment[i..]) == UnescapeSpec(segment)
    {
      var c := segment[i];
      if c == '\\' && i + 1 < |segment| {
        name := name + [segment[i + 1]];
        i := i + 2;
      } else {
        name := name + [c];
        i := i + 1;
      }
    }
  }

  lemma {:induction false} UnescapeInvertsEscape(name: string)
    ensures UnescapeSpec(EscapeSegment(name)) == name
  {
    if name != [] {
      var c, rest := name[0], name[1..];
      assert name == [c] + rest;
      EscapeStep(c, rest);
      var e := EscapeSegment(name);
      assert e[|EscapeChar(c)|..] == EscapeSegment(rest);
      UnescapeInvertsEscape(rest);
    }
  }

  // ----- Splitting and printing -----

  /** The raw segments of `s`, the first of them continuing `current`. */
  function RawSegments(s: string, current: string): (r: seq<string>)
    ensures |r| > 0
  {
    if s == [] then [current]
    else if s[0] == '\\' && |s| > 1 then RawSegments(s[2..], current + [s[1]])
    else if s[0] == ':' then [current] + RawSegments(s[1..], "")
    else RawSegments(s[1..], current + [s[0]])
  }

  function SplitSpec(identifier: string): Option<seq<string>> {
    var stripped := StripAll(RawSegments(identifier, ""));
    if "" in stripped then None else Some(stripped)
  }

  method SplitPath(identifier: string) returns (r: Option<seq<string>>)
    ensures r == SplitSpec(identifier)
  {
    var raw: seq<string> := [];
    var current := "";
    var i := 0;
    while i < |identifier|
      invariant 0 <= i <= |identifier|
      invariant raw + RawSegments(identifier[i..], current) == RawSegments(identifier, "")
    {
      var c := identifier[i];
      if c == '\\' && i + 1 < |identifier| {
        current := current + [identifier[i + 1]];
        i := i + 2;
      } else if c == ':' {
        raw, current := raw + [current], "";
        i := i + 1;
      } else {
        current := current + [c];
        i := i + 1;
      }
    }
    raw := raw + [current];
    var stripped := StripAll(raw);
    r := if exists j | 0 <= j < |stripped| :: stripped[j] == "" then None else Some(stripped);
  }

  function EscapeAll(names: seq<string>): (r: seq<string>)
    ensures |r| == |names| && forall i | 0 <= i < |r| :: r[i] == EscapeSegment(names[i])
  {
    seq(|names|, i requires 0 <= i < |names| => EscapeSegment(names[i]))
  }

  function Print(names: seq<string>): string {
    Join(":", EscapeAll(names))
  }

  /** The lists that a path can name: at least one segment, none empty, none with whitespace at an end. */
  predicate Printable(names: seq<string>) {
    |names| > 0 && forall i | 0 <= i < |names| :: names[i] != "" && Trimmed(names[i])
  }

  /** An escaped segment is read back whole, whatever is already pending and whatever follows it. */
  lemma {:induction false} ReadSegment(name: string, rest: string, current: string)
    requires rest == "" || rest[0] == ':'
    ensures RawSegments(EscapeSegment(name) + rest, current) == RawSegments(rest, current + name)
  {
    if name == [] {
      assert EscapeSegment(name) + rest == rest;
      assert current + name == current;
    } else {
      var c, tail := name[0], name[1..];
      assert name == [c] + tail;
      EscapeStep(c, tail);
      var s := EscapeSegment(name) + rest;
      assert s[|EscapeChar(c)|..] == EscapeSegment(tail) + rest;
      ReadSegment(tail, rest, current + [c]);
      assert current + [c] + tail == current + name;
    }
  }

  lemma {:induction false} RawSegmentsOfPrint(names: seq<string>)
    requires |names| > 0
    ensures RawSegments(Print(names), "") == names
  {
    var e := EscapeAll(names);
    if |names| == 1 {
      ReadSegment(names[0], "", "");
      assert EscapeSegment(names[0]) + "" == Print(names) && "" + names[0] == names[0];
    } else {
      assert e[1..] == EscapeAll(names[1..]);
      var rest := ":" + Print(names[1..]);
      assert Print(names) == EscapeSegment(names[0]) + rest;
      ReadSegment(names[0], rest, "");
      assert rest[1..] == Print(names[1..]) && "" + names[0] == names[0];
      RawSegmentsOfPrint(names[1..]);
    }
  }

  /** Splitting undoes printing on exactly the printable lists. */
  lemma PrintThenSplit(names: seq<string>)
    ensures SplitSpec(Print(names)) == Some(names) <==> Printable(names)
  {
    if |names| > 0 {
      RawSegmentsOfPrint(names);
      forall i | 0 <= i < |names| {
        StripFixedPoints(names[i]);
      }
      if Printable(names) {
        assert StripAll(names) == names;
      }
    }
  }

  /** Printing the segments of any accepted identifier and splitting again gives the same segments. */
  lemma SplitThenPrint(identifier: string)
    ensures SplitSpec(identifier).Some? ==> Printable(SplitSpec(identifier).value)
    ensures SplitSpec(identifier).Some? ==> SplitSpec(Print(SplitSpec(identifier).value)) == SplitSpec(identifier)
  {
    var raw := RawSegments(identifier, "");
    forall i | 0 <= i < |raw| {
      StripFixedPoints(raw[i]);
    }
    if SplitSpec(identifier).Some? {
      PrintThenSplit(SplitSpec(identifier).value);
    }
  }

  /** No two lists of names share a printed path; this needs neither trimming nor non-empty names. */
  lemma PrintInjective(a: seq<string>, b: seq<string>)
    requires |a| > 0 && |b| > 0 && Print(a) == Print(b)
    ensures a == b
  {
    RawSegmentsOfPrint(a);
    RawSegmentsOfPrint(b);
  }

  // ----- Walking the chart -----

  /** What the printers read of an account; `K` is the key type of the chart (a string in the CLI, a UUID in reports). */
  datatype Entry<+K> = Entry(name: string, kind: string, parent: Option<K>)

  const ORPHAN_PARENT_MARKER := "?"

  /** The five stored account types. */
  predicate StoredKind(kind: string) {
    kind == "asset" || kind == "liability" || kind == "equity" || kind == "income" || kind == "expense"
  }

  function Capitalize(s: string): string
    requires s != ""
  {
    [if 'a' <= s[0] <= 'z' then (s[0] as int - 32) as char else s[0]] + Lower(s[1..])
  }

  function TypeLabel(kind: string): string {
    var k := Lower(kind);
    if k == "asset" then "Asset"
    else if k == "liability" then "Liability"
    else if k == "equity" then "Equity"
    else if k == "income" then "Income"
    else if k == "expense" then "Expense"
    else if k != "" then Capitalize(k) else "?"
  }

  /** The labels of the five account types, and what stands for an empty type. */
  lemma TypeLabels()
    ensures TypeLabel("asset") == "Asset" && TypeLabel("liability") == "Liability" && TypeLabel("equity") == "Equity"
    ensures TypeLabel("income") == "Income" && TypeLabel("expense") == "Expense" && TypeLabel("") == "?"
  {
    LowerFixed("asset");
    LowerFixed("liability");
    LowerFixed("equity");
    LowerFixed("income");
    LowerFixed("expense");
  }

  lemma LowerFixed(s: string)
    requires forall i | 0 <= i < |s| :: 'a' <= s[i] <= 'z'
    ensures Lower(s) == s
  {
  }

  /** The escaped names met walking up from `cur`, leaf first; ids in `seen` were visited earlier. */
  function NamesUp<K(==)>(chart: map<K, Entry<K>>, cur: K, seen: set<K>): seq<string>
    requires cur in chart
    decreases chart.Keys - seen
  {
    if cur in seen then []
    else
      [EscapeSegment(chart[cur].name)] +
      match chart[cur].parent
      case None => []
      case Some(p) => if p in chart then NamesUp(chart, p, seen + {cur}) else [ORPHAN_PARENT_MARKER]
  }

  function Reverse<T>(s: seq<T>): seq<T> {
    if s == [] then [] else Reverse(s[1..]) + [s[0]]
  }

  function PathSpec<K(==)>(chart: map<K, Entry<K>>, id: K, raw: string): string {
    if id !in chart then raw
    else Join(":", [TypeLabel(chart[id].kind)] + Reverse(NamesUp(chart, id, {})))
  }

  /** `account_path`: terminates on every chart, because each turn adds an unseen id to `seen`. */
  method AccountPath<K(==)>(accountId: K, byId: map<K, Entry<K>>, raw: string) returns (path: string)
    ensures path == PathSpec(byId, accountId, raw)
  {
    if accountId !in byId {
      return raw;
    }
    var names: seq<string> := [];
    var seen: set<K> := {};
    var cur := Some(accountId);
    while cur.Some?
      invariant cur.Some? ==> cur.value in byId
      invariant names + (if cur.Some? then NamesUp(byId, cur.value, seen) else []) == NamesUp(byId, accountId, {})
      decreases byId.Keys - seen, cur.Some?
    {
      var id := cur.value;
      if id in seen {
        break;
      }
      ghost var before := seen;
      seen := seen + {id};
      assert byId.Keys - seen < byId.Keys - before;
      names := names + [EscapeSegment(byId[id].name)];
      match byId[id].parent {
        case None =>
          cur := None;
        case Some(p) =>
          if p !in byId {
            names := names + [ORPHAN_PARENT_MARKER];
            cur := None;
          } else {
            cur := Some(p);
          }
      }
    }
    assert names == NamesUp(byId, accountId, {});
    path := Join(":", [TypeLabel(byId[accountId].kind)] + Reverse(names));
  }

  // ----- What the printed names are -----

  /** `line` climbs from `id` through parent links until no further account is reachable. */
  predicate FullLine<K(==)>(chart: map<K, Entry<K>>, id: K, line: seq<K>) {
    && |line| > 0 && line[0] == id && id in chart
    && match chart[id].parent
       case None => |line| == 1
       case Some(p) => if p in chart then FullLine(chart, p, line[1..]) else |line| == 1
  }

  /** The chain runs into a parent that is missing from the chart. */
  predicate Dangling<K(==)>(chart: map<K, Entry<K>>, line: seq<K>) {
    line != [] && var last := line[|line| - 1]; last in chart && chart[last].parent.Some? && chart[last].parent.value !in chart
  }

  lemma {:induction false} FullLineUnique<K>(chart: map<K, Entry<K>>, id: K, a: seq<K>, b: seq<K>)
    requires FullLine(chart, id, a) && FullLine(chart, id, b)
    ensures a == b
    decreases |a|
  {
    if |a| > 1 {
      FullLineUnique(chart, chart[id].parent.value, a[1..], b[1..]);
    }
    assert a == [id] + a[1..] && b == [id] + b[1..];
  }

  lemma {:induction false} FullLineSuffix<K>(chart: map<K, Entry<K>>, id: K, line: seq<K>, i: nat)
    requires FullLine(chart, id, line) && i < |line|
    ensures FullLine(chart, line[i], line[i..])
  {
    if i == 0 {
      assert line[0..] == line;
    } else {
      FullLineSuffix(chart, chart[id].parent.value, line[1..], i - 1);
      assert line[1..][i - 1..] == line[i..];
    }
  }

  lemma FullLineDistinct<K>(chart: map<K, Entry<K>>, id: K, line: seq<K>)
    requires FullLine(chart, id, line)
    ensures forall i, j | 0 <= i < j < |line| :: line[i] != line[j]
  {
    forall i, j | 0 <= i < j < |line|
      ensures line[i] != line[j]
    {
      FullLineSuffix(chart, id, line, i);
      FullLineSuffix(chart, id, line, j);
      if line[i] == line[j] {
        FullLineUnique(chart, line[i], line[i..], line[j..]);
        assert false;
      }
    }
  }

  function NamesOf<K(==)>(chart: map<K, Entry<K>>, line: seq<K>): (r: seq<string>)
    requires forall i | 0 <= i < |line| :: line[i] in chart
    ensures |r| == |line| && forall i | 0 <= i < |r| :: r[i] == chart[line[i]].name
  {
    seq(|line|, i requires 0 <= i < |line| => chart[line[i]].name)
  }

  lemma {:induction false} FullLineInChart<K>(chart: map<K, Entry<K>>, id: K, line: seq<K>)
    requires FullLine(chart, id, line)
    ensures forall i | 0 <= i < |line| :: line[i] in chart
  {
    forall i | 0 <= i < |line| {
      FullLineSuffix(chart, id, line, i);
    }
  }

  /** What stands before the names: one "?" if the chain dangles. */
  function Marker<K(==)>(chart: map<K, Entry<K>>, line: seq<K>): seq<string> {
    if Dangling(chart, line) then [ORPHAN_PARENT_MARKER] else []
  }

  lemma EscapedNamesCons<K>(chart: map<K, Entry<K>>, line: seq<K>)
    requires line != [] && forall i | 0 <= i < |line| :: line[i] in chart
    ensures EscapeAll(NamesOf(chart, line)) == [EscapeSegment(chart[line[0]].name)] + EscapeAll(NamesOf(chart, line[1..]))
  {
  }

  lemma {:induction false} NamesUpOfLine<K>(chart: map<K, Entry<K>>, id: K, line: seq<K>, seen: set<K>)
    requires FullLine(chart, id, line)
    requires forall i | 0 <= i < |line| :: line[i] !in seen
    ensures forall i | 0 <= i < |line| :: line[i] in chart
    ensures NamesUp(chart, id, seen) == EscapeAll(NamesOf(chart, line)) + Marker(chart, line)
    decreases |line|
  {
    FullLineInChart(chart, id, line);
    EscapedNamesCons(chart, line);
    if |line| == 1 {
      assert EscapeAll(NamesOf(chart, line[1..])) == [];
    } else {
      FullLineDistinct(chart, id, line);
      NamesUpOfLine(chart, chart[id].parent.value, line[1..], seen + {id});
      assert line[1..][|line| - 2] == line[|line| - 1];
      assert Marker(chart, line[1..]) == Marker(chart, line);
    }
  }

  lemma {:induction false} ReverseAppend<T>(a: seq<T>, b: seq<T>)
    ensures Reverse(a + b) == Reverse(b) + Reverse(a)
  {
    if a == [] {
      assert a + b == b;
    } else {
      assert (a + b)[1..] == a[1..] + b;
      ReverseAppend(a[1..], b);
    }
  }

  lemma {:induction false} ReverseAt<T>(s: seq<T>)
    ensures |Reverse(s)| == |s|
    ensures forall i | 0 <= i < |s| :: Reverse(s)[i] == s[|s| - 1 - i]
  {
    if s != [] {
      ReverseAt(s[1..]);
    }
  }

  /**
    Whenever the climb from `id` ends, as it does on every acyclic chart (`AcyclicHasLine`), the printed path is the type
    label, then one "?" exactly if the chain dangles, then the names of exactly the ancestors, root to leaf.
    */
  lemma PathListsAncestors<K>(chart: map<K, Entry<K>>, id: K, line: seq<K>, raw: string)
    requires FullLine(chart, id, line)
    ensures forall i | 0 <= i < |Reverse(line)| :: Reverse(line)[i] in chart
    ensures PathSpec(chart, id, raw) ==
            Join(":", [TypeLabel(chart[id].kind)] + Marker(chart, line) + EscapeAll(NamesOf(chart, Reverse(line))))
  {
    FullLineInChart(chart, id, line);
    ReverseAt(line);
    NamesUpOfLine(chart, id, line, {});
    var head, marker := [TypeLabel(chart[id].kind)], Marker(chart, line);
    ReverseAppend(EscapeAll(NamesOf(chart, line)), marker);
    assert Reverse(marker) == marker;
    ReversedNames(chart, line);
    assert head + (marker + EscapeAll(NamesOf(chart, Reverse(line)))) == head + marker + EscapeAll(NamesOf(chart, Reverse(line)));
  }

  /** No chain of parents comes back to where it was: some rank falls with every step to a parent that exists. */
  predicate Ranked<K(==)>(chart: map<K, Entry<K>>, rank: map<K, nat>) {
    && chart.Keys <= rank.Keys
    && forall k | k in chart && chart[k].parent.Some? && chart[k].parent.value in chart :: rank[chart[k].parent.value] < rank[k]
  }

  /** On an acyclic chart every climb ends, at a root or at a parent that is missing. */
  lemma {:induction false} AcyclicHasLine<K>(chart: map<K, Entry<K>>, rank: map<K, nat>, id: K) returns (line: seq<K>)
    requires Ranked(chart, rank) && id in chart
    ensures FullLine(chart, id, line)
    ensures var top := line[|line| - 1]; top in chart && (Dangling(chart, line) <==> chart[top].parent.Some?)
    decreases rank[id]
  {
    match chart[id].parent {
      case None => line := [id];
      case Some(p) =>
        if p in chart {
          var rest := AcyclicHasLine(chart, rank, p);
          line := [id] + rest;
          assert line[1..] == rest && line[|line| - 1] == rest[|rest| - 1];
        } else {
          line := [id];
        }
    }
  }

  lemma ReversedNames<K>(chart: map<K, Entry<K>>, line: seq<K>)
    requires forall i | 0 <= i < |line| :: line[i] in chart
    ensures forall i | 0 <= i < |Reverse(line)| :: Reverse(line)[i] in chart
    ensures Reverse(EscapeAll(NamesOf(chart, line))) == EscapeAll(NamesOf(chart, Reverse(line)))
  {
    ReverseAt(line);
    ReverseAt(EscapeAll(NamesOf(chart, line)));
  }

  /** On a cyclic chart the walk stops too: it lists at most one name per account, plus the marker. */
  lemma {:induction false} NamesUpBounded<K>(chart: map<K, Entry<K>>, cur: K, seen: set<K>)
    requires cur in chart && seen <= chart.Keys
    ensures |NamesUp(chart, cur, seen)| <= |chart.Keys - seen| + 1
    decreases chart.Keys - seen
  {
    if cur !in seen {
      var rest := chart.Keys - (seen + {cur});
      assert chart.Keys - seen == rest + {cur};
      if chart[cur].parent.Some? && chart[cur].parent.value in chart {
        NamesUpBounded(chart, chart[cur].parent.value, seen + {cur});
      }
    }
  }

  // ----- The two copies agree -----

  /** The CLI's JSON chart `cli` lists the same accounts as the ORM chart `orm`, keyed by the printed ids. */
  ghost predicate SameChart<K(!new)>(orm: map<K, Entry<K>>, cli: map<string, Entry<string>>, str: K -> string) {
    && (forall a, b :: str(a) == str(b) ==> a == b)
    && (forall k :: k in orm <==> str(k) in cli)
    && forall k | k in orm ::
         && cli[str(k)].name == orm[k].name && cli[str(k)].kind == orm[k].kind
         && cli[str(k)].parent == if orm[k].parent.Some? then Some(str(orm[k].parent.value)) else None
  }

  lemma {:induction false} NamesUpAgree<K(!new)>(
      orm: map<K, Entry<K>>, cli: map<string, Entry<string>>, str: K -> string, cur: K, seen: set<K>, seenCli: set<string>)
    requires SameChart(orm, cli, str) && cur in orm
    requires forall k :: k in seen <==> str(k) in seenCli
    ensures NamesUp(orm, cur, seen) == NamesUp(cli, str(cur), seenCli)
    decreases orm.Keys - seen
  {
    if cur !in seen && orm[cur].parent.Some? && orm[cur].parent.value in orm {
      NamesUpAgree(orm, cli, str, orm[cur].parent.value, seen + {cur}, seenCli + {str(cur)});
    }
  }

  /** `tulip_cli` and `tulip_reports` print the same string for every account id, known or not, cyclic charts included. */
  lemma CopiesAgree<K(!new)>(orm: map<K, Entry<K>>, cli: map<string, Entry<string>>, str: K -> string, id: K)
    requires SameChart(orm, cli, str)
    ensures PathSpec(orm, id, str(id)) == PathSpec(cli, str(id), str(id))
  {
    if id in orm {
      NamesUpAgree(orm, cli, str, id, {}, {});
    }
  }
}
