/** The scanner for `!Account` declarations in a QIF file, given as the lines of its text. */
module QifAccounts {
  import opened Results
  import opened Strings

  datatype Declaration = Declaration(name: string, kind: string)

  // ----- Lines -----

  /** `rstrip("\r")` */
  function DropReturns(line: string): string {
    if line != "" && line[|line| - 1] == '\r' then DropReturns(line[..|line| - 1]) else line
  }

  function Cleaned(raw: seq<string>): (r: seq<string>)
    ensures |r| == |raw| && forall i | 0 <= i < |r| :: r[i] == DropReturns(raw[i])
  {
    seq(|raw|, i requires 0 <= i < |raw| => DropReturns(raw[i]))
  }

  predicate IsBlank(line: string) {
    Strip(line) == ""
  }

  predicate Starts(line: string, tag: char) {
    !IsBlank(line) && line != "" && line[0] == tag
  }

  predicate IsHeader(line: string) {
    Starts(line, '!')
  }

  predicate OpensAccounts(line: string) {
    Lower(Strip(line)) == "!account"
  }

  const TERMINATOR := "^"

  // ----- What a file declares, looking back from each terminator -----

  /** Line `i` is in an account section: the last header before it opened one. */
  predicate InAccounts(lines: seq<string>, i: nat)
    requires i <= |lines|
  {
    i > 0 && if IsHeader(lines[i - 1]) then OpensAccounts(lines[i - 1]) else InAccounts(lines, i - 1)
  }

  /** The value of the last line with this tag before line `i`, within the record; empty if there is none. */
  function Pending(lines: seq<string>, i: nat, tag: char): string
    requires i <= |lines|
  {
    if i == 0 || IsHeader(lines[i - 1]) || lines[i - 1] == TERMINATOR then ""
    else if Starts(lines[i - 1], tag) then Strip(lines[i - 1][1..])
    else Pending(lines, i - 1, tag)
  }

  /** A terminator in an account section completes a record if it has a name. */
  predicate Completes(lines: seq<string>, i: nat)
    requires i < |lines|
  {
    lines[i] == TERMINATOR && InAccounts(lines, i) && Pending(lines, i, 'N') != ""
  }

  /** The completed records, in order, with repetitions. */
  function Completions(lines: seq<string>, n: nat): seq<Declaration>
    requires n <= |lines|
  {
    if n == 0 then []
    else
      var before := Completions(lines, n - 1);
      if Completes(lines, n - 1) then before + [Declaration(Pending(lines, n - 1, 'N'), Pending(lines, n - 1, 'T'))] else before
  }

  predicate Names(ds: seq<Declaration>, name: string) {
    exists i | 0 <= i < |ds| :: ds[i].name == name
  }

  /** The first declaration of each name. */
  function FirstPerName(ds: seq<Declaration>): seq<Declaration> {
    if ds == [] then []
    else
      var front, d := ds[..|ds| - 1], ds[|ds| - 1];
      if Names(front, d.name) then FirstPerName(front) else FirstPerName(front) + [d]
  }

  function ScanSpec(raw: seq<string>): seq<Declaration> {
    FirstPerName(Completions(Cleaned(raw), |raw|))
  }

  // ----- The scanner -----

  lemma {:induction false} FirstPerNameNames(ds: seq<Declaration>, name: string)
    ensures Names(FirstPerName(ds), name) <==> Names(ds, name)
  {
    if ds != [] {
      var front, d := ds[..|ds| - 1], ds[|ds| - 1];
      FirstPerNameNames(front, name);
      NamesAppend(front, d, name);
      NamesAppend(FirstPerName(front), d, name);
      assert ds == front + [d];
    }
  }

  lemma NamesAppend(ds: seq<Declaration>, d: Declaration, name: string)
    ensures Names(ds + [d], name) <==> Names(ds, name) || d.name == name
  {
    if Names(ds, name) {
      var i :| 0 <= i < |ds| && ds[i].name == name;
      assert (ds + [d])[i].name == name;
    }
    assert (ds + [d])[|ds|] == d;
  }

  lemma FirstPerNameAppend(ds: seq<Declaration>, d: Declaration)
    ensures FirstPerName(ds + [d]) == if Names(ds, d.name) then FirstPerName(ds) else FirstPerName(ds) + [d]
  {
    assert (ds + [d])[..|ds|] == ds;
  }

  /** The truthy part of an optional string. */
  predicate Shows(o: Option<string>, s: string) {
    if s == "" then o.None? else o == Some(s)
  }

  function OrNone(s: string): Option<string> {
    if s == "" then None else Some(s)
  }

  lemma TerminatorIsNotBlank()
    ensures !IsBlank(TERMINATOR)
  {
    StripFixedPoints(TERMINATOR);
  }

  /** `list_account_declarations`; no text at all, if the bytes are not UTF-8. */
  method ListAccountDeclarations(text: Option<seq<string>>) returns (out: seq<Declaration>)
    ensures out == if text.None? then [] else ScanSpec(text.value)
  {
    if text.None? {
      return [];
    }
    out := ScanLines(text.value);
  }

  method ScanLines(raw: seq<string>) returns (out: seq<Declaration>)
    ensures out == ScanSpec(raw)
  {
    ghost var lines := Cleaned(raw);
    out := [];
    var seen: set<string> := {};
    var inBlock, name: Option<string>, kind: Option<string> := false, None, None;
    var i := 0;
    while i < |raw|
      invariant i <= |raw|
      invariant inBlock == InAccounts(lines, i)
      invariant inBlock ==> Shows(name, Pending(lines, i, 'N')) && Shows(kind, Pending(lines, i, 'T'))
      invariant out == FirstPerName(Completions(lines, i))
      invariant forall n :: n in seen <==> Names(out, n)
    {
      var line := DropReturns(raw[i]);
      TerminatorIsNotBlank();
      if Strip(line) == "" {
      } else if line[0] == '!' {
        inBlock := Lower(Strip(line)) == "!account";
        name, kind := None, None;
      } else if !inBlock {
      } else if line[0] == 'N' {
        name := OrNone(Strip(line[1..]));
      } else if line[0] == 'T' {
        kind := OrNone(Strip(line[1..]));
      } else if line == TERMINATOR {
        ghost var before := Completions(lines, i);
        ghost var d := Declaration(Pending(lines, i, 'N'), Pending(lines, i, 'T'));
        assert Completes(lines, i) <==> name.Some?;
        FirstPerNameAppend(before, d);
        FirstPerNameNames(before, d.name);
        if name.Some? && name.value !in seen {
          ghost var known := out;
          out := out + [Declaration(name.value, if kind.Some? then kind.value else "")];
          seen := seen + {name.value};
          forall n
            ensures n in seen <==> Names(out, n)
          {
            NamesAppend(known, d, n);
            assert out == known + [d];
          }
        }
        name, kind := None, None;
      }
      i := i + 1;
    }
  }

  // ----- First per name -----

  predicate DistinctNames(ds: seq<Declaration>) {
    forall i, j | 0 <= i < j < |ds| :: ds[i].name != ds[j].name
  }

  lemma {:induction false} FirstPerNameDistinct(ds: seq<Declaration>)
    ensures DistinctNames(FirstPerName(ds))
  {
    if ds != [] {
      FirstPerNameDistinct(ds[..|ds| - 1]);
      FirstPerNameNames(ds[..|ds| - 1], ds[|ds| - 1].name);
    }
  }

  lemma {:induction false} DistinctIsFirst(ds: seq<Declaration>)
    requires DistinctNames(ds)
    ensures FirstPerName(ds) == ds
  {
    if ds != [] {
      DistinctIsFirst(ds[..|ds| - 1]);
    }
  }

  /** Those of `ds` whose name is not among `known`. */
  function Others(ds: seq<Declaration>, known: seq<Declaration>): seq<Declaration> {
    if ds == [] then []
    else
      Others(ds[..|ds| - 1], known) + if Names(known, ds[|ds| - 1].name) then [] else [ds[|ds| - 1]]
  }

  lemma {:induction false} FirstPerNameConcat(a: seq<Declaration>, b: seq<Declaration>)
    ensures FirstPerName(a + b) == FirstPerName(a) + Others(FirstPerName(b), a)
  {
    if b == [] {
      assert a + b == a;
    } else {
      var front, d := b[..|b| - 1], b[|b| - 1];
      FirstPerNameConcat(a, front);
      assert a + b == (a + front) + [d] && b == front + [d];
      ConcatStep(a, front, d);
    }
  }

  lemma ConcatStep(a: seq<Declaration>, front: seq<Declaration>, d: Declaration)
    requires FirstPerName(a + front) == FirstPerName(a) + Others(FirstPerName(front), a)
    ensures FirstPerName((a + front) + [d]) == FirstPerName(a) + Others(FirstPerName(front + [d]), a)
  {
    FirstPerNameAppend(a + front, d);
    FirstPerNameAppend(front, d);
    NamesConcat(a, front, d.name);
    OthersAppend(FirstPerName(front), d, a);
  }

  lemma OthersAppend(ds: seq<Declaration>, d: Declaration, known: seq<Declaration>)
    ensures Others(ds + [d], known) == Others(ds, known) + if Names(known, d.name) then [] else [d]
  {
    assert (ds + [d])[..|ds|] == ds;
  }

  lemma NamesConcat(a: seq<Declaration>, b: seq<Declaration>, name: string)
    ensures Names(a + b, name) <==> Names(a, name) || Names(b, name)
  {
    if Names(a, name) {
      var i :| 0 <= i < |a| && a[i].name == name;
      assert (a + b)[i].name == name;
    } else if Names(b, name) {
      var i :| 0 <= i < |b| && b[i].name == name;
      assert (a + b)[|a| + i].name == name;
    }
  }

  // ----- Sections -----

  /** Looking back never passes a header. */
  lemma {:induction false} HeaderCuts(a: seq<string>, b: seq<string>, i: nat)
    requires b != [] && IsHeader(b[0]) && 0 < i <= |b|
    ensures InAccounts(a + b, |a| + i) == InAccounts(b, i)
    ensures Pending(a + b, |a| + i, 'N') == Pending(b, i, 'N') && Pending(a + b, |a| + i, 'T') == Pending(b, i, 'T')
  {
    assert (a + b)[|a| + i - 1] == b[i - 1];
    if i > 1 {
      HeaderCuts(a, b, i - 1);
    }
  }

  lemma {:induction false} CompletionsPrefix(lines: seq<string>, more: seq<string>, n: nat)
    requires n <= |lines|
    ensures InAccounts(lines + more, n) == InAccounts(lines, n)
    ensures Pending(lines + more, n, 'N') == Pending(lines, n, 'N') && Pending(lines + more, n, 'T') == Pending(lines, n, 'T')
    ensures Completions(lines + more, n) == Completions(lines, n)
  {
    if n > 0 {
      CompletionsPrefix(lines, more, n - 1);
    }
  }

  lemma {:induction false} CompletionsCompose(a: seq<string>, b: seq<string>, i: nat)
    requires b != [] && IsHeader(b[0]) && 0 < i <= |b|
    ensures Completions(a + b, |a| + i) == Completions(a, |a|) + Completions(b, i)
  {
    assert (a + b)[|a| + i - 1] == b[i - 1];
    if i == 1 {
      CompletionsPrefix(a, b, |a|);
      HeaderIsNoTerminator(b[0]);
      assert Completions(b, 1) == [];
    } else {
      CompletionsCompose(a, b, i - 1);
      HeaderCuts(a, b, i - 1);
    }
  }

  lemma HeaderIsNoTerminator(line: string)
    requires IsHeader(line)
    ensures line != TERMINATOR
  {
  }

  lemma CleanedConcat(a: seq<string>, b: seq<string>)
    ensures Cleaned(a + b) == Cleaned(a) + Cleaned(b)
  {
  }

  lemma CleanedCompose(a: seq<string>, b: seq<string>)
    requires b != [] && IsHeader(DropReturns(b[0]))
    ensures Completions(Cleaned(a + b), |a + b|) == Completions(Cleaned(a), |a|) + Completions(Cleaned(b), |b|)
  {
    var n := |b|;
    CleanedConcat(a, b);
    CompletionsCompose(Cleaned(a), Cleaned(b), n);
  }

  /** A header cuts the input: the result is that of the part before, then what the rest adds in new names. */
  lemma SectionsCompose(a: seq<string>, b: seq<string>)
    requires b != [] && IsHeader(DropReturns(b[0]))
    ensures ScanSpec(a + b) == ScanSpec(a) + Others(ScanSpec(b), Completions(Cleaned(a), |a|))
  {
    CleanedCompose(a, b);
    FirstPerNameConcat(Completions(Cleaned(a), |a|), Completions(Cleaned(b), |b|));
  }

  lemma {:induction false} QuietPrefix(lines: seq<string>, n: nat)
    requires 0 < n <= |lines| && !OpensAccounts(lines[0]) && IsHeader(lines[0])
    requires forall i | 0 < i < |lines| :: !IsHeader(lines[i])
    ensures !InAccounts(lines, n) && Completions(lines, n) == []
  {
    HeaderIsNoTerminator(lines[0]);
    if n > 1 {
      QuietPrefix(lines, n - 1);
    } else {
      assert Completions(lines, 0) == [];
    }
  }

  /** A section that is not an account section contributes nothing, wherever it stands. */
  lemma OtherSectionsAddNothing(a: seq<string>, section: seq<string>)
    requires section != [] && IsHeader(DropReturns(section[0])) && !OpensAccounts(DropReturns(section[0]))
    requires forall i | 0 < i < |section| :: !IsHeader(DropReturns(section[i]))
    ensures ScanSpec(a + section) == ScanSpec(a)
  {
    SectionsCompose(a, section);
    QuietPrefix(Cleaned(section), |section|);
  }

  // ----- Rendering -----

  function Record(d: Declaration): seq<string> {
    ["N" + d.name, "T" + d.kind, TERMINATOR]
  }

  function Render(ds: seq<Declaration>): (r: seq<string>)
    ensures |r| == 1 + 3 * |ds|
  {
    if ds == [] then ["!Account"] else Render(ds[..|ds| - 1]) + Record(ds[|ds| - 1])
  }

  /** What the scanner can return, and what it can be given to read back. */
  predicate WellFormed(d: Declaration) {
    d.name != "" && Trimmed(d.name) && Trimmed(d.kind)
  }

  lemma TaggedLine(tag: string, value: string)
    requires |tag| == 1 && !IsSpace(tag[0]) && Trimmed(value)
    ensures DropReturns(tag + value) == tag + value && Starts(tag + value, tag[0])
    ensures (tag + value)[1..] == value && Strip(value) == value
  {
    var line := tag + value;
    assert line[0] == tag[0] && !IsSpace(line[|line| - 1]);
    assert Trimmed(line);
    StripFixedPoints(line);
    StripFixedPoints(value);
  }

  lemma HeaderLine()
    ensures DropReturns("!Account") == "!Account" && IsHeader("!Account") && OpensAccounts("!Account")
  {
    StripFixedPoints("!Account");
    var s := Lower("!Account");
    assert s == "!account";
  }

  lemma {:induction false} RenderClean(ds: seq<Declaration>)
    requires forall i | 0 <= i < |ds| :: WellFormed(ds[i])
    ensures Cleaned(Render(ds)) == Render(ds)
  {
    if ds == [] {
      HeaderLine();
    } else {
      var front, d := ds[..|ds| - 1], ds[|ds| - 1];
      RenderClean(front);
      TaggedLine("N", d.name);
      TaggedLine("T", d.kind);
      assert Cleaned(Record(d)) == Record(d);
      assert Cleaned(Render(ds)) == Cleaned(Render(front)) + Cleaned(Record(d));
    }
  }

  /** One more record completes one more declaration. */
  lemma RecordCompletes(lines: seq<string>, d: Declaration)
    requires lines != [] && WellFormed(d) && InAccounts(lines, |lines|)
    requires IsHeader(lines[|lines| - 1]) || lines[|lines| - 1] == TERMINATOR
    ensures var all := lines + Record(d);
            InAccounts(all, |all|) && Completions(all, |all|) == Completions(lines, |lines|) + [d]
  {
    var all, n := lines + Record(d), |lines|;
    CompletionsPrefix(lines, Record(d), n);
    TaggedLine("N", d.name);
    TaggedLine("T", d.kind);
    assert all[n - 1] == lines[n - 1] && all[n] == "N" + d.name && all[n + 1] == "T" + d.kind && all[n + 2] == TERMINATOR;
    assert all[n][0] == 'N' && all[n + 1][0] == 'T' && TERMINATOR[0] == '^';
    assert InAccounts(all, n + 1) && InAccounts(all, n + 2) && InAccounts(all, n + 3);
    assert Pending(all, n, 'T') == "" && Pending(all, n + 1, 'N') == d.name && Pending(all, n + 2, 'N') == d.name;
    assert Pending(all, n + 2, 'T') == d.kind;
    assert Completions(all, n + 1) == Completions(all, n) && Completions(all, n + 2) == Completions(all, n);
  }

  lemma {:induction false} RenderCompletes(ds: seq<Declaration>)
    requires forall i | 0 <= i < |ds| :: WellFormed(ds[i])
    ensures var lines := Render(ds);
            && InAccounts(lines, |lines|) && Completions(lines, |lines|) == ds
            && (IsHeader(lines[|lines| - 1]) || lines[|lines| - 1] == TERMINATOR)
  {
    if ds == [] {
      HeaderLine();
      HeaderIsNoTerminator("!Account");
      assert Completions(["!Account"], 1) == [];
    } else {
      RenderCompletes(ds[..|ds| - 1]);
      RecordCompletes(Render(ds[..|ds| - 1]), ds[|ds| - 1]);
      assert ds == ds[..|ds| - 1] + [ds[|ds| - 1]];
    }
  }

  /** Scanning the rendering of trimmed, named, distinct declarations returns them. */
  lemma RenderThenScan(ds: seq<Declaration>)
    requires DistinctNames(ds) && forall i | 0 <= i < |ds| :: WellFormed(ds[i])
    ensures ScanSpec(Render(ds)) == ds
  {
    RenderClean(ds);
    RenderCompletes(ds);
    DistinctIsFirst(ds);
  }

  // ----- Scanned declarations can be rendered again -----

  lemma {:induction false} PendingTrimmed(lines: seq<string>, i: nat, tag: char)
    requires i <= |lines|
    ensures Trimmed(Pending(lines, i, tag))
  {
    if i > 0 {
      PendingTrimmed(lines, i - 1, tag);
      if Starts(lines[i - 1], tag) {
        StripFixedPoints(lines[i - 1][1..]);
      }
    }
  }

  lemma {:induction false} CompletionsWellFormed(lines: seq<string>, n: nat)
    requires n <= |lines|
    ensures forall k | 0 <= k < |Completions(lines, n)| :: WellFormed(Completions(lines, n)[k])
  {
    if n > 0 {
      CompletionsWellFormed(lines, n - 1);
      PendingTrimmed(lines, n - 1, 'N');
      PendingTrimmed(lines, n - 1, 'T');
    }
  }

  lemma {:induction false} FirstPerNameWellFormed(ds: seq<Declaration>)
    requires forall k | 0 <= k < |ds| :: WellFormed(ds[k])
    ensures forall k | 0 <= k < |FirstPerName(ds)| :: WellFormed(FirstPerName(ds)[k])
  {
    if ds != [] {
      FirstPerNameWellFormed(ds[..|ds| - 1]);
    }
  }

  /** For every file: writing its declarations out and scanning that returns them unchanged. */
  lemma ScanThenRender(raw: seq<string>)
    ensures ScanSpec(Render(ScanSpec(raw))) == ScanSpec(raw)
  {
    var ds := Completions(Cleaned(raw), |raw|);
    CompletionsWellFormed(Cleaned(raw), |raw|);
    FirstPerNameWellFormed(ds);
    FirstPerNameDistinct(ds);
    RenderThenScan(FirstPerName(ds));
  }
}
