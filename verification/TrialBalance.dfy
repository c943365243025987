/** The trial balance: per-row rounding, the accumulated debit and credit totals, and how far apart the two can be. */
module TrialBalance {
  import opened Results
  import opened Legs
  import opened Ledger
  import opened LedgerInvariants
  import opened Money

  /** One (account, currency) group of the ledger query. */
  datatype RawRow = RawRow(account: nat, currency: string, balance: int, hasPending: bool)

  datatype Row = Row(account: nat, currency: string, balance: int, hasPending: bool)

  datatype View = View(private: bool, creator: nat)

  datatype CurrencyTotal = CurrencyTotal(debits: int, credits: int)

  datatype Report = Report(rows: seq<Row>, totals: map<string, CurrencyTotal>)

  /** The account is active and the caller may see it. */
  predicate Shown(r: RawRow, active: map<nat, View>, claims: Claims) {
    r.account in active
    && (!active[r.account].private || claims.admin || active[r.account].creator == claims.user)
  }

  /** `Money` refuses this row's currency. */
  predicate Refused(r: RawRow, active: map<nat, View>, claims: Claims) {
    Shown(r, active, claims) && r.currency !in KNOWN_CURRENCIES
  }

  predicate Readable(raw: seq<RawRow>, active: map<nat, View>, claims: Claims) {
    forall r | r in raw :: !Refused(r, active, claims)
  }

  /** The rows of the report: the shown groups, each rounded by itself. */
  function ReportRows(raw: seq<RawRow>, active: map<nat, View>, claims: Claims): seq<Row> {
    if raw == [] then []
    else
      var front, r := ReportRows(raw[..|raw| - 1], active, claims), raw[|raw| - 1];
      if Shown(r, active, claims) then front + [RowOf(r)] else front
  }

  function RowOf(r: RawRow): Row {
    Row(r.account, r.currency, Quantize(r.balance, r.currency), r.hasPending)
  }

  /** The caller sees the group: its account is active, and shared, their own, or they are an admin. */
  predicate Sees(r: RawRow, active: map<nat, View>, claims: Claims) {
    r.account in active && (active[r.account].private ==> claims.admin || active[r.account].creator == claims.user)
  }

  /** The report's rows are those of the groups that the caller sees, rounded by themselves. */
  lemma {:induction false} ReportRowsAre(raw: seq<RawRow>, active: map<nat, View>, claims: Claims, row: Row)
    ensures row in ReportRows(raw, active, claims) <==>
            exists i | 0 <= i < |raw| ::
              && Sees(raw[i], active, claims) && row.account == raw[i].account && row.currency == raw[i].currency
              && row.balance == Quantize(raw[i].balance, row.currency) && row.hasPending == raw[i].hasPending
  {
    if raw != [] {
      var n := |raw| - 1;
      ReportRowsAre(raw[..n], active, claims, row);
      assert Shown(raw[n], active, claims) <==> Sees(raw[n], active, claims);
      assert forall i | 0 <= i < n :: raw[..n][i] == raw[i];
    }
  }

  /** The sum of the positive rows of a currency. */
  function Debits(rows: seq<Row>, currency: string): int {
    if rows == [] then 0
    else
      var r := rows[|rows| - 1];
      Debits(rows[..|rows| - 1], currency) + if r.currency == currency && r.balance > 0 then r.balance else 0
  }

  /** The sum of the negated negative rows of a currency. */
  function Credits(rows: seq<Row>, currency: string): int {
    if rows == [] then 0
    else
      var r := rows[|rows| - 1];
      Credits(rows[..|rows| - 1], currency) + if r.currency == currency && r.balance < 0 then -r.balance else 0
  }

  predicate HasNonZero(rows: seq<Row>, currency: string) {
    exists i | 0 <= i < |rows| :: rows[i].currency == currency && rows[i].balance != 0
  }

  lemma DebitsAppend(rows: seq<Row>, r: Row, currency: string)
    ensures Debits(rows + [r], currency)
         == Debits(rows, currency) + if r.currency == currency && r.balance > 0 then r.balance else 0
    ensures Credits(rows + [r], currency)
         == Credits(rows, currency) + if r.currency == currency && r.balance < 0 then -r.balance else 0
    ensures HasNonZero(rows + [r], currency) <==> HasNonZero(rows, currency) || (r.currency == currency && r.balance != 0)
  {
    assert (rows + [r])[..|rows|] == rows;
    if HasNonZero(rows, currency) {
      var i :| 0 <= i < |rows| && rows[i].currency == currency && rows[i].balance != 0;
      assert (rows + [r])[i] == rows[i];
    }
    assert (rows + [r])[|rows|] == r;
  }

  /** What the two accumulators hold after `rows`. */
  ghost predicate Accumulated(rows: seq<Row>, debits: map<string, int>, credits: map<string, int>) {
    && (forall c | c in debits :: debits[c] == Debits(rows, c) && HasNonZero(rows, c))
    && (forall c | c in credits :: credits[c] == Credits(rows, c) && HasNonZero(rows, c))
    && (forall c | HasNonZero(rows, c) :: c in debits || c in credits)
    && (forall c {:trigger Debits(rows, c)} | c !in debits :: Debits(rows, c) == 0)
    && (forall c {:trigger Credits(rows, c)} | c !in credits :: Credits(rows, c) == 0)
  }

  /** `m.get(key, 0)` */
  function Get(m: map<string, int>, key: string): int {
    if key in m then m[key] else 0
  }

  /** `m.get(key, 0) + amount`, stored back. */
  function Bump(m: map<string, int>, key: string, amount: int): map<string, int> {
    m[key := Get(m, key) + amount]
  }

  lemma AccumulatedStep(rows: seq<Row>, r: Row, debits: map<string, int>, credits: map<string, int>)
    requires Accumulated(rows, debits, credits)
    ensures Accumulated(rows + [r],
                        if r.balance > 0 then Bump(debits, r.currency, r.balance) else debits,
                        if r.balance < 0 then Bump(credits, r.currency, -r.balance) else credits)
  {
    forall c: string
      ensures Debits(rows + [r], c) == Debits(rows, c) + if r.currency == c && r.balance > 0 then r.balance else 0
      ensures Credits(rows + [r], c) == Credits(rows, c) + if r.currency == c && r.balance < 0 then -r.balance else 0
      ensures HasNonZero(rows + [r], c) <==> HasNonZero(rows, c) || (r.currency == c && r.balance != 0)
    {
      DebitsAppend(rows, r, c);
    }
  }

  predicate Rounded(rows: seq<Row>) {
    forall i | 0 <= i < |rows| :: AtPrecision(rows[i].balance, rows[i].currency)
  }

  lemma {:induction false} TotalsAtPrecision(rows: seq<Row>, currency: string)
    requires Rounded(rows)
    ensures AtPrecision(Debits(rows, currency), currency) && AtPrecision(Credits(rows, currency), currency)
  {
    if rows != [] {
      var front, r := rows[..|rows| - 1], rows[|rows| - 1];
      TotalsAtPrecision(front, currency);
      if r.currency == currency {
        SumAtPrecision(Debits(front, currency), r.balance, currency);
        SumAtPrecision(r.balance, r.balance, currency);
        SumAtPrecision(Credits(front, currency), -r.balance, currency);
      }
    }
  }

  lemma ReportRowsStep(raw: seq<RawRow>, i: nat, active: map<nat, View>, claims: Claims)
    requires i < |raw|
    ensures var front := ReportRows(raw[..i], active, claims);
            ReportRows(raw[..i + 1], active, claims)
            == if Shown(raw[i], active, claims) then front + [RowOf(raw[i])] else front
  {
    assert raw[..i + 1][..i] == raw[..i];
  }

  /** One turn of the row loop: round, append, and add to the side that the sign says. */
  method AddRow(g: RawRow, rows: seq<Row>, debits: map<string, int>, credits: map<string, int>)
    returns (rows': seq<Row>, debits': map<string, int>, credits': map<string, int>)
    requires Rounded(rows) && Accumulated(rows, debits, credits)
    ensures rows' == rows + [RowOf(g)] && Rounded(rows') && Accumulated(rows', debits', credits')
  {
    var balance := Quantize(g.balance, g.currency);
    rows', debits', credits' := rows + [Row(g.account, g.currency, balance, g.hasPending)], debits, credits;
    QuantizeNear(g.balance, g.currency);
    AccumulatedStep(rows, RowOf(g), debits, credits);
    if balance > 0 {
      debits' := Bump(debits, g.currency, balance);
    } else if balance < 0 {
      credits' := Bump(credits, g.currency, -balance);
    }
  }

  /** The row loop. */
  method Accumulate(raw: seq<RawRow>, active: map<nat, View>, claims: Claims)
    returns (r: Result<(seq<Row>, map<string, int>, map<string, int>), LedgerError>)
    ensures !Readable(raw, active, claims) ==> r == Err(CurrencyUnknown)
    ensures Readable(raw, active, claims) ==>
              r.Ok? && r.value.0 == ReportRows(raw, active, claims) && Rounded(r.value.0)
              && Accumulated(r.value.0, r.value.1, r.value.2)
  {
    var rows: seq<Row> := [];
    var debits: map<string, int>, credits: map<string, int> := map[], map[];
    var i := 0;
    while i < |raw|
      invariant i <= |raw|
      invariant rows == ReportRows(raw[..i], active, claims) && Rounded(rows)
      invariant forall k | 0 <= k < i :: !Refused(raw[k], active, claims)
      invariant Accumulated(rows, debits, credits)
    {
      ReportRowsStep(raw, i, active, claims);
      if Refused(raw[i], active, claims) {
        return Err(CurrencyUnknown);
      }
      if Shown(raw[i], active, claims) {
        rows, debits, credits := AddRow(raw[i], rows, debits, credits);
      }
      i := i + 1;
    }
    assert raw[..i] == raw;
    r := Ok((rows, debits, credits));
  }

  /** The totals of one currency, rounded once more. */
  function TotalOf(debits: map<string, int>, credits: map<string, int>, c: string): CurrencyTotal {
    CurrencyTotal(Quantize(Get(debits, c), c), Quantize(Get(credits, c), c))
  }

  method TotalsOf(debits: map<string, int>, credits: map<string, int>) returns (totals: map<string, CurrencyTotal>)
    ensures totals.Keys == debits.Keys + credits.Keys
    ensures forall c | c in totals :: totals[c] == TotalOf(debits, credits, c)
  {
    var todo := debits.Keys + credits.Keys;
    totals := map[];
    while todo != {}
      invariant todo + totals.Keys == debits.Keys + credits.Keys
      invariant forall c | c in totals :: totals[c] == TotalOf(debits, credits, c)
      decreases |todo|
    {
      var c :| c in todo;
      totals := totals[c := TotalOf(debits, credits, c)];
      todo := todo - {c};
    }
  }

  /** The accumulators are sums of rounded rows, so rounding them again changes nothing. */
  lemma TotalRounds(rows: seq<Row>, debits: map<string, int>, credits: map<string, int>, c: string)
    requires Rounded(rows) && Accumulated(rows, debits, credits)
    ensures Quantize(Get(debits, c), c) == Debits(rows, c) && Quantize(Get(credits, c), c) == Credits(rows, c)
  {
    TotalsAtPrecision(rows, c);
    assert Get(debits, c) == Debits(rows, c) && Get(credits, c) == Credits(rows, c);
    QuantizeNear(Debits(rows, c), c);
    QuantizeNear(Credits(rows, c), c);
  }

  /** Rows in query order; totals per currency that has a row other than zero, positive rows against negated negative ones. */
  method BuildReport(raw: seq<RawRow>, active: map<nat, View>, claims: Claims) returns (r: Result<Report, LedgerError>)
    ensures !Readable(raw, active, claims) ==> r == Err(CurrencyUnknown)
    ensures Readable(raw, active, claims) ==>
              && r.Ok? && r.value.rows == ReportRows(raw, active, claims)
              && (forall c :: c in r.value.totals <==> HasNonZero(r.value.rows, c))
              && forall c | c in r.value.totals ::
                   r.value.totals[c] == CurrencyTotal(Debits(r.value.rows, c), Credits(r.value.rows, c))
  {
    var accumulated := Accumulate(raw, active, claims);
    if accumulated.Err? {
      return Err(accumulated.error);
    }
    var (rows, debits, credits) := accumulated.value;
    forall c | c in debits.Keys + credits.Keys
      ensures Quantize(Get(debits, c), c) == Debits(rows, c) && Quantize(Get(credits, c), c) == Credits(rows, c)
    {
      TotalRounds(rows, debits, credits, c);
    }
    var totals := TotalsOf(debits, credits);
    forall c
      ensures c in totals <==> HasNonZero(rows, c)
    {
      assert c in totals <==> c in debits.Keys + credits.Keys;
    }
    r := Ok(Report(rows, totals));
  }

  // ----- How far debits and credits can be apart -----

  function RawSum(raw: seq<RawRow>, active: map<nat, View>, claims: Claims, currency: string): int {
    if raw == [] then 0
    else
      var r := raw[|raw| - 1];
      RawSum(raw[..|raw| - 1], active, claims, currency)
      + if r.currency == currency && Shown(r, active, claims) then r.balance else 0
  }

  function RowCount(raw: seq<RawRow>, active: map<nat, View>, claims: Claims, currency: string): nat {
    if raw == [] then 0
    else
      var r := raw[|raw| - 1];
      RowCount(raw[..|raw| - 1], active, claims, currency) + if r.currency == currency && Shown(r, active, claims) then 1 else 0
  }

  /** What the rounding of the rows adds up to. */
  function Apart(raw: seq<RawRow>, active: map<nat, View>, claims: Claims, currency: string): int {
    var rows := ReportRows(raw, active, claims);
    Debits(rows, currency) - Credits(rows, currency) - RawSum(raw, active, claims, currency)
  }

  lemma ApartStep(raw: seq<RawRow>, active: map<nat, View>, claims: Claims, currency: string)
    requires raw != []
    ensures var front, r := raw[..|raw| - 1], raw[|raw| - 1];
            Apart(raw, active, claims, currency)
            == Apart(front, active, claims, currency)
               + if r.currency == currency && Shown(r, active, claims) then Quantize(r.balance, currency) - r.balance else 0
  {
    var front, r := raw[..|raw| - 1], raw[|raw| - 1];
    assert raw[..|front| + 1] == raw;
    ReportRowsStep(raw, |front|, active, claims);
    DebitsAppend(ReportRows(front, active, claims), RowOf(r), currency);
  }

  /** Debits minus credits is the sum of the shown balances, off by at most half a minor unit per row. */
  lemma {:induction false} TotalsFollowBalances(raw: seq<RawRow>, active: map<nat, View>, claims: Claims, currency: string)
    ensures var rows := ReportRows(raw, active, claims);
            2 * Abs(Debits(rows, currency) - Credits(rows, currency) - RawSum(raw, active, claims, currency))
            <= Quantum(currency) * RowCount(raw, active, claims, currency)
  {
    if raw != [] {
      var front, r := raw[..|raw| - 1], raw[|raw| - 1];
      TotalsFollowBalances(front, active, claims, currency);
      ApartStep(raw, active, claims, currency);
      if r.currency == currency && Shown(r, active, claims) {
        QuantizeNear(r.balance, currency);
        OneMoreRow(Quantum(currency), RowCount(front, active, claims, currency), Apart(front, active, claims, currency),
                   Quantize(r.balance, currency) - r.balance);
      }
    }
  }

  lemma OneMoreRow(q: int, n: nat, apart: int, more: int)
    requires 2 * Abs(apart) <= q * n && 2 * Abs(more) <= q
    ensures 2 * Abs(apart + more) <= q * (n + 1)
  {
    assert q * (n + 1) == q * n + q;
  }

  /** What rounding the shown rows of a currency adds to them. */
  function Drift(raw: seq<RawRow>, active: map<nat, View>, claims: Claims, currency: string): int {
    if raw == [] then 0
    else
      var r := raw[|raw| - 1];
      Drift(raw[..|raw| - 1], active, claims, currency)
      + if r.currency == currency && Shown(r, active, claims) then Quantize(r.balance, currency) - r.balance else 0
  }

  /** What the rows of a currency hold that are not shown to the caller. */
  function Hidden(raw: seq<RawRow>, active: map<nat, View>, claims: Claims, currency: string): int {
    if raw == [] then 0
    else
      var r := raw[|raw| - 1];
      Hidden(raw[..|raw| - 1], active, claims, currency)
      + if r.currency == currency && !Shown(r, active, claims) then r.balance else 0
  }

  lemma {:induction false} ApartIsDrift(raw: seq<RawRow>, active: map<nat, View>, claims: Claims, currency: string)
    ensures Apart(raw, active, claims, currency) == Drift(raw, active, claims, currency)
  {
    if raw != [] {
      ApartIsDrift(raw[..|raw| - 1], active, claims, currency);
      ApartStep(raw, active, claims, currency);
    }
  }

  /** With every balance already at minor-unit precision nothing drifts. */
  lemma {:induction false} NoDrift(raw: seq<RawRow>, active: map<nat, View>, claims: Claims, currency: string)
    requires forall i | 0 <= i < |raw| && raw[i].currency == currency :: AtPrecision(raw[i].balance, currency)
    ensures Drift(raw, active, claims, currency) == 0
  {
    if raw != [] {
      NoDrift(raw[..|raw| - 1], active, claims, currency);
      QuantizeNear(raw[|raw| - 1].balance, currency);
    }
  }

  lemma {:induction false} NothingHidden(raw: seq<RawRow>, active: map<nat, View>, claims: Claims, currency: string)
    requires forall i | 0 <= i < |raw| :: Shown(raw[i], active, claims)
    ensures Hidden(raw, active, claims, currency) == 0
  {
    if raw != [] {
      NothingHidden(raw[..|raw| - 1], active, claims, currency);
    }
  }

  // ----- The report of a reachable ledger -----

  predicate HasLeg(b: Books, account: nat, currency: string, cutoff: int) {
    exists i, k :: 0 <= i < |b.transactions| && IsLedger(b.transactions[i].status) && b.transactions[i].date <= cutoff
      && 0 <= k < |b.transactions[i].postings|
      && b.transactions[i].postings[k].leg.place == account && b.transactions[i].postings[k].leg.currency == currency
  }

  /** What the grouped query returns, in any order: one row for every account and currency with a matching posting. */
  ghost predicate IsGrouped(raw: seq<RawRow>, b: Books, cutoff: int) {
    && (forall i | 0 <= i < |raw| ::
          && raw[i].account < |b.accounts|
          && raw[i].balance == AccountBalance(b, raw[i].account, raw[i].currency, cutoff))
    && (forall i, j | 0 <= i < j < |raw| :: raw[i].account != raw[j].account || raw[i].currency != raw[j].currency)
    && forall a: nat, c: string | HasLeg(b, a, c, cutoff) :: HasRow(raw, a, c)
  }

  predicate HasRow(raw: seq<RawRow>, account: nat, currency: string) {
    exists i | 0 <= i < |raw| :: raw[i].account == account && raw[i].currency == currency
  }

  /** The balances of the rows of accounts below `n`. */
  function SumBelow(raw: seq<RawRow>, n: nat, currency: string): int {
    if raw == [] then 0
    else
      var r := raw[|raw| - 1];
      SumBelow(raw[..|raw| - 1], n, currency) + if r.account < n && r.currency == currency then r.balance else 0
  }

  lemma {:induction false} SumBelowStep(raw: seq<RawRow>, n: nat, currency: string, balance: int)
    requires forall i, j | 0 <= i < j < |raw| :: raw[i].account != raw[j].account || raw[i].currency != raw[j].currency
    requires forall i | 0 <= i < |raw| && raw[i].account == n && raw[i].currency == currency :: raw[i].balance == balance
    ensures SumBelow(raw, n + 1, currency) == SumBelow(raw, n, currency) + if HasRow(raw, n, currency) then balance else 0
  {
    if raw != [] {
      var front, r := raw[..|raw| - 1], raw[|raw| - 1];
      SumBelowStep(front, n, currency, balance);
      if HasRow(front, n, currency) {
        var i :| 0 <= i < |front| && front[i].account == n && front[i].currency == currency;
        assert raw[i].account == n && raw[i].currency == currency;
      } else if r.account == n && r.currency == currency {
        assert raw[|raw| - 1] == r;
      } else {
        assert !HasRow(raw, n, currency);
      }
    }
  }

  lemma {:induction false} SumBelowZero(raw: seq<RawRow>, currency: string)
    ensures SumBelow(raw, 0, currency) == 0
  {
    if raw != [] {
      SumBelowZero(raw[..|raw| - 1], currency);
    }
  }

  lemma {:induction false} NoLegNoBalance(b: Books, n: nat, account: nat, currency: string, cutoff: int)
    requires n <= |b.transactions| && !HasLeg(b, account, currency, cutoff)
    ensures Balance(MainEntries(b.transactions)[..n], account, currency, cutoff) == 0
  {
    if n > 0 {
      NoLegNoBalance(b, n - 1, account, currency, cutoff);
      var entries, e := MainEntries(b.transactions), MainEntries(b.transactions)[n - 1];
      assert entries[..n][..n - 1] == entries[..n - 1];
      if e.live && e.date <= cutoff {
        forall k | 0 <= k < |e.legs|
          ensures e.legs[k].place != account || e.legs[k].currency != currency
        {
          assert e.legs[k] == b.transactions[n - 1].postings[k].leg;
        }
        NothingOn(e.legs, account, currency);
      }
    }
  }

  lemma {:induction false} GroupsAddUp(raw: seq<RawRow>, b: Books, n: nat, currency: string, cutoff: int)
    requires IsGrouped(raw, b, cutoff) && n <= |b.accounts|
    ensures SumBelow(raw, n, currency) == Total(MainEntries(b.transactions), n, currency, cutoff)
  {
    if n == 0 {
      SumBelowZero(raw, currency);
    } else {
      GroupsAddUp(raw, b, n - 1, currency, cutoff);
      SumBelowStep(raw, n - 1, currency, AccountBalance(b, n - 1, currency, cutoff));
      if !HasRow(raw, n - 1, currency) {
        NoLegNoBalance(b, |b.transactions|, n - 1, currency, cutoff);
        assert MainEntries(b.transactions)[..|b.transactions|] == MainEntries(b.transactions);
      }
    }
  }

  lemma {:induction false} ShownAndHidden(raw: seq<RawRow>, active: map<nat, View>, claims: Claims, n: nat, currency: string)
    requires forall i | 0 <= i < |raw| :: raw[i].account < n
    ensures RawSum(raw, active, claims, currency) + Hidden(raw, active, claims, currency) == SumBelow(raw, n, currency)
  {
    if raw != [] {
      ShownAndHidden(raw[..|raw| - 1], active, claims, n, currency);
    }
  }

  /**
    In every reachable ledger state, for every date and caller: the debit and credit totals of a currency are apart by what
    the rounding adds to the shown rows less what the hidden rows hold. They agree if and only if the two are equal; to a
    caller who is shown every row, if and only if the rounding adds up to nothing.
    */
  lemma DebitsMeetCreditsExactly(
      b: Books, cutoff: int, raw: seq<RawRow>, active: map<nat, View>, claims: Claims, currency: string)
    requires Reachable(b) && IsGrouped(raw, b, cutoff)
    ensures var rows := ReportRows(raw, active, claims);
            && Debits(rows, currency) - Credits(rows, currency)
               == Drift(raw, active, claims, currency) - Hidden(raw, active, claims, currency)
            && (Debits(rows, currency) == Credits(rows, currency)
                <==> Drift(raw, active, claims, currency) == Hidden(raw, active, claims, currency))
            && ((forall i | 0 <= i < |raw| :: Shown(raw[i], active, claims)) ==>
                  (Debits(rows, currency) == Credits(rows, currency) <==> Drift(raw, active, claims, currency) == 0))
  {
    AccountsSumToZero(b, currency, cutoff);
    GroupsAddUp(raw, b, |b.accounts|, currency, cutoff);
    ShownAndHidden(raw, active, claims, |b.accounts|, currency);
    ApartIsDrift(raw, active, claims, currency);
    if forall i | 0 <= i < |raw| :: Shown(raw[i], active, claims) {
      NothingHidden(raw, active, claims, currency);
    }
  }

  /** The rounding adds at most half a minor unit per shown row, and nothing when every balance is at minor-unit precision. */
  lemma DriftIsSmall(raw: seq<RawRow>, active: map<nat, View>, claims: Claims, currency: string)
    ensures 2 * Abs(Drift(raw, active, claims, currency)) <= Quantum(currency) * RowCount(raw, active, claims, currency)
    ensures (forall i | 0 <= i < |raw| && raw[i].currency == currency :: AtPrecision(raw[i].balance, currency)) ==>
              Drift(raw, active, claims, currency) == 0
  {
    ApartIsDrift(raw, active, claims, currency);
    TotalsFollowBalances(raw, active, claims, currency);
    if forall i | 0 <= i < |raw| && raw[i].currency == currency :: AtPrecision(raw[i].balance, currency) {
      NoDrift(raw, active, claims, currency);
    }
  }

  // ----- Totals that disagree -----

  /** Two fifths of a minor unit. */
  function Small(currency: string): int {
    Quantum(currency) / 5 * 2
  }

  /** A new household posts this much to two accounts, out of a third. */
  function SplitLegs(currency: string): seq<Posting> {
    [Posting(Leg(0, currency, Small(currency)), None), Posting(Leg(1, currency, Small(currency)), None),
     Posting(Leg(2, currency, -2 * Small(currency)), None)]
  }

  function SplitRun(currency: string): seq<Op> {
    [AddPeriod(Period(0, 0, false)), AddAccount(Account(Asset, false)), AddAccount(Account(Asset, false)),
     AddAccount(Account(Equity, false)), Create(0, SplitLegs(currency))]
  }

  function SplitBooks(currency: string): Books {
    Books([Transaction(0, SplitLegs(currency), Posted, None)], [],
          [Account(Asset, false), Account(Asset, false), Account(Equity, false)], [], [Period(0, 0, false)])
  }

  function SplitRows(currency: string): seq<RawRow> {
    [RawRow(0, currency, Small(currency), false), RawRow(1, currency, Small(currency), false),
     RawRow(2, currency, -2 * Small(currency), false)]
  }

  /** In every known currency that run's report, shown in full, has totals a whole minor unit apart. */
  lemma TotalsCanDiffer(currency: string, active: map<nat, View>, claims: Claims)
    requires currency in KNOWN_CURRENCIES
    requires forall i | 0 <= i < 3 :: Shown(SplitRows(currency)[i], active, claims)
    ensures Run(NEW_HOUSEHOLD, SplitRun(currency)) == SplitBooks(currency)
    ensures IsGrouped(SplitRows(currency), SplitBooks(currency), 0)
    ensures var rows := ReportRows(SplitRows(currency), active, claims);
            Debits(rows, currency) - Credits(rows, currency) == -Quantum(currency)
  {
    SplitRunBooks(currency);
    SplitIsGrouped(currency);
    SplitDrift(currency, active, claims);
    assert Reachable(SplitBooks(currency));
    DebitsMeetCreditsExactly(SplitBooks(currency), 0, SplitRows(currency), active, claims, currency);
    NothingHidden(SplitRows(currency), active, claims, currency);
  }

  lemma SplitLegsNet(currency: string, account: nat, c: string)
    ensures On(LegsOf(SplitLegs(currency)), account, c)
         == if c != currency then 0
            else if account == 0 || account == 1 then Small(currency) else if account == 2 then -2 * Small(currency) else 0
    ensures Net(LegsOf(SplitLegs(currency)), c) == 0
  {
    var legs := SplitLegs(currency);
    var a, b, d := legs[0].leg, legs[1].leg, legs[2].leg;
    assert LegsOf(legs) == [a, b] + [d];
    OnConcat([a, b], [d], account, c);
    TwoLegs(a, b, account, c);
    OneLeg(d, account, c);
  }

  lemma {:induction false} Untagged(b: Books, postings: seq<Posting>)
    requires forall i | 0 <= i < |postings| :: postings[i].pool.None? && postings[i].leg.place < |b.accounts|
    ensures TagLegs(postings) == [] && PoolCheck(b, postings).None?
  {
    if postings != [] {
      Untagged(b, postings[1..]);
    }
  }

  lemma SplitPostCheck(currency: string)
    requires currency in KNOWN_CURRENCIES
    ensures PostCheck([Period(0, 0, false)], 0, SplitLegs(currency)).None?
  {
    Untagged(SplitBooks(currency), SplitLegs(currency));
    SplitLegsNet(currency, 0, currency);
    assert PeriodOpen([Period(0, 0, false)], 0);
  }

  lemma SplitIsPosted(currency: string, b: Books)
    requires currency in KNOWN_CURRENCIES && b == SplitBooks(currency).(transactions := [])
    ensures CreateSpec(b, 0, SplitLegs(currency)) == Ok(SplitBooks(currency))
  {
    AccountCheckPasses(b, SplitLegs(currency));
    Untagged(b, SplitLegs(currency));
    SplitPostCheck(currency);
    assert [] + [Transaction(0, SplitLegs(currency), Posted, None)] == SplitBooks(currency).transactions;
  }

  lemma SplitRunBooks(currency: string)
    requires currency in KNOWN_CURRENCIES
    ensures Run(NEW_HOUSEHOLD, SplitRun(currency)) == SplitBooks(currency)
  {
    var ops := SplitRun(currency);
    var last := ops[4..];
    assert last == [ops[4]] && last[1..] == [];
    assert ops[1..][1..] == ops[2..] && ops[2..][1..] == ops[3..] && ops[3..][1..] == last;
    var three := SplitBooks(currency).(transactions := []);
    var two, one := three.(accounts := three.accounts[..2]), three.(accounts := three.accounts[..1]);
    var open := one.(accounts := []);
    assert Apply(NEW_HOUSEHOLD, ops[0]) == open && Apply(open, ops[1]) == one;
    assert Apply(one, ops[2]) == two && Apply(two, ops[3]) == three;
    SplitIsPosted(currency, three);
    assert Run(three, last) == SplitBooks(currency);
    assert Run(two, ops[3..]) == Run(three, last);
    assert Run(one, ops[2..]) == Run(two, ops[3..]);
    assert Run(open, ops[1..]) == Run(one, ops[2..]);
    assert Run(NEW_HOUSEHOLD, ops) == Run(open, ops[1..]);
  }

  lemma SplitIsGrouped(currency: string)
    ensures IsGrouped(SplitRows(currency), SplitBooks(currency), 0)
  {
    var b, raw := SplitBooks(currency), SplitRows(currency);
    forall i | 0 <= i < 3
      ensures raw[i].balance == AccountBalance(b, raw[i].account, raw[i].currency, 0)
    {
      SplitLegsNet(currency, raw[i].account, currency);
      assert MainEntries(b.transactions) == [] + [Entry(0, true, LegsOf(SplitLegs(currency)))];
      BalanceAppend([], Entry(0, true, LegsOf(SplitLegs(currency))), raw[i].account, currency, 0);
    }
    forall a: nat, c: string | HasLeg(b, a, c, 0)
      ensures HasRow(raw, a, c)
    {
      var k :| 0 <= k < 3 && SplitLegs(currency)[k].leg.place == a && SplitLegs(currency)[k].leg.currency == c;
      assert raw[k].account == a && raw[k].currency == c;
    }
  }

  lemma SplitDrift(currency: string, active: map<nat, View>, claims: Claims)
    requires forall i | 0 <= i < 3 :: Shown(SplitRows(currency)[i], active, claims)
    ensures Drift(SplitRows(currency), active, claims, currency) == -Quantum(currency)
  {
    var raw := SplitRows(currency);
    FifthsRound(currency, Small(currency));
    assert raw[..2][..1] == [raw[0]] && raw[..2][..1][..0] == [];
    assert Drift(raw[..2][..1], active, claims, currency) == -Small(currency);
    assert Drift(raw[..2], active, claims, currency) == -2 * Small(currency);
  }

  lemma FifthsRound(currency: string, small: int)
    requires small == Quantum(currency) / 5 * 2
    ensures Quantize(small, currency) == 0 && Quantize(-2 * small, currency) == -Quantum(currency)
  {
    HalfEvenUnique(small, Quantum(currency), 0);
    HalfEvenUnique(-2 * small, Quantum(currency), -1);
  }
}
