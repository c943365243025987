/** Which ledger requests are accepted, in terms of the rows they name, and what an accepted one writes. */
module LedgerAcceptance {
  import opened Results
  import opened Legs
  import opened Ledger
  import opened LedgerInvariants

  // ----- Periods -----

  predicate Covers(p: Period, date: int) {
    p.first <= date <= p.last
  }

  /** The first period that covers the date is not soft-closed. */
  predicate OpenOn(periods: seq<Period>, date: int) {
    exists i | 0 <= i < |periods| ::
      Covers(periods[i], date) && !periods[i].softClosed && forall j | 0 <= j < i :: !Covers(periods[j], date)
  }

  lemma {:induction false} OpenExactly(periods: seq<Period>, date: int)
    ensures PeriodOpen(periods, date) <==> OpenOn(periods, date)
  {
    if periods != [] {
      var rest := periods[1..];
      OpenExactly(rest, date);
      if Covers(periods[0], date) {
        assert OpenOn(periods, date) <==> !periods[0].softClosed;
      } else {
        assert PeriodOpen(periods, date) == PeriodOpen(rest, date);
        if OpenOn(rest, date) {
          var i :| 0 <= i < |rest| && Covers(rest[i], date) && !rest[i].softClosed && forall j | 0 <= j < i :: !Covers(rest[j], date);
          assert forall j | 0 <= j < i + 1 :: j > 0 ==> periods[j] == rest[j - 1];
          assert Covers(periods[i + 1], date);
        }
        if OpenOn(periods, date) {
          var i :| 0 <= i < |periods| && Covers(periods[i], date) && !periods[i].softClosed
                   && forall j | 0 <= j < i :: !Covers(periods[j], date);
          assert rest[i - 1] == periods[i] && forall j | 0 <= j < i - 1 :: rest[j] == periods[j + 1];
        }
      }
    }
  }

  // ----- New postings -----

  predicate Known(currency: string) {
    currency in ["USD", "EUR", "GBP", "JPY", "CAD", "AUD", "CHF", "CNY", "BHD"]
  }

  predicate AccountFits(b: Books, p: Posting) {
    p.leg.place < |b.accounts| && !b.accounts[p.leg.place].placeholder
  }

  /** A tag names an active pool of the posting's currency, and the posting is on an expense account. */
  predicate TagFits(b: Books, p: Posting) {
    p.pool.Some? ==>
      && p.pool.value < |b.pools| && b.pools[p.pool.value].active && b.pools[p.pool.value].currency == p.leg.currency
      && p.leg.place < |b.accounts| && b.accounts[p.leg.place].kind == Expense
  }

  /** Both loops over the postings pass. */
  predicate RowsFit(b: Books, postings: seq<Posting>) {
    forall i | 0 <= i < |postings| :: AccountFits(b, postings[i]) && TagFits(b, postings[i])
  }

  ghost predicate SumsToZero(postings: seq<Posting>) {
    forall c: string :: Net(LegsOf(postings), c) == 0
  }

  function TaggedSum(postings: seq<Posting>): int {
    if postings == [] then 0 else (if postings[0].pool.Some? then postings[0].leg.amount else 0) + TaggedSum(postings[1..])
  }

  predicate HasTag(postings: seq<Posting>) {
    exists i | 0 <= i < |postings| :: postings[i].pool.Some?
  }

  /** Tags are in one currency and take money out of their pools. */
  predicate TagsSpend(postings: seq<Posting>) {
    && (forall i, j | 0 <= i < |postings| && 0 <= j < |postings| && postings[i].pool.Some? && postings[j].pool.Some? ::
          postings[i].leg.currency == postings[j].leg.currency)
    && TaggedSum(postings) > 0
  }

  /** Nothing but the period and the tags can still stop the request. */
  ghost predicate WellFormed(b: Books, postings: seq<Posting>) {
    && RowsFit(b, postings)
    && |postings| >= 2 && (forall i | 0 <= i < |postings| :: Known(postings[i].leg.currency)) && SumsToZero(postings)
  }

  ghost predicate Acceptable(b: Books, date: int, postings: seq<Posting>) {
    WellFormed(b, postings) && OpenOn(b.periods, date) && (HasTag(postings) ==> TagsSpend(postings))
  }

  lemma {:induction false} RowsFitExactly(b: Books, postings: seq<Posting>)
    ensures PreFlight(b, postings).None? <==> RowsFit(b, postings)
  {
    AccountCheckPasses(b, postings);
    if forall i | 0 <= i < |postings| :: AccountFits(b, postings[i]) {
      PoolCheckPasses(b, postings);
    }
  }

  lemma {:induction false} PoolCheckPasses(b: Books, postings: seq<Posting>)
    requires forall i | 0 <= i < |postings| :: postings[i].leg.place < |b.accounts|
    ensures PoolCheck(b, postings).None? <==> forall i | 0 <= i < |postings| :: TagFits(b, postings[i])
  {
    if postings != [] {
      var rest := postings[1..];
      PoolCheckPasses(b, rest);
      assert forall i | 1 <= i < |postings| :: postings[i] == rest[i - 1];
      assert TagCheck(b, postings[0]).None? <==> TagFits(b, postings[0]);
    }
  }

  lemma BalancedExactly(postings: seq<Posting>)
    ensures Balanced(LegsOf(postings)) <==> SumsToZero(postings)
  {
    if Balanced(LegsOf(postings)) {
      forall c: string
        ensures Net(LegsOf(postings), c) == 0
      {
        BalancedNet(LegsOf(postings), c);
      }
    }
  }

  lemma TagLegsStep(postings: seq<Posting>)
    requires postings != []
    ensures TagLegs(postings)
         == if postings[0].pool.Some?
            then [Leg(postings[0].pool.value, postings[0].leg.currency, postings[0].leg.amount)] + TagLegs(postings[1..])
            else TagLegs(postings[1..])
  {
  }

  lemma {:induction false} NoTagNoLegs(postings: seq<Posting>)
    ensures TagLegs(postings) == [] <==> !HasTag(postings)
  {
    if postings != [] {
      NoTagNoLegs(postings[1..]);
      TagLegsStep(postings);
      assert forall i | 1 <= i < |postings| :: postings[i] == postings[1..][i - 1];
      assert HasTag(postings) <==> postings[0].pool.Some? || HasTag(postings[1..]);
    }
  }

  predicate TaggedIn(postings: seq<Posting>, currency: string) {
    forall i | 0 <= i < |postings| && postings[i].pool.Some? :: postings[i].leg.currency == currency
  }

  predicate LegsIn(legs: seq<Leg>, currency: string) {
    forall k | 0 <= k < |legs| :: legs[k].currency == currency
  }

  lemma {:induction false} TagsInCurrency(postings: seq<Posting>, currency: string)
    ensures LegsIn(TagLegs(postings), currency) <==> TaggedIn(postings, currency)
  {
    if postings != [] {
      var rest := TagLegs(postings[1..]);
      TagsInCurrency(postings[1..], currency);
      TagLegsStep(postings);
      assert forall i | 1 <= i < |postings| :: postings[i] == postings[1..][i - 1];
      assert forall i | 0 <= i < |postings[1..]| :: postings[1..][i] == postings[i + 1];
      assert TaggedIn(postings, currency) <==>
             (postings[0].pool.Some? ==> postings[0].leg.currency == currency) && TaggedIn(postings[1..], currency);
      if postings[0].pool.Some? {
        var tags := TagLegs(postings);
        assert forall k | 1 <= k < |tags| :: tags[k] == rest[k - 1];
        assert forall k | 0 <= k < |rest| :: rest[k] == tags[k + 1];
        assert LegsIn(tags, currency) <==> tags[0].currency == currency && LegsIn(rest, currency);
      }
    }
  }

  lemma {:induction false} TaggedSumIsNet(postings: seq<Posting>, currency: string)
    requires forall i | 0 <= i < |postings| && postings[i].pool.Some? :: postings[i].leg.currency == currency
    ensures Net(TagLegs(postings), currency) == TaggedSum(postings)
  {
    if postings != [] {
      var p, rest := postings[0], TagLegs(postings[1..]);
      TaggedSumIsNet(postings[1..], currency);
      if p.pool.Some? {
        var head := Leg(p.pool.value, p.leg.currency, p.leg.amount);
        OnConcat([head], rest, 0, currency);
        OneLeg(head, 0, currency);
      } else {
        assert [] + rest == rest;
      }
    }
  }

  /** The pairing of tagged postings: refused, or the tags with the sign turned and what they spend. */
  lemma PairingExactly(postings: seq<Posting>)
    requires HasTag(postings)
    ensures TagLegs(postings) != []
    ensures DerivePairing(postings)
         == if TagsSpend(postings) then Pair(TagLegs(postings)[0].currency, Flip(TagLegs(postings)), TaggedSum(postings))
            else Refused
  {
    NoTagNoLegs(postings);
    var tags := TagLegs(postings);
    var c := tags[0].currency;
    TagsInCurrency(postings, c);
    if LegsIn(tags, c) {
      TaggedSumIsNet(postings, c);
    } else if TagsSpend(postings) {
      var i :| 0 <= i < |postings| && postings[i].pool.Some?;
      assert TaggedIn(postings, postings[i].leg.currency);
      TagsInCurrency(postings, postings[i].leg.currency);
      assert false;
    }
  }

  lemma PostCheckExactly(periods: seq<Period>, date: int, postings: seq<Posting>)
    ensures PostCheck(periods, date, postings).None? <==>
            && |postings| >= 2 && (forall i | 0 <= i < |postings| :: Known(postings[i].leg.currency)) && SumsToZero(postings)
            && OpenOn(periods, date) && (HasTag(postings) ==> TagsSpend(postings))
    ensures PostCheck(periods, date, postings) == Some(PeriodClosed) <==>
            && |postings| >= 2 && (forall i | 0 <= i < |postings| :: Known(postings[i].leg.currency)) && SumsToZero(postings)
            && !OpenOn(periods, date)
  {
    BalancedExactly(postings);
    OpenExactly(periods, date);
    NoTagNoLegs(postings);
    if HasTag(postings) {
      PairingExactly(postings);
    }
  }

  // ----- Create -----

  /** A create is accepted exactly if it is acceptable, and refused for its period exactly if only that can be the reason. */
  lemma CreateExactly(b: Books, date: int, postings: seq<Posting>)
    ensures Outcome(b, Create(date, postings)).Ok? <==> Acceptable(b, date, postings)
    ensures Outcome(b, Create(date, postings)) == Err(PeriodClosed) <==> WellFormed(b, postings) && !OpenOn(b.periods, date)
  {
    RowsFitExactly(b, postings);
    PostCheckExactly(b.periods, date, postings);
    PreFlightErrors(b, postings);
  }

  lemma {:induction false} PreFlightErrors(b: Books, postings: seq<Posting>)
    ensures PreFlight(b, postings) != Some(PeriodClosed)
  {
    AccountErrors(b, postings);
    AccountCheckPasses(b, postings);
    if AccountCheck(b, postings).None? {
      PoolErrors(b, postings);
    }
  }

  lemma {:induction false} AccountErrors(b: Books, postings: seq<Posting>)
    ensures AccountCheck(b, postings) != Some(PeriodClosed)
  {
    if postings != [] {
      AccountErrors(b, postings[1..]);
    }
  }

  lemma {:induction false} PoolErrors(b: Books, postings: seq<Posting>)
    requires forall i | 0 <= i < |postings| :: postings[i].leg.place < |b.accounts|
    ensures PoolCheck(b, postings) != Some(PeriodClosed)
  {
    if postings != [] {
      PoolErrors(b, postings[1..]);
    }
  }

  predicate IsSpentPool(pools: seq<Pool>, spent: nat, currency: string) {
    spent < |pools| && pools[spent].kind == Spent && pools[spent].currency == currency
  }

  /** The shadow of tagged postings: the tags with the sign turned, and what they spend on a Spent pool of their currency. */
  predicate IsMirror(s: Shadow, date: int, postings: seq<Posting>, main: nat, pools: seq<Pool>) {
    && s.date == date && s.reason == Spend && !s.voided && s.pairedMain == Some(main)
    && |s.legs| == |TagLegs(postings)| + 1 && s.legs[..|s.legs| - 1] == Flip(TagLegs(postings))
    && var spent := s.legs[|s.legs| - 1];
       IsSpentPool(pools, spent.place, spent.currency) && spent.amount == TaggedSum(postings)
  }

  /** `b'` is `b` with one more posted transaction and, if it has tags, its mirror; pools can only have been added. */
  predicate Created(b: Books, b': Books, date: int, postings: seq<Posting>) {
    && b'.transactions == b.transactions + [Transaction(date, postings, Posted, None)]
    && b'.accounts == b.accounts && b'.periods == b.periods && b.pools <= b'.pools
    && b.shadows <= b'.shadows && |b'.shadows| == |b.shadows| + (if HasTag(postings) then 1 else 0)
    && if HasTag(postings) then IsMirror(b'.shadows[|b.shadows|], date, postings, |b.transactions|, b'.pools)
       else b'.pools == b.pools
  }

  lemma SaveWrites(b: Books, date: int, postings: seq<Posting>)
    requires HasTag(postings) ==> TagsSpend(postings)
    ensures Created(b, Save(b, date, postings), date, postings)
  {
    NoTagNoLegs(postings);
    if HasTag(postings) {
      PairingExactly(postings);
      var pools := PoolsFor(b.pools, postings);
      var spent := FindPool(pools, Spent, TagLegs(postings)[0].currency).value;
      assert IsSpentPool(pools, spent, TagLegs(postings)[0].currency);
      var s := ShadowFor(b.pools, date, postings, |b.transactions|)[0];
      assert s.legs[..|s.legs| - 1] == Flip(TagLegs(postings));
    } else {
      assert b.shadows + [] == b.shadows;
    }
  }

  lemma CreateWrites(b: Books, date: int, postings: seq<Posting>)
    requires Outcome(b, Create(date, postings)).Ok?
    ensures Created(b, Outcome(b, Create(date, postings)).value, date, postings)
  {
    CreateExactly(b, date, postings);
    SaveWrites(b, date, postings);
  }

  // ----- Void and replace -----

  /** A transaction that counts and has not been voided. */
  predicate Voidable(b: Books, id: nat) {
    && id < |b.transactions| && b.transactions[id].voidedBy == None
    && (b.transactions[id].status == Posted || b.transactions[id].status == Reconciled)
  }

  /** A void is accepted exactly in an open period and for a voidable transaction; every refusal has its one reason. */
  lemma VoidExactly(b: Books, id: nat, date: int)
    ensures var r := Outcome(b, Void(id, date));
            && (r.Ok? <==> Voidable(b, id) && OpenOn(b.periods, date))
            && (r == Err(PeriodClosed) <==> Voidable(b, id) && !OpenOn(b.periods, date))
            && (r == Err(NotFound) <==> id >= |b.transactions|)
            && (id < |b.transactions| && b.transactions[id].voidedBy.Some? <==>
                  r.Err? && r.error.AlreadyVoided? && id < |b.transactions|
                  && b.transactions[id].voidedBy == Some(r.error.reversal))
            && (r == Err(NotVoidable) <==>
                  id < |b.transactions| && b.transactions[id].voidedBy == None && b.transactions[id].status == Pending)
  {
    OpenExactly(b.periods, date);
  }

  predicate IsFlipped(postings: seq<Posting>, source: seq<Posting>) {
    && |postings| == |source|
    && forall i | 0 <= i < |source| ::
         postings[i] == Posting(Leg(source[i].leg.place, source[i].leg.currency, -source[i].leg.amount), source[i].pool)
  }

  /** `b'` is `b` with the reversal of `id` appended, the source linked to it and the source's shadow voided. */
  predicate Voided(b: Books, b': Books, id: nat, date: int)
    requires id < |b.transactions|
  {
    var n := |b.transactions|;
    && |b'.transactions| == n + 1
    && b'.transactions[..n] == b.transactions[id := b.transactions[id].(voidedBy := Some(n))]
    && IsFlipped(b'.transactions[n].postings, b.transactions[id].postings)
    && b'.transactions[n] == Transaction(date, b'.transactions[n].postings, Posted, None)
    && b'.accounts == b.accounts && b'.pools == b.pools && b'.periods == b.periods
    && |b'.shadows| == |b.shadows|
    && forall k | 0 <= k < |b.shadows| ::
         b'.shadows[k] == if b.shadows[k].pairedMain == Some(id) then b.shadows[k].(voided := true) else b.shadows[k]
  }

  lemma ReverseWrites(b: Books, id: nat, date: int)
    requires DistinctMains(b.shadows) && id < |b.transactions|
    ensures Voided(b, Reverse(b, id, date), id, date)
  {
    var k := PairedShadow(b.shadows, id);
    forall l | 0 <= l < |b.shadows|
      ensures b.shadows[l].pairedMain == Some(id) <==> k == Some(l)
    {
    }
  }

  lemma VoidWrites(b: Books, id: nat, date: int)
    requires Reachable(b) && Outcome(b, Void(id, date)).Ok?
    ensures Voided(b, Outcome(b, Void(id, date)).value, id, date)
  {
    ReachableInv(b);
    ReverseWrites(b, id, date);
  }

  /** A replace needs a voidable source, an open period for the reversal and an acceptable replacement. */
  lemma ReplaceExactly(b: Books, id: nat, reversalDate: int, date: int, postings: seq<Posting>)
    ensures var r := Outcome(b, Replace(id, reversalDate, date, postings));
            && (r.Ok? <==> Voidable(b, id) && OpenOn(b.periods, reversalDate) && Acceptable(b, date, postings))
            && (r == Err(PeriodClosed) <==>
                  && Voidable(b, id) && RowsFit(b, postings)
                  && if OpenOn(b.periods, reversalDate) then WellFormed(b, postings) && !OpenOn(b.periods, date) else true)
  {
    OpenExactly(b.periods, reversalDate);
    RowsFitExactly(b, postings);
    PostCheckExactly(b.periods, date, postings);
    PreFlightErrors(b, postings);
  }

  /** It writes what a void and then a create write, in one step. */
  lemma ReplaceWrites(b: Books, id: nat, reversalDate: int, date: int, postings: seq<Posting>)
    requires Reachable(b) && Outcome(b, Replace(id, reversalDate, date, postings)).Ok?
    ensures exists mid ::
              Voided(b, mid, id, reversalDate) && Created(mid, Outcome(b, Replace(id, reversalDate, date, postings)).value, date, postings)
  {
    ReachableInv(b);
    ReplaceExactly(b, id, reversalDate, date, postings);
    ReverseWrites(b, id, reversalDate);
    SaveWrites(Reverse(b, id, reversalDate), date, postings);
  }

  // ----- Moving money between pools -----

  /** The caller may see the pool: it is shared, or theirs, or they are an admin. */
  predicate Visible(b: Books, pool: nat, claims: Claims) {
    pool < |b.pools| && (b.pools[pool].private ==> claims.admin || b.pools[pool].creator == claims.user)
  }

  predicate IsUserPool(b: Books, pool: nat, claims: Claims) {
    Visible(b, pool, claims) && (b.pools[pool].kind == Envelope || b.pools[pool].kind == SinkingFund)
  }

  /** Transfers go between two different active user pools of one currency that the caller may see. */
  lemma TransferExactly(b: Books, src: nat, dest: nat, amount: int, date: int, claims: Claims)
    ensures Outcome(b, Move(src, dest, amount, date, claims)).Ok? <==>
            && amount > 0 && src != dest && IsUserPool(b, src, claims) && IsUserPool(b, dest, claims)
            && b.pools[src].active && b.pools[dest].active && b.pools[src].currency == b.pools[dest].currency
  {
  }

  /** Inflows need a positive amount in a known currency. Refills need one too, and an envelope that the caller may see. */
  lemma InflowAndRefillExactly(b: Books, currency: string, envelope: nat, amount: int, date: int, claims: Claims)
    ensures Outcome(b, DeclareInflow(currency, amount, date)).Ok? <==> amount > 0 && Known(currency)
    ensures Outcome(b, RefillEnvelope(envelope, amount, date, claims)).Ok? <==>
            amount > 0 && Visible(b, envelope, claims) && b.pools[envelope].kind == Envelope
  {
  }
}
