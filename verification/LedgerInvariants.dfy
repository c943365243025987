/** What every run of the ledger handlers keeps: balance, the void links and the pairing of the two ledgers. */
module LedgerInvariants {
  import opened Results
  import opened Legs
  import opened Ledger

  // ----- The invariant -----

  /** Ledger transactions have at least two postings, balance in every currency and use existing accounts. */
  predicate TransactionsOk(txs: seq<Transaction>, accounts: nat) {
    forall i | 0 <= i < |txs| && IsLedger(txs[i].status) ::
      |txs[i].postings| >= 2 && Balanced(LegsOf(txs[i].postings)) && Within(LegsOf(txs[i].postings), accounts)
  }

  /** A voided transaction is linked to a later one that flips its postings, and no two are linked to the same one. */
  predicate LinksOk(txs: seq<Transaction>) {
    && (forall i | 0 <= i < |txs| && txs[i].voidedBy.Some? ::
          && i < txs[i].voidedBy.value < |txs|
          && IsLedger(txs[i].status) && IsLedger(txs[txs[i].voidedBy.value].status)
          && txs[txs[i].voidedBy.value].postings == FlipPostings(txs[i].postings))
    && forall i, j | 0 <= i < j < |txs| && txs[i].voidedBy.Some? :: txs[i].voidedBy != txs[j].voidedBy
  }

  /** `i` was written by a void or a replace, as the reversal of another transaction. */
  predicate IsReversal(txs: seq<Transaction>, i: nat) {
    exists k :: 0 <= k < |txs| && txs[k].voidedBy == Some(i)
  }

  predicate PoolsOk(pools: seq<Pool>) {
    forall i, j | 0 <= i < j < |pools| && IsSystem(pools[i].kind) ::
      pools[i].kind != pools[j].kind || pools[i].currency != pools[j].currency
  }

  predicate LegsFit(legs: seq<Leg>, pools: seq<Pool>) {
    forall k | 0 <= k < |legs| :: legs[k].place < |pools| && pools[legs[k].place].currency == legs[k].currency
  }

  predicate ShadowsOk(shadows: seq<Shadow>, pools: seq<Pool>) {
    forall k | 0 <= k < |shadows| :: Balanced(shadows[k].legs) && LegsFit(shadows[k].legs, pools)
  }

  /** The shadow of a tagged transaction: its tags with the sign turned, absorbed by the Spent pool of their currency. */
  predicate PairedTo(s: Shadow, t: Transaction, pools: seq<Pool>) {
    && s.reason == Spend && s.date == t.date && IsLedger(t.status) && s.voided == t.voidedBy.Some?
    && DerivePairing(t.postings).Pair?
    && var p := DerivePairing(t.postings);
       |s.legs| == |p.legs| + 1 && s.legs[..|p.legs|] == p.legs &&
       var spent := s.legs[|p.legs|];
       && spent.place < |pools| && pools[spent.place].kind == Spent && pools[spent.place].currency == p.currency
       && spent.currency == p.currency && spent.amount == p.spending
  }

  /** Shadows with a main transaction belong to a create or replace, and mirror it. */
  predicate MirrorsOk(shadows: seq<Shadow>, txs: seq<Transaction>, pools: seq<Pool>) {
    forall k | 0 <= k < |shadows| && shadows[k].pairedMain.Some? ::
      var i := shadows[k].pairedMain.value;
      i < |txs| && !IsReversal(txs, i) && PairedTo(shadows[k], txs[i], pools)
  }

  /** The shadows without one, which users post themselves, are never voided. */
  predicate ManualsOk(shadows: seq<Shadow>) {
    forall k | 0 <= k < |shadows| && shadows[k].pairedMain.None? :: !shadows[k].voided && shadows[k].reason != Spend
  }

  predicate DistinctMains(shadows: seq<Shadow>) {
    forall k, l | 0 <= k < l < |shadows| && shadows[k].pairedMain.Some? :: shadows[k].pairedMain != shadows[l].pairedMain
  }

  predicate TagsMirrored(shadows: seq<Shadow>, txs: seq<Transaction>) {
    forall i | 0 <= i < |txs| && IsLedger(txs[i].status) && !IsReversal(txs, i) && TagLegs(txs[i].postings) != [] ::
      PairedShadow(shadows, i).Some?
  }

  /** Every tagged create or replace has exactly one shadow, void with it; the other shadows are never voided. */
  predicate PairsOk(shadows: seq<Shadow>, txs: seq<Transaction>, pools: seq<Pool>) {
    MirrorsOk(shadows, txs, pools) && ManualsOk(shadows) && DistinctMains(shadows) && TagsMirrored(shadows, txs)
  }

  predicate Inv(b: Books) {
    && TransactionsOk(b.transactions, |b.accounts|)
    && LinksOk(b.transactions)
    && PoolsOk(b.pools)
    && ShadowsOk(b.shadows, b.pools)
    && PairsOk(b.shadows, b.transactions, b.pools)
  }

  // ----- Pools only grow, and keep kind and currency -----

  predicate PoolsExtend(pools: seq<Pool>, more: seq<Pool>) {
    |pools| <= |more| && forall i | 0 <= i < |pools| :: more[i].kind == pools[i].kind && more[i].currency == pools[i].currency
  }

  lemma ShadowsOkExtend(shadows: seq<Shadow>, txs: seq<Transaction>, pools: seq<Pool>, more: seq<Pool>)
    requires PoolsExtend(pools, more) && ShadowsOk(shadows, pools) && PairsOk(shadows, txs, pools)
    ensures ShadowsOk(shadows, more) && PairsOk(shadows, txs, more)
  {
  }

  lemma EnsurePoolOk(pools: seq<Pool>, kind: PoolKind, currency: string)
    requires PoolsOk(pools)
    ensures PoolsOk(EnsurePool(pools, kind, currency))
  {
  }

  lemma EnsureSystemPoolsOk(pools: seq<Pool>, currency: string)
    requires PoolsOk(pools)
    ensures PoolsOk(EnsureSystemPools(pools, currency)) && PoolsExtend(pools, EnsureSystemPools(pools, currency))
  {
    var a := EnsurePool(pools, Inflow, currency);
    var b := EnsurePool(a, Unallocated, currency);
    EnsurePoolOk(pools, Inflow, currency);
    EnsurePoolOk(a, Unallocated, currency);
    EnsurePoolOk(b, Spent, currency);
  }

  // ----- Tags -----

  lemma {:induction false} TagLegsFit(b: Books, postings: seq<Posting>)
    requires forall i | 0 <= i < |postings| :: postings[i].leg.place < |b.accounts|
    requires PoolCheck(b, postings).None?
    ensures LegsFit(TagLegs(postings), b.pools)
  {
    if postings != [] {
      TagLegsFit(b, postings[1..]);
    }
  }

  lemma {:induction false} SameCurrencyNet(legs: seq<Leg>, currency: string)
    requires forall i | 0 <= i < |legs| :: legs[i].currency == currency
    ensures forall c | c != currency :: Net(legs, c) == 0
  {
    if legs != [] {
      SameCurrencyNet(legs[1..], currency);
    }
  }

  /** The absorbing leg balances the tags. */
  lemma AbsorbedBalances(tags: seq<Leg>, spent: nat, currency: string)
    requires forall i | 0 <= i < |tags| :: tags[i].currency == currency
    ensures Balanced(Flip(tags) + [Leg(spent, currency, Net(tags, currency))])
  {
    var legs := Flip(tags) + [Leg(spent, currency, Net(tags, currency))];
    OnConcat(Flip(tags), [Leg(spent, currency, Net(tags, currency))], 0, currency);
    FlipNegates(tags, 0, currency);
    assert Net(legs, currency) == 0;
  }

  // ----- Create -----

  lemma AppendKeepsReversals(txs: seq<Transaction>, t: Transaction, i: nat)
    requires t.voidedBy.None?
    ensures IsReversal(txs + [t], i) == IsReversal(txs, i)
  {
    if IsReversal(txs, i) {
      var k :| 0 <= k < |txs| && txs[k].voidedBy == Some(i);
      assert (txs + [t])[k].voidedBy == Some(i);
    }
  }

  lemma FreshIsNoReversal(txs: seq<Transaction>)
    requires LinksOk(txs)
    ensures !IsReversal(txs, |txs|)
  {
  }

  lemma {:induction false} PairedShadowAppend(shadows: seq<Shadow>, more: seq<Shadow>, i: nat)
    requires |more| <= 1
    ensures PairedShadow(shadows, i).Some? ==> PairedShadow(shadows + more, i) == PairedShadow(shadows, i)
    ensures |more| == 1 && more[0].pairedMain == Some(i) ==> PairedShadow(shadows + more, i).Some?
  {
    if |more| == 1 {
      assert (shadows + more)[..|shadows|] == shadows;
    } else {
      assert shadows + more == shadows;
    }
  }

  lemma AppendMirrors(shadows: seq<Shadow>, txs: seq<Transaction>, pools: seq<Pool>, t: Transaction, more: seq<Shadow>)
    requires LinksOk(txs) && MirrorsOk(shadows, txs, pools) && t.voidedBy.None? && |more| <= 1
    requires |more| == 1 ==> more[0].pairedMain == Some(|txs|) && PairedTo(more[0], t, pools)
    ensures MirrorsOk(shadows + more, txs + [t], pools)
  {
    FreshIsNoReversal(txs);
    forall k | 0 <= k < |shadows + more| && (shadows + more)[k].pairedMain.Some?
      ensures var i := (shadows + more)[k].pairedMain.value;
              i < |txs + [t]| && !IsReversal(txs + [t], i) && PairedTo((shadows + more)[k], (txs + [t])[i], pools)
    {
      AppendKeepsReversals(txs, t, (shadows + more)[k].pairedMain.value);
    }
  }

  lemma AppendTagsMirrored(shadows: seq<Shadow>, txs: seq<Transaction>, t: Transaction, more: seq<Shadow>)
    requires LinksOk(txs) && TagsMirrored(shadows, txs) && t.voidedBy.None? && |more| <= 1
    requires |more| == 1 ==> more[0].pairedMain == Some(|txs|)
    requires more == [] ==> !IsLedger(t.status) || TagLegs(t.postings) == []
    ensures TagsMirrored(shadows + more, txs + [t])
  {
    var all := txs + [t];
    forall i | 0 <= i < |all| && IsLedger(all[i].status) && !IsReversal(all, i) && TagLegs(all[i].postings) != []
      ensures PairedShadow(shadows + more, i).Some?
    {
      AppendKeepsReversals(txs, t, i);
      PairedShadowAppend(shadows, more, i);
      assert i < |txs| ==> all[i] == txs[i];
    }
  }

  /** Appending a transaction with no links, and with it the shadow it needs, if any. */
  lemma AppendPairs(shadows: seq<Shadow>, txs: seq<Transaction>, pools: seq<Pool>, t: Transaction, more: seq<Shadow>)
    requires LinksOk(txs) && PairsOk(shadows, txs, pools) && t.voidedBy.None? && |more| <= 1
    requires |more| == 1 ==> more[0].pairedMain == Some(|txs|) && PairedTo(more[0], t, pools)
    requires more == [] ==> !IsLedger(t.status) || TagLegs(t.postings) == []
    ensures PairsOk(shadows + more, txs + [t], pools)
  {
    AppendMirrors(shadows, txs, pools, t, more);
    AppendTagsMirrored(shadows, txs, t, more);
    assert forall k | 0 <= k < |shadows| && shadows[k].pairedMain.Some? :: shadows[k].pairedMain.value < |txs|;
    AppendDistinct(shadows, |txs|, more);
  }

  lemma AppendDistinct(shadows: seq<Shadow>, main: nat, more: seq<Shadow>)
    requires DistinctMains(shadows) && |more| <= 1 && (|more| == 1 ==> more[0].pairedMain == Some(main))
    requires forall k | 0 <= k < |shadows| && shadows[k].pairedMain.Some? :: shadows[k].pairedMain.value < main
    ensures DistinctMains(shadows + more)
  {
  }

  /** The shadows that come with a new transaction: none without tags, otherwise the one that mirrors it. */
  predicate FitsWith(more: seq<Shadow>, t: Transaction, main: nat, pools: seq<Pool>) {
    && |more| <= 1 && ShadowsOk(more, pools)
    && (|more| == 1 ==> more[0].pairedMain == Some(main) && PairedTo(more[0], t, pools))
    && (more == [] ==> TagLegs(t.postings) == [])
  }

  lemma PairShadowFits(pools: seq<Pool>, date: int, postings: seq<Posting>, main: nat)
    requires LegsFit(TagLegs(postings), pools) && DerivePairing(postings).Pair?
    requires PoolsExtend(pools, PoolsFor(pools, postings))
    ensures FitsWith(ShadowFor(pools, date, postings, main), Transaction(date, postings, Posted, None), main,
                     PoolsFor(pools, postings))
  {
    var pairing := DerivePairing(postings);
    var spent := FindPool(PoolsFor(pools, postings), Spent, pairing.currency).value;
    AbsorbedBalances(TagLegs(postings), spent, pairing.currency);
    var s := ShadowFor(pools, date, postings, main)[0];
    assert s.legs[..|pairing.legs|] == pairing.legs;
  }

  lemma PoolsForOk(pools: seq<Pool>, postings: seq<Posting>)
    requires PoolsOk(pools)
    ensures PoolsOk(PoolsFor(pools, postings)) && PoolsExtend(pools, PoolsFor(pools, postings))
  {
    if DerivePairing(postings).Pair? {
      EnsureSystemPoolsOk(pools, DerivePairing(postings).currency);
    }
  }

  lemma ShadowForFits(b: Books, date: int, postings: seq<Posting>)
    requires CreateCheck(b, date, postings).None? && PoolsOk(b.pools)
    ensures FitsWith(ShadowFor(b.pools, date, postings, |b.transactions|), Transaction(date, postings, Posted, None),
                     |b.transactions|, PoolsFor(b.pools, postings))
    ensures PoolsOk(PoolsFor(b.pools, postings)) && PoolsExtend(b.pools, PoolsFor(b.pools, postings))
  {
    CreateCheckTags(b, date, postings);
    PoolsForOk(b.pools, postings);
    if DerivePairing(postings).Pair? {
      PairShadowFits(b.pools, date, postings, |b.transactions|);
    }
  }

  lemma CreateCheckTags(b: Books, date: int, postings: seq<Posting>)
    requires CreateCheck(b, date, postings).None?
    ensures LegsFit(TagLegs(postings), b.pools) && !DerivePairing(postings).Refused?
  {
    AccountCheckPasses(b, postings);
    TagLegsFit(b, postings);
  }

  lemma AppendTransactionOk(txs: seq<Transaction>, accounts: nat, t: Transaction)
    requires TransactionsOk(txs, accounts) && LinksOk(txs) && t.voidedBy.None?
    requires IsLedger(t.status) ==> |t.postings| >= 2 && Balanced(LegsOf(t.postings)) && Within(LegsOf(t.postings), accounts)
    ensures TransactionsOk(txs + [t], accounts) && LinksOk(txs + [t])
  {
  }

  lemma CreateCheckMeans(b: Books, date: int, postings: seq<Posting>)
    requires CreateCheck(b, date, postings).None?
    ensures |postings| >= 2 && Balanced(LegsOf(postings)) && Within(LegsOf(postings), |b.accounts|)
  {
    AccountCheckPasses(b, postings);
  }

  /** Appending a transaction and the shadows that come with it. */
  lemma AppendKeepsInv(b: Books, t: Transaction, more: seq<Shadow>, pools: seq<Pool>)
    requires Inv(b) && PoolsOk(pools) && PoolsExtend(b.pools, pools) && t.voidedBy.None? && IsLedger(t.status)
    requires |t.postings| >= 2 && Balanced(LegsOf(t.postings)) && Within(LegsOf(t.postings), |b.accounts|)
    requires FitsWith(more, t, |b.transactions|, pools)
    ensures Inv(b.(transactions := b.transactions + [t], shadows := b.shadows + more, pools := pools))
  {
    AppendTransactionOk(b.transactions, |b.accounts|, t);
    ShadowsOkExtend(b.shadows, b.transactions, b.pools, pools);
    AppendPairs(b.shadows, b.transactions, pools, t, more);
  }

  lemma SaveKeepsInv(b: Books, date: int, postings: seq<Posting>)
    requires Inv(b) && CreateCheck(b, date, postings).None?
    ensures Inv(Save(b, date, postings))
  {
    CreateCheckMeans(b, date, postings);
    ShadowForFits(b, date, postings);
    AppendKeepsInv(b, Transaction(date, postings, Posted, None), ShadowFor(b.pools, date, postings, |b.transactions|),
                   PoolsFor(b.pools, postings));
  }

  // ----- Reverse -----

  lemma FlipPostingsLegs(postings: seq<Posting>)
    ensures LegsOf(FlipPostings(postings)) == Flip(LegsOf(postings))
  {
  }

  /** The rows after `Reverse`: the source linked to the fresh reversal. */
  function Linked(txs: seq<Transaction>, id: nat, date: int): (r: seq<Transaction>)
    requires id < |txs|
    ensures |r| == |txs| + 1
    ensures forall k | 0 <= k < |txs| :: r[k] == if k == id then txs[id].(voidedBy := Some(|txs|)) else txs[k]
    ensures r[|txs|] == Transaction(date, FlipPostings(txs[id].postings), Posted, None)
  {
    txs[id := txs[id].(voidedBy := Some(|txs|))] + [Transaction(date, FlipPostings(txs[id].postings), Posted, None)]
  }

  lemma LinkedReversals(txs: seq<Transaction>, id: nat, date: int, i: nat)
    requires LinksOk(txs) && id < |txs| && txs[id].voidedBy.None?
    ensures IsReversal(Linked(txs, id, date), i) <==> IsReversal(txs, i) || i == |txs|
  {
    var r := Linked(txs, id, date);
    assert r[id].voidedBy == Some(|txs|);
    if IsReversal(txs, i) {
      var k :| 0 <= k < |txs| && txs[k].voidedBy == Some(i);
      assert r[k].voidedBy == Some(i);
    }
  }

  lemma LinkedOk(txs: seq<Transaction>, accounts: nat, id: nat, date: int)
    requires TransactionsOk(txs, accounts) && LinksOk(txs)
    requires id < |txs| && txs[id].voidedBy.None? && IsLedger(txs[id].status)
    ensures TransactionsOk(Linked(txs, id, date), accounts) && LinksOk(Linked(txs, id, date))
  {
    FlipPostingsLegs(txs[id].postings);
    FlipBalanced(LegsOf(txs[id].postings));
  }

  lemma {:induction false} PairedShadowUnique(shadows: seq<Shadow>, i: nat, k: nat)
    requires k < |shadows| && shadows[k].pairedMain == Some(i)
    requires forall k, l | 0 <= k < l < |shadows| && shadows[k].pairedMain.Some? :: shadows[k].pairedMain != shadows[l].pairedMain
    ensures PairedShadow(shadows, i) == Some(k)
  {
    var r := PairedShadow(shadows, i);
    assert r.Some?;
  }

  lemma {:induction false} PairedShadowIgnoresVoiding(shadows: seq<Shadow>, k: nat, s: Shadow, i: nat)
    requires k < |shadows| && s.pairedMain == shadows[k].pairedMain
    ensures PairedShadow(shadows[k := s], i) == PairedShadow(shadows, i)
  {
    var n := |shadows| - 1;
    if k < n {
      assert shadows[k := s][..n] == shadows[..n][k := s];
      PairedShadowIgnoresVoiding(shadows[..n], k, s, i);
    } else {
      assert shadows[k := s][..n] == shadows[..n];
    }
  }

  lemma ReverseMirrors(shadows: seq<Shadow>, txs: seq<Transaction>, pools: seq<Pool>, id: nat, date: int)
    requires LinksOk(txs) && MirrorsOk(shadows, txs, pools) && DistinctMains(shadows)
    requires id < |txs| && txs[id].voidedBy.None?
    ensures MirrorsOk(VoidShadow(shadows, id), Linked(txs, id, date), pools)
  {
    var r, after := Linked(txs, id, date), VoidShadow(shadows, id);
    forall k | 0 <= k < |after| && after[k].pairedMain.Some?
      ensures var i := after[k].pairedMain.value; i < |r| && !IsReversal(r, i) && PairedTo(after[k], r[i], pools)
    {
      LinkedReversals(txs, id, date, after[k].pairedMain.value);
      if after[k].pairedMain == Some(id) {
        PairedShadowUnique(shadows, id, k);
      }
    }
  }

  lemma ReverseTagsMirrored(shadows: seq<Shadow>, txs: seq<Transaction>, id: nat, date: int)
    requires LinksOk(txs) && TagsMirrored(shadows, txs) && id < |txs| && txs[id].voidedBy.None?
    ensures TagsMirrored(VoidShadow(shadows, id), Linked(txs, id, date))
  {
    var r, k := Linked(txs, id, date), PairedShadow(shadows, id);
    forall i | 0 <= i < |r| && IsLedger(r[i].status) && !IsReversal(r, i) && TagLegs(r[i].postings) != []
      ensures PairedShadow(VoidShadow(shadows, id), i).Some?
    {
      LinkedReversals(txs, id, date, i);
      if k.Some? {
        PairedShadowIgnoresVoiding(shadows, k.value, shadows[k.value].(voided := true), i);
      }
    }
  }

  lemma ReversePairs(shadows: seq<Shadow>, txs: seq<Transaction>, pools: seq<Pool>, id: nat, date: int)
    requires LinksOk(txs) && PairsOk(shadows, txs, pools)
    requires id < |txs| && txs[id].voidedBy.None?
    ensures PairsOk(VoidShadow(shadows, id), Linked(txs, id, date), pools)
  {
    ReverseMirrors(shadows, txs, pools, id, date);
    ReverseTagsMirrored(shadows, txs, id, date);
  }

  lemma ReverseKeepsInv(b: Books, id: nat, date: int)
    requires Inv(b) && SourceCheck(b, id).None?
    ensures Inv(Reverse(b, id, date))
  {
    assert Reverse(b, id, date).transactions == Linked(b.transactions, id, date);
    LinkedOk(b.transactions, |b.accounts|, id, date);
    ReversePairs(b.shadows, b.transactions, b.pools, id, date);
  }

  /** A replace that passes its checks still passes the create checks once the source is reversed. */
  lemma ReplaceChecksAfterReverse(b: Books, id: nat, reversalDate: int, date: int, postings: seq<Posting>)
    requires ReplaceCheck(b, id, reversalDate, date, postings).None?
    ensures SourceCheck(b, id).None? && CreateCheck(Reverse(b, id, reversalDate), date, postings).None?
  {
    SameAccountCheck(b, Reverse(b, id, reversalDate), postings);
    AccountCheckPasses(b, postings);
    SamePoolCheck(b, Reverse(b, id, reversalDate), postings);
  }

  lemma {:induction false} SameAccountCheck(b: Books, b': Books, postings: seq<Posting>)
    requires b'.accounts == b.accounts
    ensures AccountCheck(b', postings) == AccountCheck(b, postings)
  {
    if postings != [] {
      SameAccountCheck(b, b', postings[1..]);
    }
  }

  lemma {:induction false} SamePoolCheck(b: Books, b': Books, postings: seq<Posting>)
    requires b'.accounts == b.accounts && b'.pools == b.pools
    requires forall i | 0 <= i < |postings| :: postings[i].leg.place < |b.accounts|
    ensures PoolCheck(b', postings) == PoolCheck(b, postings)
  {
    if postings != [] {
      SamePoolCheck(b, b', postings[1..]);
    }
  }

  lemma ReplacementKeepsInv(b: Books, id: nat, reversalDate: int, date: int, postings: seq<Posting>)
    requires Inv(b) && ReplaceCheck(b, id, reversalDate, date, postings).None?
    ensures Inv(Save(Reverse(b, id, reversalDate), date, postings))
  {
    ReplaceChecksAfterReverse(b, id, reversalDate, date, postings);
    ReverseKeepsInv(b, id, reversalDate);
    SaveKeepsInv(Reverse(b, id, reversalDate), date, postings);
  }

  // ----- Pool moves -----

  lemma PostLegsKeepsInv(b: Books, reason: Reason, date: int, from: nat, to: nat, currency: string, amount: int)
    requires Inv(b) && reason != Spend && from < |b.pools| && to < |b.pools|
    requires b.pools[from].currency == currency && b.pools[to].currency == currency
    ensures Inv(PostLegs(b, reason, date, from, to, currency, amount))
  {
    var s := Shadow(date, reason, [Leg(from, currency, -amount), Leg(to, currency, amount)], false, None);
    TwoLegs(s.legs[0], s.legs[1], 0, currency);
    forall i | 0 <= i < |b.transactions| && PairedShadow(b.shadows, i).Some? {
      PairedShadowAppend(b.shadows, [s], i);
    }
  }

  lemma PoolsChangeKeepsInv(b: Books, more: seq<Pool>)
    requires Inv(b) && PoolsExtend(b.pools, more) && PoolsOk(more)
    ensures Inv(b.(pools := more))
  {
    ShadowsOkExtend(b.shadows, b.transactions, b.pools, more);
  }

  // ----- Every step, every run -----

  lemma ImportKeepsInv(b: Books, date: int, postings: seq<Posting>)
    requires Inv(b)
    ensures Inv(Apply(b, ImportPending(date, postings)))
  {
    AppendPairs(b.shadows, b.transactions, b.pools, Transaction(date, postings, Pending, None), []);
    assert b.shadows + [] == b.shadows;
  }

  /** Only the label changed between posted and reconciled. */
  predicate Relabelled(txs: seq<Transaction>, txs': seq<Transaction>) {
    && |txs'| == |txs|
    && forall k | 0 <= k < |txs| ::
         txs'[k].(status := txs[k].status) == txs[k] && IsLedger(txs'[k].status) == IsLedger(txs[k].status)
  }

  lemma RelabelledReversals(txs: seq<Transaction>, txs': seq<Transaction>, i: nat)
    requires Relabelled(txs, txs')
    ensures IsReversal(txs', i) == IsReversal(txs, i)
  {
  }

  lemma RelabelledPairs(shadows: seq<Shadow>, txs: seq<Transaction>, txs': seq<Transaction>, pools: seq<Pool>)
    requires Relabelled(txs, txs') && PairsOk(shadows, txs, pools)
    ensures PairsOk(shadows, txs', pools)
  {
    forall k | 0 <= k < |shadows| && shadows[k].pairedMain.Some?
      ensures var i := shadows[k].pairedMain.value; i < |txs'| && !IsReversal(txs', i) && PairedTo(shadows[k], txs'[i], pools)
    {
      RelabelledReversals(txs, txs', shadows[k].pairedMain.value);
    }
    forall i | 0 <= i < |txs'| && IsLedger(txs'[i].status) && !IsReversal(txs', i) && TagLegs(txs'[i].postings) != []
      ensures PairedShadow(shadows, i).Some?
    {
      RelabelledReversals(txs, txs', i);
    }
  }

  lemma RelabelledOk(txs: seq<Transaction>, txs': seq<Transaction>, accounts: nat)
    requires Relabelled(txs, txs') && TransactionsOk(txs, accounts) && LinksOk(txs)
    ensures TransactionsOk(txs', accounts) && LinksOk(txs')
  {
    forall k | 0 <= k < |txs|
      ensures txs'[k].postings == txs[k].postings && txs'[k].voidedBy == txs[k].voidedBy
    {
    }
  }

  lemma ReconcileKeepsInv(b: Books, id: nat)
    requires Inv(b) && id < |b.transactions| && b.transactions[id].status == Posted
    ensures Inv(b.(transactions := b.transactions[id := b.transactions[id].(status := Reconciled)]))
  {
    var txs := b.transactions[id := b.transactions[id].(status := Reconciled)];
    assert Relabelled(b.transactions, txs);
    RelabelledOk(b.transactions, txs, |b.accounts|);
    RelabelledPairs(b.shadows, b.transactions, txs, b.pools);
  }

  /** A move between existing pools of one currency, after any lazily created system pools. */
  lemma MoveKeepsInv(b: Books, pools: seq<Pool>, reason: Reason, date: int, from: nat, to: nat, currency: string, amount: int)
    requires Inv(b) && PoolsExtend(b.pools, pools) && PoolsOk(pools)
    requires reason != Spend && from < |pools| && to < |pools|
    requires pools[from].currency == currency && pools[to].currency == currency
    ensures Inv(PostLegs(b.(pools := pools), reason, date, from, to, currency, amount))
  {
    PoolsChangeKeepsInv(b, pools);
    PostLegsKeepsInv(b.(pools := pools), reason, date, from, to, currency, amount);
  }

  lemma InflowKeepsInv(b: Books, currency: string, amount: int, date: int)
    requires Inv(b)
    ensures Inv(Inflowed(b, currency, amount, date))
  {
    var pools := EnsureSystemPools(b.pools, currency);
    var from, to := FindPool(pools, Inflow, currency).value, FindPool(pools, Unallocated, currency).value;
    EnsureSystemPoolsOk(b.pools, currency);
    MoveKeepsInv(b, pools, BudgetInflow, date, from, to, currency, amount);
  }

  lemma RefillKeepsInv(b: Books, envelope: nat, amount: int, date: int)
    requires Inv(b) && envelope < |b.pools|
    ensures Inv(Refilled(b, envelope, amount, date))
  {
    var currency := b.pools[envelope].currency;
    var pools := EnsureSystemPools(b.pools, currency);
    EnsureSystemPoolsOk(b.pools, currency);
    MoveKeepsInv(b, pools, Refill, date, FindPool(pools, Unallocated, currency).value, envelope, currency, amount);
  }

  predicate MovesPools(op: Op) {
    op.Move? || op.DeclareInflow? || op.RefillEnvelope? || op.AddPool? || op.DeactivatePool?
  }

  lemma InflowOutcome(b: Books, op: Op)
    requires op.DeclareInflow? && Outcome(b, op).Ok?
    ensures Outcome(b, op).value == Inflowed(b, op.currency, op.amount, op.date)
  {
  }

  lemma RefillOutcome(b: Books, op: Op)
    requires op.RefillEnvelope? && Outcome(b, op).Ok?
    ensures op.envelope < |b.pools| && Outcome(b, op).value == Refilled(b, op.envelope, op.amount, op.date)
  {
  }

  lemma InflowStepKeepsInv(b: Books, op: Op)
    requires Inv(b) && op.DeclareInflow? && Outcome(b, op).Ok?
    ensures Inv(Outcome(b, op).value)
  {
    InflowOutcome(b, op);
    InflowKeepsInv(b, op.currency, op.amount, op.date);
  }

  lemma RefillStepKeepsInv(b: Books, op: Op)
    requires Inv(b) && op.RefillEnvelope? && Outcome(b, op).Ok?
    ensures Inv(Outcome(b, op).value)
  {
    RefillOutcome(b, op);
    RefillKeepsInv(b, op.envelope, op.amount, op.date);
  }

  lemma PoolStepKeepsInv(b: Books, op: Op)
    requires Inv(b) && MovesPools(op) && Outcome(b, op).Ok?
    ensures Inv(Outcome(b, op).value)
  {
    match op {
      case Move(src, dest, amount, date, claims) =>
        PostLegsKeepsInv(b, Transfer, date, src, dest, b.pools[src].currency, amount);
      case DeclareInflow(currency, amount, date) => InflowStepKeepsInv(b, op);
      case RefillEnvelope(envelope, amount, date, claims) => RefillStepKeepsInv(b, op);
      case AddPool(pool) => PoolsChangeKeepsInv(b, b.pools + [pool]);
      case DeactivatePool(i) => PoolsChangeKeepsInv(b, b.pools[i := b.pools[i].(active := false)]);
    }
  }

  lemma LedgerStepKeepsInv(b: Books, op: Op)
    requires Inv(b) && !MovesPools(op) && Outcome(b, op).Ok?
    ensures Inv(Outcome(b, op).value)
  {
    match op {
      case Create(date, postings) => SaveKeepsInv(b, date, postings);
      case Void(id, date) => ReverseKeepsInv(b, id, date);
      case Replace(id, reversalDate, date, postings) => ReplacementKeepsInv(b, id, reversalDate, date, postings);
      case ImportPending(date, postings) => ImportKeepsInv(b, date, postings);
      case Reconcile(id) => ReconcileKeepsInv(b, id);
      case _ =>
    }
  }

  lemma StepKeepsInv(b: Books, op: Op)
    requires Inv(b)
    ensures Inv(Apply(b, op))
  {
    if Outcome(b, op).Ok? {
      if MovesPools(op) {
        PoolStepKeepsInv(b, op);
      } else {
        LedgerStepKeepsInv(b, op);
      }
    }
  }

  lemma {:induction false} RunKeepsInv(b: Books, ops: seq<Op>)
    requires Inv(b)
    ensures Inv(Run(b, ops))
    decreases |ops|
  {
    if ops != [] {
      StepKeepsInv(b, ops[0]);
      RunKeepsInv(Apply(b, ops[0]), ops[1..]);
    }
  }

  /** Some run of requests from a new household leads to `b`. */
  ghost predicate Reachable(b: Books) {
    exists ops :: b == Run(NEW_HOUSEHOLD, ops)
  }

  lemma ReachableInv(b: Books)
    requires Reachable(b)
    ensures Inv(b)
  {
    var ops :| b == Run(NEW_HOUSEHOLD, ops);
    RunKeepsInv(NEW_HOUSEHOLD, ops);
  }

  // ----- The ledger always balances -----

  /**
    In every reachable state and for every as-of date, the balances of all accounts sum to zero in each currency, over posted
    and reconciled transactions.
    */
  lemma AccountsSumToZero(b: Books, currency: string, cutoff: int)
    requires Reachable(b)
    ensures Total(MainEntries(b.transactions), |b.accounts|, currency, cutoff) == 0
  {
    ReachableInv(b);
    BalancedEntriesTotalZero(MainEntries(b.transactions), |b.accounts|, currency, cutoff);
  }

  /** The balances of all pools sum to zero too, whatever was tagged, voided or moved. */
  lemma PoolsSumToZero(b: Books, currency: string, cutoff: int)
    requires Reachable(b)
    ensures Total(ShadowEntries(b.shadows), |b.pools|, currency, cutoff) == 0
  {
    ReachableInv(b);
    BalancedEntriesTotalZero(ShadowEntries(b.shadows), |b.pools|, currency, cutoff);
  }
}
