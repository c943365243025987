/** Conservation in the shadow ledger: what the Inflow, Spent and remaining pools hold in every reachable state. */
module PoolConservation {
  import opened Results
  import opened Legs
  import opened Ledger
  import opened LedgerInvariants

  // ----- The quantities the laws speak of, read off the main ledger and the shadow rows -----

  /** A create or replace that has not been voided. Reversals repeat their source's tags but spend nothing. */
  predicate Live(txs: seq<Transaction>, i: nat)
    requires i < |txs|
  {
    IsLedger(txs[i].status) && txs[i].voidedBy.None? && !IsReversal(txs, i)
  }

  /** The tags of the transactions, counted while these are live. */
  function TagEntries(txs: seq<Transaction>): (r: seq<Entry>)
    ensures |r| == |txs|
    ensures forall i | 0 <= i < |r| :: r[i] == Entry(txs[i].date, Live(txs, i), TagLegs(txs[i].postings))
  {
    seq(|txs|, i requires 0 <= i < |txs| => Entry(txs[i].date, Live(txs, i), TagLegs(txs[i].postings)))
  }

  /** The shadow transactions that users post themselves: inflows, refills, transfers. */
  function ManualEntries(shadows: seq<Shadow>): (r: seq<Entry>)
    ensures |r| == |shadows|
    ensures forall k | 0 <= k < |r| :: r[k] == Entry(shadows[k].date, shadows[k].pairedMain.None?, shadows[k].legs)
  {
    seq(|shadows|, k requires 0 <= k < |shadows| => Entry(shadows[k].date, shadows[k].pairedMain.None?, shadows[k].legs))
  }

  /** Tagged spending in a currency: the tagged amounts of live transactions. */
  function Tagged(b: Books, currency: string, cutoff: int): int {
    NetBalance(TagEntries(b.transactions), currency, cutoff)
  }

  /** The part of it tagged onto one pool. */
  function TaggedOn(b: Books, pool: nat, currency: string, cutoff: int): int {
    Balance(TagEntries(b.transactions), pool, currency, cutoff)
  }

  function PositiveLegs(legs: seq<Leg>): seq<Leg> {
    if legs == [] then [] else (if legs[0].amount > 0 then [legs[0]] else []) + PositiveLegs(legs[1..])
  }

  function InflowEntries(shadows: seq<Shadow>): (r: seq<Entry>)
    ensures |r| == |shadows|
    ensures forall k | 0 <= k < |r| ::
              r[k] == Entry(shadows[k].date, shadows[k].reason == BudgetInflow && !shadows[k].voided, PositiveLegs(shadows[k].legs))
  {
    seq(|shadows|, k requires 0 <= k < |shadows| =>
      Entry(shadows[k].date, shadows[k].reason == BudgetInflow && !shadows[k].voided, PositiveLegs(shadows[k].legs)))
  }

  /** Declared inflows, as `inflow_since` sums them: the positive legs of budget-inflow transactions that are not voided. */
  function Declared(b: Books, currency: string, cutoff: int): int {
    NetBalance(InflowEntries(b.shadows), currency, cutoff)
  }

  predicate IsPool(b: Books, pool: nat, kind: PoolKind, currency: string) {
    pool < |b.pools| && b.pools[pool].kind == kind && b.pools[pool].currency == currency
  }

  // ----- The law that every step keeps -----

  /** A pool holds what users moved there, minus what live tags took from it, plus all tagged spending if it is Spent. */
  predicate PoolLaw(b: Books, pool: nat, currency: string, cutoff: int) {
    PoolBalance(b, pool, currency, cutoff)
    == Balance(ManualEntries(b.shadows), pool, currency, cutoff)
       - TaggedOn(b, pool, currency, cutoff)
       + if IsPool(b, pool, Spent, currency) then Tagged(b, currency, cutoff) else 0
  }

  /** Without a Spent pool for a currency there is no live tag in it. */
  lemma NoSpentPoolNoTags(b: Books, currency: string, cutoff: int)
    requires Inv(b) && forall p | 0 <= p < |b.pools| :: !IsPool(b, p, Spent, currency)
    ensures Tagged(b, currency, cutoff) == 0
  {
    forall i | 0 <= i < |b.transactions| && Live(b.transactions, i)
      ensures Net(TagLegs(b.transactions[i].postings), currency) == 0
    {
      var tags := TagLegs(b.transactions[i].postings);
      if tags != [] {
        var k := PairedShadow(b.shadows, i).value;
        var p := DerivePairing(b.transactions[i].postings);
        assert PairedTo(b.shadows[k], b.transactions[i], b.pools);
        assert IsPool(b, b.shadows[k].legs[|p.legs|].place, Spent, p.currency);
        AbsentNet(tags, currency);
      }
    }
    ZeroEffects(TagEntries(b.transactions), currency, cutoff);
  }

  lemma {:induction false} ZeroEffects(entries: seq<Entry>, currency: string, cutoff: int)
    requires forall i | 0 <= i < |entries| && entries[i].live :: Net(entries[i].legs, currency) == 0
    ensures NetBalance(entries, currency, cutoff) == 0
  {
    if entries != [] {
      ZeroEffects(entries[..|entries| - 1], currency, cutoff);
    }
  }

  lemma PoolsExtendLaw(b: Books, pools: seq<Pool>, pool: nat, currency: string, cutoff: int)
    requires Inv(b) && PoolLaw(b, pool, currency, cutoff) && PoolsExtend(b.pools, pools) && PoolsOk(pools)
    ensures PoolLaw(b.(pools := pools), pool, currency, cutoff)
  {
    var b' := b.(pools := pools);
    if IsPool(b', pool, Spent, currency) && !IsPool(b, pool, Spent, currency) {
      assert forall p | 0 <= p < |b.pools| :: !IsPool(b, p, Spent, currency) by {
        forall p | 0 <= p < |b.pools|
          ensures !IsPool(b, p, Spent, currency)
        {
          assert p != pool ==> pools[p].kind != Spent || pools[p].currency != currency;
        }
      }
      NoSpentPoolNoTags(b, currency, cutoff);
    }
  }

  lemma TagEntriesAppend(txs: seq<Transaction>, t: Transaction)
    requires LinksOk(txs) && t.voidedBy.None?
    ensures TagEntries(txs + [t]) == TagEntries(txs) + [Entry(t.date, IsLedger(t.status), TagLegs(t.postings))]
  {
    FreshIsNoReversal(txs);
    forall i | 0 <= i <= |txs|
      ensures IsReversal(txs + [t], i) == IsReversal(txs, i)
    {
      AppendKeepsReversals(txs, t, i);
    }
  }

  /** What the new shadow does to each pool of the new pool list. */
  lemma ShadowForEffect(b: Books, date: int, postings: seq<Posting>, pools: seq<Pool>, pool: nat, currency: string, cutoff: int)
    requires pools == PoolsFor(b.pools, postings) && PoolsOk(pools) && !DerivePairing(postings).Refused?
    ensures Balance(ShadowEntries(ShadowFor(b.pools, date, postings, |b.transactions|)), pool, currency, cutoff)
         == SpendingEffect(Entry(date, true, TagLegs(postings)), IsPool(b.(pools := pools), pool, Spent, currency),
                           pool, currency, cutoff)
  {
    var tags := TagLegs(postings);
    var more := ShadowFor(b.pools, date, postings, |b.transactions|);
    if tags == [] {
      assert ShadowEntries(more) == [];
    } else {
      var c := DerivePairing(postings).currency;
      var spent := FindPool(pools, Spent, c).value;
      var absorbing := Leg(spent, c, Net(tags, c));
      OnConcat(Flip(tags), [absorbing], pool, currency);
      OneLeg(absorbing, pool, currency);
      FlipNegates(tags, pool, currency);
      SameCurrencyNet(tags, c);
      assert ShadowEntries(more)[..0] == [];
    }
  }

  /** What a live entry of tags takes from a pool, and puts back if it is the Spent pool. */
  function SpendingEffect(e: Entry, isSpent: bool, pool: nat, currency: string, cutoff: int): int {
    -Effect(e, pool, currency, cutoff) + if isSpent then NetEffect(e, currency, cutoff) else 0
  }

  lemma ManualEntriesAppend(shadows: seq<Shadow>, more: seq<Shadow>, pool: nat, currency: string, cutoff: int)
    requires |more| <= 1
    ensures Balance(ManualEntries(shadows + more), pool, currency, cutoff)
         == Balance(ManualEntries(shadows), pool, currency, cutoff) + Balance(ManualEntries(more), pool, currency, cutoff)
    ensures Balance(ShadowEntries(shadows + more), pool, currency, cutoff)
         == Balance(ShadowEntries(shadows), pool, currency, cutoff) + Balance(ShadowEntries(more), pool, currency, cutoff)
  {
    assert ManualEntries(shadows + more) == ManualEntries(shadows) + ManualEntries(more);
    assert ShadowEntries(shadows + more) == ShadowEntries(shadows) + ShadowEntries(more);
    AtMostOneMore(ManualEntries(shadows), ManualEntries(more), pool, currency, cutoff);
    AtMostOneMore(ShadowEntries(shadows), ShadowEntries(more), pool, currency, cutoff);
  }

  lemma AtMostOneMore(entries: seq<Entry>, more: seq<Entry>, pool: nat, currency: string, cutoff: int)
    requires |more| <= 1
    ensures Balance(entries + more, pool, currency, cutoff)
         == Balance(entries, pool, currency, cutoff) + Balance(more, pool, currency, cutoff)
  {
    if more == [] {
      assert entries + more == entries;
    } else {
      assert more == [] + [more[0]];
      BalanceAppend(entries, more[0], pool, currency, cutoff);
      BalanceAppend([], more[0], pool, currency, cutoff);
    }
  }

  /** What saving a new transaction adds to each quantity of the law. */
  lemma SaveDeltas(b: Books, date: int, postings: seq<Posting>, pool: nat, currency: string, cutoff: int)
    requires Inv(b) && CreateCheck(b, date, postings).None?
    ensures var b', e := Save(b, date, postings), Entry(date, true, TagLegs(postings));
            && TaggedOn(b', pool, currency, cutoff) == TaggedOn(b, pool, currency, cutoff) + Effect(e, pool, currency, cutoff)
            && Tagged(b', currency, cutoff) == Tagged(b, currency, cutoff) + NetEffect(e, currency, cutoff)
            && Balance(ManualEntries(b'.shadows), pool, currency, cutoff) == Balance(ManualEntries(b.shadows), pool, currency, cutoff)
            && PoolBalance(b', pool, currency, cutoff)
               == PoolBalance(b, pool, currency, cutoff) - Effect(e, pool, currency, cutoff)
                  + if IsPool(b', pool, Spent, currency) then NetEffect(e, currency, cutoff) else 0
  {
    SaveShadowDeltas(b, date, postings, pool, currency, cutoff);
    var e := Entry(date, true, TagLegs(postings));
    TagEntriesAppend(b.transactions, Transaction(date, postings, Posted, None));
    BalanceAppend(TagEntries(b.transactions), e, pool, currency, cutoff);
    NetBalanceAppend(TagEntries(b.transactions), e, currency, cutoff);
  }

  lemma SaveShadowDeltas(b: Books, date: int, postings: seq<Posting>, pool: nat, currency: string, cutoff: int)
    requires Inv(b) && CreateCheck(b, date, postings).None?
    ensures var b', e := Save(b, date, postings), Entry(date, true, TagLegs(postings));
            && Balance(ManualEntries(b'.shadows), pool, currency, cutoff) == Balance(ManualEntries(b.shadows), pool, currency, cutoff)
            && PoolBalance(b', pool, currency, cutoff)
               == PoolBalance(b, pool, currency, cutoff)
                  + SpendingEffect(e, IsPool(b', pool, Spent, currency), pool, currency, cutoff)
  {
    ShadowForFits(b, date, postings);
    CreateCheckTags(b, date, postings);
    AppendedBalances(b.shadows, ShadowFor(b.pools, date, postings, |b.transactions|), pool, currency, cutoff);
    ShadowForEffect(b, date, postings, PoolsFor(b.pools, postings), pool, currency, cutoff);
  }

  lemma AppendedBalances(shadows: seq<Shadow>, more: seq<Shadow>, pool: nat, currency: string, cutoff: int)
    requires |more| <= 1 && (|more| == 1 ==> more[0].pairedMain.Some?)
    ensures Balance(ManualEntries(shadows + more), pool, currency, cutoff) == Balance(ManualEntries(shadows), pool, currency, cutoff)
    ensures Balance(ShadowEntries(shadows + more), pool, currency, cutoff)
         == Balance(ShadowEntries(shadows), pool, currency, cutoff) + Balance(ShadowEntries(more), pool, currency, cutoff)
  {
    ManualEntriesAppend(shadows, more, pool, currency, cutoff);
    PairedAreNotManual(more, pool, currency, cutoff);
  }

  lemma {:induction false} PairedAreNotManual(shadows: seq<Shadow>, pool: nat, currency: string, cutoff: int)
    requires forall k | 0 <= k < |shadows| :: shadows[k].pairedMain.Some?
    ensures Balance(ManualEntries(shadows), pool, currency, cutoff) == 0
  {
    if shadows != [] {
      var n := |shadows| - 1;
      PairedAreNotManual(shadows[..n], pool, currency, cutoff);
      assert ManualEntries(shadows)[..n] == ManualEntries(shadows[..n]);
    }
  }

  lemma SaveKeepsLaw(b: Books, date: int, postings: seq<Posting>, pool: nat, currency: string, cutoff: int)
    requires Inv(b) && PoolLaw(b, pool, currency, cutoff) && CreateCheck(b, date, postings).None?
    ensures PoolLaw(Save(b, date, postings), pool, currency, cutoff)
  {
    ShadowForFits(b, date, postings);
    PoolsExtendLaw(b, PoolsFor(b.pools, postings), pool, currency, cutoff);
    SaveDeltas(b, date, postings, pool, currency, cutoff);
  }

  // ----- Void -----

  lemma TagEntriesLinked(txs: seq<Transaction>, id: nat, date: int)
    requires LinksOk(txs) && id < |txs| && txs[id].voidedBy.None?
    ensures TagEntries(Linked(txs, id, date))
         == TagEntries(txs)[id := TagEntries(txs)[id].(live := false)]
            + [Entry(date, false, TagLegs(FlipPostings(txs[id].postings)))]
  {
    var r := Linked(txs, id, date);
    forall i | 0 <= i <= |txs|
      ensures IsReversal(r, i) <==> IsReversal(txs, i) || i == |txs|
    {
      LinkedReversals(txs, id, date, i);
    }
  }

  lemma TagsAfterReverse(b: Books, id: nat, date: int, pool: nat, currency: string, cutoff: int)
    requires LinksOk(b.transactions) && id < |b.transactions| && b.transactions[id].voidedBy.None?
    ensures var e, b' := TagEntries(b.transactions)[id], Reverse(b, id, date);
            && TaggedOn(b', pool, currency, cutoff) == TaggedOn(b, pool, currency, cutoff) - Effect(e, pool, currency, cutoff)
            && Tagged(b', currency, cutoff) == Tagged(b, currency, cutoff) - NetEffect(e, currency, cutoff)
  {
    var entries := TagEntries(b.transactions);
    var dead := entries[id].(live := false);
    var reversal := Entry(date, false, TagLegs(FlipPostings(b.transactions[id].postings)));
    assert Reverse(b, id, date).transactions == Linked(b.transactions, id, date);
    TagEntriesLinked(b.transactions, id, date);
    BalanceUpdate(entries, id, dead, pool, currency, cutoff);
    BalanceAppend(entries[id := dead], reversal, pool, currency, cutoff);
    NetBalanceUpdate(entries, id, dead, currency, cutoff);
    NetBalanceAppend(entries[id := dead], reversal, currency, cutoff);
  }

  lemma VoidShadowEntries(shadows: seq<Shadow>, k: nat, main: nat, pool: nat, currency: string, cutoff: int)
    requires PairedShadow(shadows, main) == Some(k) && k < |shadows|
    ensures Balance(ShadowEntries(VoidShadow(shadows, main)), pool, currency, cutoff)
         == Balance(ShadowEntries(shadows), pool, currency, cutoff) - Effect(ShadowEntries(shadows)[k], pool, currency, cutoff)
  {
    var voided := ShadowEntries(shadows)[k].(live := false);
    assert ShadowEntries(VoidShadow(shadows, main)) == ShadowEntries(shadows)[k := voided];
    BalanceUpdate(ShadowEntries(shadows), k, voided, pool, currency, cutoff);
  }

  lemma VoidShadowManual(shadows: seq<Shadow>, main: nat)
    ensures ManualEntries(VoidShadow(shadows, main)) == ManualEntries(shadows)
  {
  }

  /** Voiding the paired shadow takes exactly its legs out of the pool balances. */
  lemma ShadowsAfterReverse(b: Books, id: nat, date: int, pool: nat, currency: string, cutoff: int)
    requires Inv(b) && id < |b.transactions| && b.transactions[id].voidedBy.None? && IsLedger(b.transactions[id].status)
    ensures var e := TagEntries(b.transactions)[id];
            PoolBalance(Reverse(b, id, date), pool, currency, cutoff)
            == PoolBalance(b, pool, currency, cutoff)
               + Effect(e, pool, currency, cutoff)
               - if IsPool(b, pool, Spent, currency) then NetEffect(e, currency, cutoff) else 0
  {
    var t, k := b.transactions[id], PairedShadow(b.shadows, id);
    if k.Some? {
      var s := b.shadows[k.value];
      assert PairedTo(s, t, b.pools) && !IsReversal(b.transactions, id);
      VoidShadowEntries(b.shadows, k.value, id, pool, currency, cutoff);
      PairedLegs(s, t, b.pools, pool, currency);
    } else {
      assert Live(b.transactions, id) ==> TagLegs(t.postings) == [];
    }
  }

  lemma PairedLegs(s: Shadow, t: Transaction, pools: seq<Pool>, pool: nat, currency: string)
    requires PairedTo(s, t, pools) && PoolsOk(pools)
    ensures On(s.legs, pool, currency)
         == -On(TagLegs(t.postings), pool, currency)
            + if pool < |pools| && pools[pool].kind == Spent && pools[pool].currency == currency
              then Net(TagLegs(t.postings), currency) else 0
  {
    var tags, p := TagLegs(t.postings), DerivePairing(t.postings);
    var spent := s.legs[|p.legs|];
    assert s.legs == p.legs + [spent];
    OnConcat(p.legs, [spent], pool, currency);
    OneLeg(spent, pool, currency);
    FlipNegates(tags, pool, currency);
    SameCurrencyNet(tags, p.currency);
  }

  lemma ReverseKeepsLaw(b: Books, id: nat, date: int, pool: nat, currency: string, cutoff: int)
    requires Inv(b) && PoolLaw(b, pool, currency, cutoff) && SourceCheck(b, id).None?
    ensures PoolLaw(Reverse(b, id, date), pool, currency, cutoff)
  {
    TagsAfterReverse(b, id, date, pool, currency, cutoff);
    ShadowsAfterReverse(b, id, date, pool, currency, cutoff);
    VoidShadowManual(b.shadows, id);
  }

  // ----- The other steps -----

  lemma PostLegsKeepsLaw(
      b: Books, reason: Reason, date: int, from: nat, to: nat, c: string, amount: int, pool: nat, currency: string, cutoff: int)
    requires PoolLaw(b, pool, currency, cutoff)
    ensures PoolLaw(PostLegs(b, reason, date, from, to, c, amount), pool, currency, cutoff)
  {
    var s := Shadow(date, reason, [Leg(from, c, -amount), Leg(to, c, amount)], false, None);
    ManualEntriesAppend(b.shadows, [s], pool, currency, cutoff);
    assert ManualEntries([s]) == ShadowEntries([s]);
  }

  lemma MoveKeepsLaw(
      b: Books, pools: seq<Pool>, reason: Reason, date: int, from: nat, to: nat, c: string, amount: int,
      pool: nat, currency: string, cutoff: int)
    requires Inv(b) && PoolLaw(b, pool, currency, cutoff) && PoolsExtend(b.pools, pools) && PoolsOk(pools)
    ensures PoolLaw(PostLegs(b.(pools := pools), reason, date, from, to, c, amount), pool, currency, cutoff)
  {
    PoolsExtendLaw(b, pools, pool, currency, cutoff);
    PostLegsKeepsLaw(b.(pools := pools), reason, date, from, to, c, amount, pool, currency, cutoff);
  }

  lemma TagEntriesRelabelled(txs: seq<Transaction>, txs': seq<Transaction>)
    requires Relabelled(txs, txs')
    ensures TagEntries(txs') == TagEntries(txs)
  {
    forall i | 0 <= i < |txs|
      ensures TagEntries(txs')[i] == TagEntries(txs)[i]
    {
      RelabelledReversals(txs, txs', i);
      assert txs'[i].(status := txs[i].status) == txs[i];
    }
  }

  lemma SaveReversedKeepsLaw(
      b: Books, id: nat, reversalDate: int, date: int, postings: seq<Posting>, pool: nat, currency: string, cutoff: int)
    requires Inv(b) && PoolLaw(b, pool, currency, cutoff) && ReplaceCheck(b, id, reversalDate, date, postings).None?
    ensures PoolLaw(Save(Reverse(b, id, reversalDate), date, postings), pool, currency, cutoff)
  {
    ReplaceChecksAfterReverse(b, id, reversalDate, date, postings);
    ReverseKeepsInv(b, id, reversalDate);
    ReverseKeepsLaw(b, id, reversalDate, pool, currency, cutoff);
    SaveKeepsLaw(Reverse(b, id, reversalDate), date, postings, pool, currency, cutoff);
  }

  lemma InflowKeepsLaw(b: Books, c: string, amount: int, date: int, pool: nat, currency: string, cutoff: int)
    requires Inv(b) && PoolLaw(b, pool, currency, cutoff)
    ensures PoolLaw(Inflowed(b, c, amount, date), pool, currency, cutoff)
  {
    var pools := EnsureSystemPools(b.pools, c);
    var from, to := FindPool(pools, Inflow, c).value, FindPool(pools, Unallocated, c).value;
    EnsureSystemPoolsOk(b.pools, c);
    MoveKeepsLaw(b, pools, BudgetInflow, date, from, to, c, amount, pool, currency, cutoff);
  }

  lemma RefillKeepsLaw(b: Books, envelope: nat, amount: int, date: int, pool: nat, currency: string, cutoff: int)
    requires Inv(b) && PoolLaw(b, pool, currency, cutoff) && envelope < |b.pools|
    ensures PoolLaw(Refilled(b, envelope, amount, date), pool, currency, cutoff)
  {
    var c := b.pools[envelope].currency;
    var pools := EnsureSystemPools(b.pools, c);
    var from := FindPool(pools, Unallocated, c).value;
    EnsureSystemPoolsOk(b.pools, c);
    MoveKeepsLaw(b, pools, Refill, date, from, envelope, c, amount, pool, currency, cutoff);
  }

  lemma ImportKeepsLaw(b: Books, date: int, postings: seq<Posting>, pool: nat, currency: string, cutoff: int)
    requires Inv(b) && PoolLaw(b, pool, currency, cutoff)
    ensures PoolLaw(Apply(b, ImportPending(date, postings)), pool, currency, cutoff)
  {
    var e := Entry(date, false, TagLegs(postings));
    TagEntriesAppend(b.transactions, Transaction(date, postings, Pending, None));
    BalanceAppend(TagEntries(b.transactions), e, pool, currency, cutoff);
    NetBalanceAppend(TagEntries(b.transactions), e, currency, cutoff);
  }

  lemma ReconcileKeepsLaw(b: Books, id: nat, pool: nat, currency: string, cutoff: int)
    requires PoolLaw(b, pool, currency, cutoff) && id < |b.transactions| && b.transactions[id].status == Posted
    ensures PoolLaw(b.(transactions := b.transactions[id := b.transactions[id].(status := Reconciled)]), pool, currency, cutoff)
  {
    TagEntriesRelabelled(b.transactions, b.transactions[id := b.transactions[id].(status := Reconciled)]);
  }

  lemma InflowStepKeepsLaw(b: Books, op: Op, pool: nat, currency: string, cutoff: int)
    requires Inv(b) && PoolLaw(b, pool, currency, cutoff) && op.DeclareInflow? && Outcome(b, op).Ok?
    ensures PoolLaw(Outcome(b, op).value, pool, currency, cutoff)
  {
    InflowOutcome(b, op);
    InflowKeepsLaw(b, op.currency, op.amount, op.date, pool, currency, cutoff);
  }

  lemma RefillStepKeepsLaw(b: Books, op: Op, pool: nat, currency: string, cutoff: int)
    requires Inv(b) && PoolLaw(b, pool, currency, cutoff) && op.RefillEnvelope? && Outcome(b, op).Ok?
    ensures PoolLaw(Outcome(b, op).value, pool, currency, cutoff)
  {
    RefillOutcome(b, op);
    RefillKeepsLaw(b, op.envelope, op.amount, op.date, pool, currency, cutoff);
  }

  lemma ChangeStepKeepsLaw(b: Books, op: Op, pool: nat, currency: string, cutoff: int)
    requires Inv(b) && PoolLaw(b, pool, currency, cutoff) && (op.AddPool? || op.DeactivatePool?) && Outcome(b, op).Ok?
    ensures PoolLaw(Outcome(b, op).value, pool, currency, cutoff)
  {
    if op.AddPool? {
      PoolsExtendLaw(b, b.pools + [op.pool], pool, currency, cutoff);
    } else {
      PoolsExtendLaw(b, b.pools[op.pool_ := b.pools[op.pool_].(active := false)], pool, currency, cutoff);
    }
  }

  lemma PoolStepKeepsLaw(b: Books, op: Op, pool: nat, currency: string, cutoff: int)
    requires Inv(b) && PoolLaw(b, pool, currency, cutoff) && MovesPools(op) && Outcome(b, op).Ok?
    ensures PoolLaw(Outcome(b, op).value, pool, currency, cutoff)
  {
    if op.Move? {
      PostLegsKeepsLaw(b, Transfer, op.date, op.src, op.dest, b.pools[op.src].currency, op.amount, pool, currency, cutoff);
    } else if op.DeclareInflow? {
      InflowStepKeepsLaw(b, op, pool, currency, cutoff);
    } else if op.RefillEnvelope? {
      RefillStepKeepsLaw(b, op, pool, currency, cutoff);
    } else {
      ChangeStepKeepsLaw(b, op, pool, currency, cutoff);
    }
  }

  lemma CreateStepKeepsLaw(b: Books, op: Op, pool: nat, currency: string, cutoff: int)
    requires Inv(b) && PoolLaw(b, pool, currency, cutoff) && op.Create? && Outcome(b, op).Ok?
    ensures PoolLaw(Outcome(b, op).value, pool, currency, cutoff)
  {
    SaveKeepsLaw(b, op.date, op.postings, pool, currency, cutoff);
  }

  lemma ReplaceStepKeepsLaw(b: Books, op: Op, pool: nat, currency: string, cutoff: int)
    requires Inv(b) && PoolLaw(b, pool, currency, cutoff) && op.Replace? && Outcome(b, op).Ok?
    ensures PoolLaw(Outcome(b, op).value, pool, currency, cutoff)
  {
    SaveReversedKeepsLaw(b, op.id, op.reversalDate, op.date, op.postings, pool, currency, cutoff);
  }

  lemma LedgerStepKeepsLaw(b: Books, op: Op, pool: nat, currency: string, cutoff: int)
    requires Inv(b) && PoolLaw(b, pool, currency, cutoff) && !MovesPools(op) && Outcome(b, op).Ok?
    ensures PoolLaw(Outcome(b, op).value, pool, currency, cutoff)
  {
    match op {
      case Create(_, _) => CreateStepKeepsLaw(b, op, pool, currency, cutoff);
      case Void(id, date) => ReverseKeepsLaw(b, id, date, pool, currency, cutoff);
      case Replace(_, _, _, _) => ReplaceStepKeepsLaw(b, op, pool, currency, cutoff);
      case ImportPending(date, postings) => ImportKeepsLaw(b, date, postings, pool, currency, cutoff);
      case Reconcile(id) => ReconcileKeepsLaw(b, id, pool, currency, cutoff);
      case _ =>
    }
  }

  lemma StepKeepsLaw(b: Books, op: Op, pool: nat, currency: string, cutoff: int)
    requires Inv(b) && PoolLaw(b, pool, currency, cutoff)
    ensures PoolLaw(Apply(b, op), pool, currency, cutoff)
  {
    if Outcome(b, op).Ok? {
      if MovesPools(op) {
        PoolStepKeepsLaw(b, op, pool, currency, cutoff);
      } else {
        LedgerStepKeepsLaw(b, op, pool, currency, cutoff);
      }
    }
  }

  lemma {:induction false} RunKeepsLaw(b: Books, ops: seq<Op>, pool: nat, currency: string, cutoff: int)
    requires Inv(b) && PoolLaw(b, pool, currency, cutoff)
    ensures PoolLaw(Run(b, ops), pool, currency, cutoff)
    decreases |ops|
  {
    if ops != [] {
      StepKeepsInv(b, ops[0]);
      StepKeepsLaw(b, ops[0], pool, currency, cutoff);
      RunKeepsLaw(Apply(b, ops[0]), ops[1..], pool, currency, cutoff);
    }
  }

  lemma ReachableLaw(b: Books, pool: nat, currency: string, cutoff: int)
    requires Reachable(b)
    ensures PoolLaw(b, pool, currency, cutoff)
  {
    var ops :| b == Run(NEW_HOUSEHOLD, ops);
    RunKeepsLaw(NEW_HOUSEHOLD, ops, pool, currency, cutoff);
  }
}
