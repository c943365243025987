/** The budget identities of the shadow ledger, exactly when the documented ones hold, and who changes what. */
module PoolLaws {
  import opened Results
  import opened Legs
  import opened Ledger
  import opened LedgerInvariants
  import opened PoolConservation
  import opened VoidChains
  import PoolChecks

  // ----- The shape of what users post -----

  /** A positive amount out of one pool into another, between the kinds that the reason allows. */
  predicate ManualShape(s: Shadow, pools: seq<Pool>) {
    && |s.legs| == 2
    && s.legs[0].place < |pools| && s.legs[1].place < |pools|
    && s.legs[1].amount > 0 && s.legs[0].amount == -s.legs[1].amount && s.legs[0].currency == s.legs[1].currency
    && var from, to := pools[s.legs[0].place].kind, pools[s.legs[1].place].kind;
       match s.reason
       case BudgetInflow => from == Inflow && to == Unallocated
       case Refill => from == Unallocated && to == Envelope
       case Transfer => !IsSystem(from) && !IsSystem(to)
       case Spend => false
  }

  predicate ManualOk(shadows: seq<Shadow>, pools: seq<Pool>) {
    forall k | 0 <= k < |shadows| && shadows[k].pairedMain.None? :: ManualShape(shadows[k], pools)
  }

  lemma ManualOkExtend(shadows: seq<Shadow>, pools: seq<Pool>, more: seq<Pool>)
    requires ManualOk(shadows, pools) && PoolsExtend(pools, more)
    ensures ManualOk(shadows, more)
  {
    forall k | 0 <= k < |shadows| && shadows[k].pairedMain.None?
      ensures ManualShape(shadows[k], more)
    {
      assert ManualShape(shadows[k], pools);
    }
  }

  lemma PoolsForExtends(pools: seq<Pool>, postings: seq<Posting>)
    ensures PoolsExtend(pools, PoolsFor(pools, postings))
  {
  }

  lemma SaveKeepsManual(b: Books, date: int, postings: seq<Posting>)
    requires ManualOk(b.shadows, b.pools)
    ensures ManualOk(Save(b, date, postings).shadows, Save(b, date, postings).pools)
  {
    PoolsForExtends(b.pools, postings);
    ManualOkExtend(b.shadows, b.pools, PoolsFor(b.pools, postings));
  }

  lemma PostKeepsManual(b: Books, pools: seq<Pool>, reason: Reason, date: int, from: nat, to: nat, c: string, amount: int)
    requires ManualOk(b.shadows, b.pools) && PoolsExtend(b.pools, pools)
    requires ManualShape(Shadow(date, reason, [Leg(from, c, -amount), Leg(to, c, amount)], false, None), pools)
    ensures var b' := PostLegs(b.(pools := pools), reason, date, from, to, c, amount); ManualOk(b'.shadows, b'.pools)
  {
    ManualOkExtend(b.shadows, b.pools, pools);
  }

  lemma InflowKeepsManual(b: Books, c: string, amount: int, date: int)
    requires ManualOk(b.shadows, b.pools) && amount > 0
    ensures var b' := Inflowed(b, c, amount, date); ManualOk(b'.shadows, b'.pools)
  {
    var pools := EnsureSystemPools(b.pools, c);
    var from, to := FindPool(pools, Inflow, c).value, FindPool(pools, Unallocated, c).value;
    PostKeepsManual(b, pools, BudgetInflow, date, from, to, c, amount);
  }

  lemma RefillKeepsManual(b: Books, envelope: nat, amount: int, date: int)
    requires ManualOk(b.shadows, b.pools) && envelope < |b.pools| && b.pools[envelope].kind == Envelope && amount > 0
    ensures var b' := Refilled(b, envelope, amount, date); ManualOk(b'.shadows, b'.pools)
  {
    var c := b.pools[envelope].currency;
    var pools := EnsureSystemPools(b.pools, c);
    PostKeepsManual(b, pools, Refill, date, FindPool(pools, Unallocated, c).value, envelope, c, amount);
  }

  lemma PoolStepKeepsManual(b: Books, op: Op)
    requires ManualOk(b.shadows, b.pools) && MovesPools(op) && Outcome(b, op).Ok?
    ensures ManualOk(Outcome(b, op).value.shadows, Outcome(b, op).value.pools)
  {
    match op {
      case Move(src, dest, amount, date, claims) =>
        PostKeepsManual(b, b.pools, Transfer, date, src, dest, b.pools[src].currency, amount);
      case DeclareInflow(c, amount, date) => InflowKeepsManual(b, c, amount, date);
      case RefillEnvelope(envelope, amount, date, claims) => RefillKeepsManual(b, envelope, amount, date);
      case AddPool(p) => ManualOkExtend(b.shadows, b.pools, b.pools + [p]);
      case DeactivatePool(i) => ManualOkExtend(b.shadows, b.pools, b.pools[i := b.pools[i].(active := false)]);
    }
  }

  lemma StepKeepsManual(b: Books, op: Op)
    requires ManualOk(b.shadows, b.pools)
    ensures ManualOk(Apply(b, op).shadows, Apply(b, op).pools)
  {
    if Outcome(b, op).Ok? {
      if MovesPools(op) {
        PoolStepKeepsManual(b, op);
      } else {
        match op {
          case Create(date, postings) => SaveKeepsManual(b, date, postings);
          case Replace(id, reversalDate, date, postings) => SaveKeepsManual(Reverse(b, id, reversalDate), date, postings);
          case _ =>
        }
      }
    }
  }

  lemma {:induction false} RunKeepsManual(b: Books, ops: seq<Op>)
    requires ManualOk(b.shadows, b.pools)
    ensures ManualOk(Run(b, ops).shadows, Run(b, ops).pools)
    decreases |ops|
  {
    if ops != [] {
      StepKeepsManual(b, ops[0]);
      RunKeepsManual(Apply(b, ops[0]), ops[1..]);
    }
  }

  lemma ReachableManual(b: Books)
    requires Reachable(b)
    ensures ManualOk(b.shadows, b.pools)
  {
    var ops :| b == Run(NEW_HOUSEHOLD, ops);
    RunKeepsManual(NEW_HOUSEHOLD, ops);
  }

  // ----- What users moved on the Inflow and Spent pools -----

  /** The one system pool of a kind and currency is where every such leg goes. */
  predicate TheSystemPool(pools: seq<Pool>, pool: nat, kind: PoolKind, currency: string) {
    && IsSystem(kind) && pool < |pools| && pools[pool].kind == kind && pools[pool].currency == currency
    && forall p | 0 <= p < |pools| && pools[p].kind == kind && pools[p].currency == currency :: p == pool
  }

  lemma {:induction false} ManualInflow(shadows: seq<Shadow>, pools: seq<Pool>, pool: nat, currency: string, cutoff: int)
    requires ManualOk(shadows, pools) && ShadowsOk(shadows, pools) && TheSystemPool(pools, pool, Inflow, currency)
    requires forall k | 0 <= k < |shadows| :: (shadows[k].reason == Spend <==> shadows[k].pairedMain.Some?)
    requires forall k | 0 <= k < |shadows| && shadows[k].pairedMain.None? :: !shadows[k].voided
    ensures Balance(ManualEntries(shadows), pool, currency, cutoff) == -NetBalance(InflowEntries(shadows), currency, cutoff)
  {
    if shadows != [] {
      var front, s := shadows[..|shadows| - 1], shadows[|shadows| - 1];
      ManualInflow(front, pools, pool, currency, cutoff);
      assert ManualEntries(shadows)[..|front|] == ManualEntries(front);
      assert InflowEntries(shadows)[..|front|] == InflowEntries(front);
      if s.pairedMain.None? {
        ManualInflowStep(s, pools, pool, currency);
      }
    }
  }

  lemma OnlyPositiveLeg(a: Leg, b: Leg)
    requires a.amount < 0 < b.amount
    ensures PositiveLegs([a, b]) == [b]
  {
    assert [a, b][1..] == [b] && [b][1..] == [];
    assert PositiveLegs([b]) == [b];
  }

  lemma ManualInflowStep(s: Shadow, pools: seq<Pool>, pool: nat, currency: string)
    requires ManualShape(s, pools) && LegsFit(s.legs, pools) && TheSystemPool(pools, pool, Inflow, currency)
    ensures On(s.legs, pool, currency) == if s.reason == BudgetInflow then -Net(PositiveLegs(s.legs), currency) else 0
  {
    assert s.legs == [s.legs[0], s.legs[1]];
    TwoLegs(s.legs[0], s.legs[1], pool, currency);
    OnlyPositiveLeg(s.legs[0], s.legs[1]);
    OneLeg(s.legs[1], pool, currency);
  }

  lemma {:induction false} ManualSpent(shadows: seq<Shadow>, pools: seq<Pool>, pool: nat, currency: string, cutoff: int)
    requires ManualOk(shadows, pools) && pool < |pools| && pools[pool].kind == Spent
    ensures Balance(ManualEntries(shadows), pool, currency, cutoff) == 0
  {
    if shadows != [] {
      var front, s := shadows[..|shadows| - 1], shadows[|shadows| - 1];
      ManualSpent(front, pools, pool, currency, cutoff);
      assert ManualEntries(shadows)[..|front|] == ManualEntries(front);
      if s.pairedMain.None? {
        assert ManualShape(s, pools);
        assert s.legs == [s.legs[0], s.legs[1]];
        TwoLegs(s.legs[0], s.legs[1], pool, currency);
      }
    }
  }

  // ----- The identities -----

  lemma SystemPoolIsUnique(b: Books, pool: nat, kind: PoolKind, currency: string)
    requires Inv(b) && IsSystem(kind) && IsPool(b, pool, kind, currency)
    ensures TheSystemPool(b.pools, pool, kind, currency)
  {
    assert PoolsOk(b.pools);
  }

  /** Spent holds the tagged amounts of live transactions, less what was tagged onto Spent itself. */
  lemma SpentHolds(b: Books, spent: nat, currency: string, cutoff: int)
    requires Reachable(b) && IsPool(b, spent, Spent, currency)
    ensures PoolBalance(b, spent, currency, cutoff) == Tagged(b, currency, cutoff) - TaggedOn(b, spent, currency, cutoff)
  {
    ReachableLaw(b, spent, currency, cutoff);
    ReachableManual(b);
    ManualSpent(b.shadows, b.pools, spent, currency, cutoff);
  }

  /** Inflow holds minus the declared inflows, less what was tagged onto Inflow itself. */
  lemma InflowHolds(b: Books, inflow: nat, currency: string, cutoff: int)
    requires Reachable(b) && IsPool(b, inflow, Inflow, currency)
    ensures PoolBalance(b, inflow, currency, cutoff) == -Declared(b, currency, cutoff) - TaggedOn(b, inflow, currency, cutoff)
  {
    ReachableLaw(b, inflow, currency, cutoff);
    ReachableManual(b);
    ReachableInv(b);
    SystemPoolIsUnique(b, inflow, Inflow, currency);
    ManualInflow(b.shadows, b.pools, inflow, currency, cutoff);
  }

  /** The money users can budget with: the Unallocated pool and all user pools. */
  function Allocatable(b: Books, n: nat, currency: string, cutoff: int): int
    requires n <= |b.pools|
  {
    if n == 0 then 0
    else
      Allocatable(b, n - 1, currency, cutoff)
      + if b.pools[n - 1].kind == Inflow || b.pools[n - 1].kind == Spent then 0 else PoolBalance(b, n - 1, currency, cutoff)
  }

  lemma {:induction false} OtherCurrencyEmpty(shadows: seq<Shadow>, pools: seq<Pool>, pool: nat, currency: string, cutoff: int)
    requires ShadowsOk(shadows, pools) && pool < |pools| && pools[pool].currency != currency
    ensures Balance(ShadowEntries(shadows), pool, currency, cutoff) == 0
  {
    if shadows != [] {
      var front, s := shadows[..|shadows| - 1], shadows[|shadows| - 1];
      OtherCurrencyEmpty(front, pools, pool, currency, cutoff);
      assert ShadowEntries(shadows)[..|front|] == ShadowEntries(front);
      NothingOn(s.legs, pool, currency);
    }
  }

  lemma {:induction false} TotalSplits(b: Books, n: nat, inflow: nat, spent: nat, currency: string, cutoff: int)
    requires ShadowsOk(b.shadows, b.pools) && n <= |b.pools|
    requires TheSystemPool(b.pools, inflow, Inflow, currency) && TheSystemPool(b.pools, spent, Spent, currency)
    ensures Total(ShadowEntries(b.shadows), n, currency, cutoff)
         == Allocatable(b, n, currency, cutoff)
            + (if inflow < n then PoolBalance(b, inflow, currency, cutoff) else 0)
            + if spent < n then PoolBalance(b, spent, currency, cutoff) else 0
  {
    if n > 0 {
      TotalSplits(b, n - 1, inflow, spent, currency, cutoff);
      LastPoolSplits(b, n - 1, inflow, spent, currency, cutoff);
    }
  }

  /** One pool's balance is allocatable, or it is the Inflow or Spent pool's, or it is zero in this currency. */
  lemma LastPoolSplits(b: Books, p: nat, inflow: nat, spent: nat, currency: string, cutoff: int)
    requires ShadowsOk(b.shadows, b.pools) && p < |b.pools|
    requires TheSystemPool(b.pools, inflow, Inflow, currency) && TheSystemPool(b.pools, spent, Spent, currency)
    ensures PoolBalance(b, p, currency, cutoff)
         == (if b.pools[p].kind == Inflow || b.pools[p].kind == Spent then 0 else PoolBalance(b, p, currency, cutoff))
            + (if p == inflow || p == spent then PoolBalance(b, p, currency, cutoff) else 0)
  {
    if b.pools[p].currency != currency {
      OtherCurrencyEmpty(b.shadows, b.pools, p, currency, cutoff);
    }
  }

  /** Unallocated plus the user pools equals declared inflows minus tagged spending, plus what was tagged onto Inflow and Spent. */
  lemma AllocatableHolds(b: Books, inflow: nat, spent: nat, currency: string, cutoff: int)
    requires Reachable(b) && IsPool(b, inflow, Inflow, currency) && IsPool(b, spent, Spent, currency)
    ensures Allocatable(b, |b.pools|, currency, cutoff)
         == Declared(b, currency, cutoff) - Tagged(b, currency, cutoff)
            + TaggedOn(b, inflow, currency, cutoff) + TaggedOn(b, spent, currency, cutoff)
  {
    ReachableInv(b);
    PoolsSumToZero(b, currency, cutoff);
    SystemPoolIsUnique(b, inflow, Inflow, currency);
    SystemPoolIsUnique(b, spent, Spent, currency);
    TotalSplits(b, |b.pools|, inflow, spent, currency, cutoff);
    SpentHolds(b, spent, currency, cutoff);
    InflowHolds(b, inflow, currency, cutoff);
  }

  // ----- When the documented identities hold -----

  /** No posting of the request is tagged with a system pool. Neither create nor replace checks this. */
  predicate AvoidsSystemPools(b: Books, postings: seq<Posting>) {
    forall i | 0 <= i < |postings| ::
      postings[i].pool.Some? && postings[i].pool.value < |b.pools| ==> !IsSystem(b.pools[postings[i].pool.value].kind)
  }

  predicate TagsAvoid(txs: seq<Transaction>, pools: seq<Pool>) {
    forall i, k | 0 <= i < |txs| && IsLedger(txs[i].status) && 0 <= k < |TagLegs(txs[i].postings)| ::
      var p := TagLegs(txs[i].postings)[k].place; p < |pools| && !IsSystem(pools[p].kind)
  }

  lemma {:induction false} AvoidingTags(b: Books, postings: seq<Posting>)
    requires AvoidsSystemPools(b, postings) && LegsFit(TagLegs(postings), b.pools)
    ensures forall k | 0 <= k < |TagLegs(postings)| :: !IsSystem(b.pools[TagLegs(postings)[k].place].kind)
  {
    if postings != [] {
      var p, rest := postings[0], TagLegs(postings[1..]);
      var head := if p.pool.Some? then [Leg(p.pool.value, p.leg.currency, p.leg.amount)] else [];
      assert TagLegs(postings) == head + rest;
      assert forall k | 0 <= k < |rest| :: (head + rest)[|head| + k] == rest[k];
      AvoidingTags(b, postings[1..]);
      forall k | 0 <= k < |head + rest|
        ensures !IsSystem(b.pools[(head + rest)[k].place].kind)
      {
        assert k >= |head| ==> (head + rest)[k] == rest[k - |head|];
      }
    }
  }

  lemma {:induction false} FlippedTags(postings: seq<Posting>)
    ensures TagLegs(FlipPostings(postings)) == Flip(TagLegs(postings))
  {
    if postings != [] {
      assert FlipPostings(postings)[1..] == FlipPostings(postings[1..]);
      FlippedTags(postings[1..]);
    }
  }

  predicate AvoidsInOp(b: Books, op: Op) {
    match op
    case Create(_, postings) => AvoidsSystemPools(b, postings)
    case Replace(_, _, _, postings) => AvoidsSystemPools(b, postings)
    case _ => true
  }

  lemma SaveAvoids(b: Books, date: int, postings: seq<Posting>)
    requires Inv(b) && TagsAvoid(b.transactions, b.pools) && CreateCheck(b, date, postings).None? && AvoidsSystemPools(b, postings)
    ensures TagsAvoid(Save(b, date, postings).transactions, Save(b, date, postings).pools)
  {
    AccountCheckPasses(b, postings);
    TagLegsFit(b, postings);
    AvoidingTags(b, postings);
    PoolsForExtends(b.pools, postings);
  }

  lemma ReverseAvoids(b: Books, id: nat, date: int)
    requires TagsAvoid(b.transactions, b.pools) && SourceCheck(b, id).None?
    ensures TagsAvoid(Reverse(b, id, date).transactions, b.pools)
  {
    FlippedTags(b.transactions[id].postings);
  }

  lemma ReplaceAvoids(b: Books, id: nat, reversalDate: int, date: int, postings: seq<Posting>)
    requires Inv(b) && TagsAvoid(b.transactions, b.pools) && AvoidsSystemPools(b, postings)
    requires ReplaceCheck(b, id, reversalDate, date, postings).None?
    ensures var b' := Save(Reverse(b, id, reversalDate), date, postings); TagsAvoid(b'.transactions, b'.pools)
  {
    var b1 := Reverse(b, id, reversalDate);
    ReplaceChecksAfterReverse(b, id, reversalDate, date, postings);
    ReverseKeepsInv(b, id, reversalDate);
    ReverseAvoids(b, id, reversalDate);
    assert AvoidsSystemPools(b1, postings);
    SaveAvoids(b1, date, postings);
  }

  lemma PoolsExtendAvoids(txs: seq<Transaction>, pools: seq<Pool>, more: seq<Pool>)
    requires TagsAvoid(txs, pools) && PoolsExtend(pools, more)
    ensures TagsAvoid(txs, more)
  {
  }

  lemma PoolStepAvoids(b: Books, op: Op)
    requires TagsAvoid(b.transactions, b.pools) && MovesPools(op) && Outcome(b, op).Ok?
    ensures TagsAvoid(Outcome(b, op).value.transactions, Outcome(b, op).value.pools)
  {
    var b' := Outcome(b, op).value;
    assert b'.transactions == b.transactions && PoolsExtend(b.pools, b'.pools);
    PoolsExtendAvoids(b.transactions, b.pools, b'.pools);
  }

  lemma StepAvoids(b: Books, op: Op)
    requires Inv(b) && TagsAvoid(b.transactions, b.pools) && AvoidsInOp(b, op)
    ensures TagsAvoid(Apply(b, op).transactions, Apply(b, op).pools)
  {
    if Outcome(b, op).Ok? {
      if MovesPools(op) {
        PoolStepAvoids(b, op);
      } else {
        match op {
          case Create(date, postings) => SaveAvoids(b, date, postings);
          case Void(id, date) => ReverseAvoids(b, id, date);
          case Replace(id, reversalDate, date, postings) => ReplaceAvoids(b, id, reversalDate, date, postings);
          case _ =>
        }
      }
    }
  }

  /** No create or replace of the run tags a system pool. */
  predicate RunAvoids(b: Books, ops: seq<Op>)
    decreases |ops|
  {
    ops == [] || (AvoidsInOp(b, ops[0]) && RunAvoids(Apply(b, ops[0]), ops[1..]))
  }

  lemma {:induction false} RunKeepsAvoiding(b: Books, ops: seq<Op>)
    requires Inv(b) && TagsAvoid(b.transactions, b.pools) && RunAvoids(b, ops)
    ensures TagsAvoid(Run(b, ops).transactions, Run(b, ops).pools)
    decreases |ops|
  {
    if ops != [] {
      StepKeepsInv(b, ops[0]);
      StepAvoids(b, ops[0]);
      RunKeepsAvoiding(Apply(b, ops[0]), ops[1..]);
    }
  }

  lemma {:induction false} AvoidedPoolUntagged(entries: seq<Entry>, pool: nat, currency: string, cutoff: int)
    requires forall i, k | 0 <= i < |entries| && entries[i].live && 0 <= k < |entries[i].legs| :: entries[i].legs[k].place != pool
    ensures Balance(entries, pool, currency, cutoff) == 0
  {
    if entries != [] {
      AvoidedPoolUntagged(entries[..|entries| - 1], pool, currency, cutoff);
      var last := entries[|entries| - 1];
      if last.live {
        NothingOn(last.legs, pool, currency);
      }
    }
  }

  /**
    In every run whose requests tag no system pool: Inflow is minus the declared inflows, Spent is the tagged spending, and
    Unallocated plus the user pools is the difference.
    */
  lemma BudgetIdentities(ops: seq<Op>, inflow: nat, spent: nat, currency: string, cutoff: int)
    requires RunAvoids(NEW_HOUSEHOLD, ops)
    requires IsPool(Run(NEW_HOUSEHOLD, ops), inflow, Inflow, currency) && IsPool(Run(NEW_HOUSEHOLD, ops), spent, Spent, currency)
    ensures var b := Run(NEW_HOUSEHOLD, ops);
            && PoolBalance(b, inflow, currency, cutoff) == -Declared(b, currency, cutoff)
            && PoolBalance(b, spent, currency, cutoff) == Tagged(b, currency, cutoff)
            && Allocatable(b, |b.pools|, currency, cutoff) == Declared(b, currency, cutoff) - Tagged(b, currency, cutoff)
  {
    var b := Run(NEW_HOUSEHOLD, ops);
    assert Reachable(b);
    RunKeepsAvoiding(NEW_HOUSEHOLD, ops);
    AvoidedPoolUntagged(TagEntries(b.transactions), inflow, currency, cutoff);
    AvoidedPoolUntagged(TagEntries(b.transactions), spent, currency, cutoff);
    SpentHolds(b, spent, currency, cutoff);
    InflowHolds(b, inflow, currency, cutoff);
    AllocatableHolds(b, inflow, spent, currency, cutoff);
  }

  /** What the tags of a live source put on a pool up to a cutoff; voiding takes it away. */
  function LiveTags(b: Books, id: nat, pool: nat, currency: string, cutoff: int): int
    requires id < |b.transactions|
  {
    if Live(b.transactions, id) && b.transactions[id].date <= cutoff
    then On(TagLegs(b.transactions[id].postings), pool, currency) else 0
  }

  /** How far a system pool is from what the documented identity compares it with, short of declared inflows. */
  function Apart(b: Books, pool: nat, currency: string, cutoff: int): int {
    PoolBalance(b, pool, currency, cutoff) - if IsPool(b, pool, Spent, currency) then Tagged(b, currency, cutoff) else 0
  }

  lemma ReverseApart(b: Books, id: nat, date: int, pool: nat, currency: string, cutoff: int)
    requires Inv(b) && SourceCheck(b, id).None?
    ensures Apart(Reverse(b, id, date), pool, currency, cutoff)
         == Apart(b, pool, currency, cutoff) + LiveTags(b, id, pool, currency, cutoff)
  {
    ShadowsAfterReverse(b, id, date, pool, currency, cutoff);
    TagsAfterReverse(b, id, date, pool, currency, cutoff);
  }

  lemma SaveApart(b: Books, date: int, postings: seq<Posting>, pool: nat, currency: string, cutoff: int)
    requires Inv(b) && CreateCheck(b, date, postings).None? && pool < |b.pools|
    ensures Apart(Save(b, date, postings), pool, currency, cutoff)
         == Apart(b, pool, currency, cutoff) - if date <= cutoff then On(TagLegs(postings), pool, currency) else 0
  {
    SaveDeltas(b, date, postings, pool, currency, cutoff);
    ShadowForFits(b, date, postings);
  }

  /**
    An accepted create keeps an identity at a cutoff from its date on if and only if its tags on that system pool add up to
    zero. No such request changes the declared inflows (`TagsDeclareNothing`).
    */
  lemma CreateKeepsIdentityExactly(b: Books, date: int, postings: seq<Posting>, pool: nat, currency: string, cutoff: int)
    requires Reachable(b) && CreateCheck(b, date, postings).None? && date <= cutoff
    requires IsPool(b, pool, Spent, currency) || IsPool(b, pool, Inflow, currency)
    ensures Apart(Save(b, date, postings), pool, currency, cutoff) == Apart(b, pool, currency, cutoff)
       <==> On(TagLegs(postings), pool, currency) == 0
  {
    ReachableInv(b);
    SaveApart(b, date, postings, pool, currency, cutoff);
  }

  lemma ReplaceApart(
      b: Books, id: nat, reversalDate: int, date: int, postings: seq<Posting>, pool: nat, currency: string, cutoff: int)
    requires Inv(b) && ReplaceCheck(b, id, reversalDate, date, postings).None? && pool < |b.pools|
    ensures Apart(Save(Reverse(b, id, reversalDate), date, postings), pool, currency, cutoff)
         == Apart(b, pool, currency, cutoff) + LiveTags(b, id, pool, currency, cutoff)
            - if date <= cutoff then On(TagLegs(postings), pool, currency) else 0
  {
    var b1 := Reverse(b, id, reversalDate);
    ReplaceChecksAfterReverse(b, id, reversalDate, date, postings);
    ReverseKeepsInv(b, id, reversalDate);
    ReverseApart(b, id, reversalDate, pool, currency, cutoff);
    SaveApart(b1, date, postings, pool, currency, cutoff);
  }

  /**
    An accepted replace keeps an identity at a cutoff if and only if the new tags on that system pool add up to what the
    source's tags on it did, counting each from its date on.
    */
  lemma ReplaceKeepsIdentityExactly(
      b: Books, id: nat, reversalDate: int, date: int, postings: seq<Posting>, pool: nat, currency: string, cutoff: int)
    requires Reachable(b) && ReplaceCheck(b, id, reversalDate, date, postings).None?
    requires IsPool(b, pool, Spent, currency) || IsPool(b, pool, Inflow, currency)
    ensures Apart(Save(Reverse(b, id, reversalDate), date, postings), pool, currency, cutoff) == Apart(b, pool, currency, cutoff)
       <==> (if date <= cutoff then On(TagLegs(postings), pool, currency) else 0) == LiveTags(b, id, pool, currency, cutoff)
  {
    ReachableInv(b);
    ReplaceApart(b, id, reversalDate, date, postings, pool, currency, cutoff);
  }

  /** Only budget inflows count as declared. */
  lemma OthersDeclareNothing(shadows: seq<Shadow>, more: seq<Shadow>, currency: string, cutoff: int)
    requires |more| <= 1 && (|more| == 1 ==> more[0].reason != BudgetInflow)
    ensures NetBalance(InflowEntries(shadows + more), currency, cutoff) == NetBalance(InflowEntries(shadows), currency, cutoff)
  {
    if more == [] {
      assert shadows + more == shadows;
    } else {
      var e := Entry(more[0].date, false, PositiveLegs(more[0].legs));
      assert InflowEntries(shadows + more) == InflowEntries(shadows) + [e];
      NetBalanceAppend(InflowEntries(shadows), e, currency, cutoff);
    }
  }

  lemma SaveDeclaresNothing(b: Books, date: int, postings: seq<Posting>, currency: string, cutoff: int)
    ensures Declared(Save(b, date, postings), currency, cutoff) == Declared(b, currency, cutoff)
  {
    OthersDeclareNothing(b.shadows, ShadowFor(b.pools, date, postings, |b.transactions|), currency, cutoff);
  }

  lemma ReverseDeclaresNothing(b: Books, id: nat, date: int, currency: string, cutoff: int)
    requires Inv(b) && id < |b.transactions|
    ensures Declared(Reverse(b, id, date), currency, cutoff) == Declared(b, currency, cutoff)
  {
    if PairedShadow(b.shadows, id).Some? {
      var k := PairedShadow(b.shadows, id).value;
      assert PairedTo(b.shadows[k], b.transactions[id], b.pools);
    }
    assert InflowEntries(VoidShadow(b.shadows, id)) == InflowEntries(b.shadows);
  }

  /** Creating, voiding and replacing leave the declared inflows as they are. */
  lemma TagsDeclareNothing(b: Books, op: Op, currency: string, cutoff: int)
    requires Reachable(b) && (op.Create? || op.Void? || op.Replace?)
    ensures Declared(Apply(b, op), currency, cutoff) == Declared(b, currency, cutoff)
  {
    ReachableInv(b);
    if Outcome(b, op).Ok? {
      match op {
        case Create(date, postings) => SaveDeclaresNothing(b, date, postings, currency, cutoff);
        case Void(id, date) => ReverseDeclaresNothing(b, id, date, currency, cutoff);
        case Replace(id, reversalDate, date, postings) =>
          ReverseDeclaresNothing(b, id, reversalDate, currency, cutoff);
          SaveDeclaresNothing(Reverse(b, id, reversalDate), date, postings, currency, cutoff);
      }
    }
  }

  /** A balanced request whose only tag is on one expense leg. */
  function OneTagged(expense: nat, other: nat, pool: nat, currency: string, amount: int): seq<Posting> {
    [Posting(Leg(expense, currency, amount), Some(pool)), Posting(Leg(other, currency, -amount), None)]
  }

  /** In a reachable state it is accepted for every system pool of its currency. */
  lemma SystemTagIsAccepted(b: Books, date: int, expense: nat, other: nat, pool: nat, currency: string, amount: int)
    requires Reachable(b) && pool < |b.pools| && IsSystem(b.pools[pool].kind) && b.pools[pool].currency == currency
    requires currency in KNOWN_CURRENCIES && amount > 0 && PeriodOpen(b.periods, date)
    requires expense < |b.accounts| && b.accounts[expense] == Account(Expense, false)
    requires other < |b.accounts| && !b.accounts[other].placeholder
    ensures CreateCheck(b, date, OneTagged(expense, other, pool, currency, amount)).None?
    ensures TagLegs(OneTagged(expense, other, pool, currency, amount)) == [Leg(pool, currency, amount)]
  {
    var p0, p1 := Posting(Leg(expense, currency, amount), Some(pool)), Posting(Leg(other, currency, -amount), None);
    PoolChecks.SystemPoolsStayActive(b);
    OneTag(p0, p1);
    TagPasses(b, p0, p1);
    OneLeg(Leg(pool, currency, amount), pool, currency);
    assert LegsOf([p0, p1]) == [p0.leg, p1.leg];
    TwoLegs(p0.leg, p1.leg, 0, currency);
  }

  /** A tag on the Spent pool moves it away from the tagged spending by the tagged amount. */
  lemma SpentIdentityCanFail(b: Books, date: int, expense: nat, other: nat, spent: nat, currency: string, amount: int)
    requires Reachable(b) && IsPool(b, spent, Spent, currency)
    requires currency in KNOWN_CURRENCIES && amount > 0 && PeriodOpen(b.periods, date)
    requires expense < |b.accounts| && b.accounts[expense] == Account(Expense, false)
    requires other < |b.accounts| && !b.accounts[other].placeholder
    ensures var postings := OneTagged(expense, other, spent, currency, amount);
            && CreateCheck(b, date, postings).None?
            && var b' := Save(b, date, postings);
               PoolBalance(b', spent, currency, date) - Tagged(b', currency, date)
               == PoolBalance(b, spent, currency, date) - Tagged(b, currency, date) - amount
  {
    SystemTagIsAccepted(b, date, expense, other, spent, currency, amount);
    SystemTagDeltas(b, date, OneTagged(expense, other, spent, currency, amount), spent, currency, amount);
  }

  /** A tag on the Inflow pool moves it away from the declared inflows by the tagged amount. */
  lemma InflowIdentityCanFail(b: Books, date: int, expense: nat, other: nat, inflow: nat, currency: string, amount: int)
    requires Reachable(b) && IsPool(b, inflow, Inflow, currency)
    requires currency in KNOWN_CURRENCIES && amount > 0 && PeriodOpen(b.periods, date)
    requires expense < |b.accounts| && b.accounts[expense] == Account(Expense, false)
    requires other < |b.accounts| && !b.accounts[other].placeholder
    ensures var postings := OneTagged(expense, other, inflow, currency, amount);
            && CreateCheck(b, date, postings).None?
            && var b' := Save(b, date, postings);
               && PoolBalance(b', inflow, currency, date) == PoolBalance(b, inflow, currency, date) - amount
               && Declared(b', currency, date) == Declared(b, currency, date)
  {
    var postings := OneTagged(expense, other, inflow, currency, amount);
    SystemTagIsAccepted(b, date, expense, other, inflow, currency, amount);
    SystemTagDeltas(b, date, postings, inflow, currency, amount);
    SaveDeclaresNothing(b, date, postings, currency, date);
  }

  /** What a request with the one tag adds, at its date. */
  lemma SystemTagDeltas(b: Books, date: int, postings: seq<Posting>, pool: nat, currency: string, amount: int)
    requires Reachable(b) && CreateCheck(b, date, postings).None? && TagLegs(postings) == [Leg(pool, currency, amount)]
    requires pool < |b.pools|
    ensures var b' := Save(b, date, postings);
            && Tagged(b', currency, date) == Tagged(b, currency, date) + amount
            && PoolBalance(b', pool, currency, date)
               == PoolBalance(b, pool, currency, date) - if IsPool(b, pool, Spent, currency) then 0 else amount
  {
    OneLeg(Leg(pool, currency, amount), pool, currency);
    ReachableInv(b);
    SaveDeltas(b, date, postings, pool, currency, date);
    ShadowForFits(b, date, postings);
  }

  lemma OneTag(p0: Posting, p1: Posting)
    requires p0.pool.Some? && p1.pool.None?
    ensures TagLegs([p0, p1]) == [Leg(p0.pool.value, p0.leg.currency, p0.leg.amount)]
  {
    assert [p0, p1][1..] == [p1] && [p1][1..] == [];
    assert TagLegs([p1]) == [];
  }

  lemma TagPasses(b: Books, p0: Posting, p1: Posting)
    requires p0.leg.place < |b.accounts| && p1.leg.place < |b.accounts| && p1.pool.None? && TagCheck(b, p0).None?
    requires !b.accounts[p0.leg.place].placeholder && !b.accounts[p1.leg.place].placeholder
    ensures PreFlight(b, [p0, p1]).None?
  {
    AccountCheckPasses(b, [p0, p1]);
    assert [p0, p1][1..] == [p1] && [p1][1..] == [];
    assert PoolCheck(b, [p1]).None?;
  }

  // ----- Who changes what -----

  /** A transfer or refill changes its two pools by the amount, in their currency, from its date on, and nothing else. */
  lemma MoveChangesTwoPools(
      b: Books, op: Op, from: nat, to: nat, c: string, amount: int, date: int, pool: nat, currency: string, cutoff: int)
    requires Outcome(b, op).Ok? && from != to
    requires match op
             case Move(src, dest, a, d, _) => from == src && to == dest && a == amount && d == date && c == b.pools[src].currency
             case RefillEnvelope(e, a, d, _) =>
               && to == e && a == amount && d == date && c == b.pools[e].currency
               && FindPool(EnsureSystemPools(b.pools, c), Unallocated, c) == Some(from)
             case _ => false
    ensures PoolBalance(Apply(b, op), pool, currency, cutoff) - PoolBalance(b, pool, currency, cutoff)
         == if currency == c && date <= cutoff
            then (if pool == to then amount else 0) - (if pool == from then amount else 0) else 0
    ensures Declared(Apply(b, op), currency, cutoff) == Declared(b, currency, cutoff)
    ensures Apply(b, op).transactions == b.transactions
  {
    var reason := if op.Move? then Transfer else Refill;
    var s := Shadow(date, reason, [Leg(from, c, -amount), Leg(to, c, amount)], false, None);
    assert Apply(b, op).shadows == b.shadows + [s];
    ManualEntriesAppend(b.shadows, [s], pool, currency, cutoff);
    assert ShadowEntries([s])[..0] == [];
    TwoLegs(s.legs[0], s.legs[1], pool, currency);
    OthersDeclareNothing(b.shadows, [s], currency, cutoff);
  }

  /**
    What a declared inflow does: the amount goes from the currency's Inflow pool to its Unallocated pool, from the date on. No
    other pool and no transaction changes, and the declared inflows grow by the amount.
    */
  ghost predicate InflowDone(
      b: Books, b': Books, c: string, amount: int, date: int, pool: nat, currency: string, cutoff: int)
  {
    && (exists p :: IsPool(b', p, Inflow, c)) && (exists p :: IsPool(b', p, Unallocated, c))
    && PoolBalance(b', pool, currency, cutoff) - PoolBalance(b, pool, currency, cutoff)
       == (if currency != c || date > cutoff then 0
           else if IsPool(b', pool, Unallocated, c) then amount
           else if IsPool(b', pool, Inflow, c) then -amount else 0)
    && Declared(b', currency, cutoff) - Declared(b, currency, cutoff) == (if currency == c && date <= cutoff then amount else 0)
    && b'.transactions == b.transactions && b'.accounts == b.accounts && b.pools <= b'.pools
  }

  /** An accepted inflow does that with the declared amount, and nothing else. */
  lemma InflowChangesTwoPools(b: Books, c: string, amount: int, date: int, pool: nat, currency: string, cutoff: int)
    requires Reachable(b) && Outcome(b, DeclareInflow(c, amount, date)).Ok?
    ensures InflowDone(b, Outcome(b, DeclareInflow(c, amount, date)).value, c, amount, date, pool, currency, cutoff)
  {
    ReachableInv(b);
    InflowOutcome(b, DeclareInflow(c, amount, date));
    InflowedIsDone(b, c, amount, date, pool, currency, cutoff);
  }

  lemma InflowedIsDone(b: Books, c: string, amount: int, date: int, pool: nat, currency: string, cutoff: int)
    requires Inv(b) && amount > 0
    ensures InflowDone(b, Inflowed(b, c, amount, date), c, amount, date, pool, currency, cutoff)
  {
    InflowKeepsInv(b, c, amount, date);
    var from, to := InflowedPosts(b, c, amount, date);
    PostedIsDone(b, Inflowed(b, c, amount, date), from, to, c, amount, date, pool, currency, cutoff);
  }

  lemma PostedIsDone(
      b: Books, b': Books, from: nat, to: nat, c: string, amount: int, date: int, pool: nat, currency: string, cutoff: int)
    requires amount > 0 && PoolsOk(b'.pools) && InflowPosted(b, b', from, to, c, amount, date)
    ensures InflowDone(b, b', c, amount, date, pool, currency, cutoff)
  {
    PostedMoves(b, b', from, to, c, amount, date, pool, currency, cutoff);
    DeclaredGrows(b.shadows, InflowShadow(from, to, c, amount, date), currency, cutoff);
  }

  lemma PostedMoves(
      b: Books, b': Books, from: nat, to: nat, c: string, amount: int, date: int, pool: nat, currency: string, cutoff: int)
    requires PoolsOk(b'.pools) && InflowPosted(b, b', from, to, c, amount, date)
    ensures PoolBalance(b', pool, currency, cutoff) - PoolBalance(b, pool, currency, cutoff)
         == if currency != c || date > cutoff then 0
            else if IsPool(b', pool, Unallocated, c) then amount
            else if IsPool(b', pool, Inflow, c) then -amount else 0
  {
    OnlyThere(b'.pools, pool, from, Inflow, c);
    OnlyThere(b'.pools, pool, to, Unallocated, c);
    PostedBalance(b.shadows, InflowShadow(from, to, c, amount, date), pool, currency, cutoff);
  }

  function InflowShadow(from: nat, to: nat, c: string, amount: int, date: int): Shadow {
    Shadow(date, BudgetInflow, [Leg(from, c, -amount), Leg(to, c, amount)], false, None)
  }

  /** What the handler saves, and between which pools. */
  predicate InflowPosted(b: Books, b': Books, from: nat, to: nat, c: string, amount: int, date: int) {
    && b.pools <= b'.pools && IsPool(b', from, Inflow, c) && IsPool(b', to, Unallocated, c)
    && b'.transactions == b.transactions && b'.accounts == b.accounts
    && b'.shadows == b.shadows + [InflowShadow(from, to, c, amount, date)]
  }

  lemma FoundPool(pools: seq<Pool>, kind: PoolKind, c: string) returns (id: nat)
    requires FindPool(pools, kind, c).Some?
    ensures FindPool(pools, kind, c) == Some(id) && id < |pools| && pools[id].kind == kind && pools[id].currency == c
  {
    id := FindPool(pools, kind, c).value;
  }

  lemma InflowedPosts(b: Books, c: string, amount: int, date: int) returns (from: nat, to: nat)
    ensures InflowPosted(b, Inflowed(b, c, amount, date), from, to, c, amount, date)
  {
    var pools := EnsureSystemPools(b.pools, c);
    from := FoundPool(pools, Inflow, c);
    to := FoundPool(pools, Unallocated, c);
  }

  lemma PostedBalance(shadows: seq<Shadow>, s: Shadow, pool: nat, currency: string, cutoff: int)
    requires !s.voided && |s.legs| == 2 && s.legs[0].place != s.legs[1].place && s.legs[0].currency == s.legs[1].currency
    ensures Balance(ShadowEntries(shadows + [s]), pool, currency, cutoff) - Balance(ShadowEntries(shadows), pool, currency, cutoff)
         == if currency != s.legs[0].currency || s.date > cutoff then 0
            else if pool == s.legs[1].place then s.legs[1].amount else if pool == s.legs[0].place then s.legs[0].amount else 0
  {
    ManualEntriesAppend(shadows, [s], pool, currency, cutoff);
    assert ShadowEntries([s])[..0] == [];
    assert s.legs == [s.legs[0], s.legs[1]];
    TwoLegs(s.legs[0], s.legs[1], pool, currency);
  }

  lemma OnlyThere(pools: seq<Pool>, pool: nat, there: nat, kind: PoolKind, currency: string)
    requires PoolsOk(pools) && IsSystem(kind) && there < |pools| && pools[there].kind == kind && pools[there].currency == currency
    ensures pool < |pools| && pools[pool].kind == kind && pools[pool].currency == currency <==> pool == there
  {
  }

  lemma DeclaredGrows(shadows: seq<Shadow>, s: Shadow, currency: string, cutoff: int)
    requires s.reason == BudgetInflow && !s.voided && |s.legs| == 2 && s.legs[0].amount < 0 < s.legs[1].amount
    ensures NetBalance(InflowEntries(shadows + [s]), currency, cutoff)
         == NetBalance(InflowEntries(shadows), currency, cutoff)
            + if s.legs[1].currency == currency && s.date <= cutoff then s.legs[1].amount else 0
  {
    var e := Entry(s.date, true, PositiveLegs(s.legs));
    assert s.legs == [s.legs[0], s.legs[1]];
    OnlyPositiveLeg(s.legs[0], s.legs[1]);
    OneLeg(s.legs[1], 0, currency);
    assert InflowEntries(shadows + [s]) == InflowEntries(shadows) + [e];
    NetBalanceAppend(InflowEntries(shadows), e, currency, cutoff);
  }

  /**
    Voiding the reversal of a source puts the source's effect on every account back, from its date on. The source's shadow
    stays voided: no pool balance changes.
    */
  lemma VoidingAVoidLeavesPools(b: Books, source: nat, id: nat, date: int, place: nat, currency: string, cutoff: int)
    requires Reachable(b) && VoidCheck(b, id, date).None?
    requires source < |b.transactions| && b.transactions[source].voidedBy == Some(id)
    ensures AccountBalance(Reverse(b, id, date), place, currency, cutoff)
         == AccountBalance(b, place, currency, cutoff)
            + if date <= cutoff then On(LegsOf(b.transactions[source].postings), place, currency) else 0
    ensures PoolBalance(Reverse(b, id, date), place, currency, cutoff) == PoolBalance(b, place, currency, cutoff)
  {
    var legs := LegsOf(b.transactions[source].postings);
    ReachableInv(b);
    assert IsReversal(b.transactions, id);
    ShadowsAfterReverse(b, id, date, place, currency, cutoff);
    BalanceAfterReverse(b, id, date, place, currency, cutoff);
    FlipPostingsLegs(b.transactions[source].postings);
    FlipNegates(legs, place, currency);
  }

  /** What the shadow of a transaction holds on a pool up to a cutoff, while it is not voided. */
  function ShadowOn(b: Books, id: nat, pool: nat, currency: string, cutoff: int): int {
    match PairedShadow(b.shadows, id)
    case None => 0
    case Some(k) => Effect(ShadowEntries(b.shadows)[k], pool, currency, cutoff)
  }

  /**
    A void and then a void of it: the account balances are what they were at every cutoff past both dates, and a pool balance
    is what it was if and only if the source's shadow held nothing on that pool.
    */
  lemma VoidTwiceExactly(b: Books, id: nat, first: int, second: int, place: nat, currency: string, cutoff: int)
    requires Reachable(b) && VoidCheck(b, id, first).None? && PeriodOpen(b.periods, second)
    ensures var b1 := Reverse(b, id, first);
            && VoidCheck(b1, |b.transactions|, second).None?
            && var b2 := Reverse(b1, |b.transactions|, second);
               && (first <= cutoff && second <= cutoff ==>
                     AccountBalance(b2, place, currency, cutoff) == AccountBalance(b, place, currency, cutoff))
               && (PoolBalance(b2, place, currency, cutoff) == PoolBalance(b, place, currency, cutoff)
                   <==> ShadowOn(b, id, place, currency, cutoff) == 0)
  {
    var b1, reversal := Reverse(b, id, first), |b.transactions|;
    assert b1.transactions[id].voidedBy == Some(reversal);
    VoidStepIsReachable(b, id, first);
    VoidingAVoidLeavesPools(b1, id, reversal, second, place, currency, cutoff);
    BalanceAfterReverse(b, id, first, place, currency, cutoff);
    if PairedShadow(b.shadows, id).Some? {
      VoidShadowEntries(b.shadows, PairedShadow(b.shadows, id).value, id, place, currency, cutoff);
    }
  }

  lemma {:induction false} RunOneMore(b: Books, ops: seq<Op>, op: Op)
    ensures Run(b, ops + [op]) == Apply(Run(b, ops), op)
    decreases |ops|
  {
    if ops == [] {
      assert [op][1..] == [];
    } else {
      assert (ops + [op])[1..] == ops[1..] + [op];
      RunOneMore(Apply(b, ops[0]), ops[1..], op);
    }
  }

  lemma VoidStepIsReachable(b: Books, id: nat, date: int)
    requires Reachable(b) && VoidCheck(b, id, date).None?
    ensures Reachable(Reverse(b, id, date))
  {
    var ops :| b == Run(NEW_HOUSEHOLD, ops);
    RunOneMore(NEW_HOUSEHOLD, ops, Void(id, date));
    assert Reverse(b, id, date) == Run(NEW_HOUSEHOLD, ops + [Void(id, date)]);
  }
}
