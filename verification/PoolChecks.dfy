/**
  The checks of the allocation engine's `post_shadow_transaction`, and when what the user-initiated handlers commit would have
  passed them. The handlers build the transaction as already posted, for which the engine returns at once.
  */
module PoolChecks {
  import opened Results
  import opened Legs
  import opened Ledger
  import opened LedgerInvariants

  datatype ShadowError = UnknownPool(pool: nat) | WrongCurrency(pool: nat) | DoesNotBalance

  /** The leg loop. Its candidates are the active pools, so a deactivated pool is an unknown one. */
  function LegLoop(legs: seq<Leg>, pools: seq<Pool>): Option<ShadowError> {
    if legs == [] then None
    else
      var p := legs[0].place;
      if p >= |pools| || !pools[p].active then Some(UnknownPool(p))
      else if pools[p].currency != legs[0].currency then Some(WrongCurrency(p))
      else LegLoop(legs[1..], pools)
  }

  /** What the engine says to a transaction that is not posted yet. */
  function EngineRefusal(legs: seq<Leg>, pools: seq<Pool>): Option<ShadowError> {
    if LegLoop(legs, pools).Some? then LegLoop(legs, pools)
    else if !Balanced(legs) then Some(DoesNotBalance)
    else None
  }

  lemma {:induction false} LegLoopPasses(legs: seq<Leg>, pools: seq<Pool>)
    ensures LegLoop(legs, pools).None? <==> LegsFit(legs, pools) && forall k | 0 <= k < |legs| :: pools[legs[k].place].active
  {
    if legs != [] {
      LegLoopPasses(legs[1..], pools);
      var rest := legs[1..];
      assert forall k | 1 <= k < |legs| :: legs[k] == rest[k - 1];
    }
  }

  /** It passes exactly the legs that lie on existing, active pools of their currency and balance. */
  lemma PassesExactly(legs: seq<Leg>, pools: seq<Pool>)
    ensures EngineRefusal(legs, pools).None?
       <==> LegsFit(legs, pools) && (forall k | 0 <= k < |legs| :: pools[legs[k].place].active) && Balanced(legs)
  {
    LegLoopPasses(legs, pools);
  }

  // ----- System pools stay active -----

  predicate SystemActive(pools: seq<Pool>) {
    forall i | 0 <= i < |pools| && IsSystem(pools[i].kind) :: pools[i].active
  }

  lemma EnsureKeepsActive(pools: seq<Pool>, currency: string)
    requires SystemActive(pools)
    ensures SystemActive(EnsureSystemPools(pools, currency))
  {
  }

  lemma PoolsForKeepsActive(pools: seq<Pool>, postings: seq<Posting>)
    requires SystemActive(pools)
    ensures SystemActive(PoolsFor(pools, postings))
  {
    match DerivePairing(postings) {
      case Pair(currency, _, _) => EnsureKeepsActive(pools, currency);
      case _ =>
    }
  }

  lemma InflowKeepsActive(b: Books, op: Op)
    requires SystemActive(b.pools) && op.DeclareInflow? && Outcome(b, op).Ok?
    ensures SystemActive(Outcome(b, op).value.pools)
  {
    InflowOutcome(b, op);
    EnsureKeepsActive(b.pools, op.currency);
  }

  lemma RefillKeepsActive(b: Books, op: Op)
    requires SystemActive(b.pools) && op.RefillEnvelope? && Outcome(b, op).Ok?
    ensures SystemActive(Outcome(b, op).value.pools)
  {
    RefillOutcome(b, op);
    EnsureKeepsActive(b.pools, b.pools[op.envelope].currency);
  }

  lemma StepKeepsActive(b: Books, op: Op)
    requires SystemActive(b.pools)
    ensures SystemActive(Apply(b, op).pools)
  {
    if Outcome(b, op).Ok? {
      match op {
        case Create(_, postings) => PoolsForKeepsActive(b.pools, postings);
        case Replace(_, _, _, postings) => PoolsForKeepsActive(b.pools, postings);
        case DeclareInflow(_, _, _) => InflowKeepsActive(b, op);
        case RefillEnvelope(_, _, _, _) => RefillKeepsActive(b, op);
        case _ =>
      }
    }
  }

  lemma {:induction false} RunKeepsActive(b: Books, ops: seq<Op>)
    requires SystemActive(b.pools)
    ensures SystemActive(Run(b, ops).pools)
    decreases |ops|
  {
    if ops != [] {
      StepKeepsActive(b, ops[0]);
      RunKeepsActive(Apply(b, ops[0]), ops[1..]);
    }
  }

  /** No run of requests leaves an inactive system pool: they are created active, and deactivation refuses them. */
  lemma SystemPoolsStayActive(b: Books)
    requires Reachable(b)
    ensures SystemActive(b.pools)
  {
    var ops :| b == Run(NEW_HOUSEHOLD, ops);
    RunKeepsActive(NEW_HOUSEHOLD, ops);
  }

  // ----- What is committed without the checks -----

  predicate MovesMoney(op: Op) {
    op.Move? || op.DeclareInflow? || op.RefillEnvelope?
  }

  lemma TwoLegChecks(from: nat, to: nat, currency: string, amount: int, pools: seq<Pool>)
    requires from < |pools| && to < |pools| && pools[from].currency == currency && pools[to].currency == currency
    requires pools[from].active
    ensures EngineRefusal([Leg(from, currency, -amount), Leg(to, currency, amount)], pools)
         == if pools[to].active then None else Some(UnknownPool(to))
  {
    var a, b := Leg(from, currency, -amount), Leg(to, currency, amount);
    assert [a, b][1..] == [b] && [b][1..] == [];
    assert LegLoop([b], pools) == if pools[to].active then None else Some(UnknownPool(to));
    TwoLegs(a, b, 0, currency);
  }

  lemma InflowChecks(b: Books, op: Op)
    requires SystemActive(b.pools) && op.DeclareInflow? && Outcome(b, op).Ok?
    ensures EngineRefusal(Apply(b, op).shadows[|b.shadows|].legs, Apply(b, op).pools) == None
  {
    InflowOutcome(b, op);
    var c := op.currency;
    var pools := EnsureSystemPools(b.pools, c);
    EnsureKeepsActive(b.pools, c);
    TwoLegChecks(FindPool(pools, Inflow, c).value, FindPool(pools, Unallocated, c).value, c, op.amount, pools);
  }

  lemma RefillChecks(b: Books, op: Op)
    requires SystemActive(b.pools) && op.RefillEnvelope? && Outcome(b, op).Ok?
    ensures EngineRefusal(Apply(b, op).shadows[|b.shadows|].legs, Apply(b, op).pools)
         == if b.pools[op.envelope].active then None else Some(UnknownPool(op.envelope))
  {
    RefillOutcome(b, op);
    var c := b.pools[op.envelope].currency;
    var pools := EnsureSystemPools(b.pools, c);
    EnsureKeepsActive(b.pools, c);
    TwoLegChecks(FindPool(pools, Unallocated, c).value, op.envelope, c, op.amount, pools);
  }

  /**
    In every reachable state an accepted transfer, inflow or refill saves one shadow transaction that passes the skipped
    checks, if and only if it is not a refill of a deactivated envelope. That one they would have refused, naming the envelope.
    */
  lemma ChecksWouldPassExactly(b: Books, op: Op)
    requires Reachable(b) && MovesMoney(op) && Outcome(b, op).Ok?
    ensures var b' := Apply(b, op);
            && |b'.shadows| == |b.shadows| + 1 && b'.shadows[..|b.shadows|] == b.shadows
            && EngineRefusal(b'.shadows[|b.shadows|].legs, b'.pools)
               == if op.RefillEnvelope? && !b.pools[op.envelope].active then Some(UnknownPool(op.envelope)) else None
  {
    SystemPoolsStayActive(b);
    match op {
      case Move(src, dest, amount, _, _) => TwoLegChecks(src, dest, b.pools[src].currency, amount, b.pools);
      case DeclareInflow(_, _, _) =>
        InflowOutcome(b, op);
        InflowChecks(b, op);
      case RefillEnvelope(_, _, _, _) =>
        RefillOutcome(b, op);
        RefillChecks(b, op);
    }
  }

  /** Such a refill exists: deactivating an envelope does not keep its owner from refilling it. */
  lemma InactiveRefillIsAccepted(b: Books, envelope: nat, amount: int, date: int, claims: Claims)
    requires Reachable(b) && amount > 0
    requires envelope < |b.pools| && b.pools[envelope].kind == Envelope && MaySee(b.pools[envelope], claims)
    ensures var b1, op := Apply(b, DeactivatePool(envelope)), RefillEnvelope(envelope, amount, date, claims);
            && Outcome(b1, op).Ok?
            && EngineRefusal(Apply(b1, op).shadows[|b1.shadows|].legs, Apply(b1, op).pools) == Some(UnknownPool(envelope))
  {
    var b1, op := Apply(b, DeactivatePool(envelope)), RefillEnvelope(envelope, amount, date, claims);
    SystemPoolsStayActive(b);
    StepKeepsActive(b, DeactivatePool(envelope));
    RefillChecks(b1, op);
  }
}
