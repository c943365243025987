/**
  The handlers of `routers/transactions.py`, `routers/pools.py` and `routers/envelopes.py` over mutable tables. A handler works
  on its session and assigns the tables only where the source commits; every method is proved against the step functions.
  */
module LedgerService {
  import opened Results
  import opened Legs
  import opened Ledger
  import opened LedgerInvariants

  // ----- What the loops collect -----

  function TagCurrencies(postings: seq<Posting>): set<string> {
    set i | 0 <= i < |postings| && postings[i].pool.Some? :: postings[i].leg.currency
  }

  /** The currencies of the tags decide the pairing's shape. */
  lemma {:induction false} CurrenciesOfTags(postings: seq<Posting>)
    ensures forall k | 0 <= k < |TagLegs(postings)| :: TagLegs(postings)[k].currency in TagCurrencies(postings)
    ensures TagLegs(postings) == [] <==> TagCurrencies(postings) == {}
  {
    if postings != [] {
      var rest := postings[1..];
      CurrenciesOfTags(rest);
      assert TagCurrencies(postings) == TagCurrencies(rest) + if postings[0].pool.Some? then {postings[0].leg.currency} else {} by {
        assert forall i | 0 <= i < |rest| :: rest[i] == postings[i + 1];
        assert forall i | 1 <= i < |postings| :: postings[i] == rest[i - 1];
      }
    }
  }

  lemma {:induction false} TaggedCurrencyHasLeg(postings: seq<Posting>, i: nat)
    requires i < |postings| && postings[i].pool.Some?
    ensures exists k :: 0 <= k < |TagLegs(postings)| && TagLegs(postings)[k].currency == postings[i].leg.currency
  {
    var legs, rest := TagLegs(postings), TagLegs(postings[1..]);
    if i == 0 {
      assert legs[0].currency == postings[0].leg.currency;
    } else {
      TaggedCurrencyHasLeg(postings[1..], i - 1);
      var k :| 0 <= k < |rest| && rest[k].currency == postings[i].leg.currency;
      assert legs[k + |legs| - |rest|] == rest[k];
    }
  }

  lemma PairingCurrencies(postings: seq<Posting>)
    ensures match DerivePairing(postings)
            case NoTags => TagCurrencies(postings) == {}
            case Refused => true
            case Pair(c, _, _) => TagCurrencies(postings) == {c}
  {
    CurrenciesOfTags(postings);
    if DerivePairing(postings).Pair? {
      var c := DerivePairing(postings).currency;
      forall d | d in TagCurrencies(postings)
        ensures d == c
      {
        var i :| 0 <= i < |postings| && postings[i].pool.Some? && postings[i].leg.currency == d;
        TaggedCurrencyHasLeg(postings, i);
      }
      assert TagLegs(postings)[0].currency in TagCurrencies(postings);
    }
  }

  lemma {:induction false} TagLegsAppend(postings: seq<Posting>, p: Posting)
    ensures TagLegs(postings + [p])
         == TagLegs(postings) + if p.pool.Some? then [Leg(p.pool.value, p.leg.currency, p.leg.amount)] else []
  {
    if postings == [] {
      assert postings + [p] == [p] && [p][1..] == [];
      assert TagLegs([]) == [];
    } else {
      assert (postings + [p])[1..] == postings[1..] + [p] && (postings + [p])[0] == postings[0];
      TagLegsAppend(postings[1..], p);
      TagLegsHead(postings);
      TagLegsHead(postings + [p]);
    }
  }

  lemma TagLegsHead(postings: seq<Posting>)
    requires postings != []
    ensures TagLegs(postings)
         == (if postings[0].pool.Some? then [Leg(postings[0].pool.value, postings[0].leg.currency, postings[0].leg.amount)] else [])
            + TagLegs(postings[1..])
  {
  }

  lemma TagCurrenciesStep(postings: seq<Posting>, i: nat)
    requires i < |postings|
    ensures TagCurrencies(postings[..i + 1])
         == TagCurrencies(postings[..i]) + if postings[i].pool.Some? then {postings[i].leg.currency} else {}
  {
    assert forall k | 0 <= k < i :: postings[..i + 1][k] == postings[..i][k];
    assert postings[..i + 1][i] == postings[i];
  }

  // ----- The engine and repository calls that loop -----

  const SYSTEM_KINDS := 3

  function SystemKind(i: nat): PoolKind
    requires i < SYSTEM_KINDS
  {
    if i == 0 then Inflow else if i == 1 then Unallocated else Spent
  }

  ghost function EnsureFirst(pools: seq<Pool>, n: nat, currency: string): seq<Pool>
    requires n <= SYSTEM_KINDS
  {
    if n == 0 then pools else EnsurePool(EnsureFirst(pools, n - 1, currency), SystemKind(n - 1), currency)
  }

  lemma EnsureFirstIsAll(pools: seq<Pool>, currency: string)
    ensures EnsureFirst(pools, SYSTEM_KINDS, currency) == EnsureSystemPools(pools, currency)
  {
    var a := EnsurePool(pools, Inflow, currency);
    assert EnsureFirst(pools, 1, currency) == a;
    assert EnsureFirst(pools, 2, currency) == EnsurePool(a, Unallocated, currency);
  }

  method GetOrCreate(pools: seq<Pool>, kind: PoolKind, currency: string) returns (all: seq<Pool>, id: nat)
    ensures all == EnsurePool(pools, kind, currency) && FindPool(all, kind, currency) == Some(id)
  {
    all := pools;
    var existing := FindPool(pools, kind, currency);
    if existing.None? {
      all := pools + [Pool(kind, currency, true, false, 0)];
      assert all[..|pools|] == pools;
      existing := Some(|pools|);
    }
    id := existing.value;
  }

  /** The first `n` kinds are registered under the pools that hold them. */
  ghost predicate Registered(all: seq<Pool>, byKind: map<PoolKind, nat>, n: nat, currency: string)
    requires n <= SYSTEM_KINDS
  {
    forall j | 0 <= j < n ::
      SystemKind(j) in byKind && FindPool(all, SystemKind(j), currency) == Some(byKind[SystemKind(j)])
  }

  lemma RegisteredGrows(before: seq<Pool>, all: seq<Pool>, byKind: map<PoolKind, nat>, n: nat, currency: string, id: nat)
    requires n < SYSTEM_KINDS && Registered(before, byKind, n, currency) && before <= all
    requires FindPool(all, SystemKind(n), currency) == Some(id)
    ensures Registered(all, byKind[SystemKind(n) := id], n + 1, currency)
  {
    forall j | 0 <= j < n
      ensures FindPool(all, SystemKind(j), currency) == Some(byKind[SystemKind(j)])
    {
      FindPoolExtends(before, all, SystemKind(j), currency);
    }
  }

  /** `get_or_create_system_pools`: the pool of each kind, created where missing. */
  method GetOrCreateSystemPools(pools: seq<Pool>, currency: string) returns (all: seq<Pool>, byKind: map<PoolKind, nat>)
    ensures all == EnsureSystemPools(pools, currency)
    ensures forall k | IsSystem(k) :: k in byKind && FindPool(all, k, currency) == Some(byKind[k])
  {
    all, byKind := pools, map[];
    var i := 0;
    while i < SYSTEM_KINDS
      invariant i <= SYSTEM_KINDS && all == EnsureFirst(pools, i, currency)
      invariant Registered(all, byKind, i, currency)
    {
      ghost var before, known := all, byKind;
      var id;
      all, id := GetOrCreate(all, SystemKind(i), currency);
      RegisteredGrows(before, all, known, i, currency, id);
      byKind := byKind[SystemKind(i) := id];
      i := i + 1;
    }
    EnsureFirstIsAll(pools, currency);
    forall k | IsSystem(k)
      ensures k in byKind && FindPool(all, k, currency) == Some(byKind[k])
    {
      var j := if k == Inflow then 0 else if k == Unallocated then 1 else 2;
      assert SystemKind(j) == k;
    }
  }

  /** `all` is `pools` with only missing active system pools of these currencies added, each once. */
  ghost predicate Grown(pools: seq<Pool>, all: seq<Pool>, currencies: set<string>) {
    && pools <= all
    && (forall i | |pools| <= i < |all| :: IsSystem(all[i].kind) && all[i].currency in currencies && all[i].active)
    && forall i, j | 0 <= i < j < |all| && |pools| <= j :: all[i].kind != all[j].kind || all[i].currency != all[j].currency
  }

  ghost predicate HasPool(all: seq<Pool>, kind: PoolKind, currency: string) {
    exists i | 0 <= i < |all| :: all[i].kind == kind && all[i].currency == currency
  }

  /** The currency has its three system pools, and `id` is its Spent pool. */
  ghost predicate HasSet(all: seq<Pool>, currency: string, id: nat) {
    && HasPool(all, Inflow, currency) && HasPool(all, Unallocated, currency)
    && id < |all| && all[id].kind == Spent && all[id].currency == currency
  }

  ghost predicate HaveSets(all: seq<Pool>, spent: map<string, nat>) {
    forall c | c in spent :: HasSet(all, c, spent[c])
  }

  lemma EnsureGrows(pools: seq<Pool>, all: seq<Pool>, currencies: set<string>, kind: PoolKind, currency: string)
    requires Grown(pools, all, currencies) && IsSystem(kind) && currency in currencies
    ensures Grown(pools, EnsurePool(all, kind, currency), currencies)
  {
  }

  lemma EnsureAllGrows(pools: seq<Pool>, all: seq<Pool>, currencies: set<string>, currency: string)
    requires Grown(pools, all, currencies) && currency in currencies
    ensures Grown(pools, EnsureSystemPools(all, currency), currencies)
  {
    var a := EnsurePool(all, Inflow, currency);
    EnsureGrows(pools, all, currencies, Inflow, currency);
    EnsureGrows(pools, a, currencies, Unallocated, currency);
    EnsureGrows(pools, EnsurePool(a, Unallocated, currency), currencies, Spent, currency);
  }

  lemma HasPoolStays(all: seq<Pool>, more: seq<Pool>, kind: PoolKind, currency: string)
    requires HasPool(all, kind, currency) && all <= more
    ensures HasPool(more, kind, currency)
  {
    var i :| 0 <= i < |all| && all[i].kind == kind && all[i].currency == currency;
    assert more[i] == all[i];
  }

  lemma SetsGrow(all: seq<Pool>, more: seq<Pool>, spent: map<string, nat>, currency: string, id: nat)
    requires HaveSets(all, spent) && all <= more && HasSet(more, currency, id)
    ensures HaveSets(more, spent[currency := id])
  {
    forall c | c in spent
      ensures HasSet(more, c, spent[c])
    {
      HasPoolStays(all, more, Inflow, c);
      HasPoolStays(all, more, Unallocated, c);
    }
  }

  lemma EnsuredSet(all: seq<Pool>, currency: string, id: nat)
    requires FindPool(EnsureSystemPools(all, currency), Spent, currency) == Some(id)
    ensures HasSet(EnsureSystemPools(all, currency), currency, id)
  {
    var more := EnsureSystemPools(all, currency);
    var inflow, unallocated := FindPool(more, Inflow, currency).value, FindPool(more, Unallocated, currency).value;
    assert more[inflow].kind == Inflow && more[unallocated].kind == Unallocated;
  }

  /** Only missing pools were added, each once, and every currency of `spent` has its set. */
  ghost predicate Materialized(pools: seq<Pool>, all: seq<Pool>, currencies: set<string>, spent: map<string, nat>) {
    Grown(pools, all, currencies) && HaveSets(all, spent)
  }

  lemma MaterializeOne(
      pools: seq<Pool>, all: seq<Pool>, currencies: set<string>, spent: map<string, nat>, currency: string, id: nat)
    requires Materialized(pools, all, currencies, spent) && currency in currencies
    requires FindPool(EnsureSystemPools(all, currency), Spent, currency) == Some(id)
    ensures Materialized(pools, EnsureSystemPools(all, currency), currencies, spent[currency := id])
  {
    var more := EnsureSystemPools(all, currency);
    EnsureAllGrows(pools, all, currencies, currency);
    EnsuredSet(all, currency, id);
    SetsGrow(all, more, spent, currency, id);
  }

  /**
    One set of system pools per currency of a tag, in whatever order the set is walked: only missing pools are added, each
    once. Only a request with a single currency goes on to commit.
    */
  method Materialize(pools: seq<Pool>, currencies: set<string>, ghost only: Option<string>)
    returns (all: seq<Pool>, spent: map<string, nat>)
    requires only.Some? ==> currencies == {only.value}
    ensures spent.Keys == currencies && Materialized(pools, all, currencies, spent)
    ensures currencies == {} ==> all == pools
    ensures only.Some? ==> all == EnsureSystemPools(pools, only.value) && FindPool(all, Spent, only.value) == Some(spent[only.value])
  {
    all, spent := pools, map[];
    var todo := currencies;
    while todo != {}
      invariant todo <= currencies && spent.Keys == currencies - todo
      invariant Materialized(pools, all, currencies, spent)
      invariant todo == currencies ==> all == pools
      invariant only.Some? && todo != currencies ==>
                  only.value in spent && all == EnsureSystemPools(pools, only.value)
                  && FindPool(all, Spent, only.value) == Some(spent[only.value])
      decreases |todo|
    {
      var c :| c in todo;
      if only.Some? {
        assert c == only.value && todo == currencies;
      }
      ghost var before := all;
      var byKind;
      all, byKind := GetOrCreateSystemPools(all, c);
      MaterializeOne(pools, before, currencies, spent, c, byKind[Spent]);
      spent := spent[c := byKind[Spent]];
      todo := todo - {c};
    }
  }

  /** The tagged postings, as legs on their pools. */
  method CollectTags(postings: seq<Posting>) returns (tagged: seq<Leg>)
    ensures tagged == TagLegs(postings)
  {
    var i := 0;
    tagged := [];
    while i < |postings|
      invariant i <= |postings|
      invariant tagged == TagLegs(postings[..i])
    {
      TagLegsAppend(postings[..i], postings[i]);
      assert postings[..i] + [postings[i]] == postings[..i + 1];
      if postings[i].pool.Some? {
        tagged := tagged + [Leg(postings[i].pool.value, postings[i].leg.currency, postings[i].leg.amount)];
      }
      i := i + 1;
    }
    assert postings[..i] == postings;
  }

  /** The shadow legs and the net effect on the pools: an expense of `x` takes `x` out of its pool. */
  method TurnTags(tagged: seq<Leg>, currency: string) returns (legs: seq<Leg>, net: int)
    requires forall k | 0 <= k < |tagged| :: tagged[k].currency == currency
    ensures legs == Flip(tagged) && net == -Net(tagged, currency)
  {
    legs, net := [], 0;
    var i := 0;
    while i < |tagged|
      invariant i <= |tagged|
      invariant legs == Flip(tagged[..i])
      invariant net == -Net(tagged[..i], currency)
    {
      OnConcat(tagged[..i], [tagged[i]], 0, currency);
      OneLeg(tagged[i], 0, currency);
      assert tagged[..i] + [tagged[i]] == tagged[..i + 1];
      legs := legs + [Leg(tagged[i].place, currency, -tagged[i].amount)];
      net := net - tagged[i].amount;
      i := i + 1;
    }
    assert tagged[..i] == tagged;
  }

  /** `derive_paired_shadow_tx`. The handlers have registered a Spent pool for every tagged currency. */
  method DerivePairedShadow(date: int, postings: seq<Posting>, spent: map<string, nat>, main: nat)
    returns (r: Result<Option<Shadow>, LedgerError>)
    requires spent.Keys == TagCurrencies(postings)
    ensures match DerivePairing(postings)
            case NoTags => r == Ok(None)
            case Refused => r == Err(TransactionInvalid)
            case Pair(c, legs, spending) =>
              c in spent && r == Ok(Some(Shadow(date, Spend, legs + [Leg(spent[c], c, spending)], false, Some(main))))
  {
    PairingCurrencies(postings);
    var tagged := CollectTags(postings);
    if tagged == [] {
      return Ok(None);
    }
    var currency := tagged[0].currency;
    if exists k | 0 <= k < |tagged| :: tagged[k].currency != currency {
      return Err(TransactionInvalid);
    }
    var legs, net := TurnTags(tagged, currency);
    if net >= 0 {
      return Err(TransactionInvalid);
    }
    r := Ok(Some(Shadow(date, Spend, legs + [Leg(spent[currency], currency, -net)], false, Some(main))));
  }

  /** What a save takes beside the transaction: the pools after lazy creation, and the shadow, if there are tags. */
  datatype Plan = Plan(pools: seq<Pool>, shadow: Option<Shadow>)

  function PlanFor(b: Books, date: int, postings: seq<Posting>, main: nat): Plan {
    Plan(PoolsFor(b.pools, postings), OnlyShadow(ShadowFor(b.pools, date, postings, main)))
  }

  function OnlyShadow(shadows: seq<Shadow>): Option<Shadow> {
    if shadows == [] then None else Some(shadows[0])
  }

  function AsRows(shadow: Option<Shadow>): seq<Shadow> {
    if shadow.Some? then [shadow.value] else []
  }

  lemma PlanRows(b: Books, date: int, postings: seq<Posting>, main: nat)
    ensures AsRows(PlanFor(b, date, postings, main).shadow) == ShadowFor(b.pools, date, postings, main)
  {
  }

  // ----- The handlers -----

  class Service {
    var transactions: seq<Transaction>
    var shadows: seq<Shadow>
    var accounts: seq<Account>
    var pools: seq<Pool>
    var periods: seq<Period>

    function Snapshot(): Books
      reads this
    {
      Books(transactions, shadows, accounts, pools, periods)
    }

    ghost predicate Valid()
      reads this
    {
      Inv(Snapshot())
    }

    constructor ()
      ensures Valid() && Snapshot() == NEW_HOUSEHOLD
    {
      transactions, shadows, accounts, pools, periods := [], [], [], [], [];
    }

    /** The account loop: unknown or placeholder accounts stop it, the others are remembered. */
    method CheckAccounts(postings: seq<Posting>) returns (refusal: Option<LedgerError>, byId: map<nat, Account>)
      ensures refusal == AccountCheck(Snapshot(), postings)
      ensures refusal.None? ==> Remembered(postings, byId)
    {
      byId := map[];
      var i := 0;
      while i < |postings|
        invariant i <= |postings|
        invariant AccountCheck(Snapshot(), postings) == AccountCheck(Snapshot(), postings[i..])
        invariant forall a | a in byId :: a < |accounts| && byId[a] == accounts[a]
        invariant forall k | 0 <= k < i :: postings[k].leg.place in byId
      {
        var a := postings[i].leg.place;
        assert postings[i..][1..] == postings[i + 1..];
        if a >= |accounts| {
          return Some(AccountUnknown(a)), byId;
        }
        if accounts[a].placeholder {
          return Some(PlaceholderPosting(a)), byId;
        }
        byId := byId[a := accounts[a]];
        i := i + 1;
      }
      refusal := None;
    }

    /** `accounts_by_id` holds the account of every posting. */
    predicate Remembered(postings: seq<Posting>, byId: map<nat, Account>)
      reads this
    {
      forall i | 0 <= i < |postings| ::
        var a := postings[i].leg.place; a < |accounts| && a in byId && byId[a] == accounts[a]
    }

    method CheckTag(p: Posting, byId: map<nat, Account>) returns (refusal: Option<LedgerError>)
      requires p.leg.place < |accounts| && p.leg.place in byId && byId[p.leg.place] == accounts[p.leg.place]
      ensures refusal == TagCheck(Snapshot(), p)
    {
      if p.pool.None? {
        return None;
      }
      var pool := p.pool.value;
      if pool >= |pools| {
        return Some(PoolNotFound(pool));
      }
      if !pools[pool].active {
        return Some(PoolInactive(pool));
      }
      if byId[p.leg.place].kind != Expense {
        return Some(InvalidPairing(byId[p.leg.place].kind));
      }
      if pools[pool].currency != p.leg.currency {
        return Some(PoolCurrencyMismatch(pool));
      }
      refusal := None;
    }

    /** The pool loop: the first tag at fault stops it; the currencies of the others are collected. */
    method CheckPools(postings: seq<Posting>, byId: map<nat, Account>)
      returns (refusal: Option<LedgerError>, currencies: set<string>)
      requires Remembered(postings, byId)
      ensures refusal == PoolCheck(Snapshot(), postings)
      ensures refusal.None? ==> currencies == TagCurrencies(postings)
    {
      currencies := {};
      var i := 0;
      while i < |postings|
        invariant i <= |postings|
        invariant PoolCheck(Snapshot(), postings) == PoolCheck(Snapshot(), postings[i..])
        invariant currencies == TagCurrencies(postings[..i])
      {
        assert postings[i..][1..] == postings[i + 1..];
        TagCurrenciesStep(postings, i);
        refusal := CheckTag(postings[i], byId);
        if refusal.Some? {
          return;
        }
        if postings[i].pool.Some? {
          currencies := currencies + {postings[i].leg.currency};
        }
        i := i + 1;
      }
      assert postings[..i] == postings;
      refusal := None;
    }

    method PreFlightLoops(postings: seq<Posting>) returns (refusal: Option<LedgerError>, currencies: set<string>)
      ensures refusal == PreFlight(Snapshot(), postings)
      ensures refusal.None? ==> currencies == TagCurrencies(postings)
    {
      var byId;
      currencies := {};
      refusal, byId := CheckAccounts(postings);
      if refusal.None? {
        refusal, currencies := CheckPools(postings, byId);
      }
    }

    /** Domain construction, the engine's checks and the pairing; what they yield is not yet in the tables. */
    method BuildPosted(date: int, postings: seq<Posting>, currencies: set<string>, main: nat)
      returns (refusal: Option<LedgerError>, plan: Plan)
      requires currencies == TagCurrencies(postings)
      ensures refusal == PostCheck(periods, date, postings)
      ensures refusal.None? ==> plan == PlanFor(Snapshot(), date, postings, main)
    {
      PairingCurrencies(postings);
      ghost var pairing := DerivePairing(postings);
      var all, spent := Materialize(pools, currencies, if pairing.Pair? then Some(pairing.currency) else None);
      if !AllKnown(postings) {
        return Some(CurrencyUnknown), Plan(all, None);
      }
      if |postings| < 2 {
        return Some(TransactionInvalid), Plan(all, None);
      }
      if !Balanced(LegsOf(postings)) {
        return Some(Unbalanced), Plan(all, None);
      }
      if !PeriodOpen(periods, date) {
        return Some(PeriodClosed), Plan(all, None);
      }
      var derived := DerivePairedShadow(date, postings, spent, main);
      if derived.Err? {
        return Some(derived.error), Plan(all, None);
      }
      refusal, plan := None, Plan(all, derived.value);
    }

    method CheckSource(id: nat) returns (r: Option<LedgerError>)
      ensures r == SourceCheck(Snapshot(), id)
    {
      if id >= |transactions| {
        return Some(NotFound);
      }
      if transactions[id].voidedBy.Some? {
        return Some(AlreadyVoided(transactions[id].voidedBy.value));
      }
      if !IsLedger(transactions[id].status) {
        return Some(NotVoidable);
      }
      r := None;
    }

    /** `save_balanced` on both ledgers. */
    method SaveBalanced(date: int, postings: seq<Posting>, plan: Plan) returns (id: nat)
      modifies this
      ensures id == |old(transactions)| && transactions == old(transactions) + [Transaction(date, postings, Posted, None)]
      ensures shadows == old(shadows) + AsRows(plan.shadow)
      ensures pools == plan.pools && accounts == old(accounts) && periods == old(periods)
    {
      id := |transactions|;
      transactions := transactions + [Transaction(date, postings, Posted, None)];
      if plan.shadow.Some? {
        shadows := shadows + [plan.shadow.value];
      }
      pools := plan.pools;
    }

    /** `persist_reversal`: the flipped postings in a new transaction, and the link from the source. */
    method PersistReversal(id: nat, date: int) returns (reversal: nat)
      requires id < |transactions|
      modifies this`transactions
      ensures reversal == |old(transactions)|
      ensures transactions == old(transactions)[id := old(transactions[id]).(voidedBy := Some(reversal))]
                              + [Transaction(date, FlipPostings(old(transactions[id]).postings), Posted, None)]
    {
      reversal := |transactions|;
      var flipped := FlipPostings(transactions[id].postings);
      transactions := transactions + [Transaction(date, flipped, Posted, None)];
      transactions := transactions[id := transactions[id].(voidedBy := Some(reversal))];
    }

    /** `get_paired_id_for_main_tx`, then `void`. */
    method VoidPaired(id: nat)
      modifies this`shadows
      ensures shadows == VoidShadow(old(shadows), id)
    {
      var paired := PairedShadow(shadows, id);
      if paired.Some? {
        shadows := shadows[paired.value := shadows[paired.value].(voided := true)];
      }
    }

    method DecideCreate(date: int, postings: seq<Posting>)
      returns (refusal: Option<LedgerError>, plan: Plan)
      ensures refusal == CreateCheck(Snapshot(), date, postings)
      ensures refusal.None? ==> plan == PlanFor(Snapshot(), date, postings, |transactions|)
    {
      var currencies;
      plan := Plan(pools, None);
      refusal, currencies := PreFlightLoops(postings);
      if refusal.None? {
        refusal, plan := BuildPosted(date, postings, currencies, |transactions|);
      }
    }

    method CreateTransaction(date: int, postings: seq<Posting>) returns (r: Result<nat, LedgerError>)
      requires Valid()
      modifies this
      ensures Valid()
      ensures match CreateSpec(old(Snapshot()), date, postings)
              case Err(e) => r == Err(e) && Snapshot() == old(Snapshot())
              case Ok(b) => r == Ok(|old(transactions)|) && Snapshot() == b
    {
      var refusal, plan := DecideCreate(date, postings);
      if refusal.Some? {
        return Err(refusal.value);
      }
      SaveKeepsInv(Snapshot(), date, postings);
      PlanRows(Snapshot(), date, postings, |transactions|);
      var id := SaveBalanced(date, postings, plan);
      r := Ok(id);
    }

    method VoidTransaction(id: nat, reversalDate: int) returns (r: Result<nat, LedgerError>)
      requires Valid()
      modifies this
      ensures Valid()
      ensures match VoidSpec(old(Snapshot()), id, reversalDate)
              case Err(e) => r == Err(e) && Snapshot() == old(Snapshot())
              case Ok(b) => r == Ok(|old(transactions)|) && Snapshot() == b
    {
      StepKeepsInv(Snapshot(), Void(id, reversalDate));
      var refusal := CheckSource(id);
      if refusal.Some? {
        return Err(refusal.value);
      }
      if !PeriodOpen(periods, reversalDate) {
        return Err(PeriodClosed);
      }
      var reversal := PersistReversal(id, reversalDate);
      VoidPaired(id);
      r := Ok(reversal);
    }

    /** Everything that can refuse a replacement, before the first write. The replacement will be transaction `main`. */
    method DecideReplacement(id: nat, reversalDate: int, date: int, postings: seq<Posting>, main: nat)
      returns (refusal: Option<LedgerError>, plan: Plan)
      ensures refusal == ReplaceCheck(Snapshot(), id, reversalDate, date, postings)
      ensures refusal.None? ==> plan == PlanFor(Snapshot(), date, postings, main)
    {
      var currencies;
      plan := Plan(pools, None);
      refusal := CheckSource(id);
      if refusal.None? {
        refusal, currencies := PreFlightLoops(postings);
        if refusal.None? {
          if !PeriodOpen(periods, reversalDate) {
            refusal := Some(PeriodClosed);
          } else {
            refusal, plan := BuildPosted(date, postings, currencies, main);
          }
        }
      }
    }

    method ReplaceTransaction(id: nat, reversalDate: int, date: int, postings: seq<Posting>) returns (r: Result<nat, LedgerError>)
      requires Valid()
      modifies this
      ensures Valid()
      ensures match ReplaceSpec(old(Snapshot()), id, reversalDate, date, postings)
              case Err(e) => r == Err(e) && Snapshot() == old(Snapshot())
              case Ok(b) => r == Ok(|old(transactions)| + 1) && Snapshot() == b
    {
      var main := |transactions| + 1;
      var refusal, plan := DecideReplacement(id, reversalDate, date, postings, main);
      if refusal.Some? {
        return Err(refusal.value);
      }
      ReplacementKeepsInv(Snapshot(), id, reversalDate, date, postings);
      CommitReplacement(id, reversalDate, date, postings, plan, main);
      r := Ok(main);
    }

    /** The source's shadow is looked up after the replacement's is saved; that one belongs to another transaction. */
    method CommitReplacement(id: nat, reversalDate: int, date: int, postings: seq<Posting>, plan: Plan, main: nat)
      requires id < |transactions| && main == |transactions| + 1 && plan == PlanFor(Snapshot(), date, postings, main)
      modifies this
      ensures Snapshot() == Save(Reverse(old(Snapshot()), id, reversalDate), date, postings)
    {
      ghost var b := Snapshot();
      ghost var more := ShadowFor(b.pools, date, postings, main);
      PlanRows(b, date, postings, main);
      MoreShadows(b, date, postings, main);
      VoidShadowAppend(b.shadows, more, id, main);
      var reversal := PersistReversal(id, reversalDate);
      var replacement := SaveBalanced(date, postings, plan);
      assert shadows == b.shadows + more;
      VoidPaired(id);
      SavedShadows(b, id, reversalDate, date, postings, main);
    }

    // ----- Pools -----

    method PostUserInitiated(reason: Reason, date: int, from: nat, to: nat, currency: string, amount: int)
      modifies this`shadows
      ensures Snapshot() == PostLegs(old(Snapshot()), reason, date, from, to, currency, amount)
    {
      shadows := shadows + [Shadow(date, reason, [Leg(from, currency, -amount), Leg(to, currency, amount)], false, None)];
    }

    method TransferBetweenPools(src: nat, dest: nat, amount: int, date: int, claims: Claims) returns (r: Result<nat, LedgerError>)
      requires Valid()
      modifies this
      ensures Valid()
      ensures match TransferSpec(old(Snapshot()), src, dest, amount, date, claims)
              case Err(e) => r == Err(e) && Snapshot() == old(Snapshot())
              case Ok(b) => r == Ok(dest) && Snapshot() == b
    {
      StepKeepsInv(Snapshot(), Move(src, dest, amount, date, claims));
      if amount <= 0 {
        return Err(BodyInvalid);
      }
      if src == dest {
        return Err(SamePool);
      }
      if src >= |pools| {
        return Err(PoolNotFound(src));
      }
      if dest >= |pools| {
        return Err(PoolNotFound(dest));
      }
      if !MaySee(pools[src], claims) {
        return Err(PoolNotFound(src));
      }
      if !MaySee(pools[dest], claims) {
        return Err(PoolNotFound(dest));
      }
      if IsSystem(pools[src].kind) || IsSystem(pools[dest].kind) {
        return Err(SystemPoolForbidden);
      }
      if !pools[src].active {
        return Err(PoolInactive(src));
      }
      if !pools[dest].active {
        return Err(PoolInactive(dest));
      }
      if pools[src].currency != pools[dest].currency {
        return Err(CurrencyMismatch);
      }
      PostUserInitiated(Transfer, date, src, dest, pools[src].currency, amount);
      r := Ok(dest);
    }

    method DeclareBudgetInflow(currency: string, amount: int, date: int) returns (r: Result<(), LedgerError>)
      requires Valid()
      modifies this
      ensures Valid()
      ensures match InflowSpec(old(Snapshot()), currency, amount, date)
              case Err(e) => r == Err(e) && Snapshot() == old(Snapshot())
              case Ok(b) => r.Ok? && Snapshot() == b
    {
      InflowKeepsInv(Snapshot(), currency, amount, date);
      if amount <= 0 {
        return Err(BodyInvalid);
      }
      if currency !in KNOWN_CURRENCIES {
        return Err(CurrencyUnknown);
      }
      var all, byKind := GetOrCreateSystemPools(pools, currency);
      pools := all;
      PostUserInitiated(BudgetInflow, date, byKind[Inflow], byKind[Unallocated], currency, amount);
      r := Ok(());
    }

    method RefillEnvelope(envelope: nat, amount: int, date: int, claims: Claims) returns (r: Result<(), LedgerError>)
      requires Valid()
      modifies this
      ensures Valid()
      ensures match RefillSpec(old(Snapshot()), envelope, amount, date, claims)
              case Err(e) => r == Err(e) && Snapshot() == old(Snapshot())
              case Ok(b) => r.Ok? && Snapshot() == b
    {
      if amount <= 0 {
        return Err(BodyInvalid);
      }
      if envelope >= |pools| || pools[envelope].kind != Envelope || !MaySee(pools[envelope], claims) {
        return Err(EnvelopeNotFound);
      }
      RefillKeepsInv(Snapshot(), envelope, amount, date);
      var currency := pools[envelope].currency;
      var all, byKind := GetOrCreateSystemPools(pools, currency);
      pools := all;
      PostUserInitiated(Refill, date, byKind[Unallocated], envelope, currency, amount);
      r := Ok(());
    }
  }

  lemma SavedShadows(b: Books, id: nat, reversalDate: int, date: int, postings: seq<Posting>, main: nat)
    requires id < |b.transactions| && main == |b.transactions| + 1
    ensures Save(Reverse(b, id, reversalDate), date, postings).shadows
         == VoidShadow(b.shadows, id) + ShadowFor(b.pools, date, postings, main)
  {
    assert |Reverse(b, id, reversalDate).transactions| == main;
  }

  lemma MoreShadows(b: Books, date: int, postings: seq<Posting>, main: nat)
    ensures var more := ShadowFor(b.pools, date, postings, main); |more| <= 1 && forall s | s in more :: s.pairedMain == Some(main)
  {
  }

  lemma VoidShadowAppend(shadows: seq<Shadow>, more: seq<Shadow>, id: nat, main: nat)
    requires |more| <= 1 && id != main && forall s | s in more :: s.pairedMain == Some(main)
    ensures VoidShadow(shadows + more, id) == VoidShadow(shadows, id) + more
    ensures PairedShadow(shadows + more, id) == PairedShadow(shadows, id)
  {
    if more == [] {
      assert shadows + more == shadows && VoidShadow(shadows, id) + more == VoidShadow(shadows, id);
    } else {
      assert (shadows + more)[..|shadows|] == shadows;
      assert (shadows + more)[|shadows|] == more[0] && more[0] in more;
    }
  }
}
