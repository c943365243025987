/**
  The main ledger and its paired shadow ledger, as one household's tables, with what each handler commits. Ids are positions
  in the tables; a handler that raises commits nothing.
  */
module Ledger {
  import opened Results
  import opened Legs

  // ----- Tables -----

  datatype AccountType = Asset | Liability | Equity | Income | Expense

  datatype Account = Account(kind: AccountType, placeholder: bool)

  datatype PoolKind = Inflow | Unallocated | Spent | Envelope | SinkingFund

  datatype Pool = Pool(kind: PoolKind, currency: string, active: bool, private: bool, creator: nat)

  datatype Period = Period(first: int, last: int, softClosed: bool)

  /** A posting is a leg on an account, optionally tagged with an allocation pool. */
  datatype Posting = Posting(leg: Leg, pool: Option<nat>)

  datatype Status = Pending | Posted | Reconciled

  datatype Transaction = Transaction(date: int, postings: seq<Posting>, status: Status, voidedBy: Option<nat>)

  datatype Reason = BudgetInflow | Refill | Spend | Transfer

  /** A persisted shadow transaction; its legs are on pools. */
  datatype Shadow = Shadow(date: int, reason: Reason, legs: seq<Leg>, voided: bool, pairedMain: Option<nat>)

  datatype Books = Books(
    transactions: seq<Transaction>, shadows: seq<Shadow>,
    accounts: seq<Account>, pools: seq<Pool>, periods: seq<Period>)

  datatype Claims = Claims(admin: bool, user: nat)

  datatype LedgerError =
    | AccountUnknown(account: nat) | PlaceholderPosting(account: nat)
    | PoolNotFound(pool: nat) | PoolInactive(pool: nat) | InvalidPairing(kind: AccountType) | PoolCurrencyMismatch(pool: nat)
    | CurrencyUnknown | TransactionInvalid | Unbalanced | PeriodClosed
    | NotFound | AlreadyVoided(reversal: nat) | NotVoidable
    | SamePool | SystemPoolForbidden | CurrencyMismatch | EnvelopeNotFound | BodyInvalid

  // ----- Domain checks -----

  const KNOWN_CURRENCIES := ["USD", "EUR", "GBP", "JPY", "CAD", "AUD", "CHF", "CNY", "BHD"]

  function LegsOf(postings: seq<Posting>): (r: seq<Leg>)
    ensures |r| == |postings| && forall i | 0 <= i < |r| :: r[i] == postings[i].leg
  {
    seq(|postings|, i requires 0 <= i < |postings| => postings[i].leg)
  }

  /** The legs a transaction's tags put on pools, with the posting's own sign. */
  function TagLegs(postings: seq<Posting>): seq<Leg> {
    if postings == [] then []
    else (if postings[0].pool.Some? then [Leg(postings[0].pool.value, postings[0].leg.currency, postings[0].leg.amount)] else [])
         + TagLegs(postings[1..])
  }

  predicate IsLedger(status: Status) {
    status == Posted || status == Reconciled
  }

  /** First covering period decides. */
  function CoveringPeriod(periods: seq<Period>, date: int): Option<Period> {
    if periods == [] then None
    else if periods[0].first <= date <= periods[0].last then Some(periods[0])
    else CoveringPeriod(periods[1..], date)
  }

  predicate PeriodOpen(periods: seq<Period>, date: int) {
    CoveringPeriod(periods, date).Some? && !CoveringPeriod(periods, date).value.softClosed
  }

  /** The account loop: the first posting at fault decides. */
  function AccountCheck(b: Books, postings: seq<Posting>): Option<LedgerError> {
    if postings == [] then None
    else
      var a := postings[0].leg.place;
      if a >= |b.accounts| then Some(AccountUnknown(a))
      else if b.accounts[a].placeholder then Some(PlaceholderPosting(a))
      else AccountCheck(b, postings[1..])
  }

  /** The pool check of one tagged posting: not found, inactive, account type, currency. */
  function TagCheck(b: Books, p: Posting): Option<LedgerError>
    requires p.leg.place < |b.accounts|
  {
    if p.pool.None? then None
    else
      var pool := p.pool.value;
      if pool >= |b.pools| then Some(PoolNotFound(pool))
      else if !b.pools[pool].active then Some(PoolInactive(pool))
      else if b.accounts[p.leg.place].kind != Expense then Some(InvalidPairing(b.accounts[p.leg.place].kind))
      else if b.pools[pool].currency != p.leg.currency then Some(PoolCurrencyMismatch(pool))
      else None
  }

  function PoolCheck(b: Books, postings: seq<Posting>): Option<LedgerError>
    requires forall i | 0 <= i < |postings| :: postings[i].leg.place < |b.accounts|
  {
    if postings == [] then None
    else if TagCheck(b, postings[0]).Some? then TagCheck(b, postings[0])
    else PoolCheck(b, postings[1..])
  }

  predicate AllKnown(postings: seq<Posting>) {
    forall i | 0 <= i < |postings| :: postings[i].leg.currency in KNOWN_CURRENCIES
  }

  lemma {:induction false} AccountCheckPasses(b: Books, postings: seq<Posting>)
    ensures AccountCheck(b, postings).None? <==>
            forall i | 0 <= i < |postings| ::
              postings[i].leg.place < |b.accounts| && !b.accounts[postings[i].leg.place].placeholder
  {
    if postings != [] {
      AccountCheckPasses(b, postings[1..]);
    }
  }

  /** Both pre-flight loops, which run before any write. */
  function PreFlight(b: Books, postings: seq<Posting>): Option<LedgerError> {
    if AccountCheck(b, postings).Some? then AccountCheck(b, postings)
    else
      AccountCheckPasses(b, postings);
      PoolCheck(b, postings)
  }

  /** Constructing the domain transaction, posting it and deriving its shadow. */
  function PostCheck(periods: seq<Period>, date: int, postings: seq<Posting>): Option<LedgerError> {
    if !AllKnown(postings) then Some(CurrencyUnknown)
    else if |postings| < 2 then Some(TransactionInvalid)
    else if !Balanced(LegsOf(postings)) then Some(Unbalanced)
    else if !PeriodOpen(periods, date) then Some(PeriodClosed)
    else if DerivePairing(postings).Refused? then Some(TransactionInvalid)
    else None
  }

  // ----- System pools -----

  predicate IsSystem(kind: PoolKind) {
    kind == Inflow || kind == Unallocated || kind == Spent
  }

  function FindPool(pools: seq<Pool>, kind: PoolKind, currency: string): (r: Option<nat>)
    ensures r.Some? ==> r.value < |pools| && pools[r.value].kind == kind && pools[r.value].currency == currency
    ensures r.None? ==> forall i | 0 <= i < |pools| :: pools[i].kind != kind || pools[i].currency != currency
  {
    if pools == [] then None
    else
      var n := |pools| - 1;
      var front := FindPool(pools[..n], kind, currency);
      if front.Some? then front
      else if pools[n].kind == kind && pools[n].currency == currency then Some(n) else None
  }

  function EnsurePool(pools: seq<Pool>, kind: PoolKind, currency: string): (r: seq<Pool>)
    ensures pools <= r && FindPool(r, kind, currency).Some?
  {
    if FindPool(pools, kind, currency).Some? then pools
    else
      var r := pools + [Pool(kind, currency, true, false, 0)];
      assert r[|pools|].kind == kind && r[|pools|].currency == currency;
      r
  }

  lemma {:induction false} FindPoolExtends(pools: seq<Pool>, more: seq<Pool>, kind: PoolKind, currency: string)
    requires pools <= more && FindPool(pools, kind, currency).Some?
    ensures FindPool(more, kind, currency) == FindPool(pools, kind, currency)
    decreases |more|
  {
    if |pools| < |more| {
      FindPoolExtends(pools, more[..|more| - 1], kind, currency);
    } else {
      assert pools == more;
    }
  }

  /** `get_or_create_system_pools` */
  function EnsureSystemPools(pools: seq<Pool>, currency: string): (r: seq<Pool>)
    ensures pools <= r
    ensures FindPool(r, Inflow, currency).Some? && FindPool(r, Unallocated, currency).Some? && FindPool(r, Spent, currency).Some?
  {
    var a := EnsurePool(pools, Inflow, currency);
    var b := EnsurePool(a, Unallocated, currency);
    var c := EnsurePool(b, Spent, currency);
    FindPoolExtends(a, b, Inflow, currency);
    FindPoolExtends(a, c, Inflow, currency);
    FindPoolExtends(b, c, Unallocated, currency);
    c
  }

  // ----- The paired shadow transaction -----

  datatype Pairing = NoTags | Refused | Pair(currency: string, legs: seq<Leg>, spending: int)

  /** `derive_paired_shadow_tx`, up to the absorbing leg: one currency only, and money must leave the tagged pools. */
  function DerivePairing(postings: seq<Posting>): Pairing {
    var tags := TagLegs(postings);
    if tags == [] then NoTags
    else
      var currency := tags[0].currency;
      if exists i | 0 <= i < |tags| :: tags[i].currency != currency then Refused
      else if Net(tags, currency) <= 0 then Refused
      else Pair(currency, Flip(tags), Net(tags, currency))
  }

  /** The pools after the pairing's lazy creation, and the shadow transaction to save. */
  function PoolsFor(pools: seq<Pool>, postings: seq<Posting>): (r: seq<Pool>)
    ensures pools <= r
  {
    match DerivePairing(postings)
    case Pair(currency, _, _) => EnsureSystemPools(pools, currency)
    case _ => pools
  }

  function ShadowFor(pools: seq<Pool>, date: int, postings: seq<Posting>, main: nat): seq<Shadow> {
    match DerivePairing(postings)
    case Pair(currency, legs, spending) =>
      var spent := FindPool(PoolsFor(pools, postings), Spent, currency).value;
      [Shadow(date, Spend, legs + [Leg(spent, currency, spending)], false, Some(main))]
    case _ => []
  }

  // ----- Create -----

  /** Everything `create_transaction` refuses, in order. */
  function CreateCheck(b: Books, date: int, postings: seq<Posting>): Option<LedgerError> {
    if PreFlight(b, postings).Some? then PreFlight(b, postings) else PostCheck(b.periods, date, postings)
  }

  /** Saves a new posted transaction and its shadow, if it has tags. */
  function Save(b: Books, date: int, postings: seq<Posting>): Books {
    b.(transactions := b.transactions + [Transaction(date, postings, Posted, None)],
       shadows := b.shadows + ShadowFor(b.pools, date, postings, |b.transactions|),
       pools := PoolsFor(b.pools, postings))
  }

  function CreateSpec(b: Books, date: int, postings: seq<Posting>): Result<Books, LedgerError> {
    match CreateCheck(b, date, postings)
    case Some(e) => Err(e)
    case None => Ok(Save(b, date, postings))
  }

  // ----- Void -----

  function FlipPostings(postings: seq<Posting>): (r: seq<Posting>)
    ensures |r| == |postings|
    ensures forall i | 0 <= i < |r| :: r[i] == postings[i].(leg := postings[i].leg.(amount := -postings[i].leg.amount))
  {
    seq(|postings|, i requires 0 <= i < |postings| => postings[i].(leg := postings[i].leg.(amount := -postings[i].leg.amount)))
  }

  function SourceCheck(b: Books, id: nat): Option<LedgerError> {
    if id >= |b.transactions| then Some(NotFound)
    else if b.transactions[id].voidedBy.Some? then Some(AlreadyVoided(b.transactions[id].voidedBy.value))
    else if !IsLedger(b.transactions[id].status) then Some(NotVoidable)
    else None
  }

  /** `get_paired_id_for_main_tx` */
  function PairedShadow(shadows: seq<Shadow>, main: nat): (r: Option<nat>)
    ensures r.Some? ==> r.value < |shadows| && shadows[r.value].pairedMain == Some(main)
    ensures r.None? ==> forall k | 0 <= k < |shadows| :: shadows[k].pairedMain != Some(main)
  {
    if shadows == [] then None
    else
      var n := |shadows| - 1;
      var front := PairedShadow(shadows[..n], main);
      if front.Some? then front else if shadows[n].pairedMain == Some(main) then Some(n) else None
  }

  function VoidShadow(shadows: seq<Shadow>, main: nat): (r: seq<Shadow>)
    ensures |r| == |shadows|
  {
    match PairedShadow(shadows, main)
    case None => shadows
    case Some(k) => shadows[k := shadows[k].(voided := true)]
  }

  /** Saves the reversal, links the source to it and voids the source's shadow. */
  function Reverse(b: Books, id: nat, date: int): Books
    requires id < |b.transactions|
  {
    var source := b.transactions[id];
    b.(transactions := b.transactions[id := source.(voidedBy := Some(|b.transactions|))]
                       + [Transaction(date, FlipPostings(source.postings), Posted, None)],
       shadows := VoidShadow(b.shadows, id))
  }

  function VoidCheck(b: Books, id: nat, date: int): Option<LedgerError> {
    if SourceCheck(b, id).Some? then SourceCheck(b, id)
    else if !PeriodOpen(b.periods, date) then Some(PeriodClosed)
    else None
  }

  function VoidSpec(b: Books, id: nat, date: int): Result<Books, LedgerError> {
    match VoidCheck(b, id, date)
    case Some(e) => Err(e)
    case None => Ok(Reverse(b, id, date))
  }

  // ----- Replace -----

  function ReplaceCheck(b: Books, id: nat, reversalDate: int, date: int, postings: seq<Posting>): Option<LedgerError> {
    if SourceCheck(b, id).Some? then SourceCheck(b, id)
    else if PreFlight(b, postings).Some? then PreFlight(b, postings)
    else if !PeriodOpen(b.periods, reversalDate) then Some(PeriodClosed)
    else PostCheck(b.periods, date, postings)
  }

  function ReplaceSpec(b: Books, id: nat, reversalDate: int, date: int, postings: seq<Posting>): Result<Books, LedgerError> {
    match ReplaceCheck(b, id, reversalDate, date, postings)
    case Some(e) => Err(e)
    case None => Ok(Save(Reverse(b, id, reversalDate), date, postings))
  }

  // ----- Moving money between pools -----

  predicate MaySee(p: Pool, claims: Claims) {
    !p.private || claims.admin || p.creator == claims.user
  }

  function TransferCheck(b: Books, src: nat, dest: nat, amount: int, claims: Claims): Option<LedgerError> {
    if amount <= 0 then Some(BodyInvalid)
    else if src == dest then Some(SamePool)
    else if src >= |b.pools| then Some(PoolNotFound(src))
    else if dest >= |b.pools| then Some(PoolNotFound(dest))
    else if !MaySee(b.pools[src], claims) then Some(PoolNotFound(src))
    else if !MaySee(b.pools[dest], claims) then Some(PoolNotFound(dest))
    else if IsSystem(b.pools[src].kind) then Some(SystemPoolForbidden)
    else if IsSystem(b.pools[dest].kind) then Some(SystemPoolForbidden)
    else if !b.pools[src].active then Some(PoolInactive(src))
    else if !b.pools[dest].active then Some(PoolInactive(dest))
    else if b.pools[src].currency != b.pools[dest].currency then Some(CurrencyMismatch)
    else None
  }

  /** `post_user_initiated_shadow_tx`: it builds the transaction as already posted, so the engine's pool checks do not run. */
  function PostLegs(b: Books, reason: Reason, date: int, from: nat, to: nat, currency: string, amount: int): Books {
    b.(shadows := b.shadows
         + [Shadow(date, reason, [Leg(from, currency, -amount), Leg(to, currency, amount)], false, None)])
  }

  function TransferSpec(b: Books, src: nat, dest: nat, amount: int, date: int, claims: Claims): Result<Books, LedgerError> {
    match TransferCheck(b, src, dest, amount, claims)
    case Some(e) => Err(e)
    case None => Ok(PostLegs(b, Transfer, date, src, dest, b.pools[src].currency, amount))
  }

  /** Inflow to Unallocated, after lazy creation of the currency's system pools. */
  function Inflowed(b: Books, currency: string, amount: int, date: int): Books {
    var pools := EnsureSystemPools(b.pools, currency);
    PostLegs(b.(pools := pools), BudgetInflow, date,
             FindPool(pools, Inflow, currency).value, FindPool(pools, Unallocated, currency).value, currency, amount)
  }

  function InflowSpec(b: Books, currency: string, amount: int, date: int): Result<Books, LedgerError> {
    if amount <= 0 then Err(BodyInvalid)
    else if currency !in KNOWN_CURRENCIES then Err(CurrencyUnknown)
    else Ok(Inflowed(b, currency, amount, date))
  }

  /** Unallocated to the envelope, in the envelope's currency. */
  function Refilled(b: Books, envelope: nat, amount: int, date: int): Books
    requires envelope < |b.pools|
  {
    var currency := b.pools[envelope].currency;
    var pools := EnsureSystemPools(b.pools, currency);
    PostLegs(b.(pools := pools), Refill, date, FindPool(pools, Unallocated, currency).value, envelope, currency, amount)
  }

  function RefillSpec(b: Books, envelope: nat, amount: int, date: int, claims: Claims): Result<Books, LedgerError> {
    if amount <= 0 then Err(BodyInvalid)
    else if envelope >= |b.pools| || b.pools[envelope].kind != Envelope || !MaySee(b.pools[envelope], claims) then
      Err(EnvelopeNotFound)
    else Ok(Refilled(b, envelope, amount, date))
  }

  // ----- Runs -----

  datatype Op =
    | Create(date: int, postings: seq<Posting>)
    | Void(id: nat, reversalDate: int)
    | Replace(id: nat, reversalDate: int, date: int, postings: seq<Posting>)
    | Move(src: nat, dest: nat, amount: int, date: int, claims: Claims)
    | DeclareInflow(currency: string, amount: int, date: int)
    | RefillEnvelope(envelope: nat, amount: int, date: int, claims: Claims)
    // The surroundings: charts, pools and periods change; imports leave pending rows; reconciliation marks posted ones.
    | AddAccount(account: Account)
    | AddPool(pool: Pool)
    | DeactivatePool(pool_: nat)
    | AddPeriod(period: Period)
    | SetPeriod(index: nat, softClosed: bool)
    | ImportPending(date: int, postings: seq<Posting>)
    | Reconcile(id: nat)

  function Outcome(b: Books, op: Op): Result<Books, LedgerError> {
    match op
    case Create(date, postings) => CreateSpec(b, date, postings)
    case Void(id, date) => VoidSpec(b, id, date)
    case Replace(id, reversalDate, date, postings) => ReplaceSpec(b, id, reversalDate, date, postings)
    case Move(src, dest, amount, date, claims) => TransferSpec(b, src, dest, amount, date, claims)
    case DeclareInflow(currency, amount, date) => InflowSpec(b, currency, amount, date)
    case RefillEnvelope(envelope, amount, date, claims) => RefillSpec(b, envelope, amount, date, claims)
    case AddAccount(account) => Ok(b.(accounts := b.accounts + [account]))
    case AddPool(pool) => if IsSystem(pool.kind) then Err(SystemPoolForbidden) else Ok(b.(pools := b.pools + [pool]))
    case DeactivatePool(i) =>
      if i >= |b.pools| then Err(NotFound)
      else if IsSystem(b.pools[i].kind) then Err(SystemPoolForbidden)
      else Ok(b.(pools := b.pools[i := b.pools[i].(active := false)]))
    case AddPeriod(period) => Ok(b.(periods := b.periods + [period]))
    case SetPeriod(i, closed) =>
      if i >= |b.periods| then Err(NotFound)
      else Ok(b.(periods := b.periods[i := b.periods[i].(softClosed := closed)]))
    case ImportPending(date, postings) =>
      Ok(b.(transactions := b.transactions + [Transaction(date, postings, Pending, None)]))
    case Reconcile(id) =>
      if id >= |b.transactions| || b.transactions[id].status != Posted then Err(NotFound)
      else Ok(b.(transactions := b.transactions[id := b.transactions[id].(status := Reconciled)]))
  }

  function Apply(b: Books, op: Op): Books {
    match Outcome(b, op)
    case Ok(b') => b'
    case Err(_) => b
  }

  function Run(b: Books, ops: seq<Op>): Books
    decreases |ops|
  {
    if ops == [] then b else Run(Apply(b, ops[0]), ops[1..])
  }

  const NEW_HOUSEHOLD := Books([], [], [], [], [])

  // ----- Balances as the queries define them -----

  function MainEntries(transactions: seq<Transaction>): (r: seq<Entry>)
    ensures |r| == |transactions|
    ensures forall i | 0 <= i < |r| ::
              r[i] == Entry(transactions[i].date, IsLedger(transactions[i].status), LegsOf(transactions[i].postings))
  {
    seq(|transactions|, i requires 0 <= i < |transactions| =>
      Entry(transactions[i].date, IsLedger(transactions[i].status), LegsOf(transactions[i].postings)))
  }

  function ShadowEntries(shadows: seq<Shadow>): (r: seq<Entry>)
    ensures |r| == |shadows|
    ensures forall i | 0 <= i < |r| :: r[i] == Entry(shadows[i].date, !shadows[i].voided, shadows[i].legs)
  {
    seq(|shadows|, i requires 0 <= i < |shadows| => Entry(shadows[i].date, !shadows[i].voided, shadows[i].legs))
  }

  /** `balance_for_account`: posted and reconciled transactions dated on or before the cutoff. */
  function AccountBalance(b: Books, account: nat, currency: string, cutoff: int): int {
    Balance(MainEntries(b.transactions), account, currency, cutoff)
  }

  /** `balance_for_pool`: shadow transactions that are not voided, dated on or before the cutoff. */
  function PoolBalance(b: Books, pool: nat, currency: string, cutoff: int): int {
    Balance(ShadowEntries(b.shadows), pool, currency, cutoff)
  }
}
