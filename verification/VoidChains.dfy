/** Void links over whole runs, what a chain of voids does to the main ledger, and what replace does to it. */
module VoidChains {
  import opened Results
  import opened Legs
  import opened Ledger
  import opened LedgerInvariants

  lemma ReachableLinks(b: Books)
    requires Reachable(b)
    ensures LinksOk(b.transactions)
  {
    ReachableInv(b);
  }

  // ----- Links are set once, and never form a cycle -----

  /** A link, once set, survives every later request: the transaction cannot be voided or replaced again. */
  lemma {:induction false} LinksArePermanent(b: Books, ops: seq<Op>, i: nat)
    requires i < |b.transactions| && b.transactions[i].voidedBy.Some?
    ensures i < |Run(b, ops).transactions| && Run(b, ops).transactions[i].voidedBy == b.transactions[i].voidedBy
    decreases |ops|
  {
    if ops != [] {
      StepKeepsLink(b, ops[0], i);
      LinksArePermanent(Apply(b, ops[0]), ops[1..], i);
    }
  }

  lemma StepKeepsLink(b: Books, op: Op, i: nat)
    requires i < |b.transactions| && b.transactions[i].voidedBy.Some?
    ensures i < |Apply(b, op).transactions| && Apply(b, op).transactions[i].voidedBy == b.transactions[i].voidedBy
  {
    match op {
      case Replace(id, reversalDate, date, postings) =>
        if Outcome(b, op).Ok? {
          assert Apply(b, op) == Save(Reverse(b, id, reversalDate), date, postings);
        }
      case _ =>
    }
  }

  /** Once voided, always refused: every later void or replace of the transaction names the one reversal it has. */
  lemma VoidedOnlyOnce(b: Books, ops: seq<Op>, i: nat, reversalDate: int, date: int, postings: seq<Posting>)
    requires i < |b.transactions| && b.transactions[i].voidedBy.Some?
    ensures var later := Run(b, ops);
            && Outcome(later, Void(i, reversalDate)) == Err(AlreadyVoided(b.transactions[i].voidedBy.value))
            && Outcome(later, Replace(i, reversalDate, date, postings)) == Err(AlreadyVoided(b.transactions[i].voidedBy.value))
  {
    LinksArePermanent(b, ops, i);
  }

  /** `chain[0]` was voided by `chain[1]`, which was voided by `chain[2]`, and so on. */
  predicate IsChain(txs: seq<Transaction>, chain: seq<nat>) {
    && chain != []
    && (forall k | 0 <= k < |chain| :: chain[k] < |txs|)
    && IsLedger(txs[chain[0]].status)
    && forall k | 0 <= k < |chain| - 1 :: txs[chain[k]].voidedBy == Some(chain[k + 1])
  }

  /** Following void links always moves to a later transaction, so a chain never returns to a transaction it has passed. */
  lemma {:induction false} ChainsClimb(txs: seq<Transaction>, chain: seq<nat>, j: nat, k: nat)
    requires LinksOk(txs) && IsChain(txs, chain) && j < k < |chain|
    ensures chain[j] < chain[k]
    decreases k - j
  {
    if j < k - 1 {
      ChainsClimb(txs, chain, j, k - 1);
    }
  }

  /** Two chains that end in the same transaction and have the same length are the same chain: the links are one-to-one. */
  lemma {:induction false} ChainsInjective(txs: seq<Transaction>, c1: seq<nat>, c2: seq<nat>)
    requires LinksOk(txs) && IsChain(txs, c1) && IsChain(txs, c2) && |c1| == |c2|
    requires c1[|c1| - 1] == c2[|c2| - 1]
    ensures c1 == c2
  {
    var n := |c1| - 1;
    if n > 0 {
      assert txs[c1[n - 1]].voidedBy == txs[c2[n - 1]].voidedBy == Some(c1[n]);
      ChainsInjective(txs, c1[..n], c2[..n]);
    }
    assert c1 == c1[..n] + [c1[n]] && c2 == c2[..n] + [c2[n]];
  }

  // ----- The effect of a chain on the main ledger -----

  function ChainEffect(txs: seq<Transaction>, chain: seq<nat>, account: nat, currency: string, cutoff: int): int
    requires forall k | 0 <= k < |chain| :: chain[k] < |txs|
  {
    if chain == [] then 0
    else Effect(MainEntries(txs)[chain[0]], account, currency, cutoff) + ChainEffect(txs, chain[1..], account, currency, cutoff)
  }

  lemma {:induction false} ChainAlternates(txs: seq<Transaction>, chain: seq<nat>, account: nat, currency: string, cutoff: int)
    requires LinksOk(txs) && IsChain(txs, chain)
    requires forall k | 0 <= k < |chain| :: txs[chain[k]].date <= cutoff
    ensures ChainEffect(txs, chain, account, currency, cutoff)
         == if |chain| % 2 == 1 then On(LegsOf(txs[chain[0]].postings), account, currency) else 0
  {
    var legs := LegsOf(txs[chain[0]].postings);
    if |chain| == 1 {
      assert chain[1..] == [];
    } else {
      assert LegsOf(txs[chain[1]].postings) == Flip(legs);
      FlipNegates(legs, account, currency);
      ChainAlternates(txs, chain[1..], account, currency, cutoff);
    }
  }

  /**
    In every reachable state, a transaction followed by a chain of `k` voids affects every account and currency as the
    transaction alone if `k` is even and not at all if `k` is odd, from the last of their dates on.
    */
  lemma VoidChainNet(b: Books, chain: seq<nat>, k: nat, account: nat, currency: string, cutoff: int)
    requires Reachable(b) && IsChain(b.transactions, chain) && |chain| == k + 1
    requires forall j | 0 <= j < |chain| :: b.transactions[chain[j]].date <= cutoff
    ensures ChainEffect(b.transactions, chain, account, currency, cutoff)
         == if k % 2 == 0 then On(LegsOf(b.transactions[chain[0]].postings), account, currency) else 0
  {
    ReachableLinks(b);
    assert |chain| % 2 == 1 <==> k % 2 == 0;
    ChainAlternates(b.transactions, chain, account, currency, cutoff);
  }

  // ----- Balances after a void or a replace -----

  lemma BalanceAfterSave(b: Books, date: int, postings: seq<Posting>, account: nat, currency: string, cutoff: int)
    ensures AccountBalance(Save(b, date, postings), account, currency, cutoff)
         == AccountBalance(b, account, currency, cutoff)
            + if date <= cutoff then On(LegsOf(postings), account, currency) else 0
  {
    var t := Transaction(date, postings, Posted, None);
    assert MainEntries(b.transactions + [t]) == MainEntries(b.transactions) + [Entry(date, true, LegsOf(postings))];
    BalanceAppend(MainEntries(b.transactions), Entry(date, true, LegsOf(postings)), account, currency, cutoff);
  }

  lemma BalanceAfterReverse(b: Books, id: nat, date: int, account: nat, currency: string, cutoff: int)
    requires id < |b.transactions|
    ensures AccountBalance(Reverse(b, id, date), account, currency, cutoff)
         == AccountBalance(b, account, currency, cutoff)
            - if date <= cutoff then On(LegsOf(b.transactions[id].postings), account, currency) else 0
  {
    var legs := LegsOf(b.transactions[id].postings);
    FlipPostingsLegs(b.transactions[id].postings);
    FlipNegates(legs, account, currency);
    assert MainEntries(Reverse(b, id, date).transactions) == MainEntries(b.transactions) + [Entry(date, true, Flip(legs))];
    BalanceAppend(MainEntries(b.transactions), Entry(date, true, Flip(legs)), account, currency, cutoff);
  }

  /** The ideal edit that replace stands for: the same row with a new date and new postings, and nothing else. */
  function EditInPlace(b: Books, id: nat, date: int, postings: seq<Posting>): Books
    requires id < |b.transactions|
  {
    b.(transactions := b.transactions[id := b.transactions[id].(date := date, postings := postings)])
  }

  lemma BalanceAfterEdit(b: Books, id: nat, date: int, postings: seq<Posting>, account: nat, currency: string, cutoff: int)
    requires id < |b.transactions| && IsLedger(b.transactions[id].status)
    ensures AccountBalance(EditInPlace(b, id, date, postings), account, currency, cutoff)
         == AccountBalance(b, account, currency, cutoff)
            - (if b.transactions[id].date <= cutoff then On(LegsOf(b.transactions[id].postings), account, currency) else 0)
            + if date <= cutoff then On(LegsOf(postings), account, currency) else 0
  {
    var e := Entry(date, true, LegsOf(postings));
    assert MainEntries(EditInPlace(b, id, date, postings).transactions) == MainEntries(b.transactions)[id := e];
    BalanceUpdate(MainEntries(b.transactions), id, e, account, currency, cutoff);
  }

  /**
    An accepted replace gives each account the balance that the in-place edit would, at a given cutoff, if and only if the
    cutoff does not fall between the source's date and the reversal's date, or the source's postings cancel on that account.
    */
  lemma ReplaceIsEditInPlace(
      b: Books, id: nat, reversalDate: int, date: int, postings: seq<Posting>, account: nat, currency: string, cutoff: int)
    requires ReplaceSpec(b, id, reversalDate, date, postings).Ok?
    ensures var source := b.transactions[id];
            AccountBalance(ReplaceSpec(b, id, reversalDate, date, postings).value, account, currency, cutoff)
            == AccountBalance(EditInPlace(b, id, date, postings), account, currency, cutoff)
            <==> ((source.date <= cutoff <==> reversalDate <= cutoff) || On(LegsOf(source.postings), account, currency) == 0)
  {
    BalanceAfterReverse(b, id, reversalDate, account, currency, cutoff);
    BalanceAfterSave(Reverse(b, id, reversalDate), date, postings, account, currency, cutoff);
    BalanceAfterEdit(b, id, date, postings, account, currency, cutoff);
  }

  /** In particular it agrees at every cutoff on or after all the dates involved. */
  lemma ReplaceAgreesAfterAllDates(
      b: Books, id: nat, reversalDate: int, date: int, postings: seq<Posting>, account: nat, currency: string, cutoff: int)
    requires ReplaceSpec(b, id, reversalDate, date, postings).Ok?
    requires b.transactions[id].date <= cutoff && reversalDate <= cutoff && date <= cutoff
    ensures AccountBalance(ReplaceSpec(b, id, reversalDate, date, postings).value, account, currency, cutoff)
         == AccountBalance(EditInPlace(b, id, date, postings), account, currency, cutoff)
  {
    ReplaceIsEditInPlace(b, id, reversalDate, date, postings, account, currency, cutoff);
  }
}
