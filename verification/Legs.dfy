/**
  Signed amounts on numbered places, in currencies: the arithmetic shared by the main ledger (places are accounts) and the
  shadow ledger (places are allocation pools). Amounts are integers in units of 1e-8.
  */
module Legs {

  datatype Leg = Leg(place: nat, currency: string, amount: int)

  /** One transaction as the balance queries see it: they sum the legs of live entries dated on or before a cutoff. */
  datatype Entry = Entry(date: int, live: bool, legs: seq<Leg>)

  /** The sum of all legs in a currency. */
  function Net(legs: seq<Leg>, currency: string): int {
    if legs == [] then 0
    else (if legs[0].currency == currency then legs[0].amount else 0) + Net(legs[1..], currency)
  }

  /** The sum of the legs on one place in a currency. */
  function On(legs: seq<Leg>, place: nat, currency: string): int {
    if legs == [] then 0
    else (if legs[0].place == place && legs[0].currency == currency then legs[0].amount else 0) + On(legs[1..], place, currency)
  }

  predicate Balanced(legs: seq<Leg>) {
    forall i | 0 <= i < |legs| :: Net(legs, legs[i].currency) == 0
  }

  predicate Within(legs: seq<Leg>, places: nat) {
    forall i | 0 <= i < |legs| :: legs[i].place < places
  }

  function Flip(legs: seq<Leg>): (r: seq<Leg>)
    ensures |r| == |legs|
    ensures forall i | 0 <= i < |r| :: r[i] == legs[i].(amount := -legs[i].amount)
  {
    seq(|legs|, i requires 0 <= i < |legs| => legs[i].(amount := -legs[i].amount))
  }

  /** Balance in the currencies that occur is balance in every currency. */
  lemma {:induction false} BalancedNet(legs: seq<Leg>, currency: string)
    requires Balanced(legs)
    ensures Net(legs, currency) == 0
  {
    if forall i | 0 <= i < |legs| :: legs[i].currency != currency {
      AbsentNet(legs, currency);
    }
  }

  lemma {:induction false} AbsentNet(legs: seq<Leg>, currency: string)
    requires forall i | 0 <= i < |legs| :: legs[i].currency != currency
    ensures Net(legs, currency) == 0
  {
    if legs != [] {
      AbsentNet(legs[1..], currency);
    }
  }

  lemma {:induction false} NothingOn(legs: seq<Leg>, place: nat, currency: string)
    requires forall k | 0 <= k < |legs| :: legs[k].place != place || legs[k].currency != currency
    ensures On(legs, place, currency) == 0
  {
    if legs != [] {
      NothingOn(legs[1..], place, currency);
    }
  }

  lemma {:induction false} FlipNegates(legs: seq<Leg>, place: nat, currency: string)
    ensures Net(Flip(legs), currency) == -Net(legs, currency)
    ensures On(Flip(legs), place, currency) == -On(legs, place, currency)
  {
    if legs != [] {
      assert Flip(legs)[1..] == Flip(legs[1..]);
      FlipNegates(legs[1..], place, currency);
    }
  }

  lemma FlipBalanced(legs: seq<Leg>)
    requires Balanced(legs)
    ensures Balanced(Flip(legs))
  {
    forall i | 0 <= i < |legs|
      ensures Net(Flip(legs), Flip(legs)[i].currency) == 0
    {
      FlipNegates(legs, 0, legs[i].currency);
    }
  }

  lemma {:induction false} OnConcat(a: seq<Leg>, b: seq<Leg>, place: nat, currency: string)
    ensures On(a + b, place, currency) == On(a, place, currency) + On(b, place, currency)
    ensures Net(a + b, currency) == Net(a, currency) + Net(b, currency)
  {
    if a == [] {
      assert a + b == b;
    } else {
      assert (a + b)[1..] == a[1..] + b;
      OnConcat(a[1..], b, place, currency);
    }
  }

  lemma TwoLegs(a: Leg, b: Leg, place: nat, currency: string)
    ensures Net([a, b], currency)
         == (if a.currency == currency then a.amount else 0) + if b.currency == currency then b.amount else 0
    ensures On([a, b], place, currency)
         == (if a.place == place && a.currency == currency then a.amount else 0)
            + if b.place == place && b.currency == currency then b.amount else 0
  {
    assert [a, b] == [a] + [b];
    OnConcat([a], [b], place, currency);
    OneLeg(a, place, currency);
    OneLeg(b, place, currency);
  }

  lemma OneLeg(a: Leg, place: nat, currency: string)
    ensures Net([a], currency) == if a.currency == currency then a.amount else 0
    ensures On([a], place, currency) == if a.place == place && a.currency == currency then a.amount else 0
  {
    assert [a][1..] == [];
  }

  // ----- Balances -----

  function Effect(e: Entry, place: nat, currency: string, cutoff: int): int {
    if e.live && e.date <= cutoff then On(e.legs, place, currency) else 0
  }

  function Balance(entries: seq<Entry>, place: nat, currency: string, cutoff: int): int {
    if entries == [] then 0
    else Balance(entries[..|entries| - 1], place, currency, cutoff) + Effect(entries[|entries| - 1], place, currency, cutoff)
  }

  /** The balances of places `0..places`, added up. */
  function Total(entries: seq<Entry>, places: nat, currency: string, cutoff: int): int {
    if places == 0 then 0
    else Total(entries, places - 1, currency, cutoff) + Balance(entries, places - 1, currency, cutoff)
  }

  lemma BalanceAppend(entries: seq<Entry>, e: Entry, place: nat, currency: string, cutoff: int)
    ensures Balance(entries + [e], place, currency, cutoff)
         == Balance(entries, place, currency, cutoff) + Effect(e, place, currency, cutoff)
  {
    assert (entries + [e])[..|entries|] == entries;
  }

  lemma {:induction false} BalanceUpdate(entries: seq<Entry>, i: nat, e: Entry, place: nat, currency: string, cutoff: int)
    requires i < |entries|
    ensures Balance(entries[i := e], place, currency, cutoff)
         == Balance(entries, place, currency, cutoff)
            - Effect(entries[i], place, currency, cutoff) + Effect(e, place, currency, cutoff)
  {
    var front, last := entries[..|entries| - 1], |entries| - 1;
    if i == last {
      assert entries[i := e][..last] == front;
    } else {
      assert entries[i := e][..last] == front[i := e];
      BalanceUpdate(front, i, e, place, currency, cutoff);
    }
  }

  /** The legs of one entry on places `0..places`, added up. */
  function Spread(legs: seq<Leg>, places: nat, currency: string): int {
    if places == 0 then 0 else Spread(legs, places - 1, currency) + On(legs, places - 1, currency)
  }

  lemma {:induction false} SpreadStep(legs: seq<Leg>, places: nat, currency: string)
    requires legs != []
    ensures Spread(legs, places, currency) == Spread(legs[1..], places, currency)
            + if legs[0].place < places && legs[0].currency == currency then legs[0].amount else 0
  {
    if places > 0 {
      SpreadStep(legs, places - 1, currency);
    }
  }

  /** Every leg falls on exactly one place, so spreading over the places and summing outright agree. */
  lemma {:induction false} SpreadIsNet(legs: seq<Leg>, places: nat, currency: string)
    requires Within(legs, places)
    ensures Spread(legs, places, currency) == Net(legs, currency)
  {
    if legs == [] {
      SpreadEmpty(places, currency);
    } else {
      SpreadStep(legs, places, currency);
      SpreadIsNet(legs[1..], places, currency);
    }
  }

  lemma {:induction false} SpreadEmpty(places: nat, currency: string)
    ensures Spread([], places, currency) == 0
  {
    if places > 0 {
      SpreadEmpty(places - 1, currency);
    }
  }

  lemma {:induction false} TotalAppend(entries: seq<Entry>, e: Entry, places: nat, currency: string, cutoff: int)
    ensures Total(entries + [e], places, currency, cutoff)
         == Total(entries, places, currency, cutoff)
            + if e.live && e.date <= cutoff then Spread(e.legs, places, currency) else 0
  {
    if places > 0 {
      BalanceAppend(entries, e, places - 1, currency, cutoff);
      TotalAppend(entries, e, places - 1, currency, cutoff);
    }
  }

  lemma {:induction false} TotalEmpty(places: nat, currency: string, cutoff: int)
    ensures Total([], places, currency, cutoff) == 0
  {
    if places > 0 {
      TotalEmpty(places - 1, currency, cutoff);
    }
  }

  /** If every live entry balances and stays within the places, the balances of all places sum to zero in each currency. */
  lemma {:induction false} BalancedEntriesTotalZero(entries: seq<Entry>, places: nat, currency: string, cutoff: int)
    requires forall i | 0 <= i < |entries| && entries[i].live :: Balanced(entries[i].legs) && Within(entries[i].legs, places)
    ensures Total(entries, places, currency, cutoff) == 0
  {
    if entries == [] {
      TotalEmpty(places, currency, cutoff);
    } else {
      var front, e := entries[..|entries| - 1], entries[|entries| - 1];
      BalancedEntriesTotalZero(front, places, currency, cutoff);
      assert entries == front + [e];
      TotalAppend(front, e, places, currency, cutoff);
      if e.live {
        SpreadIsNet(e.legs, places, currency);
        BalancedNet(e.legs, currency);
      }
    }
  }

  // ----- Sums over all places at once -----

  function NetEffect(e: Entry, currency: string, cutoff: int): int {
    if e.live && e.date <= cutoff then Net(e.legs, currency) else 0
  }

  function NetBalance(entries: seq<Entry>, currency: string, cutoff: int): int {
    if entries == [] then 0
    else NetBalance(entries[..|entries| - 1], currency, cutoff) + NetEffect(entries[|entries| - 1], currency, cutoff)
  }

  lemma NetBalanceAppend(entries: seq<Entry>, e: Entry, currency: string, cutoff: int)
    ensures NetBalance(entries + [e], currency, cutoff) == NetBalance(entries, currency, cutoff) + NetEffect(e, currency, cutoff)
  {
    assert (entries + [e])[..|entries|] == entries;
  }

  lemma {:induction false} NetBalanceUpdate(entries: seq<Entry>, i: nat, e: Entry, currency: string, cutoff: int)
    requires i < |entries|
    ensures NetBalance(entries[i := e], currency, cutoff)
         == NetBalance(entries, currency, cutoff) - NetEffect(entries[i], currency, cutoff) + NetEffect(e, currency, cutoff)
  {
    var front, last := entries[..|entries| - 1], |entries| - 1;
    if i == last {
      assert entries[i := e][..last] == front;
    } else {
      assert entries[i := e][..last] == front[i := e];
      NetBalanceUpdate(front, i, e, currency, cutoff);
    }
  }
}
