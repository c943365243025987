/** The monthly cost cap over every run of the gate: how far primary-provider spending can pass it, and what happens then. */
module CostCap {
  import opened Results
  import opened CostGate

  /** What a month's primary-provider calls have cost. */
  function PrimarySpend(rows: seq<Row>, monthStart: int -> int, month: int): nat {
    if rows == [] then 0
    else
      var r := rows[|rows| - 1];
      PrimarySpend(rows[..|rows| - 1], monthStart, month)
      + if r.primary && Billable(r.outcome) && monthStart(r.createdAt) == month then r.cost else 0
  }

  /** The cost of the last of them. */
  function LastPrimary(rows: seq<Row>, monthStart: int -> int, month: int): nat {
    if rows == [] then 0
    else
      var r := rows[|rows| - 1];
      if r.primary && Billable(r.outcome) && monthStart(r.createdAt) == month then r.cost
      else LastPrimary(rows[..|rows| - 1], monthStart, month)
  }

  predicate UnderCap(rows: seq<Row>, policy: Policy, month: int)
    requires policy.cap.Some?
  {
    var spent := PrimarySpend(rows, policy.monthStart, month);
    spent == 0 || spent <= policy.cap.value + LastPrimary(rows, policy.monthStart, month)
  }

  // ----- The sums -----

  lemma PrimaryAppend(rows: seq<Row>, r: Row, monthStart: int -> int, month: int)
    ensures var mine := r.primary && Billable(r.outcome) && monthStart(r.createdAt) == month;
            && PrimarySpend(rows + [r], monthStart, month) == PrimarySpend(rows, monthStart, month) + (if mine then r.cost else 0)
            && LastPrimary(rows + [r], monthStart, month) == if mine then r.cost else LastPrimary(rows, monthStart, month)
  {
    assert (rows + [r])[..|rows|] == rows;
  }

  lemma SpendAppend(rows: seq<Row>, r: Row, from: int)
    ensures Spend(rows + [r], from) == Spend(rows, from) + if Billable(r.outcome) && r.createdAt >= from then r.cost else 0
  {
    assert (rows + [r])[..|rows|] == rows;
  }

  /** The check sums at least what the month's primary calls cost. */
  lemma {:induction false} PrimaryWithinSpend(rows: seq<Row>, monthStart: int -> int, month: int)
    requires Calendar(monthStart)
    ensures PrimarySpend(rows, monthStart, month) <= Spend(rows, month)
  {
    if rows != [] {
      PrimaryWithinSpend(rows[..|rows| - 1], monthStart, month);
      assert monthStart(rows[|rows| - 1].createdAt) <= rows[|rows| - 1].createdAt;
    }
  }

  /** A month that starts after every primary row has none of them. */
  lemma {:induction false} NothingYet(rows: seq<Row>, monthStart: int -> int, month: int, until: int)
    requires Calendar(monthStart) && until < month
    requires forall i | 0 <= i < |rows| && rows[i].primary :: rows[i].createdAt <= until
    ensures PrimarySpend(rows, monthStart, month) == 0
  {
    if rows != [] {
      NothingYet(rows[..|rows| - 1], monthStart, month, until);
      assert monthStart(rows[|rows| - 1].createdAt) <= rows[|rows| - 1].createdAt;
    }
  }

  // ----- The invariant -----

  predicate Waiting(s: State) {
    s.holder.Some? && !s.holder.value.wrote
  }

  /** No primary row is younger than the gate in the locked section, or than the clock. */
  predicate PrimaryUntil(rows: seq<Row>, until: int) {
    forall i | 0 <= i < |rows| && rows[i].primary :: rows[i].createdAt <= until
  }

  /** While an approved primary call is in the locked section, its month's primary spending is within the cap. */
  predicate CapOrder(s: State, policy: Policy)
    requires policy.cap.Some?
  {
    && InTurn(s)
    && PrimaryUntil(s.rows, s.clock)
    && (Waiting(s) ==> PrimaryUntil(s.rows, s.holder.value.gate.at))
    && (Waiting(s) && s.holder.value.gate.decision == Approved(false) ==>
          PrimarySpend(s.rows, policy.monthStart, policy.monthStart(s.holder.value.gate.at)) <= policy.cap.value)
  }

  lemma EnterKeepsCapOrder(s: State, caller: Caller, policy: Policy, op: Op)
    requires Calendar(policy.monthStart) && policy.cap.Some? && CapOrder(s, policy) && op.Enter? && Enabled(s, caller, op)
    ensures CapOrder(Step(s, caller, policy, op), policy)
  {
    PrimaryWithinSpend(s.rows, policy.monthStart, policy.monthStart(op.at));
  }

  lemma NoteKeepsCap(s: State, caller: Caller, policy: Policy, op: Op, month: int)
    requires policy.cap.Some? && CapOrder(s, policy) && UnderCap(s.rows, policy, month) && op.Note? && Enabled(s, caller, op)
    ensures CapOrder(Step(s, caller, policy, op), policy) && UnderCap(Step(s, caller, policy, op).rows, policy, month)
  {
    var row := Row(op.at, op.user, op.outcome, 0, false);
    PrimaryAppend(s.rows, row, policy.monthStart, month);
    if Waiting(s) {
      PrimaryAppend(s.rows, row, policy.monthStart, policy.monthStart(s.holder.value.gate.at));
    }
  }

  lemma WriteKeepsCap(s: State, caller: Caller, policy: Policy, op: Op, month: int)
    requires Calendar(policy.monthStart) && policy.cap.Some? && CapOrder(s, policy) && UnderCap(s.rows, policy, month)
    requires op.Write? && Enabled(s, caller, op)
    ensures CapOrder(Step(s, caller, policy, op), policy) && UnderCap(Step(s, caller, policy, op).rows, policy, month)
  {
    var gate := s.holder.value.gate;
    var row := RowFor(caller, gate, op.at, op.outcome, op.cost);
    PrimaryAppend(s.rows, row, policy.monthStart, month);
    if row.primary && policy.monthStart(op.at) == month {
      SpentBeforeWrite(s, policy, op.at, month);
    }
  }

  /** What a month's primary calls have cost when the row of an approved one is written: no more than the cap. */
  lemma SpentBeforeWrite(s: State, policy: Policy, at: int, month: int)
    requires Calendar(policy.monthStart) && policy.cap.Some? && CapOrder(s, policy) && Waiting(s)
    requires s.holder.value.gate.decision == Approved(false) && s.holder.value.gate.at <= at && policy.monthStart(at) == month
    ensures PrimarySpend(s.rows, policy.monthStart, month) <= policy.cap.value
  {
    var gate := s.holder.value.gate;
    if policy.monthStart(gate.at) != month {
      NothingYet(s.rows, policy.monthStart, month, gate.at);
    }
  }

  lemma StepKeepsCap(s: State, caller: Caller, policy: Policy, op: Op, month: int)
    requires Calendar(policy.monthStart) && policy.cap.Some? && CapOrder(s, policy) && UnderCap(s.rows, policy, month)
    requires caller.writesInside
    ensures CapOrder(Step(s, caller, policy, op), policy) && UnderCap(Step(s, caller, policy, op).rows, policy, month)
  {
    if Enabled(s, caller, op) {
      match op {
        case Enter(_, _, _) => EnterKeepsCapOrder(s, caller, policy, op);
        case Write(_, _, _) => WriteKeepsCap(s, caller, policy, op, month);
        case Release =>
        case LateWrite(_, _, _, _) => assert false;
        case Note(_, _, _) => NoteKeepsCap(s, caller, policy, op, month);
      }
    }
  }

  lemma {:induction false} RunKeepsCap(s: State, caller: Caller, policy: Policy, ops: seq<Op>, month: int)
    requires Calendar(policy.monthStart) && policy.cap.Some? && CapOrder(s, policy) && UnderCap(s.rows, policy, month)
    requires caller.writesInside
    ensures UnderCap(Run(s, caller, policy, ops).rows, policy, month)
    decreases |ops|
  {
    if ops != [] {
      StepKeepsCap(s, caller, policy, ops[0], month);
      RunKeepsCap(Step(s, caller, policy, ops[0]), caller, policy, ops[1..], month);
    }
  }

  /**
    With a fixed cap, whoever writes inside the lock never takes a month's primary-provider spending past the cap by more than
    the cost of the last of these calls.
    */
  lemma CapBound(caller: Caller, policy: Policy, start: int, ops: seq<Op>, month: int)
    requires Calendar(policy.monthStart) && policy.cap.Some? && caller.writesInside
    ensures UnderCap(Run(Empty(start), caller, policy, ops).rows, policy, month)
  {
    RunKeepsCap(Empty(start), caller, policy, ops, month);
  }

  // ----- Writing inside the lock is exactly what the cap needs -----

  ghost predicate Capped(caller: Caller) {
    forall policy: Policy, start: int, ops: seq<Op>, month: int ::
      Calendar(policy.monthStart) && policy.cap.Some? ==> CappedRun(caller, policy, start, ops, month)
  }

  predicate CappedRun(caller: Caller, policy: Policy, start: int, ops: seq<Op>, month: int)
    requires policy.cap.Some?
  {
    UnderCap(Run(Empty(start), caller, policy, ops).rows, policy, month)
  }

  /** The cap needs no key: it is kept if and only if the rows are written before the lock is released. */
  lemma WritingInsideIsExact(caller: Caller)
    ensures Capped(caller) <==> caller.writesInside
  {
    if caller.writesInside {
      forall policy: Policy, start: int, ops: seq<Op>, month: int | Calendar(policy.monthStart) && policy.cap.Some?
        ensures CappedRun(caller, policy, start, ops, month)
      {
        CapBound(caller, policy, start, ops, month);
      }
    } else {
      var policy := Policy(60, Some(0), false, None, InstantMonths);
      OverspentRun(caller, policy);
      assert !CappedRun(caller, policy, 0, Overspent(), 0);
    }
  }

  /** Two calls pass the gate before either has written its cost of 1 against a cap of zero. */
  function Overspent(): seq<Op> {
    [Enter(0, None, 0), Release, Enter(0, None, 0), Write(0, Success, 1), LateWrite(0, 0, Success, 1)]
  }

  lemma OverspentRun(caller: Caller, policy: Policy)
    requires !caller.writesInside && policy.limit == 60 && policy.cap == Some(0) && policy.monthStart == InstantMonths
    ensures !UnderCap(Run(Empty(0), caller, policy, Overspent()).rows, policy, 0)
  {
    var ops := Overspent();
    var _ := OverspentSteps(caller, policy);
    var row := Row(0, None, Success, 1, true);
    FourSteps(Step(Empty(0), caller, policy, ops[0]), caller, policy, ops[1..]);
    assert Run(Empty(0), caller, policy, ops).rows == [row, row];
    TwoPrimaryRows(policy, row);
  }

  lemma OverspentSteps(caller: Caller, policy: Policy) returns (s4: State)
    requires !caller.writesInside && policy.limit == 60 && policy.cap == Some(0)
    ensures var ops := Overspent();
            && s4 == Step(Step(Step(Step(Empty(0), caller, policy, ops[0]), caller, policy, ops[1]), caller, policy, ops[2]),
                          caller, policy, ops[3])
            && Step(s4, caller, policy, ops[4]).rows == [Row(0, None, Success, 1, true), Row(0, None, Success, 1, true)]
  {
    var ops := Overspent();
    var g, row := Gate(0, None, Approved(false)), Row(0, None, Success, 1, true);
    var s1 := Step(Empty(0), caller, policy, ops[0]);
    assert s1 == State([], [g], 0, Some(Pass(g, false)), []);
    var s2 := Step(s1, caller, policy, ops[1]);
    assert s2 == State([], [g], 0, None, [g]);
    var s3 := Step(s2, caller, policy, ops[2]);
    assert s3 == State([], [g, g], 0, Some(Pass(g, false)), [g]);
    s4 := Step(s3, caller, policy, ops[3]);
    assert s4 == State([row], [g, g], 0, Some(Pass(g, true)), [g]);
  }

  lemma TwoPrimaryRows(policy: Policy, row: Row)
    requires policy.cap == Some(0) && policy.monthStart == InstantMonths && row == Row(0, None, Success, 1, true)
    ensures !UnderCap([row, row], policy, 0)
  {
    var none: seq<Row> := [];
    assert none + [row] == [row] && [row] + [row] == [row, row];
    PrimaryAppend(none, row, policy.monthStart, 0);
    PrimaryAppend([row], row, policy.monthStart, 0);
  }

  // ----- Past the cap -----

  lemma SpendGrows(s: State, caller: Caller, policy: Policy, op: Op, from: int)
    ensures Spend(Step(s, caller, policy, op).rows, from) >= Spend(s.rows, from)
  {
    var rows := Step(s, caller, policy, op).rows;
    if rows != s.rows {
      assert rows == s.rows + [rows[|s.rows|]];
      SpendAppend(s.rows, rows[|s.rows|], from);
    }
  }

  /** Once a month's spending has passed the cap, no gate of that month approves a primary call any more, whoever calls. */
  lemma {:induction false} NoPrimaryPastCap(s: State, caller: Caller, policy: Policy, ops: seq<Op>, month: int, i: nat)
    requires policy.cap.Some? && Spend(s.rows, month) > policy.cap.value
    requires |s.log| <= i < |Run(s, caller, policy, ops).log|
    ensures var gate := Run(s, caller, policy, ops).log[i]; policy.monthStart(gate.at) == month ==> gate.decision != Approved(false)
    decreases |ops|
  {
    if ops != [] {
      var s' := Step(s, caller, policy, ops[0]);
      SpendGrows(s, caller, policy, ops[0], month);
      if i < |s'.log| {
        LogKept(s', caller, policy, ops[1..], i);
      } else {
        NoPrimaryPastCap(s', caller, policy, ops[1..], month, i);
      }
    }
  }

  lemma {:induction false} LogKept(s: State, caller: Caller, policy: Policy, ops: seq<Op>, i: nat)
    requires i < |s.log|
    ensures |s.log| <= |Run(s, caller, policy, ops).log| && Run(s, caller, policy, ops).log[i] == s.log[i]
    decreases |ops|
  {
    if ops != [] {
      LogKept(Step(s, caller, policy, ops[0]), caller, policy, ops[1..], i);
    }
  }

  // ----- What the gate answers -----

  /** The rows of one bucket in the hour up to `now`. */
  function CallsInHour(rows: seq<Row>, key: Option<nat>, now: int): set<nat> {
    set i: nat | i < |rows| && rows[i].user == key && rows[i].createdAt >= now - 3_600_000_000
  }

  lemma {:induction false} CountIsCalls(rows: seq<Row>, key: Option<nat>, now: int)
    ensures Count(rows, key, now - HOUR) == |CallsInHour(rows, key, now)|
  {
    if rows != [] {
      var n := |rows| - 1;
      var front := CallsInHour(rows[..n], key, now);
      CountIsCalls(rows[..n], key, now);
      assert CallsInHour(rows, key, now)
          == front + if rows[n].user == key && rows[n].createdAt >= now - 3_600_000_000 then {n} else {};
    }
  }

  /** The costs of the calls since `from` that spent provider quota: those that succeeded or failed at the provider. */
  function CostSince(rows: seq<Row>, from: int): nat {
    if rows == [] then 0
    else
      var r := rows[0];
      (if r.createdAt >= from && (r.outcome == Success || r.outcome == ProviderError) then r.cost else 0)
      + CostSince(rows[1..], from)
  }

  lemma {:induction false} CostSinceAppend(rows: seq<Row>, r: Row, from: int)
    ensures CostSince(rows + [r], from) == CostSince(rows, from) + CostSince([r], from)
  {
    if rows == [] {
      assert rows + [r] == [r];
    } else {
      assert (rows + [r])[1..] == rows[1..] + [r];
      CostSinceAppend(rows[1..], r, from);
    }
  }

  lemma {:induction false} SpendIsCost(rows: seq<Row>, from: int)
    ensures Spend(rows, from) == CostSince(rows, from)
  {
    if rows != [] {
      var n := |rows| - 1;
      SpendIsCost(rows[..n], from);
      CostSinceAppend(rows[..n], rows[n], from);
      assert rows[..n] + [rows[n]] == rows;
      assert [rows[n]][1..] == [];
    }
  }

  /**
    The four answers: rate-limited at `limit` calls in the hour; otherwise a primary approval within the cap; past the cap a
    degraded approval if that is the policy and a fallback is named, and a block if not.
    */
  predicate Answers(r: Decision, rows: seq<Row>, policy: Policy, key: Option<nat>, estimated: nat, now: int) {
    var limited := |CallsInHour(rows, key, now)| >= policy.limit;
    var over := policy.cap.Some? && CostSince(rows, policy.monthStart(now)) + estimated > policy.cap.value;
    var usable := policy.degrade && policy.fallback.Some? && policy.fallback.value != "";
    && (r == Blocked(RateLimited) <==> limited)
    && (r == Approved(false) <==> !limited && !over)
    && (r == Approved(true) <==> !limited && over && usable)
    && (r == Blocked(CostCapped) <==> !limited && over && !usable)
  }

  lemma DecideAnswers(rows: seq<Row>, policy: Policy, key: Option<nat>, estimated: nat, now: int)
    ensures Answers(Decide(rows, policy, key, estimated, now), rows, policy, key, estimated, now)
  {
    CountIsCalls(rows, key, now);
    SpendIsCost(rows, policy.monthStart(now));
  }

  // ----- The calls themselves -----

  /** A household's table and its lock. */
  class Household {
    var rows: seq<Row>
    var locked: bool

    /** Takes the lock and decides; the rate limit comes first and never degrades. */
    method EnforcePreCall(policy: Policy, key: Option<nat>, estimated: nat, now: int) returns (r: Decision)
      requires !locked
      modifies this`locked
      ensures locked
      ensures r == Decide(rows, policy, key, estimated, now)
      ensures Answers(r, rows, policy, key, estimated, now)
    {
      DecideAnswers(rows, policy, key, estimated, now);
      locked := true;
      var count := Count(rows, key, now - HOUR);
      if count >= policy.limit {
        return Blocked(RateLimited);
      }
      if policy.cap.Some? {
        var spent := Spend(rows, policy.monthStart(now));
        if spent + estimated > policy.cap.value {
          if policy.degrade && policy.fallback.Some? && policy.fallback.value != "" {
            return Approved(true);
          }
          return Blocked(CostCapped);
        }
      }
      r := Approved(false);
    }

    /** What the gate demands of its caller: the row carries the gate's key and is there before the lock goes. */
    method WriteAndCommit(caller: Caller, gate: Gate, at: int, outcome: CallOutcome, cost: nat)
      requires locked && caller == DISCIPLINED && gate.at <= at
      modifies this
      ensures !locked && rows == old(rows) + [RowFor(caller, gate, at, outcome, cost)]
      ensures var row := rows[|old(rows)|];
              && row.user == gate.key && row.createdAt >= gate.at
              && match gate.decision
                 case Blocked(why) => row.outcome == why && row.cost == 0 && !row.primary
                 case Approved(degraded) =>
                   row.cost == cost && (row.primary <==> !degraded) && (row.outcome == Success || row.outcome == ProviderError)
    {
      rows := rows + [RowFor(caller, gate, at, outcome, cost)];
      locked := false;
    }
  }
}
