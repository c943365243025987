/**
  The AI pre-call gate: the sliding-window rate limit and the monthly cost cap, run under a household lock by any number of
  workers. Times are in microseconds, costs in the smallest unit that the table stores.
  */
module CostGate {
  import opened Results

  // ----- The table and the two checks -----

  datatype CallOutcome = Success | ProviderError | PreviewOnly | PolicyDisabled | RateLimited | CostCapped

  /** One row of `ai_invocations`. `primary`: the approval in force named the primary provider. */
  datatype Row = Row(createdAt: int, user: Option<nat>, outcome: CallOutcome, cost: nat, primary: bool)

  const HOUR := 3_600_000_000

  predicate Billable(outcome: CallOutcome) {
    outcome == Success || outcome == ProviderError
  }

  /** Rows of one bucket since `from`: of one user, or, for system calls, those without a user. */
  function Count(rows: seq<Row>, key: Option<nat>, from: int): nat {
    if rows == [] then 0
    else
      var r := rows[|rows| - 1];
      Count(rows[..|rows| - 1], key, from) + if r.user == key && r.createdAt >= from then 1 else 0
  }

  function Spend(rows: seq<Row>, from: int): nat {
    if rows == [] then 0
    else
      var r := rows[|rows| - 1];
      Spend(rows[..|rows| - 1], from) + if Billable(r.outcome) && r.createdAt >= from then r.cost else 0
  }

  /** `monthStart` gives the start of a time's month. */
  datatype Policy = Policy(limit: int, cap: Option<int>, degrade: bool, fallback: Option<string>, monthStart: int -> int)

  /** Months are intervals: a time's month starts no later than the time, and all times in between are in the same month. */
  ghost predicate Calendar(monthStart: int -> int) {
    && (forall t :: monthStart(t) <= t)
    && forall s, t | monthStart(t) <= s <= t :: monthStart(s) == monthStart(t)
  }

  datatype Decision = Approved(degraded: bool) | Blocked(outcome: CallOutcome)

  predicate RateAllows(rows: seq<Row>, policy: Policy, key: Option<nat>, now: int) {
    Count(rows, key, now - HOUR) < policy.limit
  }

  predicate CostAllows(rows: seq<Row>, policy: Policy, estimated: nat, now: int) {
    policy.cap.None? || Spend(rows, policy.monthStart(now)) + estimated <= policy.cap.value
  }

  /** A provider name that is missing or empty is no fallback. */
  predicate CanDegrade(policy: Policy) {
    policy.degrade && policy.fallback.Some? && policy.fallback.value != ""
  }

  function Decide(rows: seq<Row>, policy: Policy, key: Option<nat>, estimated: nat, now: int): Decision {
    if !RateAllows(rows, policy, key, now) then Blocked(RateLimited)
    else if CostAllows(rows, policy, estimated, now) then Approved(false)
    else if CanDegrade(policy) then Approved(true)
    else Blocked(CostCapped)
  }

  // ----- Workers, the lock and the log of gates -----

  datatype Gate = Gate(at: int, key: Option<nat>, decision: Decision)

  /** A gate passed through, with its row still to be written or already written. */
  datatype Pass = Pass(gate: Gate, wrote: bool)

  /** `holder` is in the locked section; `late` have left it without writing their row. */
  datatype State = State(rows: seq<Row>, log: seq<Gate>, clock: int, holder: Option<Pass>, late: seq<Gate>)

  /** How callers use the gate: whether their rows carry the gate's key, and whether they write before the lock is released. */
  datatype Caller = Caller(carriesKey: bool, writesInside: bool)

  const DISCIPLINED := Caller(true, true)

  datatype Op =
    | Enter(at: int, key: Option<nat>, estimated: nat)
    | Write(at: int, outcome: CallOutcome, cost: nat)
    | Release
    | LateWrite(at: int, who: nat, outcome: CallOutcome, cost: nat)
    | Note(at: int, user: Option<nat>, outcome: CallOutcome)  // rows of calls that never came to the gate

  /** The row that belongs to a gate: blocked calls repeat the block's outcome and cost nothing. */
  function RowFor(caller: Caller, gate: Gate, at: int, outcome: CallOutcome, cost: nat): Row {
    var user := if caller.carriesKey then gate.key else None;
    match gate.decision
    case Blocked(o) => Row(at, user, o, 0, false)
    case Approved(degraded) => Row(at, user, if Billable(outcome) then outcome else ProviderError, cost, !degraded)
  }

  function Empty(start: int): State {
    State([], [], start, None, [])
  }

  /** A step out of turn (the lock is held, the clock would go back, the caller does not work that way) waits. */
  predicate Enabled(s: State, caller: Caller, op: Op) {
    match op
    case Enter(at, _, _) => s.clock <= at && s.holder.None?
    case Write(at, _, _) => s.clock <= at && s.holder.Some? && !s.holder.value.wrote
    case Release => s.holder.Some? && (caller.writesInside ==> s.holder.value.wrote)
    case LateWrite(at, who, _, _) => s.clock <= at && who < |s.late|
    case Note(at, _, outcome) => s.clock <= at && !Billable(outcome)
  }

  function Step(s: State, caller: Caller, policy: Policy, op: Op): State {
    if !Enabled(s, caller, op) then s
    else
      match op
      case Enter(at, key, estimated) =>
        var gate := Gate(at, key, Decide(s.rows, policy, key, estimated, at));
        s.(clock := at, log := s.log + [gate], holder := Some(Pass(gate, false)))
      case Write(at, outcome, cost) =>
        s.(clock := at, rows := s.rows + [RowFor(caller, s.holder.value.gate, at, outcome, cost)],
           holder := Some(s.holder.value.(wrote := true)))
      case Release =>
        s.(holder := None, late := if s.holder.value.wrote then s.late else s.late + [s.holder.value.gate])
      case LateWrite(at, who, outcome, cost) =>
        s.(clock := at, rows := s.rows + [RowFor(caller, s.late[who], at, outcome, cost)],
           late := s.late[..who] + s.late[who + 1..])
      case Note(at, user, outcome) =>
        s.(clock := at, rows := s.rows + [Row(at, user, outcome, 0, false)])
  }

  function Run(s: State, caller: Caller, policy: Policy, ops: seq<Op>): State
    decreases |ops|
  {
    if ops == [] then s else Run(Step(s, caller, policy, ops[0]), caller, policy, ops[1..])
  }

  // ----- The rate limit over every run -----

  function CountGates(log: seq<Gate>, key: Option<nat>, from: int): nat {
    if log == [] then 0
    else
      var g := log[|log| - 1];
      CountGates(log[..|log| - 1], key, from) + if g.key == key && g.at >= from then 1 else 0
  }

  /** Approved calls of one key in the closed interval. */
  function ApprovedIn(log: seq<Gate>, key: Option<nat>, from: int, to: int): nat {
    if log == [] then 0
    else
      var g := log[|log| - 1];
      ApprovedIn(log[..|log| - 1], key, from, to) + if g.key == key && g.decision.Approved? && from <= g.at <= to then 1 else 0
  }

  /** The gates whose row is in the table. */
  function Settled(s: State): seq<Gate> {
    if s.holder.Some? && !s.holder.value.wrote && s.log != [] then s.log[..|s.log| - 1] else s.log
  }

  /** Gates are in order; a gate that was approved had fewer than `limit` gates of its key in the hour before it. */
  predicate Spaced(log: seq<Gate>, limit: int) {
    && (forall i, j | 0 <= j < i < |log| :: log[j].at <= log[i].at)
    && forall i | 0 <= i < |log| :: SpacedAt(log, limit, i)
  }

  predicate SpacedAt(log: seq<Gate>, limit: int, i: nat)
    requires i < |log|
  {
    log[i].decision.Approved? ==> CountGates(log[..i], log[i].key, log[i].at - HOUR) < limit
  }

  predicate InTurn(s: State) {
    && (forall i | 0 <= i < |s.log| :: s.log[i].at <= s.clock)
    && s.late == []
    && (s.holder.Some? ==> s.log != [] && s.log[|s.log| - 1] == s.holder.value.gate)
  }

  ghost predicate Covered(s: State) {
    forall key, from :: CountGates(Settled(s), key, from) <= Count(s.rows, key, from)
  }

  lemma CountAppend(rows: seq<Row>, r: Row, key: Option<nat>, from: int)
    ensures Count(rows + [r], key, from) == Count(rows, key, from) + if r.user == key && r.createdAt >= from then 1 else 0
  {
    assert (rows + [r])[..|rows|] == rows;
  }

  lemma CountGatesAppend(log: seq<Gate>, g: Gate, key: Option<nat>, from: int)
    ensures CountGates(log + [g], key, from) == CountGates(log, key, from) + if g.key == key && g.at >= from then 1 else 0
  {
    assert (log + [g])[..|log|] == log;
  }

  lemma SpacedAtAppend(log: seq<Gate>, g: Gate, limit: int, i: nat)
    requires i <= |log|
    requires if i < |log| then SpacedAt(log, limit, i)
             else g.decision.Approved? ==> CountGates(log, g.key, g.at - HOUR) < limit
    ensures SpacedAt(log + [g], limit, i)
  {
    assert (log + [g])[..i] == log[..i];
    assert log[..|log|] == log;
  }

  lemma SpacedAppend(log: seq<Gate>, g: Gate, limit: int)
    requires Spaced(log, limit) && forall i | 0 <= i < |log| :: log[i].at <= g.at
    requires g.decision.Approved? ==> CountGates(log, g.key, g.at - HOUR) < limit
    ensures Spaced(log + [g], limit)
  {
    forall i | 0 <= i < |log + [g]|
      ensures SpacedAt(log + [g], limit, i)
    {
      SpacedAtAppend(log, g, limit, i);
    }
  }

  /** The row of a disciplined holder settles its gate: same key, no earlier than the gate. */
  lemma WriteCovers(s: State, policy: Policy, op: Op)
    requires InTurn(s) && Covered(s) && op.Write? && Enabled(s, DISCIPLINED, op)
    ensures Covered(Step(s, DISCIPLINED, policy, op))
  {
    var s', gate := Step(s, DISCIPLINED, policy, op), s.holder.value.gate;
    var row := RowFor(DISCIPLINED, gate, op.at, op.outcome, op.cost);
    assert Settled(s') == Settled(s) + [gate];
    forall key, from
      ensures CountGates(Settled(s'), key, from) <= Count(s'.rows, key, from)
    {
      CountAppend(s.rows, row, key, from);
      CountGatesAppend(Settled(s), gate, key, from);
    }
  }

  lemma StepCovers(s: State, policy: Policy, op: Op)
    requires InTurn(s) && Covered(s)
    ensures InTurn(Step(s, DISCIPLINED, policy, op)) && Covered(Step(s, DISCIPLINED, policy, op))
  {
    var s' := Step(s, DISCIPLINED, policy, op);
    if Enabled(s, DISCIPLINED, op) {
      match op {
        case Enter(at, key, estimated) =>
          assert Settled(s') == s'.log[..|s.log|] == s.log == Settled(s);
        case Write(at, outcome, cost) => WriteCovers(s, policy, op);
        case Release => assert Settled(s') == Settled(s);
        case LateWrite(at, who, outcome, cost) => assert false;
        case Note(at, user, outcome) =>
          forall key, from
            ensures CountGates(Settled(s'), key, from) <= Count(s'.rows, key, from)
          {
            CountAppend(s.rows, Row(at, user, outcome, 0, false), key, from);
          }
      }
    }
  }

  lemma StepSpaces(s: State, policy: Policy, op: Op)
    requires InTurn(s) && Covered(s) && Spaced(s.log, policy.limit)
    ensures Spaced(Step(s, DISCIPLINED, policy, op).log, policy.limit)
  {
    if op.Enter? && Enabled(s, DISCIPLINED, op) {
      var gate := Gate(op.at, op.key, Decide(s.rows, policy, op.key, op.estimated, op.at));
      assert CountGates(Settled(s), op.key, op.at - HOUR) <= Count(s.rows, op.key, op.at - HOUR);
      SpacedAppend(s.log, gate, policy.limit);
    }
  }

  lemma {:induction false} RunSpaces(s: State, policy: Policy, ops: seq<Op>)
    requires InTurn(s) && Covered(s) && Spaced(s.log, policy.limit)
    ensures var s' := Run(s, DISCIPLINED, policy, ops); InTurn(s') && Covered(s') && Spaced(s'.log, policy.limit)
    decreases |ops|
  {
    if ops != [] {
      StepCovers(s, policy, ops[0]);
      StepSpaces(s, policy, ops[0]);
      RunSpaces(Step(s, DISCIPLINED, policy, ops[0]), policy, ops[1..]);
    }
  }

  lemma {:induction false} ApprovedBelowGates(log: seq<Gate>, key: Option<nat>, from: int, to: int, since: int)
    requires since <= from
    ensures ApprovedIn(log, key, from, to) <= CountGates(log, key, since)
  {
    if log != [] {
      ApprovedBelowGates(log[..|log| - 1], key, from, to, since);
    }
  }

  lemma {:induction false} SpacedBounds(log: seq<Gate>, limit: int, key: Option<nat>, from: int, n: nat)
    requires Spaced(log, limit) && n <= |log|
    ensures ApprovedIn(log[..n], key, from, from + HOUR) <= if limit > 0 then limit else 0
  {
    if n > 0 {
      SpacedBounds(log, limit, key, from, n - 1);
      var g := log[n - 1];
      assert log[..n][..n - 1] == log[..n - 1];
      if g.key == key && g.decision.Approved? && from <= g.at <= from + HOUR {
        assert SpacedAt(log, limit, n - 1);
        ApprovedBelowGates(log[..n - 1], key, from, from + HOUR, g.at - HOUR);
      }
    }
  }

  /**
    Over every interleaving of disciplined workers, at most `limit` approved calls of one key fall in any closed window of an
    hour, wherever it starts.
    */
  lemma WindowBound(policy: Policy, start: int, ops: seq<Op>, key: Option<nat>, from: int)
    ensures ApprovedIn(Run(Empty(start), DISCIPLINED, policy, ops).log, key, from, from + HOUR)
         <= if policy.limit > 0 then policy.limit else 0
  {
    var log := Run(Empty(start), DISCIPLINED, policy, ops).log;
    RunSpaces(Empty(start), policy, ops);
    SpacedBounds(log, policy.limit, key, from, |log|);
    assert log[..|log|] == log;
  }

  /** Blocked calls count too: an approval means fewer than `limit` gates of any outcome in the hour before. */
  lemma BlockedCallsCount(policy: Policy, start: int, ops: seq<Op>, i: nat)
    requires var log := Run(Empty(start), DISCIPLINED, policy, ops).log; i < |log| && log[i].decision.Approved?
    ensures var log := Run(Empty(start), DISCIPLINED, policy, ops).log;
            CountGates(log[..i], log[i].key, log[i].at - HOUR) < policy.limit
  {
    RunSpaces(Empty(start), policy, ops);
    assert SpacedAt(Run(Empty(start), DISCIPLINED, policy, ops).log, policy.limit, i);
  }

  // ----- The discipline is exactly what the bound needs -----

  /** The bound holds for callers of this kind, whatever the policy and the run. */
  ghost predicate Bounded(caller: Caller) {
    forall policy: Policy, start: int, ops: seq<Op>, key: Option<nat>, from: int ::
      BoundedRun(caller, policy, start, ops, key, from)
  }

  predicate BoundedRun(caller: Caller, policy: Policy, start: int, ops: seq<Op>, key: Option<nat>, from: int) {
    ApprovedIn(Run(Empty(start), caller, policy, ops).log, key, from, from + HOUR) <= if policy.limit > 0 then policy.limit else 0
  }

  /** Callers respect the hourly limit if and only if their rows carry the gate's key and are written inside the lock. */
  lemma DisciplineIsExact(caller: Caller)
    ensures Bounded(caller) <==> caller.carriesKey && caller.writesInside
  {
    if caller.carriesKey && caller.writesInside {
      forall policy: Policy, start: int, ops: seq<Op>, key: Option<nat>, from: int
        ensures BoundedRun(caller, policy, start, ops, key, from)
      {
        WindowBound(policy, start, ops, key, from);
      }
    } else {
      var policy, ops := OnePerHour(), if caller.writesInside then Unkeyed() else Overlapping();
      BoundBreaks(caller, policy);
      assert !BoundedRun(caller, policy, 0, ops, Some(1), 0);
    }
  }

  /** A calendar whose months are single instants: enough for counterexamples at one time. */
  function InstantMonths(t: int): int {
    t
  }

  function OnePerHour(): Policy {
    Policy(1, None, false, None, InstantMonths)
  }

  lemma BoundBreaks(caller: Caller, policy: Policy)
    requires policy == OnePerHour() && !(caller.carriesKey && caller.writesInside)
    ensures ApprovedIn(Run(Empty(0), caller, policy, if caller.writesInside then Unkeyed() else Overlapping()).log, Some(1), 0, HOUR)
         == 2
  {
    if caller.writesInside {
      UnkeyedRun(policy);
    } else {
      OverlappingRun(caller, policy);
    }
  }

  /** Two calls, one after the other, whose rows have no user: neither sees the other's row. */
  function Unkeyed(): seq<Op> {
    [Enter(0, Some(1), 0), Write(0, Success, 0), Release, Enter(0, Some(1), 0)]
  }

  lemma UnkeyedRun(policy: Policy)
    requires policy.limit == 1 && policy.cap.None?
    ensures ApprovedIn(Run(Empty(0), Caller(false, true), policy, Unkeyed()).log, Some(1), 0, HOUR) == 2
  {
    var caller, ops := Caller(false, true), Unkeyed();
    var g, row := Gate(0, Some(1), Approved(false)), Row(0, None, Success, 0, true);
    var s1 := Step(Empty(0), caller, policy, ops[0]);
    assert s1 == State([], [g], 0, Some(Pass(g, false)), []);
    var s2 := Step(s1, caller, policy, ops[1]);
    assert s2 == State([row], [g], 0, Some(Pass(g, true)), []);
    var s3 := Step(s2, caller, policy, ops[2]);
    assert s3 == State([row], [g], 0, None, []);
    UnkeyedRowUnseen(policy, row);
    assert Step(s3, caller, policy, ops[3]).log == [g, g];
    TwoApproved(g);
    FourSteps(Empty(0), caller, policy, ops);
  }

  lemma UnkeyedRowUnseen(policy: Policy, row: Row)
    requires policy.limit == 1 && policy.cap.None? && row.user == None
    ensures Decide([row], policy, Some(1), 0, 0) == Approved(false)
  {
    var none: seq<Row> := [];
    assert [row][..0] == none && Count(none, Some(1), 0 - HOUR) == 0;
    assert Count([row], Some(1), 0 - HOUR) == 0;
  }

  lemma FourSteps(s: State, caller: Caller, policy: Policy, ops: seq<Op>)
    requires |ops| == 4
    ensures var s3 := Step(Step(Step(s, caller, policy, ops[0]), caller, policy, ops[1]), caller, policy, ops[2]);
            Run(s, caller, policy, ops) == Step(s3, caller, policy, ops[3])
  {
    var s1 := Step(s, caller, policy, ops[0]);
    var s2 := Step(s1, caller, policy, ops[1]);
    var s3 := Step(s2, caller, policy, ops[2]);
    assert ops[1..][1..] == ops[2..] && ops[2..][1..] == ops[3..] && ops[3..][1..] == [];
    assert Run(s3, caller, policy, ops[3..]) == Step(s3, caller, policy, ops[3]);
    assert Run(s2, caller, policy, ops[2..]) == Run(s3, caller, policy, ops[3..]);
    assert Run(s1, caller, policy, ops[1..]) == Run(s2, caller, policy, ops[2..]);
  }

  /** Two calls that leave the lock before they write: the second gate does not see the first row. */
  function Overlapping(): seq<Op> {
    [Enter(0, Some(1), 0), Release, Enter(0, Some(1), 0)]
  }

  lemma OverlappingRun(caller: Caller, policy: Policy)
    requires !caller.writesInside && policy.limit == 1 && policy.cap.None?
    ensures ApprovedIn(Run(Empty(0), caller, policy, Overlapping()).log, Some(1), 0, HOUR) == 2
  {
    var ops := Overlapping();
    var g := Gate(0, Some(1), Approved(false));
    var s1 := Step(Empty(0), caller, policy, ops[0]);
    assert s1 == State([], [g], 0, Some(Pass(g, false)), []);
    var s2 := Step(s1, caller, policy, ops[1]);
    assert s2 == State([], [g], 0, None, [g]);
    assert Step(s2, caller, policy, ops[2]).log == [g, g];
    TwoApproved(g);
    assert ops[1..][1..] == ops[2..] && ops[2..][1..] == [];
    assert Run(s2, caller, policy, ops[2..]).log == [g, g];
  }

  lemma TwoApproved(g: Gate)
    requires g.decision.Approved? && g.at == 0
    ensures ApprovedIn([g, g], g.key, 0, HOUR) == 2
  {
    var none: seq<Gate> := [];
    assert [g][..0] == none && ApprovedIn(none, g.key, 0, HOUR) == 0;
    assert [g, g][..1] == [g] && ApprovedIn([g], g.key, 0, HOUR) == 1;
  }
}
