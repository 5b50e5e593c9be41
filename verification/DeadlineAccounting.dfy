/**
  The mutable half of crates/packetcraftr-core/src/budget.rs: `start_accounting` and `account`, which
  commit phases of work to a deadline and charge the larger of wall time and reported time.
 */
module DeadlineAccounting {
  import opened Wrappers
  import opened DeadlineTree

  /** One call, with the reading it samples. */
  datatype Call =
    | Start(prospective: Duration, at: Reading)
    | Account(elapsed: Duration, at: Reading)

  /** A deadline with what is known of its past: its creation, the last reading, the phases reported. */
  datatype History = History(deadline: Deadline, created: nat, latest: Reading, reported: nat)

  function StartOutcome(d: Deadline, prospective: Duration, at: Reading): Result<(), Exceeded> {
    var elapsed := ElapsedAt(d, at(d.clock));
    if elapsed.Err? then Err(elapsed.error)
    else if elapsed.value + prospective > DURATION_MAX then Err(Overflow(d))
    else CheckElapsed(d, elapsed.value + prospective, at)
  }

  function AfterStart(d: Deadline, prospective: Duration, at: Reading): Deadline {
    var elapsed := ElapsedAt(d, at(d.clock));
    if StartOutcome(d, prospective, at).Ok? && elapsed.Ok?
    then d.(accounted := elapsed.value, baseline := at(d.clock))
    else d
  }

  function Phase(d: Deadline, elapsed: Duration, at: Reading): nat {
    var wall := Since(at(d.clock), d.baseline);
    if wall <= elapsed then elapsed else wall
  }

  /** Whether a phase can be committed at all; its check may still fail afterwards. */
  predicate Commits(d: Deadline, elapsed: Duration, at: Reading) {
    d.accounted + Phase(d, elapsed, at) <= DURATION_MAX
  }

  function AfterAccount(d: Deadline, elapsed: Duration, at: Reading): Deadline {
    if Commits(d, elapsed, at)
    then d.(accounted := d.accounted + Phase(d, elapsed, at), baseline := at(d.clock))
    else d
  }

  function AccountOutcome(d: Deadline, elapsed: Duration, at: Reading): Result<(), Exceeded> {
    if !Commits(d, elapsed, at) then Err(Overflow(d))
    else CheckElapsed(AfterAccount(d, elapsed, at), AfterAccount(d, elapsed, at).accounted, at)
  }

  function Apply(h: History, call: Call): History {
    match call
    case Start(prospective, at) =>
      h.(deadline := AfterStart(h.deadline, prospective, at), latest := at)
    case Account(elapsed, at) =>
      h.(deadline := AfterAccount(h.deadline, elapsed, at), latest := at,
         reported := h.reported + if Commits(h.deadline, elapsed, at) then elapsed else 0)
  }

  function Run(h: History, calls: seq<Call>): History
    decreases |calls|
  {
    if calls == [] then h else Run(Apply(h, calls[0]), calls[1..])
  }

  // ---- Time ----

  /** No clock moves backward from one reading to the next. */
  ghost predicate Later(a: Reading, b: Reading) {
    forall clock :: a(clock) <= b(clock)
  }

  ghost predicate Ordered(from: Reading, calls: seq<Call>) {
    calls != [] ==> Later(from, calls[0].at) && Ordered(calls[0].at, calls[1..])
  }

  ghost function LastReading(from: Reading, calls: seq<Call>): Reading {
    if calls == [] then from else LastReading(calls[0].at, calls[1..])
  }

  // ---- What every call keeps ----

  /** The committed time covers the wall time and the reports up to the baseline, and no more than both. */
  ghost predicate Inv(h: History) {
    && h.created <= h.deadline.baseline <= h.latest(h.deadline.clock)
    && h.deadline.accounted >= h.deadline.baseline - h.created
    && h.deadline.accounted >= h.reported
    && h.deadline.accounted <= (h.deadline.baseline - h.created) + h.reported
  }

  /** The same deadline but for what was committed. */
  ghost predicate SameLimits(a: Deadline, b: Deadline) {
    a.parents == b.parents && a.cancellation == b.cancellation && a.limit == b.limit && a.clock == b.clock
  }

  lemma {:induction false} CallKeeps(h: History, call: Call, at: Reading)
    requires Inv(h) && Later(h.latest, call.at) && Later(call.at, at)
    ensures Inv(Apply(h, call)) && SameLimits(Apply(h, call).deadline, h.deadline)
    ensures Apply(h, call).created == h.created && Apply(h, call).latest == call.at
    ensures Charged(h.deadline, at) <= Charged(Apply(h, call).deadline, at)
  {
    var clock := h.deadline.clock;
    assert h.latest(clock) <= call.at(clock) <= at(clock);
  }

  lemma {:induction false} RunKeeps(h: History, calls: seq<Call>, at: Reading)
    requires Inv(h) && Ordered(h.latest, calls) && Later(LastReading(h.latest, calls), at)
    ensures Inv(Run(h, calls)) && SameLimits(Run(h, calls).deadline, h.deadline)
    ensures Run(h, calls).created == h.created && Run(h, calls).latest == LastReading(h.latest, calls)
    ensures Later(h.latest, at) && Charged(h.deadline, at) <= Charged(Run(h, calls).deadline, at)
    decreases |calls|
  {
    if calls != [] {
      var next := Apply(h, calls[0]);
      assert next.latest == calls[0].at;
      assert Later(calls[0].at, at) by {
        LaterThrough(calls[0].at, calls[1..], at);
      }
      CallKeeps(h, calls[0], at);
      RunKeeps(next, calls[1..], at);
    }
  }

  lemma {:induction false} LaterThrough(from: Reading, calls: seq<Call>, at: Reading)
    requires Ordered(from, calls) && Later(LastReading(from, calls), at)
    ensures Later(from, at)
  {
    if calls != [] {
      LaterThrough(calls[0].at, calls[1..], at);
      forall clock ensures from(clock) <= at(clock) {
        assert from(clock) <= calls[0].at(clock) <= at(clock);
      }
    }
  }

  // ---- The promises ----

  function Created(d: Deadline, at: Reading): History {
    History(d.(accounted := 0, baseline := at(d.clock)), at(d.clock), at, 0)
  }

  /**
    Through any calls, at any later instant, a deadline has been charged at least the wall time since
    it was made, at least the sum of the phases reported and committed, and at most the two together.
   */
  lemma {:induction false} ChargeCoversWallAndReports(d: Deadline, start: Reading, calls: seq<Call>, at: Reading)
    requires Ordered(start, calls) && Later(LastReading(start, calls), at)
    ensures var h := Run(Created(d, start), calls);
      && at(d.clock) - start(d.clock) <= Charged(h.deadline, at)
      && h.reported <= Charged(h.deadline, at) <= (at(d.clock) - start(d.clock)) + h.reported
  {
    RunKeeps(Created(d, start), calls, at);
    var h := Run(Created(d, start), calls);
    assert h.latest(d.clock) <= at(d.clock);
  }

  lemma {:induction false} ChargeGrowsWithTime(n: Deadline, a: Reading, b: Reading)
    requires Later(a, b)
    ensures Charged(n, a) <= Charged(n, b)
  {
    assert a(n.clock) <= b(n.clock);
  }

  /** Once a check has failed, it fails after any further calls and at any later instant. */
  lemma {:induction false} FailureIsForever(h: History, failed: Reading, calls: seq<Call>, at: Reading)
    requires Inv(h) && Later(h.latest, failed) && Check(h.deadline, failed).Err?
    requires Ordered(failed, calls) && Later(LastReading(failed, calls), at)
    ensures Check(Run(h, calls).deadline, at).Err?
  {
    var after := Run(h, calls).deadline;
    assert Later(failed, at) by {
      LaterThrough(failed, calls, at);
    }
    RunFromSample(h, failed, calls, at);
    CheckMeansAllAfford(h.deadline, failed);
    CheckMeansAllAfford(after, at);
    var n :| n in Nodes(h.deadline) && !Affords(n, 0, failed);
    ChargeGrowsWithTime(n, failed, at);
    assert !Affords(n, 0, at);
    if n == h.deadline {
      assert !Affords(after, 0, at);
    } else {
      assert n in Nodes(after);
    }
  }

  /** Reading a clock between calls changes nothing. */
  lemma {:induction false} RunFromSample(h: History, sample: Reading, calls: seq<Call>, at: Reading)
    requires Inv(h) && Later(h.latest, sample)
    requires Ordered(sample, calls) && Later(LastReading(sample, calls), at)
    ensures SameLimits(Run(h, calls).deadline, h.deadline)
    ensures Charged(h.deadline, at) <= Charged(Run(h, calls).deadline, at)
  {
    var looked := h.(latest := sample);
    assert h.latest(h.deadline.clock) <= sample(h.deadline.clock);
    RunKeeps(looked, calls, at);
    RunIgnoresLatest(h, sample, calls);
  }

  lemma {:induction false} RunIgnoresLatest(h: History, sample: Reading, calls: seq<Call>)
    ensures Run(h.(latest := sample), calls).deadline == Run(h, calls).deadline
  {
    if calls != [] {
      assert Apply(h.(latest := sample), calls[0]) == Apply(h, calls[0]);
    }
  }

  /** The wall time since the last commit; none if the clock shows an instant before it. */
  function Wall(d: Deadline, at: Reading): nat {
    if at(d.clock) < d.baseline then 0 else at(d.clock) - d.baseline
  }

  /** `charge` is the larger of the two. */
  ghost predicate IsLarger(charge: int, a: nat, b: nat) {
    charge >= a && charge >= b && (charge == a || charge == b)
  }

  ghost predicate CanCommit(d: Deadline, elapsed: Duration, at: Reading) {
    d.accounted + Wall(d, at) <= DURATION_MAX && d.accounted + elapsed <= DURATION_MAX
  }

  /**
    A phase is committed exactly when neither its wall time nor its reported time overflows, and
    charges the larger of them, not both; a phase that is not committed changes nothing.
   */
  lemma {:induction false} PhaseChargesLarger(d: Deadline, elapsed: Duration, at: Reading)
    ensures var after := AfterAccount(d, elapsed, at);
      if CanCommit(d, elapsed, at)
      then SameLimits(after, d) && after.baseline == at(d.clock) && IsLarger(after.accounted - d.accounted, Wall(d, at), elapsed)
      else after == d
    ensures AccountOutcome(d, elapsed, at).Ok?
       <==> CanCommit(d, elapsed, at) && AllAfford(Nodes(AfterAccount(d, elapsed, at)), 0, at)
  {
    CheckMeansAllAfford(AfterAccount(d, elapsed, at), at);
  }

  // ---- The object ----

  /** The deadline as the code holds it: limits fixed, `accounted` and `baseline` updated by each phase. */
  class Budget {
    const parents: seq<Deadline>
    const cancellation: Option<nat>
    const limit: Duration
    const clock: nat
    var accounted: Duration
    var baseline: nat
    ghost var history: History

    ghost predicate Valid()
      reads this
    {
      Inv(history) && history.deadline == View()
    }

    function View(): Deadline
      reads this
    {
      Deadline(parents, cancellation, baseline, accounted, limit, clock)
    }

    constructor (parents: seq<Deadline>, cancellation: Option<nat>, limit: Duration, clock: nat, at: Reading)
      ensures Valid()
      ensures View() == Deadline(parents, cancellation, at(clock), 0, limit, clock)
      ensures history == Created(View(), at)
    {
      this.parents, this.cancellation, this.limit, this.clock := parents, cancellation, limit, clock;
      accounted, baseline := 0, at(clock);
      history := Created(Deadline(parents, cancellation, at(clock), 0, limit, clock), at);
    }

    method StartAccounting(prospective: Duration, at: Reading) returns (r: Result<(), Exceeded>)
      requires Valid() && Later(history.latest, at)
      modifies this
      ensures Valid() && history == Apply(old(history), Start(prospective, at))
      ensures r == StartOutcome(old(View()), prospective, at)
      ensures r.Ok? <==> AllAfford(NodesAll(parents), 0, at) && Affords(old(View()), prospective, at)
      ensures r.Ok? ==> accounted == Charged(old(View()), at) && baseline == at(clock)
      ensures r.Err? ==> View() == old(View())
    {
      CallKeeps(history, Start(prospective, at), at);
      CheckAllMeansAfford(parents, at);
      var now := at(clock);
      var elapsed := ElapsedAt(View(), now);
      if elapsed.Err? {
        history := Apply(history, Start(prospective, at));
        return Err(elapsed.error);
      }
      if elapsed.value + prospective > DURATION_MAX {
        history := Apply(history, Start(prospective, at));
        return Err(Overflow(View()));
      }
      r := CheckElapsed(View(), elapsed.value + prospective, at);
      history := Apply(history, Start(prospective, at));
      if r.Ok? {
        accounted := elapsed.value;
        baseline := now;
      }
    }

    /** Commits the phase even when the check that follows fails; only an overflow leaves it out. */
    method AccountPhase(elapsed: Duration, at: Reading) returns (r: Result<(), Exceeded>)
      requires Valid() && Later(history.latest, at)
      modifies this
      ensures Valid() && history == Apply(old(history), Account(elapsed, at))
      ensures r == AccountOutcome(old(View()), elapsed, at)
      ensures old(baseline) <= at(clock)
      ensures if CanCommit(old(View()), elapsed, at)
              then baseline == at(clock) && IsLarger(accounted - old(accounted), at(clock) - old(baseline), elapsed)
              else View() == old(View()) && r == Err(Exceeded(DURATION_MAX, limit))
      ensures r.Ok? <==> CanCommit(old(View()), elapsed, at) && AllAfford(Nodes(View()), 0, at)
    {
      CallKeeps(history, Account(elapsed, at), at);
      var now := at(clock);
      var wall := Since(now, baseline);
      var phase := if wall <= elapsed then elapsed else wall;
      var committed := accounted + phase <= DURATION_MAX;
      history := Apply(history, Account(elapsed, at));
      if !committed {
        return Err(Overflow(View()));
      }
      accounted := accounted + phase;
      baseline := now;
      r := CheckElapsed(View(), accounted, at);
      CheckAllMeansAfford(parents, at);
      assert Nodes(View()) == {View()} + NodesAll(parents);
    }
  }
}
