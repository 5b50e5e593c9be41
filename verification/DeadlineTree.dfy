/**
  The deadline tree of crates/packetcraftr-core/src/budget.rs and the client ceiling built on it in
  crates/packetcraftr/src/client.rs. A reading gives the instant each clock shows; one check samples
  one reading. Cancellation flags are shared, so a world also says which of them have been raised.
 */
module DeadlineTree {
  import opened Wrappers

  /** `Duration::MAX` in nanoseconds. */
  const DURATION_MAX: nat := 0xFFFF_FFFF_FFFF_FFFF * 1_000_000_000 + 999_999_999

  type Duration = x: nat | x <= DURATION_MAX

  /** The instant shown by each clock; clock 0 is the system clock. */
  type Reading = nat -> nat

  const SYSTEM: nat := 0

  datatype Deadline = Deadline(
    parents: seq<Deadline>, cancellation: Option<nat>, baseline: nat, accounted: Duration, limit: Duration, clock: nat)

  datatype Exceeded = Exceeded(actual: Duration, limit: Duration)

  datatype Interrupted = Cancelled | TimedOut(exceeded: Exceeded)

  // ---- The code: one node, then the recursion over parents with early exits ----

  function Overflow(d: Deadline): Exceeded {
    Exceeded(DURATION_MAX, d.limit)
  }

  /** An instant before the baseline counts as no time at all. */
  function Since(now: nat, baseline: nat): nat {
    if now <= baseline then 0 else now - baseline
  }

  function ElapsedAt(d: Deadline, now: nat): Result<Duration, Exceeded> {
    var elapsed := d.accounted + Since(now, d.baseline);
    if elapsed <= DURATION_MAX then Ok(elapsed) else Err(Overflow(d))
  }

  function Check(d: Deadline, at: Reading): Result<(), Exceeded>
    decreases d, 1
  {
    var elapsed := ElapsedAt(d, at(d.clock));
    if elapsed.Err? then Err(elapsed.error) else CheckElapsed(d, elapsed.value, at)
  }

  function CheckElapsed(d: Deadline, actual: Duration, at: Reading): Result<(), Exceeded>
    decreases d, 0
  {
    var parents := CheckAll(d.parents, at);
    if parents.Err? then parents
    else if actual > d.limit then Err(Exceeded(actual, d.limit))
    else Ok(())
  }

  function CheckAll(ps: seq<Deadline>, at: Reading): Result<(), Exceeded>
    decreases ps
  {
    if ps == [] then Ok(())
    else
      var first := Check(ps[0], at);
      if first.Err? then first else CheckAll(ps[1..], at)
  }

  function CheckAdditional(d: Deadline, additional: Duration, at: Reading): Result<(), Exceeded>
    decreases d
  {
    var parents := CheckAdditionalAll(d.parents, additional, at);
    if parents.Err? then parents
    else
      var elapsed := ElapsedAt(d, at(d.clock));
      if elapsed.Err? then Err(elapsed.error)
      else if elapsed.value + additional > DURATION_MAX then Err(Overflow(d))
      else CheckElapsed(d, elapsed.value + additional, at)
  }

  function CheckAdditionalAll(ps: seq<Deadline>, additional: Duration, at: Reading): Result<(), Exceeded>
    decreases ps
  {
    if ps == [] then Ok(())
    else
      var first := CheckAdditional(ps[0], additional, at);
      if first.Err? then first else CheckAdditionalAll(ps[1..], additional, at)
  }

  function Remaining(d: Deadline, at: Reading): Result<Duration, Exceeded>
    decreases d
  {
    var elapsed := ElapsedAt(d, at(d.clock));
    if elapsed.Err? then Err(elapsed.error)
    else
      var checked := CheckElapsed(d, elapsed.value, at);
      if checked.Err? then Err(checked.error)
      else RemainingAll(d.parents, if elapsed.value <= d.limit then d.limit - elapsed.value else 0, at)
  }

  function RemainingAll(ps: seq<Deadline>, least: Duration, at: Reading): Result<Duration, Exceeded>
    decreases ps
  {
    if ps == [] then Ok(least)
    else
      var first := Remaining(ps[0], at);
      if first.Err? then first else RemainingAll(ps[1..], Min(least, first.value), at)
  }

  predicate IsCancelled(d: Deadline, raised: set<nat>)
    decreases d
  {
    AnyCancelled(d.parents, raised) || (d.cancellation.Some? && d.cancellation.value in raised)
  }

  predicate AnyCancelled(ps: seq<Deadline>, raised: set<nat>)
    decreases ps
  {
    ps != [] && (IsCancelled(ps[0], raised) || AnyCancelled(ps[1..], raised))
  }

  function Enforce(d: Deadline, at: Reading, raised: set<nat>): Result<(), Interrupted> {
    if IsCancelled(d, raised) then Err(Cancelled)
    else
      match Check(d, at)
      case Ok(_) => Ok(())
      case Err(e) => Err(TimedOut(e))
  }

  function BoundedTimeout(d: Deadline, requested: Duration, at: Reading): Result<Duration, Exceeded> {
    var remaining := Remaining(d, at);
    if remaining.Err? then remaining
    else if Min(requested, remaining.value) == 0 then Err(Exceeded(d.limit, d.limit))
    else Ok(Min(requested, remaining.value))
  }

  function ForWait(d: Deadline, requested: Duration, at: Reading): Result<Deadline, Exceeded> {
    match BoundedTimeout(d, requested, at)
    case Err(e) => Err(e)
    case Ok(limit) => Ok(Deadline([d], d.cancellation, at(SYSTEM), 0, limit, SYSTEM))
  }

  function LiveRemaining(d: Deadline, at: Reading, raised: set<nat>): Result<Duration, Interrupted> {
    if IsCancelled(d, raised) then Err(Cancelled)
    else
      match BoundedTimeout(d, DURATION_MAX, at)
      case Ok(left) => Ok(left)
      case Err(e) => Err(TimedOut(e))
  }

  function Detach(d: Deadline, at: Reading, raised: set<nat>): Result<Deadline, Interrupted> {
    if IsCancelled(d, raised) then Err(Cancelled)
    else
      match ForWait(d, DURATION_MAX, at)
      case Ok(child) => Ok(child)
      case Err(e) => Err(TimedOut(e))
  }

  // ---- The client's ceiling ----

  datatype Client = Client(clock: nat, cancellation: Option<nat>, ceiling: Option<Deadline>)

  function WithParent(d: Deadline, parent: Option<Deadline>): Deadline {
    if parent.Some? then d.(parents := d.parents + [parent.value]) else d
  }

  function WithDeadline(c: Client, d: Deadline): Client {
    c.(ceiling := Some(WithParent(d, c.ceiling)))
  }

  function OperationDeadline(c: Client, limit: Duration, at: Reading): Deadline {
    WithParent(Deadline([], c.cancellation, at(c.clock), 0, limit, c.clock), c.ceiling)
  }

  // ---- The reference: a tree is the set of its nodes ----

  ghost function Nodes(d: Deadline): set<Deadline>
    ensures d in Nodes(d)
    decreases d
  {
    {d} + NodesAll(d.parents)
  }

  ghost function NodesAll(ps: seq<Deadline>): set<Deadline>
    decreases ps
  {
    if ps == [] then {} else Nodes(ps[0]) + NodesAll(ps[1..])
  }

  /** Time one node has been charged with, without an upper limit. */
  function Charged(n: Deadline, at: Reading): nat {
    n.accounted + Since(at(n.clock), n.baseline)
  }

  predicate Affords(n: Deadline, additional: nat, at: Reading) {
    Charged(n, at) + additional <= n.limit
  }

  ghost predicate AllAfford(ns: set<Deadline>, additional: nat, at: Reading) {
    forall n :: n in ns ==> Affords(n, additional, at)
  }

  /** `left` is the least remainder over the nodes. */
  ghost predicate IsLeast(left: nat, ns: set<Deadline>, at: Reading) {
    && AllAfford(ns, left, at)
    && exists n :: n in ns && Charged(n, at) + left == n.limit
  }

  ghost predicate SomeRaised(ns: set<Deadline>, raised: set<nat>) {
    exists n :: n in ns && n.cancellation.Some? && n.cancellation.value in raised
  }

  // ---- The recursion means the reference ----

  lemma {:induction false} CheckMeansAllAfford(d: Deadline, at: Reading)
    ensures Check(d, at).Ok? <==> AllAfford(Nodes(d), 0, at)
    decreases d, 1
  {
    CheckAllMeansAfford(d.parents, at);
    assert AllAfford(Nodes(d), 0, at) <==> Affords(d, 0, at) && AllAfford(NodesAll(d.parents), 0, at);
  }

  lemma {:induction false} CheckAllMeansAfford(ps: seq<Deadline>, at: Reading)
    ensures CheckAll(ps, at).Ok? <==> AllAfford(NodesAll(ps), 0, at)
    decreases ps
  {
    if ps != [] {
      CheckMeansAllAfford(ps[0], at);
      CheckAllMeansAfford(ps[1..], at);
    }
  }

  lemma {:induction false} AdditionalMeansAllAfford(d: Deadline, additional: Duration, at: Reading)
    ensures CheckAdditional(d, additional, at).Ok? <==> AllAfford(Nodes(d), additional, at)
    decreases d, 1
  {
    AdditionalAllMeansAfford(d.parents, additional, at);
    CheckAllMeansAfford(d.parents, at);
    assert AllAfford(NodesAll(d.parents), additional, at) ==> AllAfford(NodesAll(d.parents), 0, at);
    assert AllAfford(Nodes(d), additional, at)
      <==> Affords(d, additional, at) && AllAfford(NodesAll(d.parents), additional, at);
  }

  lemma {:induction false} AdditionalAllMeansAfford(ps: seq<Deadline>, additional: Duration, at: Reading)
    ensures CheckAdditionalAll(ps, additional, at).Ok? <==> AllAfford(NodesAll(ps), additional, at)
    decreases ps
  {
    if ps != [] {
      AdditionalMeansAllAfford(ps[0], additional, at);
      AdditionalAllMeansAfford(ps[1..], additional, at);
    }
  }

  lemma {:induction false} RemainingIsLeast(d: Deadline, at: Reading)
    ensures Remaining(d, at).Ok? <==> AllAfford(Nodes(d), 0, at)
    ensures Remaining(d, at).Ok? ==> IsLeast(Remaining(d, at).value, Nodes(d), at)
    decreases d, 1
  {
    CheckAllMeansAfford(d.parents, at);
    assert AllAfford(Nodes(d), 0, at) <==> Affords(d, 0, at) && AllAfford(NodesAll(d.parents), 0, at);
    if AllAfford(Nodes(d), 0, at) {
      RemainingAllIsLeast(d.parents, d.limit - Charged(d, at), {d}, at);
    }
  }

  lemma {:induction false} RemainingAllIsLeast(ps: seq<Deadline>, least: Duration, before: set<Deadline>, at: Reading)
    requires IsLeast(least, before, at) && AllAfford(NodesAll(ps), 0, at)
    ensures RemainingAll(ps, least, at).Ok? && IsLeast(RemainingAll(ps, least, at).value, before + NodesAll(ps), at)
    decreases ps
  {
    if ps == [] {
      assert before + NodesAll(ps) == before;
    } else {
      RemainingIsLeast(ps[0], at);
      var first := Remaining(ps[0], at).value;
      assert IsLeast(Min(least, first), before + Nodes(ps[0]), at);
      RemainingAllIsLeast(ps[1..], Min(least, first), before + Nodes(ps[0]), at);
      assert before + Nodes(ps[0]) + NodesAll(ps[1..]) == before + NodesAll(ps);
    }
  }

  lemma {:induction false} CancelledMeansSomeRaised(d: Deadline, raised: set<nat>)
    ensures IsCancelled(d, raised) <==> SomeRaised(Nodes(d), raised)
    decreases d, 1
  {
    AnyCancelledMeansSomeRaised(d.parents, raised);
  }

  lemma {:induction false} AnyCancelledMeansSomeRaised(ps: seq<Deadline>, raised: set<nat>)
    ensures AnyCancelled(ps, raised) <==> SomeRaised(NodesAll(ps), raised)
    decreases ps
  {
    if ps != [] {
      CancelledMeansSomeRaised(ps[0], raised);
      AnyCancelledMeansSomeRaised(ps[1..], raised);
    }
  }

  function Excess(n: Deadline, at: Reading): Exceeded {
    Exceeded(if Charged(n, at) <= DURATION_MAX then Charged(n, at) else DURATION_MAX, n.limit)
  }

  /** The error of a failed check describes a node that really is over its limit. */
  ghost predicate Names(e: Exceeded, ns: set<Deadline>, at: Reading) {
    exists n :: n in ns && !Affords(n, 0, at) && e == Excess(n, at)
  }

  lemma {:induction false} FailedCheckNamesNode(d: Deadline, at: Reading)
    requires Check(d, at).Err?
    ensures Names(Check(d, at).error, Nodes(d), at)
    decreases d, 1
  {
    if ElapsedAt(d, at(d.clock)).Ok? && CheckAll(d.parents, at).Err? {
      FailedCheckAllNamesNode(d.parents, at);
    } else {
      assert d in Nodes(d) && !Affords(d, 0, at);
    }
  }

  lemma {:induction false} FailedCheckAllNamesNode(ps: seq<Deadline>, at: Reading)
    requires CheckAll(ps, at).Err?
    ensures Names(CheckAll(ps, at).error, NodesAll(ps), at)
    decreases ps
  {
    if Check(ps[0], at).Err? {
      FailedCheckNamesNode(ps[0], at);
    } else {
      FailedCheckAllNamesNode(ps[1..], at);
    }
  }

  /** The same for time still to come: some node cannot afford it, and the error says what it would take. */
  ghost predicate NamesShort(e: Exceeded, ns: set<Deadline>, additional: nat, at: Reading) {
    exists n :: n in ns && !Affords(n, additional, at)
                && e == Exceeded(Min(Charged(n, at) + additional, DURATION_MAX), n.limit)
  }

  lemma {:induction false} FailedAdditionalNamesNode(d: Deadline, additional: Duration, at: Reading)
    requires CheckAdditional(d, additional, at).Err?
    ensures NamesShort(CheckAdditional(d, additional, at).error, Nodes(d), additional, at)
    decreases d, 1
  {
    if CheckAdditionalAll(d.parents, additional, at).Err? {
      FailedAdditionalAllNamesNode(d.parents, additional, at);
    } else {
      AdditionalAllMeansAfford(d.parents, additional, at);
      CheckAllMeansAfford(d.parents, at);
      assert AllAfford(NodesAll(d.parents), 0, at);
      assert d in Nodes(d) && !Affords(d, additional, at);
    }
  }

  lemma {:induction false} FailedAdditionalAllNamesNode(ps: seq<Deadline>, additional: Duration, at: Reading)
    requires CheckAdditionalAll(ps, additional, at).Err?
    ensures NamesShort(CheckAdditionalAll(ps, additional, at).error, NodesAll(ps), additional, at)
    decreases ps
  {
    if CheckAdditional(ps[0], additional, at).Err? {
      FailedAdditionalNamesNode(ps[0], additional, at);
    } else {
      FailedAdditionalAllNamesNode(ps[1..], additional, at);
    }
  }

  /** Without a remainder the error is that of the check; with none left for a timeout, the limit itself. */
  lemma {:induction false} FailedTimeoutNamesNode(d: Deadline, requested: Duration, at: Reading)
    ensures Remaining(d, at).Err? ==> Check(d, at).Err? && Remaining(d, at).error == Check(d, at).error
    ensures BoundedTimeout(d, requested, at).Err? ==>
              BoundedTimeout(d, requested, at) == Err(if Check(d, at).Err? then Check(d, at).error else Exceeded(d.limit, d.limit))
  {
    RemainingIsLeast(d, at);
    CheckMeansAllAfford(d, at);
    CheckAllMeansAfford(d.parents, at);
  }

  /** Cancellation anywhere in the tree comes first, then any node over its limit. */
  lemma {:induction false} EnforceMeans(d: Deadline, at: Reading, raised: set<nat>)
    ensures Enforce(d, at, raised) == Err(Cancelled) <==> SomeRaised(Nodes(d), raised)
    ensures Enforce(d, at, raised).Ok? <==> !SomeRaised(Nodes(d), raised) && AllAfford(Nodes(d), 0, at)
  {
    CancelledMeansSomeRaised(d, raised);
    CheckMeansAllAfford(d, at);
  }

  /** A timeout is granted exactly when something was asked for and every node has time left. */
  lemma {:induction false} TimeoutMeans(d: Deadline, requested: Duration, at: Reading)
    ensures BoundedTimeout(d, requested, at).Ok? <==> requested > 0 && AllAfford(Nodes(d), 1, at)
    ensures BoundedTimeout(d, requested, at).Ok? ==>
              var left := BoundedTimeout(d, requested, at).value;
              left <= requested && AllAfford(Nodes(d), left, at) && (left == requested || IsLeast(left, Nodes(d), at))
  {
    RemainingIsLeast(d, at);
    assert AllAfford(Nodes(d), 1, at) ==> AllAfford(Nodes(d), 0, at);
  }

  lemma {:induction false} LiveRemainingMeans(d: Deadline, at: Reading, raised: set<nat>)
    ensures LiveRemaining(d, at, raised) == Err(Cancelled) <==> SomeRaised(Nodes(d), raised)
    ensures LiveRemaining(d, at, raised).Ok? <==> !SomeRaised(Nodes(d), raised) && AllAfford(Nodes(d), 1, at)
    ensures LiveRemaining(d, at, raised).Ok? ==> IsLeast(LiveRemaining(d, at, raised).value, Nodes(d), at)
  {
    CancelledMeansSomeRaised(d, raised);
    TimeoutMeans(d, DURATION_MAX, at);
    RemainingIsLeast(d, at);
  }

  // ---- Narrowing ----

  /** Whatever the later instant and the flags raised by then, `a` is never laxer than `b`. */
  ghost predicate Narrower(a: Deadline, b: Deadline) {
    Nodes(b) <= Nodes(a)
  }

  lemma {:induction false} NarrowerMeans(a: Deadline, b: Deadline, at: Reading, raised: set<nat>, additional: Duration)
    requires Narrower(a, b)
    ensures Check(a, at).Ok? ==> Check(b, at).Ok?
    ensures CheckAdditional(a, additional, at).Ok? ==> CheckAdditional(b, additional, at).Ok?
    ensures Enforce(b, at, raised) == Err(Cancelled) ==> Enforce(a, at, raised) == Err(Cancelled)
    ensures Enforce(a, at, raised).Ok? ==> Enforce(b, at, raised).Ok?
    ensures Remaining(a, at).Ok? ==> Remaining(b, at).Ok? && Remaining(a, at).value <= Remaining(b, at).value
  {
    CheckMeansAllAfford(a, at);
    CheckMeansAllAfford(b, at);
    AdditionalMeansAllAfford(a, additional, at);
    AdditionalMeansAllAfford(b, additional, at);
    EnforceMeans(a, at, raised);
    EnforceMeans(b, at, raised);
    LeastOfFewer(a, b, at);
  }

  lemma {:induction false} LeastOfFewer(a: Deadline, b: Deadline, at: Reading)
    requires Narrower(a, b)
    ensures Remaining(a, at).Ok? ==> Remaining(b, at).Ok? && Remaining(a, at).value <= Remaining(b, at).value
  {
    RemainingIsLeast(a, at);
    RemainingIsLeast(b, at);
    if Remaining(a, at).Ok? {
      assert AllAfford(Nodes(b), 0, at);
      var n :| n in Nodes(b) && Charged(n, at) + Remaining(b, at).value == n.limit;
      assert Affords(n, Remaining(a, at).value, at);
    }
  }

  lemma {:induction false} NodesOfChild(child: Deadline, parent: Deadline)
    requires child.parents == [parent]
    ensures Nodes(child) == {child} + Nodes(parent)
  {
    assert NodesAll([parent]) == Nodes(parent) + NodesAll([parent][1..]);
  }

  /**
    A wait's child keeps every ancestor, is limited to what was asked for, and at the instant it is
    made has the smaller of the request and the parent's remainder.
   */
  lemma {:induction false} WaitNarrows(d: Deadline, requested: Duration, at: Reading)
    requires ForWait(d, requested, at).Ok?
    ensures var child := ForWait(d, requested, at).value;
      Narrower(child, d) && child.limit <= requested && child.cancellation == d.cancellation
    ensures var child := ForWait(d, requested, at).value;
      Remaining(d, at).Ok? && Remaining(child, at) == Ok(child.limit) && child.limit == Min(requested, Remaining(d, at).value)
  {
    var child := ForWait(d, requested, at).value;
    NodesOfChild(child, d);
    RemainingIsLeast(d, at);
    RemainingIsLeast(child, at);
    assert Affords(child, 0, at);
    assert AllAfford(Nodes(child), 0, at);
    var left := Remaining(child, at).value;
    assert Affords(child, left, at);
    var n :| n in Nodes(child) && Charged(n, at) + left == n.limit;
    assert n == child || Affords(n, child.limit, at);
  }

  /**
    From then on the child holds exactly while no more than its limit has passed on the system clock
    since it was made and the parent holds.
   */
  lemma {:induction false} WaitExpires(d: Deadline, requested: Duration, at: Reading, later: Reading)
    requires ForWait(d, requested, at).Ok? && at(SYSTEM) <= later(SYSTEM)
    ensures var child := ForWait(d, requested, at).value;
      Check(child, later).Ok? <==> later(SYSTEM) - at(SYSTEM) <= child.limit && Check(d, later).Ok?
  {
    var child := ForWait(d, requested, at).value;
    NodesOfChild(child, d);
    CheckMeansAllAfford(child, later);
    CheckMeansAllAfford(d, later);
    assert Charged(child, later) == later(SYSTEM) - at(SYSTEM);
    assert AllAfford(Nodes(child), 0, later) <==> Affords(child, 0, later) && AllAfford(Nodes(d), 0, later);
  }

  /** A wait is refused exactly when nothing was asked for or some node has no time left. */
  lemma {:induction false} WaitRefusedExactly(d: Deadline, requested: Duration, at: Reading)
    ensures ForWait(d, requested, at).Err? <==> requested == 0 || !AllAfford(Nodes(d), 1, at)
  {
    TimeoutMeans(d, requested, at);
  }

  lemma {:induction false} DetachNarrows(d: Deadline, at: Reading, raised: set<nat>)
    ensures Detach(d, at, raised) == Err(Cancelled) <==> SomeRaised(Nodes(d), raised)
    ensures Detach(d, at, raised).Ok? <==> !SomeRaised(Nodes(d), raised) && AllAfford(Nodes(d), 1, at)
    ensures Detach(d, at, raised).Ok? ==>
              var child := Detach(d, at, raised).value;
              Narrower(child, d) && Remaining(child, at) == Remaining(d, at)
  {
    CancelledMeansSomeRaised(d, raised);
    WaitRefusedExactly(d, DURATION_MAX, at);
    if Detach(d, at, raised).Ok? {
      WaitNarrows(d, DURATION_MAX, at);
    }
  }

  lemma {:induction false} NodesJoined(ps: seq<Deadline>, p: Deadline)
    ensures NodesAll(ps + [p]) == NodesAll(ps) + Nodes(p)
    decreases |ps|
  {
    if ps == [] {
      assert ps + [p] == [p] && [p][1..] == [];
    } else {
      NodesJoined(ps[1..], p);
      assert (ps + [p])[1..] == ps[1..] + [p];
    }
  }

  /** Replacing a client's ceiling never extends it: later operations answer to the old one too. */
  lemma {:induction false} CeilingOnlyNarrows(c: Client, d: Deadline, limit: Duration, at: Reading)
    ensures var op := OperationDeadline(WithDeadline(c, d), limit, at);
      && NodesAll(d.parents) <= Nodes(op)
      && (c.ceiling.Some? ==> Narrower(op, c.ceiling.value))
      && Narrower(op, WithDeadline(c, d).ceiling.value)
  {
    var ceiling := WithParent(d, c.ceiling);
    if c.ceiling.Some? {
      NodesJoined(d.parents, c.ceiling.value);
    }
    NodesJoined([], ceiling);
  }

  /** A deadline put under a parent holds exactly while both hold, and is cancelled with either. */
  lemma {:induction false} ParentAdds(d: Deadline, parent: Option<Deadline>, at: Reading, raised: set<nat>)
    ensures Check(WithParent(d, parent), at).Ok?
       <==> Check(d, at).Ok? && (parent.Some? ==> Check(parent.value, at).Ok?)
    ensures IsCancelled(WithParent(d, parent), raised)
       <==> IsCancelled(d, raised) || (parent.Some? && IsCancelled(parent.value, raised))
  {
    if parent.Some? {
      var both := WithParent(d, parent);
      CheckAllMeansAfford(d.parents + [parent.value], at);
      CheckAllMeansAfford(d.parents, at);
      CheckMeansAllAfford(parent.value, at);
      AnyCancelledMeansSomeRaised(d.parents + [parent.value], raised);
      AnyCancelledMeansSomeRaised(d.parents, raised);
      CancelledMeansSomeRaised(parent.value, raised);
      NodesJoined(d.parents, parent.value);
    }
  }

  /**
    An operation begun under a client's new deadline holds exactly while its own limit, that deadline
    and the old ceiling hold, and is cancelled exactly with the client, the deadline or the ceiling.
   */
  lemma {:induction false} OperationAnswersToAll(
    c: Client, d: Deadline, limit: Duration, begun: Reading, at: Reading, raised: set<nat>)
    requires begun(c.clock) <= at(c.clock)
    ensures var op := OperationDeadline(WithDeadline(c, d), limit, begun);
      && (Check(op, at).Ok? <==>
            && at(c.clock) - begun(c.clock) <= limit && Check(d, at).Ok?
            && (c.ceiling.Some? ==> Check(c.ceiling.value, at).Ok?))
      && (IsCancelled(op, raised) <==>
            || (c.cancellation.Some? && c.cancellation.value in raised)
            || IsCancelled(d, raised)
            || (c.ceiling.Some? && IsCancelled(c.ceiling.value, raised)))
  {
    var own := Deadline([], c.cancellation, begun(c.clock), 0, limit, c.clock);
    ParentAdds(d, c.ceiling, at, raised);
    ParentAdds(own, WithDeadline(c, d).ceiling, at, raised);
    assert Charged(own, at) == at(c.clock) - begun(c.clock);
    CheckMeansAllAfford(own, at);
    assert Nodes(own) == {own} + NodesAll([]);
  }
}
