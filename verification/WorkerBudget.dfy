/**
  The permit budget of crates/packetcraftr/src/runtime.rs, at the granularity of single atomic
  operations: every load, compare-and-swap, fetch_add and fetch_sub on a shared counter is a
  step of its own, and so is every store under a permit's state mutex.  Threads acquiring,
  marking and dropping permits interleave arbitrarily.
 */
module WorkerBudget {
  import opened Wrappers

  const USIZE_MAX: nat := 0xFFFF_FFFF_FFFF_FFFF

  datatype WorkerState = Running | TimedOut | Finished

  /** Who holds the mutex around a permit's state, and how far they are. */
  datatype Holder =
    | Free
    | Marking
    | MarkCounted
    | Dropping
    | DropSettled
    | DropStored

  /** `added` and `givenBack` count this permit's own changes of the timed-out counter. */
  datatype Permit = Permit(
    state: WorkerState, holder: Holder, dropping: bool, released: bool,
    added: nat, givenBack: nat)

  /** A thread inside `acquire`, with the value its last load or failed swap returned. */
  datatype Acquirer = Admitting(active: nat) | Refusing(rejected: nat)

  datatype State = State(
    capacity: nat, active: nat, rejected: nat, timedOut: nat,
    acquirers: map<nat, Acquirer>, permits: map<nat, Permit>)

  function Initial(capacity: nat): State {
    State(capacity, 0, 0, 0, map[], map[])
  }

  datatype Step =
    | Load(thread: nat)
    | SwapActive(thread: nat, permit: nat)
    | SwapActiveFails(thread: nat)
    | Refuse(thread: nat)
    | SwapRejected(thread: nat)
    | SwapRejectedFails(thread: nat)
    | MarkLock(permit: nat)
    | MarkAdd(permit: nat)
    | MarkStore(permit: nat)
    | MarkSkip(permit: nat)
    | DropLock(permit: nat)
    | DropSubtract(permit: nat)
    | DropSkip(permit: nat)
    | DropStore(permit: nat)
    | DropRelease(permit: nat)

  ghost predicate Admits(s: State, thread: nat) {
    thread in s.acquirers && s.acquirers[thread].Admitting?
  }

  ghost predicate Rejects(s: State, thread: nat) {
    thread in s.acquirers && s.acquirers[thread].Refusing?
  }

  ghost predicate At(s: State, permit: nat, holder: Holder) {
    permit in s.permits && s.permits[permit].holder == holder
  }

  ghost predicate CanTake(s: State, step: Step) {
    match step
    case Load(t) => t !in s.acquirers
    case SwapActive(t, p) =>
      && Admits(s, t) && p !in s.permits
      && s.acquirers[t].active < s.capacity && s.acquirers[t].active == s.active
    case SwapActiveFails(t) => Admits(s, t) && s.acquirers[t].active < s.capacity
    case Refuse(t) => Admits(s, t) && s.acquirers[t].active >= s.capacity
    case SwapRejected(t) => Rejects(s, t) && s.acquirers[t].rejected == s.rejected
    case SwapRejectedFails(t) => Rejects(s, t)
    case MarkLock(p) => At(s, p, Free)
    case MarkAdd(p) => At(s, p, Marking) && s.permits[p].state == Running
    case MarkStore(p) => At(s, p, MarkCounted)
    case MarkSkip(p) => At(s, p, Marking) && s.permits[p].state != Running
    case DropLock(p) => At(s, p, Free) && !s.permits[p].dropping
    case DropSubtract(p) => At(s, p, Dropping) && s.permits[p].state == TimedOut
    case DropSkip(p) => At(s, p, Dropping) && s.permits[p].state != TimedOut
    case DropStore(p) => At(s, p, DropSettled)
    case DropRelease(p) => At(s, p, DropStored)
  }

  /** The counters are machine words: fetch_add and fetch_sub wrap around. */
  function FetchAdd(counter: nat): nat {
    if counter == USIZE_MAX then 0 else counter + 1
  }

  function FetchSub(counter: nat): nat {
    if counter == 0 then USIZE_MAX else counter - 1
  }

  function SaturatingAdd(counter: nat): nat {
    if counter >= USIZE_MAX then USIZE_MAX else counter + 1
  }

  ghost function Take(s: State, step: Step): State
    requires CanTake(s, step)
  {
    match step
    case Load(t) => s.(acquirers := s.acquirers[t := Admitting(s.active)])
    case SwapActive(t, p) =>
      s.(active := s.acquirers[t].active + 1, acquirers := s.acquirers - {t},
         permits := s.permits[p := Permit(Running, Free, false, false, 0, 0)])
    case SwapActiveFails(t) => s.(acquirers := s.acquirers[t := Admitting(s.active)])
    case Refuse(t) => s.(acquirers := s.acquirers[t := Refusing(s.rejected)])
    case SwapRejected(t) =>
      s.(rejected := SaturatingAdd(s.acquirers[t].rejected), acquirers := s.acquirers - {t})
    case SwapRejectedFails(t) => s.(acquirers := s.acquirers[t := Refusing(s.rejected)])
    case MarkLock(p) => s.(permits := s.permits[p := s.permits[p].(holder := Marking)])
    case MarkAdd(p) =>
      s.(timedOut := FetchAdd(s.timedOut),
         permits := s.permits[p := s.permits[p].(holder := MarkCounted, added := s.permits[p].added + 1)])
    case MarkStore(p) =>
      s.(permits := s.permits[p := s.permits[p].(state := TimedOut, holder := Free)])
    case MarkSkip(p) => s.(permits := s.permits[p := s.permits[p].(holder := Free)])
    case DropLock(p) =>
      s.(permits := s.permits[p := s.permits[p].(holder := Dropping, dropping := true)])
    case DropSubtract(p) =>
      s.(timedOut := FetchSub(s.timedOut),
         permits := s.permits[p := s.permits[p].(holder := DropSettled,
                                                 givenBack := s.permits[p].givenBack + 1)])
    case DropSkip(p) => s.(permits := s.permits[p := s.permits[p].(holder := DropSettled)])
    case DropStore(p) =>
      s.(permits := s.permits[p := s.permits[p].(state := Finished, holder := DropStored)])
    case DropRelease(p) =>
      s.(active := FetchSub(s.active),
         permits := s.permits[p := s.permits[p].(released := true, holder := Free)])
  }

  ghost predicate Reaches(s: State, steps: seq<Step>, t: State)
    decreases |steps|
  {
    if steps == [] then s == t
    else CanTake(s, steps[0]) && Reaches(Take(s, steps[0]), steps[1..], t)
  }

  // ---- What every interleaving keeps ----

  /** The permits that still hold capacity. */
  ghost function Held(permits: map<nat, Permit>): set<nat> {
    set p | p in permits && !permits[p].released
  }

  /** The permits currently counted as timed out. */
  ghost function Counted(permits: map<nat, Permit>): set<nat> {
    set p | p in permits && permits[p].added > permits[p].givenBack
  }

  /** One permit's ledger, tied to its state and to whoever holds its mutex. */
  ghost predicate LedgerOk(p: Permit) {
    && p.givenBack <= p.added <= 1
    && (p.holder.MarkCounted? ==> p.state.Running? && p.added == 1 && p.givenBack == 0)
    && (p.state.Running? && !p.holder.MarkCounted? && !p.holder.DropSettled? ==> p.added == 0)
    && (p.state.TimedOut? && !p.holder.DropSettled? ==> p.added == 1 && p.givenBack == 0)
    && (p.state.Finished? || p.holder.DropSettled? ==> p.givenBack == p.added)
    && (p.state.Finished? <==> p.released || p.holder.DropStored?)
    && (p.holder.Dropping? || p.holder.DropSettled? || p.holder.DropStored? ==> p.dropping && !p.released)
    && (p.released ==> p.dropping)
    && (p.dropping && !p.released ==> p.holder.Dropping? || p.holder.DropSettled? || p.holder.DropStored?)
  }

  ghost predicate Inv(s: State) {
    && s.active == |Held(s.permits)| <= s.capacity
    && s.timedOut == |Counted(s.permits)|
    && (forall p :: p in s.permits ==> LedgerOk(s.permits[p]))
  }

  lemma {:induction false} UpdatedSets(permits: map<nat, Permit>, p: nat, permit: Permit)
    ensures Held(permits[p := permit])
         == if permit.released then Held(permits) - {p} else Held(permits) + {p}
    ensures Counted(permits[p := permit])
         == if permit.added > permit.givenBack then Counted(permits) + {p} else Counted(permits) - {p}
  {
  }

  lemma {:induction false} SubsetBound(small: set<nat>, large: set<nat>)
    requires small <= large
    ensures |small| <= |large|
  {
    assert |large| == |small| + |large - small|;
  }

  lemma {:induction false} CountedAreHeld(s: State)
    requires forall p :: p in s.permits ==> LedgerOk(s.permits[p])
    ensures Counted(s.permits) <= Held(s.permits)
    ensures |Counted(s.permits)| <= |Held(s.permits)|
  {
    SubsetBound(Counted(s.permits), Held(s.permits));
  }

  /** Replacing one permit's record moves the two counts by that permit's own share. */
  lemma {:induction false} UpdatedCounts(s: State, p: nat, permit: Permit)
    ensures |Held(s.permits[p := permit])| - |Held(s.permits)|
         == (if permit.released then 0 else 1) - (if p in Held(s.permits) then 1 else 0)
    ensures |Counted(s.permits[p := permit])| - |Counted(s.permits)|
         == (if permit.added > permit.givenBack then 1 else 0) - (if p in Counted(s.permits) then 1 else 0)
  {
    UpdatedSets(s.permits, p, permit);
    var held, counted := Held(s.permits), Counted(s.permits);
    assert (held - {p}) + {p} == held + {p} && (counted - {p}) + {p} == counted + {p};
  }

  lemma {:induction false} LedgerStep(s: State, step: Step, p: nat)
    requires forall q :: q in s.permits ==> LedgerOk(s.permits[q])
    requires CanTake(s, step) && p in Take(s, step).permits
    ensures LedgerOk(Take(s, step).permits[p])
  {
  }

  lemma {:induction false} InvStep(s: State, step: Step)
    requires s.capacity <= USIZE_MAX && Inv(s) && CanTake(s, step)
    ensures Inv(Take(s, step))
  {
    var t := Take(s, step);
    forall p | p in t.permits ensures LedgerOk(t.permits[p]) {
      LedgerStep(s, step, p);
    }
    CountedAreHeld(s);
    CountedAreHeld(t);
    if t.permits != s.permits {
      CountsStep(s, step);
    }
  }

  lemma {:induction false} CountsStep(s: State, step: Step)
    requires s.capacity <= USIZE_MAX && Inv(s) && CanTake(s, step)
    requires Take(s, step).permits != s.permits
    ensures Take(s, step).active == |Held(Take(s, step).permits)| <= s.capacity
    ensures Take(s, step).timedOut == |Counted(Take(s, step).permits)|
  {
    var t := Take(s, step);
    var p := step.permit;
    CountedAreHeld(s);
    UpdatedCounts(s, p, t.permits[p]);
    assert t.permits == s.permits[p := t.permits[p]];
    assert p in s.permits ==> LedgerOk(s.permits[p]);
    if p in Counted(s.permits) {
      SubsetBound({p}, Counted(s.permits));
    }
    if p in Held(s.permits) {
      SubsetBound({p}, Held(s.permits));
    }
    if step.MarkAdd? {
      SubsetBound(Counted(s.permits) + {p}, Held(s.permits));
    }
  }

  lemma {:induction false} InvReaches(s: State, steps: seq<Step>, t: State)
    requires s.capacity <= USIZE_MAX && Inv(s) && Reaches(s, steps, t)
    ensures Inv(t) && t.capacity == s.capacity
    decreases |steps|
  {
    if steps != [] {
      InvStep(s, steps[0]);
      InvReaches(Take(s, steps[0]), steps[1..], t);
    }
  }

  /**
    After every atomic operation of every interleaving: no counter has wrapped, the active
    count is exactly the number of unreleased permits and within capacity, the timed-out count
    is exactly the number of permits that added to it and have not given it back, all of them
    unreleased; and a permit adds at most once and, when released, has given back what it added.
   */
  lemma {:induction false} CountersAreExact(capacity: nat, steps: seq<Step>, s: State)
    requires capacity <= USIZE_MAX
    requires Reaches(Initial(capacity), steps, s)
    ensures s.timedOut <= s.active <= capacity
    ensures s.active == |Held(s.permits)| && s.timedOut == |Counted(s.permits)|
    ensures Counted(s.permits) <= Held(s.permits)
    ensures forall p :: p in s.permits ==> s.permits[p].givenBack <= s.permits[p].added <= 1
    ensures forall p :: p in s.permits && s.permits[p].released ==>
              s.permits[p].givenBack == s.permits[p].added
  {
    InvReaches(Initial(capacity), steps, s);
    CountedAreHeld(s);
  }

  /**
    A swap can never push the count past capacity, however stale the value it was loaded with:
    an acquirer that is about to succeed always finds a free slot at that very moment.
   */
  lemma {:induction false} AdmissionFindsFreeSlot(capacity: nat, steps: seq<Step>, s: State, thread: nat, permit: nat)
    requires capacity <= USIZE_MAX
    requires Reaches(Initial(capacity), steps, s)
    requires CanTake(s, SwapActive(thread, permit))
    ensures |Held(s.permits)| < capacity
    ensures Held(Take(s, SwapActive(thread, permit)).permits) == Held(s.permits) + {permit}
  {
    InvReaches(Initial(capacity), steps, s);
  }

  // ---- Refusals ----

  /** How many calls came back refused. */
  ghost function Refusals(steps: seq<Step>): nat {
    if steps == [] then 0 else Refusals(steps[1..]) + if steps[0].SwapRejected? then 1 else 0
  }

  lemma {:induction false} RejectedGrows(s: State, steps: seq<Step>, t: State)
    requires s.rejected <= USIZE_MAX && Reaches(s, steps, t)
    ensures t.rejected == Min(s.rejected + Refusals(steps), USIZE_MAX)
    decreases |steps|
  {
    if steps != [] {
      RejectedGrows(Take(s, steps[0]), steps[1..], t);
    }
  }

  /** The rejected counter is the number of refused calls, held at the largest word; none is lost to a race. */
  lemma {:induction false} RejectedIsExact(capacity: nat, steps: seq<Step>, s: State)
    requires Reaches(Initial(capacity), steps, s)
    ensures s.rejected == Min(Refusals(steps), USIZE_MAX)
  {
    RejectedGrows(Initial(capacity), steps, s);
  }

  /** The run stood at `u` after its first `k` steps. */
  ghost predicate WasAt(s: State, steps: seq<Step>, k: nat, u: State) {
    k <= |steps| && Reaches(s, steps[..k], u)
  }

  ghost predicate WasActive(s: State, steps: seq<Step>, active: nat) {
    exists k: nat, u :: WasAt(s, steps, k, u) && u.active == active
  }

  /** What an acquirer carries was true at some moment of the run. */
  ghost predicate Remembers(s: State, steps: seq<Step>, a: Acquirer) {
    match a
    case Admitting(active) => WasActive(s, steps, active)
    case Refusing(_) => exists active :: active >= s.capacity && WasActive(s, steps, active)
  }

  lemma {:induction false} LastStep(s: State, steps: seq<Step>, t: State) returns (u: State)
    requires steps != [] && Reaches(s, steps, t)
    ensures Reaches(s, steps[..|steps| - 1], u)
    ensures CanTake(u, steps[|steps| - 1]) && t == Take(u, steps[|steps| - 1])
    ensures u.capacity == s.capacity
    decreases |steps|
  {
    if |steps| == 1 {
      u := s;
    } else {
      u := LastStep(Take(s, steps[0]), steps[1..], t);
      assert steps[..|steps| - 1][1..] == steps[1..][..|steps| - 2];
    }
  }

  lemma {:induction false} StillActive(s: State, steps: seq<Step>, active: nat)
    requires steps != [] && WasActive(s, steps[..|steps| - 1], active)
    ensures WasActive(s, steps, active)
  {
    var k: nat, u :| WasAt(s, steps[..|steps| - 1], k, u) && u.active == active;
    assert steps[..|steps| - 1][..k] == steps[..k];
    assert WasAt(s, steps, k, u);
  }

  lemma {:induction false} StillRemembers(s: State, steps: seq<Step>, a: Acquirer)
    requires steps != [] && Remembers(s, steps[..|steps| - 1], a)
    ensures Remembers(s, steps, a)
  {
    var active :| (if a.Admitting? then active == a.active else active >= s.capacity)
                  && WasActive(s, steps[..|steps| - 1], active);
    StillActive(s, steps, active);
  }

  lemma {:induction false} AcquirersRemember(s: State, steps: seq<Step>, t: State, thread: nat)
    requires s.acquirers == map[] && Reaches(s, steps, t) && thread in t.acquirers
    ensures Remembers(s, steps, t.acquirers[thread])
    decreases |steps|
  {
    var u := LastStep(s, steps, t);
    if thread in u.acquirers {
      AcquirersRemember(s, steps[..|steps| - 1], u, thread);
      StillRemembers(s, steps, u.acquirers[thread]);
    }
    if t.acquirers != u.acquirers {
      assert WasAt(s, steps, |steps| - 1, u);
      assert WasActive(s, steps, u.active);
    }
  }

  /** A call is refused only if at some moment of the run every slot really was held. */
  lemma {:induction false} RefusedOnlyWhenFull(capacity: nat, steps: seq<Step>, s: State, thread: nat)
    requires capacity <= USIZE_MAX && Reaches(Initial(capacity), steps, s) && Rejects(s, thread)
    ensures exists k: nat, u :: WasAt(Initial(capacity), steps, k, u) && |Held(u.permits)| == capacity
  {
    var start := Initial(capacity);
    AcquirersRemember(start, steps, s, thread);
    var active :| active >= capacity && WasActive(start, steps, active);
    var k: nat, u :| WasAt(start, steps, k, u) && u.active == active;
    InvReaches(start, steps[..k], u);
    assert WasAt(start, steps, k, u) && |Held(u.permits)| == capacity;
  }

  // ---- What one uninterrupted call does ----

  /** Alone, `acquire` gives a permit exactly when a slot is free, and otherwise counts one refusal. */
  lemma {:induction false} AcquireAlone(s: State, thread: nat, permit: nat)
    requires thread !in s.acquirers && permit !in s.permits
    ensures if s.active < s.capacity
      then Reaches(s, [Load(thread), SwapActive(thread, permit)],
                   s.(active := s.active + 1, permits := s.permits[permit := Permit(Running, Free, false, false, 0, 0)]))
      else Reaches(s, [Load(thread), Refuse(thread), SwapRejected(thread)],
                   s.(rejected := if s.rejected < USIZE_MAX then s.rejected + 1 else USIZE_MAX))
  {
    var loaded := Take(s, Load(thread));
    assert loaded.acquirers - {thread} == s.acquirers;
    if s.active < s.capacity {
      TwoSteps(s, Load(thread), SwapActive(thread, permit));
    } else {
      assert Take(loaded, Refuse(thread)).acquirers - {thread} == s.acquirers;
      ThreeSteps(s, Load(thread), Refuse(thread), SwapRejected(thread));
    }
  }

  lemma {:induction false} TwoSteps(s: State, a: Step, b: Step)
    requires CanTake(s, a) && CanTake(Take(s, a), b)
    ensures Reaches(s, [a, b], Take(Take(s, a), b))
  {
    assert [a, b][1..] == [b] && [b][1..] == [];
  }

  lemma {:induction false} ThreeSteps(s: State, a: Step, b: Step, c: Step)
    requires CanTake(s, a) && CanTake(Take(s, a), b) && CanTake(Take(Take(s, a), b), c)
    ensures Reaches(s, [a, b, c], Take(Take(Take(s, a), b), c))
  {
    TwoSteps(Take(s, a), b, c);
    assert [a, b, c][1..] == [b, c];
  }

  lemma {:induction false} FourSteps(s: State, a: Step, b: Step, c: Step, d: Step)
    requires CanTake(s, a) && CanTake(Take(s, a), b) && CanTake(Take(Take(s, a), b), c)
    requires CanTake(Take(Take(Take(s, a), b), c), d)
    ensures Reaches(s, [a, b, c, d], Take(Take(Take(Take(s, a), b), c), d))
  {
    ThreeSteps(Take(s, a), b, c, d);
    assert [a, b, c, d][1..] == [b, c, d];
  }

  /** Alone, marking a running permit counts it once and marking any other changes nothing. */
  lemma {:induction false} MarkAlone(s: State, p: nat)
    requires At(s, p, Free) && s.timedOut < USIZE_MAX
    ensures if s.permits[p].state.Running?
      then Reaches(s, [MarkLock(p), MarkAdd(p), MarkStore(p)],
                   s.(timedOut := s.timedOut + 1,
                      permits := s.permits[p := s.permits[p].(state := TimedOut, added := s.permits[p].added + 1)]))
      else Reaches(s, [MarkLock(p), MarkSkip(p)], s)
  {
    if s.permits[p].state.Running? {
      ThreeSteps(s, MarkLock(p), MarkAdd(p), MarkStore(p));
      var t := Take(Take(Take(s, MarkLock(p)), MarkAdd(p)), MarkStore(p));
      assert t.permits == s.permits[p := s.permits[p].(state := TimedOut, added := s.permits[p].added + 1)];
    } else {
      TwoSteps(s, MarkLock(p), MarkSkip(p));
      assert Take(Take(s, MarkLock(p)), MarkSkip(p)).permits == s.permits;
    }
  }

  lemma {:induction false} HasShare(s: State, p: nat)
    requires Inv(s) && At(s, p, Free) && !s.permits[p].dropping
    ensures s.active > 0 && (s.permits[p].state.TimedOut? ==> s.timedOut > 0)
  {
    assert LedgerOk(s.permits[p]);
    SubsetBound({p}, Held(s.permits));
    if s.permits[p].state.TimedOut? {
      SubsetBound({p}, Counted(s.permits));
    }
  }

  /** Alone, dropping a permit frees its slot and takes back its share of the timed-out count. */
  lemma {:induction false} DropAlone(s: State, p: nat)
    requires Inv(s) && At(s, p, Free) && !s.permits[p].dropping
    ensures s.active > 0 && (s.permits[p].state.TimedOut? ==> s.timedOut > 0)
    ensures var counted := s.permits[p].state.TimedOut?;
      var share := if counted then 1 else 0;
      Reaches(s, [DropLock(p), if counted then DropSubtract(p) else DropSkip(p), DropStore(p), DropRelease(p)],
              s.(active := s.active - 1, timedOut := s.timedOut - share,
                 permits := s.permits[p := Permit(Finished, Free, true, true, s.permits[p].added,
                                                  s.permits[p].givenBack + share)]))
  {
    HasShare(s, p);
    hide Inv;
    var counted := s.permits[p].state.TimedOut?;
    var settle := if counted then DropSubtract(p) else DropSkip(p);
    FourSteps(s, DropLock(p), settle, DropStore(p), DropRelease(p));
    var t := Take(Take(Take(Take(s, DropLock(p)), settle), DropStore(p)), DropRelease(p));
    assert t.permits == s.permits[p := t.permits[p]];
  }
}
