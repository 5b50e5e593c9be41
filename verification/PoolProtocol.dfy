/**
  The native worker pool of crates/packetcraftr-netio/src/workers.rs as a transition system:
  the slots the pool accounts for, the operating-system threads behind them, and the jobs
  handed to those threads.  Pool steps are the elementary changes made under the pool lock;
  thread steps are those of the `serve` loop and of the reaper.  Any possible step may come
  next, and a thread may die at any point.
 */
module PoolProtocol {
  import opened Wrappers

  /** The execution context a job was submitted under; absent when it could not be read. */
  type Context = Option<nat>

  /** A pool slot, keyed by the id of the thread that occupies it. */
  datatype Slot =
    | Idle(context: Context)
    | Busy(context: Context)
    | Retiring(pending: bool, complete: bool)

  /** The stages of one job on its thread, in the order `serve` takes them. */
  datatype Stage = Run | SettleAdmission | Publish | Recycle

  const STAGES: seq<Stage> := [Run, SettleAdmission, Publish, Recycle]

  datatype Progress =
    | Receiving
    | Running(job: nat)
    | Ran(job: nat)
    | Settled(job: nat)
    | Published(job: nat)
    | Exited
    | Joined

  /** `hungUp` says the pool has dropped the sending end of the thread's inbox. */
  datatype Thread = Thread(context: Context, inbox: seq<nat>, hungUp: bool, progress: Progress)

  datatype Place = AtSubmitter | HandedBack | At(thread: nat) | Finished(thread: nat)

  datatype Job = Job(context: Context, place: Place, trace: seq<Stage>)

  datatype State = State(
    capacity: nat, slots: map<nat, Slot>, nextWorker: nat,
    threads: map<nat, Thread>, jobs: map<nat, Job>)

  function Initial(capacity: nat): State {
    State(capacity, map[], 0, map[], map[])
  }

  datatype Step =
    // Under the pool lock.
    | Submit(job: nat, context: Context)
    | HandBack(job: nat)
    | Reuse(thread: nat, job: nat)
    | Spawn(job: nat)
    | SpawnFails
    | RetireFinished(thread: nat, pending: bool)
    | RetireIdle(thread: nat, pending: bool)
    | Transfer(thread: nat)
    | Prune(thread: nat)
    | RecycleKeep(thread: nat)
    | RecycleLast(thread: nat)
    // Threads and the reaper.
    | StartJob(thread: nat)
    | FinishRun(thread: nat)
    | Settle(thread: nat)
    | PublishOutcome(thread: nat)
    | SeeHangup(thread: nat)
    | Die(thread: nat)
    | Join(thread: nat)

  ghost predicate IsIdle(s: State, thread: nat) {
    thread in s.slots && thread in s.threads && s.slots[thread].Idle?
  }

  ghost predicate IsBusy(s: State, thread: nat) {
    thread in s.slots && thread in s.threads && s.slots[thread].Busy?
  }

  ghost predicate IsRetiring(s: State, thread: nat) {
    thread in s.slots && thread in s.threads && s.slots[thread].Retiring?
  }

  ghost predicate Waits(s: State, job: nat) {
    job in s.jobs && s.jobs[job].place.AtSubmitter?
  }

  /** The thread has published its job's outcome and is about to recycle itself. */
  ghost predicate Publishes(s: State, t: nat) {
    t in s.threads && s.threads[t].progress.Published? && s.threads[t].progress.job in s.jobs
  }

  predicate Alive(progress: Progress) {
    !progress.Exited? && !progress.Joined?
  }

  ghost predicate CanTake(s: State, step: Step) {
    match step
    case Submit(j, _) => j !in s.jobs
    case HandBack(j) => Waits(s, j)
    case Reuse(t, j) =>
      && IsIdle(s, t) && Waits(s, j)
      && s.jobs[j].context.Some? && s.slots[t].context == s.jobs[j].context
    case Spawn(j) => Waits(s, j) && |s.slots| < s.capacity
    case SpawnFails => true
    case RetireFinished(t, _) =>
      (IsIdle(s, t) || IsBusy(s, t)) && s.threads[t].progress.Exited?
    case RetireIdle(t, _) => IsIdle(s, t)
    case Transfer(t) => IsRetiring(s, t) && s.slots[t].pending
    case Prune(t) => IsRetiring(s, t) && s.slots[t].complete
    case RecycleKeep(t) =>
      IsBusy(s, t) && s.slots[t].context.Some? && Publishes(s, t)
    case RecycleLast(t) =>
      IsBusy(s, t) && s.slots[t].context.None? && Publishes(s, t)
    case StartJob(t) =>
      && t in s.threads && s.threads[t].progress.Receiving? && s.threads[t].inbox != []
      && s.threads[t].inbox[0] in s.jobs
    case FinishRun(t) => t in s.threads && s.threads[t].progress.Running?
    case Settle(t) =>
      && t in s.threads && s.threads[t].progress.Ran? && s.threads[t].progress.job in s.jobs
    case PublishOutcome(t) =>
      && t in s.threads && s.threads[t].progress.Settled? && s.threads[t].progress.job in s.jobs
    case SeeHangup(t) =>
      && t in s.threads && s.threads[t].progress.Receiving?
      && s.threads[t].inbox == [] && s.threads[t].hungUp
    case Die(t) => t in s.threads && Alive(s.threads[t].progress)
    case Join(t) =>
      && IsRetiring(s, t) && !s.slots[t].pending && !s.slots[t].complete
      && s.threads[t].progress.Exited?
  }

  ghost function SetSlot(s: State, t: nat, slot: Slot): State {
    s.(slots := s.slots[t := slot])
  }

  ghost function SetProgress(s: State, t: nat, progress: Progress): State
    requires t in s.threads
  {
    s.(threads := s.threads[t := s.threads[t].(progress := progress)])
  }

  ghost function Deliver(s: State, t: nat, j: nat): State
    requires t in s.threads && j in s.jobs
  {
    s.(threads := s.threads[t := s.threads[t].(inbox := s.threads[t].inbox + [j])],
       jobs := s.jobs[j := s.jobs[j].(place := At(t))])
  }

  ghost function Record(s: State, j: nat, stage: Stage): State
    requires j in s.jobs
  {
    s.(jobs := s.jobs[j := s.jobs[j].(trace := s.jobs[j].trace + [stage])])
  }

  /** The pool drops the inbox sender and turns the slot into a retiring one. */
  ghost function Retire(s: State, t: nat, pending: bool): State
    requires t in s.threads
  {
    s.(slots := s.slots[t := Retiring(pending, false)],
       threads := s.threads[t := s.threads[t].(hungUp := true)])
  }

  ghost function FinishJob(s: State, t: nat): State
    requires Publishes(s, t)
  {
    var j := s.threads[t].progress.job;
    s.(jobs := s.jobs[j := s.jobs[j].(place := Finished(t), trace := s.jobs[j].trace + [Recycle])])
  }

  /** A new thread with the next id, its slot busy and its first job in its inbox. */
  ghost function Spawned(s: State, j: nat): State
    requires j in s.jobs
  {
    var t, context := s.nextWorker, s.jobs[j].context;
    s.(nextWorker := t + 1,
       slots := s.slots[t := Busy(context)],
       threads := s.threads[t := Thread(context, [j], false, Receiving)],
       jobs := s.jobs[j := s.jobs[j].(place := At(t))])
  }

  ghost function Take(s: State, step: Step): State
    requires CanTake(s, step)
  {
    match step
    case Submit(j, context) => s.(jobs := s.jobs[j := Job(context, AtSubmitter, [])])
    case HandBack(j) => s.(jobs := s.jobs[j := s.jobs[j].(place := HandedBack)])
    case Reuse(t, j) => Deliver(SetSlot(s, t, Busy(s.slots[t].context)), t, j)
    case Spawn(j) => Spawned(s, j)
    case SpawnFails => s.(nextWorker := s.nextWorker + 1)
    case RetireFinished(t, pending) => Retire(s, t, pending)
    case RetireIdle(t, pending) => Retire(s, t, pending)
    case Transfer(t) => SetSlot(s, t, s.slots[t].(pending := false))
    case Prune(t) => s.(slots := s.slots - {t})
    case RecycleKeep(t) =>
      SetProgress(SetSlot(FinishJob(s, t), t, Idle(s.slots[t].context)), t, Receiving)
    case RecycleLast(t) => SetProgress(FinishJob(s, t), t, Exited)
    case StartJob(t) =>
      var j := s.threads[t].inbox[0];
      Record(s.(threads := s.threads[t := s.threads[t].(inbox := s.threads[t].inbox[1..],
                                                        progress := Running(j))]), j, Run)
    case FinishRun(t) => SetProgress(s, t, Ran(s.threads[t].progress.job))
    case Settle(t) =>
      var j := s.threads[t].progress.job;
      SetProgress(Record(s, j, SettleAdmission), t, Settled(j))
    case PublishOutcome(t) =>
      var j := s.threads[t].progress.job;
      SetProgress(Record(s, j, Publish), t, Published(j))
    case SeeHangup(t) => SetProgress(s, t, Exited)
    case Die(t) => SetProgress(s, t, Exited)
    case Join(t) => SetProgress(SetSlot(s, t, s.slots[t].(complete := true)), t, Joined)
  }

  ghost predicate Next(s: State, t: State) {
    exists step :: CanTake(s, step) && Take(s, step) == t
  }

  ghost predicate NextAt(run: seq<State>, i: nat)
    requires i + 1 < |run|
  {
    Next(run[i], run[i + 1])
  }

  /** Each state of the run comes from the one before it by some possible step. */
  ghost predicate IsRun(run: seq<State>) {
    |run| > 0 && forall i: nat :: i + 1 < |run| ==> NextAt(run, i)
  }

  /** Some run leads from `s` to `t`. */
  ghost predicate Leads(s: State, t: State) {
    exists run :: IsRun(run) && run[0] == s && run[|run| - 1] == t
  }

  lemma {:induction false} LeadsNowhere(s: State)
    ensures Leads(s, s)
  {
    assert IsRun([s]);
  }

  lemma {:induction false} LeadsByStep(s: State, step: Step)
    requires CanTake(s, step)
    ensures Leads(s, Take(s, step))
  {
    var run := [s, Take(s, step)];
    assert NextAt(run, 0);
    assert IsRun(run);
  }

  lemma {:induction false} LeadsOn(s: State, t: State, u: State)
    requires Leads(s, t) && Leads(t, u)
    ensures Leads(s, u)
  {
    var before :| IsRun(before) && before[0] == s && before[|before| - 1] == t;
    var after :| IsRun(after) && after[0] == t && after[|after| - 1] == u;
    var run := before + after[1..];
    forall i: nat | i + 1 < |run| ensures NextAt(run, i) {
      if i + 1 < |before| {
        assert NextAt(before, i);
      } else {
        assert NextAt(after, i + 1 - |before|);
      }
    }
    assert IsRun(run);
  }

  /** Steps taken without the pool lock and without the reaper. */
  predicate IsOutside(step: Step) {
    match step
    case Submit(_, _) => true
    case StartJob(_) => true
    case FinishRun(_) => true
    case Settle(_) => true
    case PublishOutcome(_) => true
    case SeeHangup(_) => true
    case Die(_) => true
    case _ => false
  }

  ghost function Progresses(threads: map<nat, Thread>): map<nat, Progress> {
    map t | t in threads :: threads[t].progress
  }

  /** A run that changed no job and no thread's progress, and started no thread. */
  ghost predicate Housekeeping(s: State, t: State) {
    Leads(s, t) && t.jobs == s.jobs && Progresses(t.threads) == Progresses(s.threads)
  }

  lemma {:induction false} HousekeepingNone(s: State)
    ensures Housekeeping(s, s)
  {
    LeadsNowhere(s);
  }

  lemma {:induction false} HousekeepingOn(s: State, t: State, u: State)
    requires Housekeeping(s, t) && Housekeeping(t, u)
    ensures Housekeeping(s, u)
  {
    LeadsOn(s, t, u);
  }

  lemma {:induction false} SameProgresses(threads: map<nat, Thread>, t: nat, thread: Thread)
    requires t in threads && thread.progress == threads[t].progress
    ensures Progresses(threads[t := thread]) == Progresses(threads)
  {
  }

  /** Every slot has its thread, and thread ids stay below the next one to be given out. */
  ghost predicate Numbered(s: State) {
    s.slots.Keys <= s.threads.Keys && forall t :: t in s.threads ==> t < s.nextWorker
  }

  // ---- What every run keeps ----

  /** A slot and the thread behind it agree. */
  ghost predicate SlotOk(s: State, t: nat)
    requires t in s.slots && t in s.threads
  {
    var slot, thread := s.slots[t], s.threads[t];
    && (!slot.Retiring? ==> slot.context == thread.context && !thread.hungUp && !thread.progress.Joined?)
    && (slot.Idle? ==> slot.context.Some? && thread.inbox == [] && (thread.progress.Receiving? || thread.progress.Exited?))
    && (slot.Retiring? ==> thread.hungUp && (slot.complete <==> thread.progress.Joined?))
    && (slot.Retiring? && slot.pending ==> !slot.complete)
  }

  ghost predicate ThreadOk(s: State, t: nat)
    requires t in s.threads
  {
    var thread := s.threads[t];
    && t < s.nextWorker
    && (!thread.progress.Joined? ==> t in s.slots)
    && |thread.inbox| <= 1
    && (thread.progress.Running? || thread.progress.Ran? || thread.progress.Settled? || thread.progress.Published? ==>
          thread.inbox == [] && HeldBy(s, thread.progress.job, t))
    && (thread.inbox != [] ==> HeldBy(s, thread.inbox[0], t))
  }

  ghost predicate HeldBy(s: State, j: nat, t: nat) {
    j in s.jobs && s.jobs[j].place == At(t)
  }

  /** The stages a job at this point of its thread has gone through. */
  ghost predicate TraceFits(thread: Thread, j: nat, trace: seq<Stage>) {
    if !Alive(thread.progress) then trace <= STAGES
    else if thread.progress.Receiving? then thread.inbox == [j] && trace == []
    else
      && thread.progress.job == j
      && trace == (if thread.progress.Settled? then [Run, SettleAdmission]
                   else if thread.progress.Published? then [Run, SettleAdmission, Publish]
                   else [Run])
  }

  ghost predicate JobOk(s: State, j: nat)
    requires j in s.jobs
  {
    match s.jobs[j].place
    case AtSubmitter => s.jobs[j].trace == []
    case HandedBack => s.jobs[j].trace == []
    case Finished(t) =>
      s.jobs[j].trace == STAGES && t in s.threads && s.threads[t].context == s.jobs[j].context
    case At(t) =>
      && t in s.threads && s.threads[t].context == s.jobs[j].context
      && (t in s.slots ==> !s.slots[t].Idle?)
      && TraceFits(s.threads[t], j, s.jobs[j].trace)
  }

  /** Two jobs are never with the same thread. */
  ghost predicate Apart(s: State, i: nat, j: nat)
    requires i in s.jobs && j in s.jobs
  {
    s.jobs[i].place.At? && s.jobs[i].place == s.jobs[j].place ==> i == j
  }

  ghost predicate Inv(s: State) {
    && |s.slots| <= s.capacity
    && s.slots.Keys <= s.threads.Keys
    && (forall t :: t in s.slots ==> SlotOk(s, t))
    && (forall t :: t in s.threads ==> ThreadOk(s, t))
    && (forall j :: j in s.jobs ==> JobOk(s, j))
    && (forall i, j :: i in s.jobs && j in s.jobs ==> Apart(s, i, j))
  }

  // The step lemmas below look at one slot, thread or job at a time and assume only what they need.

  ghost predicate SlotFine(s: State, t: nat) {
    t in s.slots ==> t in s.threads && SlotOk(s, t)
  }

  ghost predicate ThreadFine(s: State, t: nat) {
    t in s.threads ==> ThreadOk(s, t)
  }

  ghost predicate JobFine(s: State, j: nat) {
    j in s.jobs ==> JobOk(s, j)
  }

  predicate ActsOn(step: Step, t: nat) {
    match step
    case Submit(_, _) => false
    case HandBack(_) => false
    case Spawn(_) => false
    case SpawnFails => false
    case _ => step.thread == t
  }

  /** Steps that keep the slots in order, apart from any job. */
  predicate IsUpkeep(step: Step) {
    step.RetireFinished? || step.RetireIdle? || step.Transfer? || step.Prune? || step.Join?
  }

  lemma {:induction false} SlotStepOutside(s: State, step: Step, t: nat)
    requires IsOutside(step)
    requires CanTake(s, step) && SlotFine(s, t) && ThreadFine(s, t) && s.nextWorker !in s.slots
    ensures SlotFine(Take(s, step), t)
  {
  }

  lemma {:induction false} SlotStepLocked(s: State, step: Step, t: nat)
    requires !IsOutside(step)
    requires CanTake(s, step) && SlotFine(s, t) && ThreadFine(s, t) && s.nextWorker !in s.slots
    ensures SlotFine(Take(s, step), t)
  {
  }

  lemma {:induction false} SlotStep(s: State, step: Step, t: nat)
    requires CanTake(s, step) && SlotFine(s, t) && ThreadFine(s, t) && s.nextWorker !in s.slots
    ensures SlotFine(Take(s, step), t)
  {
    if IsOutside(step) {
      SlotStepOutside(s, step, t);
    } else {
      SlotStepLocked(s, step, t);
    }
  }

  lemma {:induction false} ThreadStepOutside(s: State, step: Step, t: nat)
    requires IsOutside(step)
    requires CanTake(s, step) && SlotFine(s, t) && ThreadFine(s, t) && s.nextWorker !in s.threads
    requires forall u :: u in s.threads && ActsOn(step, u) ==> ThreadOk(s, u)
    ensures ThreadFine(Take(s, step), t)
  {
  }

  lemma {:induction false} ThreadStepUpkeep(s: State, step: Step, t: nat)
    requires IsUpkeep(step)
    requires CanTake(s, step) && SlotFine(s, t) && ThreadFine(s, t) && s.nextWorker !in s.threads
    requires forall u :: u in s.threads && ActsOn(step, u) ==> ThreadOk(s, u)
    ensures ThreadFine(Take(s, step), t)
  {
  }

  lemma {:induction false} ThreadStepDispatch(s: State, step: Step, t: nat)
    requires !IsOutside(step) && !IsUpkeep(step)
    requires CanTake(s, step) && SlotFine(s, t) && ThreadFine(s, t) && s.nextWorker !in s.threads
    requires forall u :: u in s.threads && ActsOn(step, u) ==> ThreadOk(s, u)
    ensures ThreadFine(Take(s, step), t)
  {
  }

  lemma {:induction false} ThreadStep(s: State, step: Step, t: nat)
    requires CanTake(s, step) && SlotFine(s, t) && ThreadFine(s, t) && s.nextWorker !in s.threads
    requires forall u :: u in s.threads && ActsOn(step, u) ==> ThreadOk(s, u)
    ensures ThreadFine(Take(s, step), t)
  {
    if IsOutside(step) {
      ThreadStepOutside(s, step, t);
    } else if IsUpkeep(step) {
      ThreadStepUpkeep(s, step, t);
    } else {
      ThreadStepDispatch(s, step, t);
    }
  }

  lemma {:induction false} JobStepOutside(s: State, step: Step, j: nat)
    requires IsOutside(step)
    requires CanTake(s, step) && JobFine(s, j) && s.nextWorker !in s.threads
    requires forall u :: u in s.threads && ActsOn(step, u) ==> ThreadOk(s, u) && SlotFine(s, u)
    ensures JobFine(Take(s, step), j)
  {
  }

  lemma {:induction false} JobStepUpkeep(s: State, step: Step, j: nat)
    requires IsUpkeep(step)
    requires CanTake(s, step) && JobFine(s, j) && s.nextWorker !in s.threads
    requires forall u :: u in s.threads && ActsOn(step, u) ==> ThreadOk(s, u) && SlotFine(s, u)
    ensures JobFine(Take(s, step), j)
  {
  }

  lemma {:induction false} JobStepDispatch(s: State, step: Step, j: nat)
    requires !IsOutside(step) && !IsUpkeep(step)
    requires CanTake(s, step) && JobFine(s, j) && s.nextWorker !in s.threads
    requires forall u :: u in s.threads && ActsOn(step, u) ==> ThreadOk(s, u) && SlotFine(s, u)
    ensures JobFine(Take(s, step), j)
  {
  }

  lemma {:induction false} JobStep(s: State, step: Step, j: nat)
    requires CanTake(s, step) && JobFine(s, j) && s.nextWorker !in s.threads
    requires forall u :: u in s.threads && ActsOn(step, u) ==> ThreadOk(s, u) && SlotFine(s, u)
    ensures JobFine(Take(s, step), j)
  {
    if IsOutside(step) {
      JobStepOutside(s, step, j);
    } else if IsUpkeep(step) {
      JobStepUpkeep(s, step, j);
    } else {
      JobStepDispatch(s, step, j);
    }
  }

  lemma {:induction false} ApartStep(s: State, step: Step, i: nat, j: nat)
    requires CanTake(s, step) && s.nextWorker !in s.threads
    requires JobFine(s, i) && JobFine(s, j)
    requires i in Take(s, step).jobs && j in Take(s, step).jobs
    requires i in s.jobs && j in s.jobs ==> Apart(s, i, j)
    ensures Apart(Take(s, step), i, j)
  {
  }

  lemma {:induction false} CountStep(s: State, step: Step)
    requires CanTake(s, step) && |s.slots| <= s.capacity
    ensures |Take(s, step).slots| <= s.capacity
    ensures Take(s, step).capacity == s.capacity
    ensures forall t :: t in s.slots && t !in Take(s, step).slots ==> step == Prune(t)
  {
    if step.Prune? {
      assert |s.slots.Keys| == |s.slots.Keys - {step.thread}| + 1;
      assert (s.slots - {step.thread}).Keys == s.slots.Keys - {step.thread};
    }
  }

  lemma {:induction false} InvStep(s: State, step: Step)
    requires Inv(s) && CanTake(s, step)
    ensures Inv(Take(s, step))
  {
    var after := Take(s, step);
    assert s.nextWorker in s.threads ==> ThreadOk(s, s.nextWorker);
    CountStep(s, step);
    forall t | t in after.slots ensures t in after.threads && SlotOk(after, t) {
      SlotStep(s, step, t);
    }
    forall t | t in after.threads ensures ThreadOk(after, t) {
      ThreadStep(s, step, t);
    }
    forall j | j in after.jobs ensures JobOk(after, j) {
      JobStep(s, step, j);
    }
    forall i, j | i in after.jobs && j in after.jobs ensures Apart(after, i, j) {
      ApartStep(s, step, i, j);
    }
  }

  lemma {:induction false} InitialHolds(capacity: nat)
    ensures Inv(Initial(capacity))
  {
  }

  lemma {:induction false} InvRun(run: seq<State>, i: nat)
    requires IsRun(run) && Inv(run[0]) && i < |run|
    ensures Inv(run[i]) && run[i].capacity == run[0].capacity
    decreases i
  {
    if i > 0 {
      InvRun(run, i - 1);
      assert NextAt(run, i - 1);
      var step :| CanTake(run[i - 1], step) && Take(run[i - 1], step) == run[i];
      InvStep(run[i - 1], step);
      CountStep(run[i - 1], step);
    }
  }

  // ---- Main results: `run` is any run of the pool from its start ----

  /** The threads that exist: spawned and not yet joined. */
  ghost function Existing(s: State): set<nat> {
    set t | t in s.threads && !s.threads[t].progress.Joined?
  }

  /**
    In every state of every run the slots are within capacity and every existing thread occupies
    a slot of its own, so the number of actual threads, retiring ones included, stays within
    capacity.  Idle slots always carry a context.
   */
  lemma {:induction false} ThreadsStayBounded(capacity: nat, run: seq<State>, i: nat)
    requires IsRun(run) && run[0] == Initial(capacity) && i < |run|
    ensures |run[i].slots| <= capacity
    ensures Existing(run[i]) <= run[i].slots.Keys && |Existing(run[i])| <= capacity
    ensures forall t :: t in run[i].slots ==> t in run[i].threads && t < run[i].nextWorker
    ensures forall t :: t in run[i].slots && run[i].slots[t].Idle? ==> run[i].slots[t].context.Some?
  {
    InvRun(run, i);
    var s := run[i];
    forall t | t in Existing(s) ensures t in s.slots {
      assert ThreadOk(s, t);
    }
    assert |s.slots.Keys| == |Existing(s)| + |s.slots.Keys - Existing(s)|;
    forall t | t in s.slots ensures t in s.threads && t < s.nextWorker {
      assert ThreadOk(s, t) && SlotOk(s, t);
    }
  }

  lemma {:induction false} JoinedStep(s: State, step: Step, t: nat)
    requires CanTake(s, step) && SlotFine(s, t) && s.nextWorker !in s.threads
    requires t in s.threads && s.threads[t].progress.Joined?
    ensures t in Take(s, step).threads && Take(s, step).threads[t].progress.Joined?
  {
  }

  /** At one step: a joined thread stays joined, and a slot disappears only if its thread is joined. */
  lemma {:induction false} FreedStep(s: State, step: Step, t: nat)
    requires Inv(s) && CanTake(s, step)
    requires t in s.slots || (t in s.threads && s.threads[t].progress.Joined?)
    ensures t in Take(s, step).slots
         || (t in Take(s, step).threads && Take(s, step).threads[t].progress.Joined?)
  {
    CountStep(s, step);
    assert s.nextWorker in s.threads ==> ThreadOk(s, s.nextWorker);
    assert t in s.slots ==> SlotOk(s, t);
    if t in s.threads && s.threads[t].progress.Joined? {
      JoinedStep(s, step, t);
    }
  }

  /**
    A slot held at one point of a run and missing at a later one belonged to a thread that has
    been joined, however reaper start-up, queue transfers, spawns and sends fared in between.
   */
  lemma {:induction false} SlotFreedOnlyByJoin(capacity: nat, run: seq<State>, i: nat, j: nat, t: nat)
    requires IsRun(run) && run[0] == Initial(capacity) && i <= j < |run|
    requires t in run[i].slots
    ensures t in run[j].slots || (t in run[j].threads && run[j].threads[t].progress.Joined?)
    decreases j - i
  {
    hide Inv, CanTake, Take;
    InitialHolds(capacity);
    if i < j {
      SlotFreedOnlyByJoin(capacity, run, i, j - 1, t);
      InvRun(run, j - 1);
      assert NextAt(run, j - 1);
      var step :| CanTake(run[j - 1], step) && Take(run[j - 1], step) == run[j];
      FreedStep(run[j - 1], step, t);
    }
  }

  /**
    Every job has gone through a prefix of run, settle, publish, recycle, each at most once.  It
    is with the submitter or handed back untouched, or with exactly one thread, whose context is
    the submitter's; that thread has no other unfinished job and is not idle.
   */
  lemma {:induction false} JobsRunOnceInOrder(capacity: nat, run: seq<State>, i: nat, j: nat)
    requires IsRun(run) && run[0] == Initial(capacity) && i < |run| && j in run[i].jobs
    ensures var job := run[i].jobs[j];
      && job.trace <= STAGES
      && (job.place.AtSubmitter? || job.place.HandedBack? ==> job.trace == [])
      && (job.place.Finished? ==> job.trace == STAGES)
      && (job.place.At? || job.place.Finished? ==>
            && job.place.thread in run[i].threads
            && run[i].threads[job.place.thread].context == job.context)
      && (job.place.At? ==>
            && (forall k :: k in run[i].jobs && run[i].jobs[k].place == job.place ==> k == j)
            && (job.place.thread in run[i].slots ==> !run[i].slots[job.place.thread].Idle?))
  {
    InvRun(run, i);
    var s := run[i];
    assert JobOk(s, j);
    forall k | k in s.jobs && s.jobs[j].place.At? && s.jobs[k].place == s.jobs[j].place
      ensures k == j
    {
      assert Apart(s, j, k);
    }
  }
}
