/**
  The lock-protected state of the native worker pool in
  crates/packetcraftr-netio/src/workers.rs, with one method for each region that runs under the
  pool lock.  Each method is shown to be a path of the transition system in `PoolProtocol`, so
  what holds of every run there holds of the pool.

  What the surroundings answer is an input: `finished` and `disconnected` are what `is_finished` and
  a failed send report, `spawns` says whether a thread can be started, and `Reaper` how the reaper behaves.
 */
module WorkerPool {
  import opened Wrappers
  import P = PoolProtocol

  datatype Worker = Worker(id: nat, context: P.Context)

  datatype Retiring = Retiring(thread: nat, pending: bool, complete: bool)

  /** How one pass of `dispatch` ends: job sent, job returned in the error, or wait and retry. */
  datatype Outcome = Sent | HandedBack | Waiting

  /**
    Whether the reaper can be started, whose join task it takes when a worker retires, and whose it
    takes when a kept task is offered again.
   */
  datatype Reaper = Reaper(starts: bool, takes: set<nat>, retakes: set<nat>)

  function SwapRemove(workers: seq<Worker>, i: nat): (rest: seq<Worker>)
    requires i < |workers|
    ensures |rest| == |workers| - 1
  {
    var last := |workers| - 1;
    if i == last then workers[..last] else workers[..last][i := workers[last]]
  }

  // ---- The three lists against the model's slot map ----

  ghost predicate Link(
    slots: map<nat, P.Slot>, idle: seq<Worker>, busy: map<nat, Worker>, retiring: seq<Retiring>)
  {
    && (forall i :: 0 <= i < |idle| ==>
          idle[i].id in slots && slots[idle[i].id] == P.Idle(idle[i].context))
    && (forall t :: t in busy ==>
          busy[t].id == t && t in slots && slots[t] == P.Busy(busy[t].context))
    && (forall i :: 0 <= i < |retiring| ==>
          && retiring[i].thread in slots
          && slots[retiring[i].thread] == P.Retiring(retiring[i].pending, retiring[i].complete))
    && (forall i, j :: 0 <= i < j < |idle| ==> idle[i].id != idle[j].id)
    && (forall i, j :: 0 <= i < j < |retiring| ==> retiring[i].thread != retiring[j].thread)
    && |slots| == |idle| + |busy| + |retiring|
  }

  lemma {:induction false} SlotTakenOut(slots: map<nat, P.Slot>, t: nat)
    requires t in slots
    ensures |slots - {t}| == |slots| - 1
  {
    assert slots == (slots - {t})[t := slots[t]];
  }

  lemma {:induction false} WithoutIdle(
    slots: map<nat, P.Slot>, idle: seq<Worker>, busy: map<nat, Worker>, retiring: seq<Retiring>, i: nat)
    requires Link(slots, idle, busy, retiring) && i < |idle|
    ensures Link(slots - {idle[i].id}, idle[..i] + idle[i + 1..], busy, retiring)
  {
    SlotTakenOut(slots, idle[i].id);
    var rest := idle[..i] + idle[i + 1..];
    forall k | 0 <= k < |rest| ensures rest[k] == idle[if k < i then k else k + 1] {}
  }

  lemma {:induction false} WithoutSwappedIdle(
    slots: map<nat, P.Slot>, idle: seq<Worker>, busy: map<nat, Worker>, retiring: seq<Retiring>, i: nat)
    requires Link(slots, idle, busy, retiring) && i < |idle|
    ensures Link(slots - {idle[i].id}, SwapRemove(idle, i), busy, retiring)
  {
    SlotTakenOut(slots, idle[i].id);
    var rest := SwapRemove(idle, i);
    forall k | 0 <= k < |rest| ensures rest[k] == idle[if k == i then |idle| - 1 else k] {}
  }

  lemma {:induction false} WithoutBusy(
    slots: map<nat, P.Slot>, idle: seq<Worker>, busy: map<nat, Worker>, retiring: seq<Retiring>, t: nat)
    requires Link(slots, idle, busy, retiring) && t in busy
    ensures Link(slots - {t}, idle, busy - {t}, retiring)
  {
    SlotTakenOut(slots, t);
    assert busy == (busy - {t})[t := busy[t]];
  }

  lemma {:induction false} WithoutRetiring(
    slots: map<nat, P.Slot>, idle: seq<Worker>, busy: map<nat, Worker>, retiring: seq<Retiring>, i: nat)
    requires Link(slots, idle, busy, retiring) && i < |retiring|
    ensures Link(slots - {retiring[i].thread}, idle, busy, retiring[..i] + retiring[i + 1..])
  {
    SlotTakenOut(slots, retiring[i].thread);
  }

  lemma {:induction false} WithIdle(
    slots: map<nat, P.Slot>, idle: seq<Worker>, busy: map<nat, Worker>, retiring: seq<Retiring>, w: Worker)
    requires Link(slots, idle, busy, retiring) && w.id !in slots
    ensures Link(slots[w.id := P.Idle(w.context)], idle + [w], busy, retiring)
  {
  }

  lemma {:induction false} WithBusy(
    slots: map<nat, P.Slot>, idle: seq<Worker>, busy: map<nat, Worker>, retiring: seq<Retiring>, w: Worker)
    requires Link(slots, idle, busy, retiring) && w.id !in slots
    ensures Link(slots[w.id := P.Busy(w.context)], idle, busy[w.id := w], retiring)
  {
  }

  lemma {:induction false} WithRetiring(
    slots: map<nat, P.Slot>, idle: seq<Worker>, busy: map<nat, Worker>, retiring: seq<Retiring>, r: Retiring)
    requires Link(slots, idle, busy, retiring) && r.thread !in slots
    ensures Link(slots[r.thread := P.Retiring(r.pending, r.complete)], idle, busy, retiring + [r])
  {
  }

  lemma {:induction false} BackAsRetiring(
    slots: map<nat, P.Slot>, idle: seq<Worker>, busy: map<nat, Worker>, retiring: seq<Retiring>, r: Retiring)
    requires Link(slots - {r.thread}, idle, busy, retiring)
    ensures Link(slots[r.thread := P.Retiring(r.pending, r.complete)], idle, busy, retiring + [r])
  {
    WithRetiring(slots - {r.thread}, idle, busy, retiring, r);
    assert (slots - {r.thread})[r.thread := P.Retiring(r.pending, r.complete)]
        == slots[r.thread := P.Retiring(r.pending, r.complete)];
  }

  lemma {:induction false} WithRetiringChanged(
    slots: map<nat, P.Slot>, idle: seq<Worker>, busy: map<nat, Worker>, retiring: seq<Retiring>,
    i: nat, r: Retiring)
    requires Link(slots, idle, busy, retiring) && i < |retiring| && r.thread == retiring[i].thread
    ensures Link(slots[r.thread := P.Retiring(r.pending, r.complete)], idle, busy, retiring[i := r])
  {
  }

  // ---- What stays on a list ----

  /** The retirements whose join has not completed, in order. */
  ghost function Incomplete(retiring: seq<Retiring>): seq<Retiring> {
    if retiring == [] then []
    else Incomplete(retiring[..|retiring| - 1])
         + (if retiring[|retiring| - 1].complete then [] else [retiring[|retiring| - 1]])
  }

  lemma {:induction false} CompleteDropped(retiring: seq<Retiring>, i: nat)
    requires i < |retiring| && retiring[i].complete
    ensures Incomplete(retiring[..i] + retiring[i + 1..]) == Incomplete(retiring)
    decreases |retiring|
  {
    var last := |retiring| - 1;
    var rest := retiring[..i] + retiring[i + 1..];
    if i < last {
      CompleteDropped(retiring[..last], i);
      assert rest[..last - 1] == retiring[..last][..i] + retiring[..last][i + 1..];
      assert rest[last - 1] == retiring[last];
    } else {
      assert rest == retiring[..last];
    }
  }

  lemma {:induction false} NoneDropped(retiring: seq<Retiring>)
    requires forall i :: 0 <= i < |retiring| ==> !retiring[i].complete
    ensures Incomplete(retiring) == retiring
  {
    if retiring != [] {
      NoneDropped(retiring[..|retiring| - 1]);
    }
  }

  /** The workers not reported finished, in order. */
  ghost function Unfinished(workers: seq<Worker>, finished: set<nat>): seq<Worker> {
    if workers == [] then []
    else Unfinished(workers[..|workers| - 1], finished)
         + (if workers[|workers| - 1].id in finished then [] else [workers[|workers| - 1]])
  }

  lemma {:induction false} FinishedDropped(workers: seq<Worker>, finished: set<nat>, i: nat)
    requires i < |workers| && workers[i].id in finished
    ensures Unfinished(workers[..i] + workers[i + 1..], finished) == Unfinished(workers, finished)
    decreases |workers|
  {
    var last := |workers| - 1;
    var rest := workers[..i] + workers[i + 1..];
    if i < last {
      FinishedDropped(workers[..last], finished, i);
      assert rest[..last - 1] == workers[..last][..i] + workers[..last][i + 1..];
      assert rest[last - 1] == workers[last];
    } else {
      assert rest == workers[..last];
    }
  }

  lemma {:induction false} AllUnfinished(workers: seq<Worker>, finished: set<nat>)
    requires forall i :: 0 <= i < |workers| ==> workers[i].id !in finished
    ensures Unfinished(workers, finished) == workers
  {
    if workers != [] {
      AllUnfinished(workers[..|workers| - 1], finished);
    }
  }

  ghost function UnfinishedBusy(busy: map<nat, Worker>, finished: set<nat>): map<nat, Worker> {
    map t | t in busy && t !in finished :: busy[t]
  }

  lemma {:induction false} FinishedBusyDropped(busy: map<nat, Worker>, finished: set<nat>, t: nat)
    requires t in finished
    ensures UnfinishedBusy(busy - {t}, finished) == UnfinishedBusy(busy, finished)
  {
  }

  lemma {:induction false} AllBusyUnfinished(busy: map<nat, Worker>, finished: set<nat>)
    requires forall t :: t in busy ==> t !in finished
    ensures UnfinishedBusy(busy, finished) == busy
  {
  }

  /** Worker `i` is the first of the context. */
  ghost predicate IsFirst(workers: seq<Worker>, context: P.Context, i: nat) {
    && i < |workers| && workers[i].context == context
    && forall k :: 0 <= k < i ==> workers[k].context != context
  }

  ghost predicate NoneOf(workers: seq<Worker>, context: P.Context) {
    forall i :: 0 <= i < |workers| ==> workers[i].context != context
  }

  /** Something has finished, or a join task is still waiting for the reaper. */
  ghost predicate NeedsReaping(
    idle: seq<Worker>, busy: map<nat, Worker>, retiring: seq<Retiring>, finished: set<nat>)
  {
    || (exists t :: t in busy && t in finished)
    || (exists i :: 0 <= i < |idle| && idle[i].id in finished)
    || (exists i :: 0 <= i < |retiring| && retiring[i].pending)
  }

  /** The retirement after its join task, if kept, was offered to the reaper again. */
  function Offered(r: Retiring, reaper: Reaper): Retiring {
    r.(pending := r.pending && r.thread !in reaper.retakes)
  }

  /** Retirements just begun: only the join tasks the reaper did not take are kept. */
  ghost predicate Kept(retiring: seq<Retiring>, reaper: Reaper) {
    forall i :: 0 <= i < |retiring| ==>
      retiring[i].pending == (retiring[i].thread !in reaper.takes) && !retiring[i].complete
  }

  /** The same retirements in the same order, their join tasks perhaps handed over, and new ones behind. */
  ghost predicate Continues(before: seq<Retiring>, after: seq<Retiring>) {
    && |before| <= |after|
    && forall i :: 0 <= i < |before| ==>
         && after[i].thread == before[i].thread && after[i].complete == before[i].complete
         && (after[i].pending ==> before[i].pending)
  }

  class Pool {
    const capacity: nat
    var idle: seq<Worker>
    var busy: map<nat, Worker>
    var retiring: seq<Retiring>
    var nextWorker: nat
    var reaperStarted: bool
    ghost var model: P.State

    function ThreadCount(): nat
      reads this
    {
      |idle| + |busy| + |retiring|
    }

    ghost predicate Valid()
      reads this
    {
      Aligned() && Link(model.slots, idle, busy, retiring)
    }

    /** All of `Valid` but the lists. */
    ghost predicate Aligned()
      reads this
    {
      model.capacity == capacity && model.nextWorker == nextWorker && P.Numbered(model)
    }

    constructor (capacity: nat)
      ensures Valid() && this.capacity == capacity
      ensures model == P.Initial(capacity) && ThreadCount() == 0
    {
      this.capacity := capacity;
      idle, busy, retiring, nextWorker, reaperStarted := [], map[], [], 0, false;
      model := P.Initial(capacity);
    }

    method RetirementReaper(reaper: Reaper) returns (available: bool)
      modifies `reaperStarted
      ensures available == (old(reaperStarted) || reaper.starts)
      ensures reaperStarted == available
    {
      if reaperStarted {
        available := true;
      } else {
        reaperStarted := reaper.starts;
        available := reaper.starts;
      }
    }

    method Retire(worker: Worker, reaper: Reaper)
      requires Aligned() && Link(model.slots - {worker.id}, idle, busy, retiring)
      requires P.IsIdle(model, worker.id)
            || (P.IsBusy(model, worker.id) && model.threads[worker.id].progress.Exited?)
      modifies `retiring, `model
      ensures Valid() && P.Housekeeping(old(model), model)
      ensures retiring == old(retiring) + [Retiring(worker.id, worker.id !in reaper.takes, false)]
    {
      hide Link, P.Leads;
      var pending := worker.id !in reaper.takes;
      BackAsRetiring(model.slots, idle, busy, retiring, Retiring(worker.id, pending, false));
      P.LeadsByStep(model, if P.IsIdle(model, worker.id) then P.RetireIdle(worker.id, pending)
                           else P.RetireFinished(worker.id, pending));
      P.SameProgresses(model.threads, worker.id, model.threads[worker.id].(hungUp := true));
      model := P.Retire(model, worker.id, pending);
      retiring := retiring + [Retiring(worker.id, pending, false)];
    }

    /** Frees the slot of a retirement whose join has completed. */
    method PruneAt(i: nat)
      requires Valid() && i < |retiring| && retiring[i].complete
      modifies `retiring, `model
      ensures Valid() && P.Housekeeping(old(model), model)
      ensures retiring == old(retiring)[..i] + old(retiring)[i + 1..]
    {
      WithoutRetiring(model.slots, idle, busy, retiring, i);
      P.LeadsByStep(model, P.Prune(retiring[i].thread));
      model := model.(slots := model.slots - {retiring[i].thread});
      retiring := retiring[..i] + retiring[i + 1..];
    }

    method PruneRetired()
      requires Valid()
      modifies `retiring, `model
      ensures Valid() && P.Housekeeping(old(model), model)
      ensures retiring == Incomplete(old(retiring))
      ensures forall i :: 0 <= i < |retiring| ==> !retiring[i].complete
    {
      hide Link, P.Housekeeping;
      P.HousekeepingNone(model);
      while exists i :: 0 <= i < |retiring| && retiring[i].complete
        invariant Valid() && P.Housekeeping(old(model), model)
        invariant Incomplete(retiring) == Incomplete(old(retiring))
        decreases |retiring|
      {
        var i :| 0 <= i < |retiring| && retiring[i].complete;
        ghost var before := model;
        CompleteDropped(retiring, i);
        PruneAt(i);
        P.HousekeepingOn(old(model), before, model);
      }
      NoneDropped(retiring);
    }

    /** Offers a kept join task to the reaper; the queue may refuse it again. */
    method TransferAt(i: nat, reaper: Reaper)
      requires Valid() && i < |retiring|
      modifies `retiring, `model
      ensures Valid() && P.Housekeeping(old(model), model)
      ensures retiring == old(retiring)[i := Offered(old(retiring)[i], reaper)]
    {
      P.HousekeepingNone(model);
      if retiring[i].pending && retiring[i].thread in reaper.retakes {
        var r := retiring[i].(pending := false);
        WithRetiringChanged(model.slots, idle, busy, retiring, i, r);
        P.LeadsByStep(model, P.Transfer(r.thread));
        model := P.SetSlot(model, r.thread, model.slots[r.thread].(pending := false));
        retiring := retiring[i := r];
      }
    }

    method RetireBusyAt(t: nat, reaper: Reaper)
      requires Valid() && t in busy && t in model.threads && model.threads[t].progress.Exited?
      modifies `busy, `retiring, `model
      ensures Valid() && P.Housekeeping(old(model), model)
      ensures busy == old(busy) - {t}
      ensures retiring == old(retiring) + [Retiring(t, t !in reaper.takes, false)]
      ensures ThreadCount() == old(ThreadCount())
    {
      WithoutBusy(model.slots, idle, busy, retiring, t);
      var worker := busy[t];
      busy := busy - {t};
      Retire(worker, reaper);
    }

    method RetireIdleAt(i: nat, reaper: Reaper)
      requires Valid() && i < |idle|
      modifies `idle, `retiring, `model
      ensures Valid() && P.Housekeeping(old(model), model)
      ensures idle == old(idle)[..i] + old(idle)[i + 1..]
      ensures retiring == old(retiring) + [Retiring(old(idle)[i].id, old(idle)[i].id !in reaper.takes, false)]
      ensures ThreadCount() == old(ThreadCount())
    {
      WithoutIdle(model.slots, idle, busy, retiring, i);
      var worker := idle[i];
      idle := idle[..i] + idle[i + 1..];
      Retire(worker, reaper);
    }

    /** What `is_finished` may report: only threads whose main function has returned. */
    ghost predicate Observed(threads: set<nat>)
      reads this
    {
      forall t :: t in threads ==>
        t in P.Progresses(model.threads) && P.Progresses(model.threads)[t].Exited?
    }

    method RetireFinishedBusy(finished: set<nat>, reaper: Reaper)
      requires Valid() && Observed(finished)
      modifies `busy, `retiring, `model
      ensures Valid() && P.Housekeeping(old(model), model)
      ensures busy == UnfinishedBusy(old(busy), finished) && old(retiring) <= retiring
      ensures Kept(retiring[|old(retiring)|..], reaper) && ThreadCount() == old(ThreadCount())
    {
      hide Link, P.Leads, UnfinishedBusy;
      P.HousekeepingNone(model);
      while exists t :: t in busy && t in finished
        invariant Valid() && P.Housekeeping(old(model), model)
        invariant UnfinishedBusy(busy, finished) == UnfinishedBusy(old(busy), finished)
        invariant old(retiring) <= retiring
        invariant Kept(retiring[|old(retiring)|..], reaper) && ThreadCount() == old(ThreadCount())
        decreases busy.Keys
      {
        var t :| t in busy && t in finished;
        ghost var before := model;
        FinishedBusyDropped(busy, finished, t);
        RetireBusyAt(t, reaper);
        P.HousekeepingOn(old(model), before, model);
      }
      AllBusyUnfinished(busy, finished);
    }

    method RetireFinishedIdle(finished: set<nat>, reaper: Reaper)
      requires Valid()
      modifies `idle, `retiring, `model
      ensures Valid() && P.Housekeeping(old(model), model)
      ensures idle == Unfinished(old(idle), finished) && old(retiring) <= retiring
      ensures Kept(retiring[|old(retiring)|..], reaper) && ThreadCount() == old(ThreadCount())
    {
      hide Link, P.Housekeeping;
      P.HousekeepingNone(model);
      while exists i :: 0 <= i < |idle| && idle[i].id in finished
        invariant Valid() && P.Housekeeping(old(model), model)
        invariant Unfinished(idle, finished) == Unfinished(old(idle), finished)
        invariant old(retiring) <= retiring
        invariant Kept(retiring[|old(retiring)|..], reaper) && ThreadCount() == old(ThreadCount())
        decreases |idle|
      {
        var i :| 0 <= i < |idle| && idle[i].id in finished;
        ghost var before := model;
        FinishedDropped(idle, finished, i);
        RetireIdleAt(i, reaper);
        P.HousekeepingOn(old(model), before, model);
      }
      AllUnfinished(idle, finished);
    }

    method TransferPending(reaper: Reaper)
      requires Valid()
      modifies `retiring, `model
      ensures Valid() && P.Housekeeping(old(model), model)
      ensures |retiring| == |old(retiring)| && Continues(old(retiring), retiring)
      ensures forall i :: 0 <= i < |retiring| ==> retiring[i] == Offered(old(retiring)[i], reaper)
    {
      hide Link, P.Housekeeping;
      P.HousekeepingNone(model);
      for i := 0 to |retiring|
        invariant i <= |retiring| == |old(retiring)|
        invariant Valid() && P.Housekeeping(old(model), model)
        invariant forall k :: 0 <= k < i ==> retiring[k] == Offered(old(retiring)[k], reaper)
        invariant forall k :: i <= k < |retiring| ==> retiring[k] == old(retiring)[k]
      {
        ghost var before := model;
        TransferAt(i, reaper);
        P.HousekeepingOn(old(model), before, model);
      }
    }

    method ReapFinished(finished: set<nat>, reaper: Reaper)
      requires Valid() && Observed(finished)
      modifies `idle, `busy, `retiring, `model
      ensures Valid() && P.Housekeeping(old(model), model)
      ensures busy == UnfinishedBusy(old(busy), finished)
      ensures idle == Unfinished(old(idle), finished)
      ensures Continues(old(retiring), retiring) && ThreadCount() == old(ThreadCount())
    {
      hide Link, P.Leads;
      RetireFinishedBusy(finished, reaper);
      ghost var first := model;
      RetireFinishedIdle(finished, reaper);
      P.HousekeepingOn(old(model), first, model);
      ghost var second := model;
      TransferPending(reaper);
      P.HousekeepingOn(old(model), second, model);
    }

    method NeedsReaper(finished: set<nat>) returns (needed: bool)
      ensures needed <==> NeedsReaping(idle, busy, retiring, finished)
    {
      var finishedBusy := exists t :: t in busy && t in finished;
      var finishedIdle := exists i :: 0 <= i < |idle| && idle[i].id in finished;
      var pending := exists i :: 0 <= i < |retiring| && retiring[i].pending;
      needed := finishedBusy || finishedIdle || pending;
    }

    /**
      Frees what has been joined and retires whatever has finished; every other worker keeps its
      place. Without a reaper the idle and busy lists stay as they were.
     */
    method MaintainWorkers(finished: set<nat>, reaper: Reaper) returns (ok: bool)
      requires Valid() && Observed(finished)
      modifies `idle, `busy, `retiring, `reaperStarted, `model
      ensures Valid() && P.Housekeeping(old(model), model)
      ensures ok ==> busy == UnfinishedBusy(old(busy), finished) && idle == Unfinished(old(idle), finished)
      ensures !ok ==> idle == old(idle) && busy == old(busy)
      ensures Continues(Incomplete(old(retiring)), retiring)
      ensures ThreadCount() == |old(idle)| + |old(busy)| + |Incomplete(old(retiring))|
      ensures var needed := NeedsReaping(old(idle), old(busy), Incomplete(old(retiring)), finished);
        && ok == (needed ==> old(reaperStarted) || reaper.starts)
        && reaperStarted == (old(reaperStarted) || (needed && reaper.starts))
    {
      hide Link, P.Leads;
      PruneRetired();
      var needed := NeedsReaper(finished);
      if !needed {
        AllUnfinished(idle, finished);
        assert busy == UnfinishedBusy(busy, finished);
        return true;
      }
      ok := RetirementReaper(reaper);
      if ok {
        ghost var pruned := model;
        ReapFinished(finished, reaper);
        P.HousekeepingOn(old(model), pruned, model);
      }
    }

    method HandBackJob(job: nat) returns (outcome: Outcome)
      requires Valid() && P.Waits(model, job)
      modifies `model
      ensures Valid() && P.Leads(old(model), model) && outcome.HandedBack?
      ensures model.jobs == old(model.jobs)[job := old(model.jobs[job]).(place := P.HandedBack)]
    {
      P.LeadsByStep(model, P.HandBack(job));
      model := model.(jobs := model.jobs[job := model.jobs[job].(place := P.HandedBack)]);
      outcome := HandedBack;
    }

    method FindIdle(context: P.Context) returns (position: Option<nat>)
      ensures if position.Some? then IsFirst(idle, context, position.value) else NoneOf(idle, context)
    {
      for i := 0 to |idle|
        invariant forall k :: 0 <= k < i ==> idle[k].context != context
      {
        if idle[i].context == context {
          return Some(i);
        }
      }
      position := None;
    }

    method ReuseAt(i: nat, job: nat) returns (outcome: Outcome)
      requires Valid() && i < |idle| && P.Waits(model, job)
      requires idle[i].context.Some? && idle[i].context == model.jobs[job].context
      modifies `idle, `busy, `model
      ensures Valid() && P.Leads(old(model), model) && outcome.Sent?
      ensures model.jobs == old(model.jobs)[job := old(model.jobs[job]).(place := P.At(old(idle[i]).id))]
      ensures busy == old(busy)[old(idle[i]).id := old(idle[i])]
    {
      hide P.Leads;
      var worker := idle[i];
      WithoutSwappedIdle(model.slots, idle, busy, retiring, i);
      WithBusy(model.slots - {worker.id}, SwapRemove(idle, i), busy, retiring, worker);
      assert (model.slots - {worker.id})[worker.id := P.Busy(worker.context)]
          == model.slots[worker.id := P.Busy(worker.context)];
      P.LeadsByStep(model, P.Reuse(worker.id, job));
      model := P.Deliver(P.SetSlot(model, worker.id, P.Busy(model.slots[worker.id].context)), worker.id, job);
      idle := SwapRemove(idle, i);
      busy := busy[worker.id := worker];
      outcome := Sent;
    }

    /** A refused worker is put back at the end of the idle list when no reaper can be started. */
    method RequeueAt(i: nat)
      requires Valid() && i < |idle|
      modifies `idle
      ensures Valid() && idle == SwapRemove(old(idle), i) + [old(idle)[i]]
    {
      var worker := idle[i];
      WithoutSwappedIdle(model.slots, idle, busy, retiring, i);
      WithIdle(model.slots - {worker.id}, SwapRemove(idle, i), busy, retiring, worker);
      assert (model.slots - {worker.id})[worker.id := P.Idle(worker.context)] == model.slots;
      idle := SwapRemove(idle, i) + [worker];
    }

    method RetireSwappedAt(i: nat, reaper: Reaper)
      requires Valid() && i < |idle|
      modifies `idle, `retiring, `model
      ensures Valid() && P.Housekeeping(old(model), model)
      ensures idle == SwapRemove(old(idle), i)
      ensures ThreadCount() == old(ThreadCount())
    {
      WithoutSwappedIdle(model.slots, idle, busy, retiring, i);
      var worker := idle[i];
      idle := SwapRemove(idle, i);
      Retire(worker, reaper);
    }

    /** Starts a thread with the next id and gives it the job; a failed start uses up the id. */
    method SpawnFor(job: nat, context: P.Context, spawns: bool) returns (outcome: Outcome)
      requires Valid() && P.Waits(model, job) && model.jobs[job].context == context
      requires ThreadCount() < capacity
      modifies `busy, `nextWorker, `model
      ensures Valid() && P.Leads(old(model), model)
      ensures outcome == (if spawns then Sent else HandedBack) && nextWorker == old(nextWorker) + 1
      ensures outcome.Sent? ==>
                && model.jobs == old(model.jobs)[job := old(model.jobs[job]).(place := P.At(old(nextWorker)))]
                && busy == old(busy)[old(nextWorker) := Worker(old(nextWorker), context)]
      ensures outcome.HandedBack? ==>
                && model.jobs == old(model.jobs)[job := old(model.jobs[job]).(place := P.HandedBack)]
                && busy == old(busy)
    {
      hide P.Leads;
      var id := nextWorker;
      nextWorker := nextWorker + 1;
      if spawns {
        WithBusy(model.slots, idle, busy, retiring, Worker(id, context));
        P.LeadsByStep(model, P.Spawn(job));
        model := P.Spawned(model, job);
        busy := busy[id := Worker(id, context)];
        outcome := Sent;
      } else {
        P.LeadsByStep(model, P.SpawnFails);
        model := model.(nextWorker := model.nextWorker + 1);
        ghost var burned := model;
        outcome := HandBackJob(job);
        P.LeadsOn(old(model), burned, model);
      }
    }

    /**
      Reuses the first idle thread of the submitter's context.  If the send is refused the thread is
      retired and dispatching goes on, unless no reaper can be started.
     */
    method TryReuse(job: nat, context: P.Context, disconnected: set<nat>, reaper: Reaper)
      returns (done: Option<Outcome>)
      requires Valid() && P.Waits(model, job) && model.jobs[job].context == context
      modifies `idle, `busy, `retiring, `reaperStarted, `model
      ensures Valid() && P.Leads(old(model), model)
      ensures done.None? ==>
                && model.jobs == old(model.jobs)
                && ThreadCount() == old(ThreadCount()) && |idle| <= |old(idle)|
      ensures done.Some? ==> Settles(old(model), job, done.value) && !done.value.Waiting?
      ensures done == Some(HandedBack) ==> !old(reaperStarted) && !reaper.starts
      ensures old(reaperStarted) ==> reaperStarted
      ensures context.None? || NoneOf(old(idle), context) ==> done.None? && idle == old(idle)
      ensures forall i: nat :: context.Some? && IsFirst(old(idle), context, i) ==>
                Tried(old(idle), i, job, disconnected, old(reaperStarted) || reaper.starts, done)
    {
      hide Link, P.Leads;
      P.LeadsNowhere(model);
      done := None;
      if context.Some? {
        var position := FindIdle(context);
        if position.Some? {
          var i := position.value;
          if idle[i].id !in disconnected {
            var outcome := ReuseAt(i, job);
            return Some(outcome);
          }
          var available := RetirementReaper(reaper);
          if !available {
            RequeueAt(i);
            var outcome := HandBackJob(job);
            return Some(outcome);
          }
          RetireSwappedAt(i, reaper);
        }
      }
    }

    /** What becomes of the first idle worker of the context, at `i`: busy with the job, put back, or retired. */
    ghost predicate Tried(
      before: seq<Worker>, i: nat, job: nat, disconnected: set<nat>, reaped: bool, done: Option<Outcome>)
      requires i < |before|
      reads this
    {
      if before[i].id !in disconnected then done == Some(Sent) && IsAt(job, before[i].id)
      else if reaped then done.None? && idle == SwapRemove(before, i)
      else done == Some(HandedBack) && idle == SwapRemove(before, i) + [before[i]]
    }

    ghost predicate IsAt(job: nat, thread: nat)
      reads this
    {
      job in model.jobs && model.jobs[job].place == P.At(thread)
    }

    /** The job went to a worker of its own context, or came back as it was submitted. */
    ghost predicate Settles(before: P.State, job: nat, outcome: Outcome)
      reads this
    {
      && job in before.jobs && job in model.jobs
      && model.jobs == before.jobs[job := model.jobs[job]]
      && match outcome
         case Sent =>
           && model.jobs[job].place.At? && model.jobs[job].place.thread in busy
           && busy[model.jobs[job].place.thread].context == before.jobs[job].context
           && model.jobs[job] == before.jobs[job].(place := model.jobs[job].place)
         case HandedBack => model.jobs[job] == before.jobs[job].(place := P.HandedBack)
         case Waiting => model.jobs[job] == before.jobs[job] && ThreadCount() >= capacity
    }

    /** With no free slot, starts retiring one idle thread and frees what has been joined. */
    method MakeRoom(reaper: Reaper) returns (ok: bool)
      requires Valid()
      modifies `idle, `retiring, `reaperStarted, `model
      ensures Valid() && P.Housekeeping(old(model), model)
      ensures ok ==> idle == if old(idle) == [] then [] else old(idle)[..|old(idle)| - 1]
      ensures ok ==> forall i :: 0 <= i < |retiring| ==> !retiring[i].complete
      ensures ok == (old(idle) == [] || old(reaperStarted) || reaper.starts)
      ensures !ok ==> idle == old(idle) && retiring == old(retiring)
    {
      hide Link, P.Housekeeping;
      P.HousekeepingNone(model);
      if idle != [] {
        ok := RetirementReaper(reaper);
        if !ok {
          return;
        }
        RetireIdleAt(|idle| - 1, reaper);
      }
      ghost var retired := model;
      PruneRetired();
      P.HousekeepingOn(old(model), retired, model);
      ok := true;
    }

    /** Starts a thread if there is room or room can be made; otherwise the caller waits and tries again. */
    method FinishDispatch(job: nat, context: P.Context, reaper: Reaper, spawns: bool) returns (outcome: Outcome)
      requires Valid() && P.Waits(model, job) && model.jobs[job].context == context
      modifies this
      ensures Valid() && P.Leads(old(model), model)
      ensures Settles(old(model), job, outcome)
      ensures old(ThreadCount()) < capacity ==> nextWorker == old(nextWorker) + 1
      ensures nextWorker == old(nextWorker) + 1 ==>
                outcome == (if spawns then Sent else HandedBack) && (spawns ==> IsAt(job, old(nextWorker)))
      ensures nextWorker != old(nextWorker) + 1 ==>
                outcome == if old(idle) == [] || old(reaperStarted) || reaper.starts then Waiting else HandedBack
      ensures outcome.Waiting? ==> MadeRoom(old(idle))
    {
      if ThreadCount() < capacity {
        outcome := SpawnFor(job, context, spawns);
        return;
      }
      var room := MakeRoom(reaper);
      ghost var cleared := model;
      if !room {
        outcome := HandBackJob(job);
        P.LeadsOn(old(model), cleared, model);
      } else if ThreadCount() < capacity {
        outcome := SpawnFor(job, context, spawns);
        P.LeadsOn(old(model), cleared, model);
      } else {
        outcome := Waiting;
      }
    }

    /** An idle worker was retired if there was one, and every joined thread's slot was freed. */
    ghost predicate MadeRoom(before: seq<Worker>)
      reads this
    {
      && idle == (if before == [] then [] else before[..|before| - 1])
      && forall i :: 0 <= i < |retiring| ==> !retiring[i].complete
    }

    /** Where the job is after a pass over these unfinished idle workers, with so many threads not yet joined. */
    ghost predicate Dispatched(
      candidates: seq<Worker>, job: nat, context: P.Context, disconnected: set<nat>, spawns: bool,
      threads: nat, next: nat, outcome: Outcome)
      reads this
    {
      && (forall i: nat :: context.Some? && IsFirst(candidates, context, i) && candidates[i].id !in disconnected ==>
            outcome.Sent? && IsAt(job, candidates[i].id) && nextWorker == next)
      && (threads < capacity && (context.None? || NoneOf(candidates, context)) ==>
            nextWorker == next + 1 && (outcome.Sent? <==> spawns))
      && (nextWorker == next + 1 && outcome.Sent? ==> IsAt(job, next))
      && (nextWorker == next && outcome.HandedBack? ==> candidates != [])
      && (outcome.Waiting? ==> threads >= capacity && (candidates != [] ==> |idle| < |candidates|)
                               && forall i :: 0 <= i < |retiring| ==> !retiring[i].complete)
    }

    /** The rest of a pass, once the lists are maintained. */
    method PlaceJob(job: nat, context: P.Context, disconnected: set<nat>, reaper: Reaper, spawns: bool)
      returns (outcome: Outcome)
      requires Valid() && P.Waits(model, job) && model.jobs[job].context == context
      modifies this
      ensures Valid() && P.Leads(old(model), model)
      ensures Settles(old(model), job, outcome)
      ensures outcome.HandedBack? ==>
                || (!spawns && nextWorker == old(nextWorker) + 1)
                || (!old(reaperStarted) && !reaper.starts)
      ensures Dispatched(old(idle), job, context, disconnected, spawns, old(ThreadCount()), old(nextWorker), outcome)
    {
      hide Link, P.Leads;
      var done := TryReuse(job, context, disconnected, reaper);
      if done.Some? {
        return done.value;
      }
      ghost var tried := model;
      outcome := FinishDispatch(job, context, reaper, spawns);
      P.LeadsOn(old(model), tried, model);
    }

    /**
      One pass of the `dispatch` loop, from taking the lock to releasing it.  With the reaper there
      and threads starting, no live job is refused: it goes to the first idle worker of its context
      if that one is connected, else to a new thread if there is room, else it waits and some
      worker is on its way out.
     */
    method DispatchPass(
      job: nat, context: P.Context, live: bool, finished: set<nat>, disconnected: set<nat>,
      reaper: Reaper, spawns: bool)
      returns (outcome: Outcome)
      requires Valid() && P.Waits(model, job) && model.jobs[job].context == context
      requires Observed(finished)
      modifies this
      ensures Valid() && P.Leads(old(model), model)
      ensures Settles(old(model), job, outcome)
      ensures !live ==> outcome.HandedBack? && nextWorker == old(nextWorker)
      ensures live && outcome.HandedBack? ==>
                || (!spawns && nextWorker == old(nextWorker) + 1)
                || (!old(reaperStarted) && !reaper.starts)
      ensures var left := Incomplete(old(retiring));
        live && (NeedsReaping(old(idle), old(busy), left, finished) ==> old(reaperStarted) || reaper.starts) ==>
          Dispatched(Unfinished(old(idle), finished), job, context, disconnected, spawns,
                     |old(idle)| + |old(busy)| + |left|, old(nextWorker), outcome)
    {
      hide Link, P.Leads, Unfinished, Incomplete, NeedsReaping, UnfinishedBusy, Continues, Dispatched;
      if !live {
        outcome := HandBackJob(job);
        return;
      }
      var ok := MaintainWorkers(finished, reaper);
      ghost var maintained := model;
      if !ok {
        outcome := HandBackJob(job);
        P.LeadsOn(old(model), maintained, model);
        return;
      }
      outcome := PlaceJob(job, context, disconnected, reaper, spawns);
      P.LeadsOn(old(model), maintained, model);
    }

    /**
      The thread's own return to the pool after publishing.  It is kept only with a context;
      otherwise it is retired, or stays listed as busy when no reaper can be started.
     */
    method Recycle(id: nat, reaper: Reaper) returns (keep: bool)
      requires Valid() && P.Publishes(model, id)
      modifies `idle, `busy, `retiring, `reaperStarted, `model
      ensures Valid() && P.Leads(old(model), model)
      ensures keep == (id in old(busy) && old(busy)[id].context.Some?)
      ensures keep ==> idle == old(idle) + [old(busy[id])] && busy == old(busy) - {id}
      ensures !keep && id in old(busy) ==>
                if old(reaperStarted) || reaper.starts
                then busy == old(busy) - {id} && retiring == old(retiring) + [Retiring(id, id !in reaper.takes, false)]
                else busy == old(busy) && retiring == old(retiring)
      ensures ThreadCount() == old(ThreadCount())
      ensures id in old(busy) ==> model.jobs == P.FinishJob(old(model), id).jobs
    {
      hide P.Leads;
      P.LeadsNowhere(model);
      if id !in busy {
        return false;
      }
      var worker := busy[id];
      keep := worker.context.Some?;
      if keep {
        KeepBusyAt(id);
      } else {
        P.LeadsByStep(model, P.RecycleLast(id));
        model := P.SetProgress(P.FinishJob(model, id), id, P.Exited);
        ghost var exited := model;
        var available := RetirementReaper(reaper);
        if available {
          RetireBusyAt(id, reaper);
          P.LeadsOn(old(model), exited, model);
        }
      }
    }

    method KeepBusyAt(id: nat)
      requires Valid() && id in busy && busy[id].context.Some? && P.IsBusy(model, id) && P.Publishes(model, id)
      modifies `idle, `busy, `model
      ensures Valid() && P.Leads(old(model), model)
      ensures idle == old(idle) + [old(busy[id])] && busy == old(busy) - {id}
      ensures |busy| == |old(busy)| - 1
      ensures model.jobs == P.FinishJob(old(model), id).jobs
    {
      hide P.Leads;
      var worker := busy[id];
      WithoutBusy(model.slots, idle, busy, retiring, id);
      WithIdle(model.slots - {id}, idle, busy - {id}, retiring, worker);
      assert (model.slots - {id})[id := P.Idle(worker.context)] == model.slots[id := P.Idle(worker.context)];
      assert busy == (busy - {id})[id := worker];
      P.LeadsByStep(model, P.RecycleKeep(id));
      model := P.SetProgress(P.SetSlot(P.FinishJob(model, id), id, P.Idle(model.slots[id].context)), id, P.Receiving);
      busy := busy - {id};
      idle := idle + [worker];
    }

    /** The reaper's task: join the thread, then flag the retirement as complete. */
    method CompleteJoin(i: nat)
      requires Valid() && i < |retiring| && !retiring[i].pending && !retiring[i].complete
      requires P.Progresses(model.threads)[retiring[i].thread].Exited?
      modifies `retiring, `model
      ensures Valid() && P.Leads(old(model), model)
      ensures retiring == old(retiring)[i := old(retiring)[i].(complete := true)]
    {
      var r := retiring[i].(complete := true);
      WithRetiringChanged(model.slots, idle, busy, retiring, i, r);
      P.LeadsByStep(model, P.Join(r.thread));
      model := P.SetProgress(P.SetSlot(model, r.thread, model.slots[r.thread].(complete := true)), r.thread, P.Joined);
      retiring := retiring[i := r];
    }

    /** What runs outside the lock (submitting, serving, exiting) leaves the pool's lists valid. */
    ghost method Outside(step: P.Step)
      requires Valid() && P.CanTake(model, step) && P.IsOutside(step)
      modifies `model
      ensures Valid() && model == P.Take(old(model), step)
    {
      model := P.Take(model, step);
    }

    /**
      Whatever path brought the pool here from its start: its idle, busy and retiring lists hold
      distinct threads, all with ids already given out and at most `capacity` of them, every
      thread that exists is one of them, and idle ones carry a context.
     */
    lemma {:induction false} PoolStaysBounded()
      requires Valid() && P.Leads(P.Initial(capacity), model)
      ensures ThreadCount() <= capacity && |P.Existing(model)| <= capacity
      ensures forall i :: 0 <= i < |idle| ==> idle[i].id < nextWorker && idle[i].context.Some?
      ensures forall t :: t in busy ==> t < nextWorker && busy[t].id == t
      ensures forall i, t :: 0 <= i < |idle| && t in busy ==> idle[i].id != t
      ensures forall i, j :: 0 <= i < j < |idle| ==> idle[i].id != idle[j].id
    {
      var run :| P.IsRun(run) && run[0] == P.Initial(capacity) && run[|run| - 1] == model;
      P.ThreadsStayBounded(capacity, run, |run| - 1);
    }
  }
}
