/**
  The bounded stream writer of crates/packetcraftr-cli/src/output/stream.rs: an encoder whose batches
  go through the progressive-output worker of crates/packetcraftr/src/runtime.rs to a callback that
  writes them out. The worker's steps are those of `EmitProtocol`; in between, a running callback
  writes its batch piece by piece, and may fail or panic with any part of it written, even long after
  the encoder has given up waiting.
 */
module BoundedWriter {
  import opened Wrappers
  import opened StreamFormat
  import P = EmitProtocol
  import E = StreamEncoder
  import C = FramingConsumer

  type Batch = seq<Byte>
  type Worker = P.State<Batch, ()>

  /** The call and the batch of a callback that ended without having succeeded. */
  datatype Broken = Broken(call: nat, batch: Batch)

  /** `written` is what has reached the sink, `done` how much of its latest batch a callback has written. */
  datatype State = State(worker: Worker, written: seq<Byte>, done: nat, broken: Option<Broken>)

  datatype Step = Work(step: P.Step<Batch, ()>) | WriteSome(count: nat)

  function Initial(): State {
    State(P.Initial(), [], 0, None)
  }

  /** A callback succeeds only with its whole batch written; it may fail at any point. */
  ghost predicate CanTake(s: State, step: Step) {
    match step
    case Work(w) =>
      && P.CanTake(s.worker, w)
      && (w.FinishCallback? && w.answer.Value? ==> s.done == |s.worker.thread.event|)
    case WriteSome(count) => s.worker.thread.Running? && s.done + count <= |s.worker.thread.event|
  }

  ghost function Take(s: State, step: Step): State
    requires CanTake(s, step)
  {
    match step
    case Work(w) =>
      var worker := P.Take(s.worker, w);
      if w.TakeEvent? then s.(worker := worker, done := 0)
      else if w.PanicInCallback? || (w.FinishCallback? && w.answer.Failure?) then
        s.(worker := worker, broken := Some(Broken(s.worker.thread.call, s.worker.thread.event)))
      else s.(worker := worker)
    case WriteSome(count) =>
      s.(written := s.written + s.worker.thread.event[s.done..s.done + count], done := s.done + count)
  }

  ghost predicate Reaches(s: State, steps: seq<Step>, t: State)
    decreases |steps|
  {
    if steps == [] then s == t
    else CanTake(s, steps[0]) && Reaches(Take(s, steps[0]), steps[1..], t)
  }

  ghost predicate Reachable(s: State) {
    exists steps :: Reaches(Initial(), steps, s)
  }

  // ---- Every batch at work is that of its call ----

  ghost predicate Owned(s: Worker, call: nat, batch: Batch) {
    if call < |s.finished| then s.finished[call].event == batch
    else call == |s.finished| && (s.caller.Waiting? || s.caller.Deciding?) && s.caller.event == batch
  }

  ghost predicate AllOwned(s: Worker) {
    && (s.queued.Some? ==> Owned(s, s.queued.value.0, s.queued.value.1))
    && (s.thread.Running? ==> Owned(s, s.thread.call, s.thread.event))
    && (forall i :: 0 <= i < |s.callbacks| ==> Owned(s, s.callbacks[i].call, s.callbacks[i].event))
  }

  lemma {:induction false} OwnedStays(s: Worker, step: P.Step<Batch, ()>, call: nat, batch: Batch)
    requires P.CanTake(s, step) && Owned(s, call, batch)
    ensures Owned(P.Take(s, step), call, batch)
  {
  }

  lemma {:induction false} OwnedStep(s: Worker, step: P.Step<Batch, ()>)
    requires P.CanTake(s, step) && AllOwned(s)
    ensures AllOwned(P.Take(s, step))
  {
    var t := P.Take(s, step);
    if s.queued.Some? {
      OwnedStays(s, step, s.queued.value.0, s.queued.value.1);
    }
    if s.thread.Running? {
      OwnedStays(s, step, s.thread.call, s.thread.event);
    }
    forall i | 0 <= i < |s.callbacks| ensures Owned(t, s.callbacks[i].call, s.callbacks[i].event) {
      OwnedStays(s, step, s.callbacks[i].call, s.callbacks[i].event);
    }
  }

  // ---- What is in the sink ----

  /** The batches of the callbacks that succeeded, in order. */
  ghost function Whole(callbacks: seq<P.Outcome<Batch, ()>>): seq<Byte> {
    if callbacks == [] then []
    else
      var last := callbacks[|callbacks| - 1];
      Whole(callbacks[..|callbacks| - 1]) + (if last.answer.Value? then last.event else [])
  }

  /** The part of a batch written by a callback that is running or broke off. */
  ghost function Part(s: State): seq<Byte> {
    if s.worker.thread.Running? then s.worker.thread.event[..Min(s.done, |s.worker.thread.event|)]
    else if s.broken.Some? then s.broken.value.batch[..Min(s.done, |s.broken.value.batch|)]
    else []
  }

  /** A broken callback is the failed last one, or panicked after all that finished; none runs any more. */
  ghost predicate BrokenOk(s: State) {
    s.broken.Some? ==>
      && !s.worker.thread.Receiving? && !s.worker.thread.Running?
      && (s.worker.thread.Sending? ==> s.worker.thread.outcome.answer.Failure?)
      && Owned(s.worker, s.broken.value.call, s.broken.value.batch)
      && forall i :: 0 <= i < |s.worker.callbacks| ==>
           || s.worker.callbacks[i].call < s.broken.value.call
           || s.worker.callbacks[i] == P.Outcome(s.broken.value.call, s.broken.value.batch, P.Failure)
  }

  ghost predicate SinkOk(s: State) {
    && (s.worker.thread.Running? ==> s.done <= |s.worker.thread.event| && s.broken.None?)
    && BrokenOk(s)
    && s.written == Whole(s.worker.callbacks) + Part(s)
  }

  ghost predicate Inv(s: State) {
    P.Inv(s.worker) && AllOwned(s.worker) && SinkOk(s)
  }

  lemma {:induction false} WholeGrows(callbacks: seq<P.Outcome<Batch, ()>>, last: P.Outcome<Batch, ()>)
    ensures Whole(callbacks + [last]) == Whole(callbacks) + (if last.answer.Value? then last.event else [])
  {
    assert (callbacks + [last])[..|callbacks|] == callbacks;
  }

  lemma {:induction false} BrokenStep(s: State, step: P.Step<Batch, ()>)
    requires Inv(s) && CanTake(s, Work(step))
    ensures BrokenOk(Take(s, Work(step)))
  {
    var t := Take(s, Work(step));
    if s.broken.Some? {
      OwnedStays(s.worker, step, s.broken.value.call, s.broken.value.batch);
    } else if t.broken.Some? {
      OwnedStays(s.worker, step, s.worker.thread.call, s.worker.thread.event);
    }
  }

  lemma {:induction false} FinishStep(s: State, answer: P.Answer<()>)
    requires SinkOk(s) && CanTake(s, Work(P.FinishCallback(answer)))
    ensures var t := Take(s, Work(P.FinishCallback(answer))); t.written == Whole(t.worker.callbacks) + Part(t)
  {
    hide BrokenOk, Whole;
    var w := s.worker;
    WholeGrows(w.callbacks, P.Outcome(w.thread.call, w.thread.event, answer));
    assert Part(s) == w.thread.event[..s.done];
    assert answer.Value? ==> Part(s) == w.thread.event;
  }

  /** No other step of the worker finishes a callback, and none changes what is partly written. */
  lemma {:induction false} PartStays(s: State, step: P.Step<Batch, ()>)
    requires SinkOk(s) && CanTake(s, Work(step)) && !step.FinishCallback?
    ensures var t := Take(s, Work(step)); t.worker.callbacks == s.worker.callbacks && Part(t) == Part(s)
  {
    hide Whole, Owned;
    assert step.TakeEvent? ==> s.broken.None? && Part(s) == [];
  }

  lemma {:induction false} SinkStep(s: State, step: P.Step<Batch, ()>)
    requires SinkOk(s) && CanTake(s, Work(step))
    ensures var t := Take(s, Work(step)); t.written == Whole(t.worker.callbacks) + Part(t)
  {
    if step.FinishCallback? {
      FinishStep(s, step.answer);
    } else {
      PartStays(s, step);
    }
  }

  lemma {:induction false} WriteStep(s: State, count: nat)
    requires Inv(s) && CanTake(s, WriteSome(count))
    ensures Inv(Take(s, WriteSome(count)))
  {
    hide P.Inv, AllOwned;
    var event := s.worker.thread.event;
    assert event[..s.done] + event[s.done..s.done + count] == event[..s.done + count];
  }

  lemma {:induction false} InvStep(s: State, step: Step)
    requires Inv(s) && CanTake(s, step)
    ensures Inv(Take(s, step))
  {
    match step
    case WriteSome(count) => WriteStep(s, count);
    case Work(w) =>
      P.InvStep(s.worker, w);
      OwnedStep(s.worker, w);
      BrokenStep(s, w);
      SinkStep(s, w);
  }

  lemma {:induction false} InvReaches(s: State, steps: seq<Step>, t: State)
    requires Inv(s) && Reaches(s, steps, t)
    ensures Inv(t)
    decreases |steps|
  {
    if steps != [] {
      InvStep(s, steps[0]);
      InvReaches(Take(s, steps[0]), steps[1..], t);
    }
  }

  lemma {:induction false} InvReachable(s: State)
    requires Reachable(s)
    ensures Inv(s)
  {
    var steps :| Reaches(Initial(), steps, s);
    InvReaches(Initial(), steps, s);
  }

  // ---- The sink against the encoder ----

  ghost predicate AnsweredUpTo(s: Worker, k: nat) {
    k <= |s.finished| && forall i :: 0 <= i < k ==> s.finished[i].result.Answered?
  }

  /** The callbacks of the first `k` calls are the first `k` callbacks, and all of them succeeded. */
  ghost predicate SucceededUpTo(s: Worker, k: nat) {
    && k <= |s.finished| && k <= |s.callbacks|
    && forall i :: 0 <= i < k ==>
         s.callbacks[i].call == i && s.callbacks[i].event == s.finished[i].event && s.callbacks[i].answer.Value?
  }

  lemma {:induction false} AnsweredSucceeded(s: Worker, k: nat)
    requires P.Inv(s) && AnsweredUpTo(s, k)
    ensures SucceededUpTo(s, k)
  {
    hide P.FlagDiscipline, P.WaitsForOwnEvent, P.FailureIsFinal;
    if k > 0 {
      AnsweredSucceeded(s, k - 1);
      var i := k - 1;
      assert P.AnsweredBy(s.callbacks, i, s.finished[i].event, s.finished[i].result.value);
      var j :| 0 <= j < |s.callbacks|
               && s.callbacks[j] == P.Outcome(i, s.finished[i].event, P.Value(s.finished[i].result.value));
      assert i > 0 && i < |s.callbacks| ==> s.callbacks[i - 1].call < s.callbacks[i].call;
      assert j == i;
    }
  }

  /** The batches of the first `k` calls. */
  ghost function Sent(s: Worker, k: nat): seq<Byte>
    requires k <= |s.finished|
  {
    if k == 0 then [] else Sent(s, k - 1) + s.finished[k - 1].event
  }

  lemma {:induction false} WholeIsSent(s: Worker, k: nat)
    requires SucceededUpTo(s, k)
    ensures Whole(s.callbacks[..k]) == Sent(s, k)
  {
    if k > 0 {
      WholeIsSent(s, k - 1);
      assert s.callbacks[..k][..k - 1] == s.callbacks[..k - 1];
    }
  }

  /** Between calls, every callback that finished, runs or broke off is for a call that has returned. */
  lemma {:induction false} NothingElseFinished(s: Worker, k: nat)
    requires P.Inv(s) && AllOwned(s) && s.caller.Idle? && SucceededUpTo(s, k) && |s.finished| <= k + 1
    ensures |s.callbacks| <= |s.finished|
    ensures |s.callbacks| == k + 1 ==> s.callbacks[k].call == k && s.callbacks[k].event == s.finished[k].event
  {
    hide P.FlagDiscipline, P.WaitsForOwnEvent, P.FailureIsFinal, P.OkMeansAnswered;
    if s.callbacks != [] {
      var last := |s.callbacks| - 1;
      CallAtLeast(s, last);
      assert Owned(s, s.callbacks[last].call, s.callbacks[last].event);
    }
  }

  lemma {:induction false} CallAtLeast(s: Worker, j: nat)
    requires P.CallbacksInOrder(s) && j < |s.callbacks|
    ensures s.callbacks[j].call >= j
  {
    if j > 0 {
      CallAtLeast(s, j - 1);
    }
  }

  /** With `k` calls answered and the worker between calls, whatever is partly written is the next batch. */
  lemma {:induction false} PartIsNext(s: State, k: nat)
    requires Inv(s) && s.worker.caller.Idle? && SucceededUpTo(s.worker, k) && |s.worker.finished| <= k + 1
    requires |s.worker.callbacks| <= |s.worker.finished|
    requires |s.worker.callbacks| == k + 1 ==> s.worker.callbacks[k].call == k
    ensures |s.worker.finished| == k ==> Part(s) == []
    ensures |s.worker.finished| == k + 1 ==> Part(s) <= s.worker.finished[k].event
    ensures |s.worker.callbacks| == k + 1 && s.worker.callbacks[k].answer.Value? ==> Part(s) == []
  {
    hide P.FlagDiscipline, P.WaitsForOwnEvent, P.FailureIsFinal, P.OkMeansAnswered, Whole;
    var w := s.worker;
    if w.thread.Running? {
      assert Owned(w, w.thread.call, w.thread.event);
      assert k > 0 ==> w.callbacks[k - 1].call < w.thread.call;
    }
  }

  /** The sink holds the answered batches, and of one batch whose call failed any part. */
  lemma {:induction false} SinkBetweenCalls(s: State, k: nat) returns (count: nat)
    requires Reachable(s) && s.worker.caller.Idle? && AnsweredUpTo(s.worker, k) && |s.worker.finished| <= k + 1
    ensures |s.worker.finished| == k ==> s.written == Sent(s.worker, k)
    ensures |s.worker.finished| == k + 1 ==>
              && count <= |s.worker.finished[k].event|
              && s.written == Sent(s.worker, k) + s.worker.finished[k].event[..count]
  {
    hide P.Inv, AllOwned, BrokenOk, Part, Whole, Sent;
    InvReachable(s);
    var w := s.worker;
    AnsweredSucceeded(w, k);
    WholeIsSent(w, k);
    NothingElseFinished(w, k);
    PartIsNext(s, k);
    if |w.callbacks| == k {
      assert w.callbacks[..k] == w.callbacks;
      count := |Part(s)|;
    } else {
      WholeGrows(w.callbacks[..k], w.callbacks[k]);
      assert w.callbacks == w.callbacks[..k] + [w.callbacks[k]];
      count := if w.callbacks[k].answer.Value? then |w.callbacks[k].event| else |Part(s)|;
    }
  }

  /** The encoder's batches are the worker's calls, written exactly when answered, and no call is under way. */
  ghost predicate Serves(s: State, output: E.Output) {
    && s.worker.caller.Idle? && |s.worker.finished| == |output.handed|
    && forall i :: 0 <= i < |output.handed| ==>
         && s.worker.finished[i].event == output.handed[i].batch
         && (s.worker.finished[i].result.Answered? <==> output.handed[i].write.Written?)
  }

  lemma {:induction false} SentIsFlat(s: State, output: E.Output, k: nat)
    requires Serves(s, output) && k <= |output.handed| && AnsweredUpTo(s.worker, k)
    ensures Sent(s.worker, k) == E.Flat(output.handed[..k])
  {
    if k > 0 {
      SentIsFlat(s, output, k - 1);
      assert output.handed[..k][..k - 1] == output.handed[..k - 1];
    }
  }

  /**
    What the encoder takes for delivered is what has reached the sink: exactly, as long as no write
    has failed, and after a failure up to how much of the one lost batch is out by now. So, whatever
    the callbacks still write later, the sink holds a prefix of one numbered stream.
   */
  lemma {:induction false} SinkHoldsWhatWasDelivered(
    format: Format, command: Option<string>, calls: seq<E.Call>, s: State) returns (count: nat)
    requires Reachable(s) && Serves(s, E.Run(format, E.Initial(command), calls))
    ensures var output := E.Run(format, E.Initial(command), calls);
      && (!output.state.Failed? ==> s.written == output.delivered)
      && (output.state.Failed? ==>
            && output.handed != [] && output.attempted.Some?
            && var n := |output.handed| - 1;
               && count <= |output.handed[n].batch|
               && s.written == E.Flat(output.handed[..n]) + output.handed[n].batch[..count]
               && s.written <= Stream(format, output.accepted + [output.attempted.value]))
  {
    hide E.Run, E.Initial, E.Flat, Stream, Sent, Reachable;
    var output := E.Run(format, E.Initial(command), calls);
    E.BatchesAreTheOutput(format, command, calls);
    var n := |output.handed|;
    if output.state.Failed? {
      count := SinkBetweenCalls(s, n - 1);
      SentIsFlat(s, output, n - 1);
      var last := output.handed[n - 1].batch;
      var sent := E.Flat(output.handed[..n - 1]);
      assert sent + last[..count] == (sent + last)[..|sent| + count];
    } else {
      count := SinkBetweenCalls(s, n);
      SentIsFlat(s, output, n);
      assert output.handed[..n] == output.handed;
    }
  }

  // ---- Every encoder run is served by some run of the worker ----

  lemma {:induction false} ReachesExtended(s: State, steps: seq<Step>, t: State, step: Step)
    requires Reaches(s, steps, t) && CanTake(t, step)
    ensures Reaches(s, steps + [step], Take(t, step))
    decreases |steps|
  {
    hide CanTake, Take;
    if steps == [] {
      assert [step][1..] == [];
    } else {
      ReachesExtended(Take(s, steps[0]), steps[1..], t, step);
      assert (steps + [step])[1..] == steps[1..] + [step];
    }
  }

  lemma {:induction false} ThenTake(s: State, step: Step) returns (t: State)
    requires Reachable(s) && CanTake(s, step)
    ensures t == Take(s, step) && Reachable(t)
  {
    hide CanTake, Take;
    t := Take(s, step);
    var steps :| Reaches(Initial(), steps, s);
    ReachesExtended(Initial(), steps, s, step);
  }

  /** Between calls, with nothing under way and the thread waiting for an event. */
  ghost predicate IsReady(s: State) {
    && s.worker.caller.Idle? && s.worker.thread.Receiving? && !s.worker.inFlight && !s.worker.dropped
    && s.worker.queued.None? && s.worker.buffered.None?
  }

  ghost predicate IsWriting(s: State, batch: Batch, finished: seq<P.Return<Batch, ()>>) {
    && s.worker.caller == P.Waiting(batch) && s.worker.thread == P.Running(|finished|, batch)
    && s.worker.inFlight && !s.worker.dropped && s.worker.buffered.None? && s.worker.queued.None?
    && s.worker.finished == finished && s.done == 0
  }

  lemma {:induction false} ServeStarts(s: State, batch: Batch) returns (t: State)
    requires Reachable(s) && IsReady(s)
    ensures Reachable(t) && IsWriting(t, batch, s.worker.finished)
  {
    hide Reachable;
    t := ThenTake(s, Work(P.Enter(batch)));
    t := ThenTake(t, Work(P.SwapFlag));
    t := ThenTake(t, Work(P.TrySend));
    t := ThenTake(t, Work(P.TakeEvent));
  }

  ghost predicate IsAnswered(s: State, batch: Batch, finished: seq<P.Return<Batch, ()>>) {
    && s.worker.caller == P.Waiting(batch) && s.worker.thread.Receiving?
    && !s.worker.dropped && s.worker.queued.None? && s.worker.finished == finished
    && s.worker.buffered.Some? && s.worker.buffered.value.answer == P.Value(())
  }

  lemma {:induction false} ServeAnswers(s: State, batch: Batch, finished: seq<P.Return<Batch, ()>>) returns (t: State)
    requires Reachable(s) && IsWriting(s, batch, finished)
    ensures Reachable(t) && IsAnswered(t, batch, finished)
  {
    hide Reachable;
    t := ThenTake(s, WriteSome(|batch|));
    t := ThenTake(t, Work(P.FinishCallback(P.Value(()))));
    t := ThenTake(t, Work(P.SendOutcome));
  }

  lemma {:induction false} ServeEnds(s: State, batch: Batch, finished: seq<P.Return<Batch, ()>>) returns (t: State)
    requires Reachable(s) && IsAnswered(s, batch, finished)
    ensures Reachable(t) && IsReady(t)
    ensures t.worker.finished == finished + [P.Return(batch, P.Answered(()))]
  {
    hide Reachable;
    t := ThenTake(s, Work(P.ReceiveAnswer));
    t := ThenTake(t, Work(P.Confirm));
  }

  lemma {:induction false} ServeLost(s: State, batch: Batch) returns (t: State)
    requires Reachable(s) && IsReady(s)
    ensures Reachable(t) && t.worker.caller.Idle?
    ensures t.worker.finished == s.worker.finished + [P.Return(batch, P.Interrupted)]
  {
    hide Reachable;
    t := ThenTake(s, Work(P.Enter(batch)));
    t := ThenTake(t, Work(P.GateFails));
  }

  /** The calls returned are those of the batches, each answered exactly if it was written. */
  ghost predicate Mirrors(finished: seq<P.Return<Batch, ()>>, handed: seq<E.Handoff>) {
    && |finished| == |handed|
    && forall i :: 0 <= i < |handed| ==>
         && finished[i].event == handed[i].batch && (finished[i].result.Answered? <==> handed[i].write.Written?)
  }

  lemma {:induction false} ServeAll(handed: seq<E.Handoff>) returns (s: State)
    requires forall i :: 0 <= i < |handed| - 1 ==> handed[i].write.Written?
    ensures Reachable(s) && s.worker.caller.Idle? && Mirrors(s.worker.finished, handed)
    ensures handed == [] || handed[|handed| - 1].write.Written? ==> IsReady(s)
    decreases |handed|
  {
    if handed == [] {
      s := Initial();
      assert Reaches(s, [], s);
    } else {
      hide Reachable;
      var last := handed[|handed| - 1];
      s := ServeAll(handed[..|handed| - 1]);
      if last.write.Written? {
        var writing := ServeStarts(s, last.batch);
        var answered := ServeAnswers(writing, last.batch, s.worker.finished);
        s := ServeEnds(answered, last.batch, s.worker.finished);
      } else {
        s := ServeLost(s, last.batch);
      }
    }
  }

  /** Whatever an encoder did, some interleaving of its worker did just that. */
  lemma {:induction false} SomeWorkerServes(format: Format, command: Option<string>, calls: seq<E.Call>)
    returns (s: State)
    ensures Reachable(s) && Serves(s, E.Run(format, E.Initial(command), calls))
  {
    hide E.Run, E.Initial, E.FailedOn, E.Flat, Reachable;
    E.BatchesAreTheOutput(format, command, calls);
    s := ServeAll(E.Run(format, E.Initial(command), calls).handed);
  }

  // ---- The sink against the consumer ----

  /** The records whose bytes the encoder has put on their way: the accepted ones and one whose write failed. */
  ghost function Attempts(output: E.Output): seq<Record> {
    if output.state.Failed? && output.attempted.Some? then output.accepted + [output.attempted.value]
    else output.accepted
  }

  ghost predicate AreLines(lines: seq<seq<Byte>>) {
    forall i :: 0 <= i < |lines| ==> IsLine(lines[i])
  }

  /** Lines can be told apart: one run of lines that begins another is the beginning of its lines. */
  lemma {:induction false} LinesAlign(a: seq<seq<Byte>>, b: seq<seq<Byte>>)
    requires AreLines(a) && AreLines(b) && C.Concat(a) <= C.Concat(b)
    ensures a <= b
    decreases |a|
  {
    if a != [] {
      var whole, first := C.Concat(b), a[0];
      assert C.Concat(a) == first + C.Concat(a[1..]) && |first| > 0;
      assert whole[..|C.Concat(a)|] == C.Concat(a);
      assert b != [];
      SameFirstLine(first, C.Concat(a[1..]), b[0], C.Concat(b[1..]));
      LinesAlign(a[1..], b[1..]);
      assert a == [a[0]] + a[1..] && b == [b[0]] + b[1..];
    }
  }

  lemma {:induction false} SameFirstLine(x: seq<Byte>, restX: seq<Byte>, y: seq<Byte>, restY: seq<Byte>)
    requires IsLine(x) && IsLine(y) && x + restX <= y + restY
    ensures x == y && restX <= restY
  {
    var shorter, longer := x + restX, y + restY;
    assert forall i :: 0 <= i < |x| ==> x[i] == shorter[i] == longer[i];
    assert forall i :: 0 <= i < |y| ==> y[i] == longer[i];
    assert x == shorter[..|x|] == longer[..|x|] == y;
    assert restX == shorter[|x|..] && restY == longer[|x|..];
  }

  /** Only the last of the records an encoder attempts can be a terminal one, and each fits its limit. */
  lemma {:induction false} AttemptsOneTerminal(format: Format, command: Option<string>, calls: seq<E.Call>, i: nat)
    requires i < |Attempts(E.Run(format, E.Initial(command), calls))|
    ensures var all := Attempts(E.Run(format, E.Initial(command), calls));
      && |format.serialize(all[i])| <= MAX_RECORD
      && (IsTerminal(all[i]) ==> i == |all| - 1)
  {
    hide E.Run, E.Initial, Stream;
    E.OutputIsNumberedStream(format, command, calls);
    var output := E.Run(format, E.Initial(command), calls);
    var accepted := output.accepted;
    if FinishedRecords(accepted) && i < |accepted| - 1 {
      assert accepted[i] == accepted[..|accepted| - 1][i];
    }
  }

  lemma {:induction false} SinkWithinAttempts(format: Format, command: Option<string>, calls: seq<E.Call>, s: State)
    requires Reachable(s) && Serves(s, E.Run(format, E.Initial(command), calls))
    ensures s.written <= Stream(format, Attempts(E.Run(format, E.Initial(command), calls)))
  {
    hide E.Run, E.Initial, Stream, Reachable, Serves, E.Fits;
    E.OutputIsNumberedStream(format, command, calls);
    var output := E.Run(format, E.Initial(command), calls);
    var count := SinkHoldsWhatWasDelivered(format, command, calls, s);
  }

  /** What the consumer reads from the sink are records the encoder attempted, in order from the first. */
  lemma {:induction false} ReadsAttempts(
    format: Format, all: seq<Record>, data: seq<Byte>, lines: seq<seq<Byte>>, records: seq<Record>)
    requires Faithful(format) && data <= Stream(format, all) && C.IsFramed(format, data, lines, records)
    ensures |records| == |lines| <= |all| && records == all[..|records|]
    ensures |records| == |all| ==> data == Stream(format, all)
  {
    hide C.FinishesFrom;
    var written := C.Lines(format, all);
    C.LinesMakeStream(format, all);
    LinesAlign(lines, written);
    forall i | 0 <= i < |records| ensures records[i] == all[i] {
      assert lines[i] == written[i];
      assert C.Carries(format, lines[i], records[i]);
    }
    assert |records| == |all| ==> lines == written;
  }

  /**
    End to end: of an encoder run and its worker, whatever failed and however late the callbacks
    wrote, the consumer accepts what is in the sink if and only if that is the whole of the attempted
    records and these are a finished list for it. In particular a failed stream passes only when the
    lost batch ended with the terminal record and is entirely out.
   */
  lemma {:induction false} SinkAcceptedExactly(format: Format, command: Option<string>, calls: seq<E.Call>, s: State)
    requires Faithful(format) && Reachable(s) && Serves(s, E.Run(format, E.Initial(command), calls))
    ensures var all := Attempts(E.Run(format, E.Initial(command), calls));
      C.Frame(format, s.written, None, 0, 0).Ok?
      <==> s.written == Stream(format, all) && C.FinishesFrom(all, 0) && |s.written| <= C.MAX_STREAM
  {
    hide E.Run, E.Initial, Reachable, Serves, C.Frame, Stream, Faithful, Attempts;
    var all := Attempts(E.Run(format, E.Initial(command), calls));
    SinkWithinAttempts(format, command, calls, s);
    C.ConsumerAcceptsExactly(format, s.written);
    if C.Frame(format, s.written, None, 0, 0).Ok? {
      var lines, records :| C.IsFramed(format, s.written, lines, records);
      ReadsAttempts(format, all, s.written, lines, records);
      AttemptsOneTerminal(format, command, calls, |records| - 1);
      assert records == all;
    }
    if s.written == Stream(format, all) && C.FinishesFrom(all, 0) && |s.written| <= C.MAX_STREAM {
      AttemptsAreCarried(format, command, calls);
      assert C.IsFramed(format, s.written, C.Lines(format, all), all);
    }
  }

  lemma {:induction false} AttemptsAreCarried(format: Format, command: Option<string>, calls: seq<E.Call>)
    requires Faithful(format)
    ensures var all := Attempts(E.Run(format, E.Initial(command), calls));
      C.AllCarry(format, C.Lines(format, all), all) && C.Concat(C.Lines(format, all)) == Stream(format, all)
  {
    hide E.Run, E.Initial, Attempts, Stream, C.Concat;
    var all := Attempts(E.Run(format, E.Initial(command), calls));
    C.LinesMakeStream(format, all);
    forall i | 0 <= i < |all| ensures C.Carries(format, C.Lines(format, all)[i], all[i]) {
      AttemptsOneTerminal(format, command, calls, i);
    }
  }
}
