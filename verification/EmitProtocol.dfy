/**
  The progressive-output worker of crates/packetcraftr/src/runtime.rs: a caller that emits
  one event at a time and a thread that runs a callback on each event, joined by two
  one-slot channels and guarded on the caller's side by the `in_flight` cell.

  The two sides are interleaved step by step.  The deadline, the callback's answers and the
  thread's speed are arbitrary: any step that is possible may be taken next.
 */
module EmitProtocol {
  import opened Wrappers

  datatype Answer<A> = Value(value: A) | Failure

  /** One finished callback invocation: the call whose event it was given, the event, the answer. */
  datatype Outcome<E, A> = Outcome(call: nat, event: E, answer: Answer<A>)

  /**
    The callback thread.  Leaving `Callback::run` drops its parameters last to first, so the
    outcome sender closes before the event receiver does; `HalfClosed` is the moment between.
   */
  datatype Thread<E, A> =
    | Receiving
    | Running(call: nat, event: E)
    | Sending(outcome: Outcome<E, A>)
    | Leaving
    | HalfClosed
    | Gone

  /** What one call of `emit` finished. */
  datatype EmitResult<A> =
    | Answered(value: A)
    | Interrupted
    | AlreadyInFlight
    | QueueFull
    | Stopped
    | StoppedWithoutResult
    | CallbackFailed

  /** Where the caller stands inside `emit`; call numbers count the calls already returned. */
  datatype Caller<E, A> =
    | Idle
    | Entered(event: E)
    | Flagged(event: E)
    | Waiting(event: E)
    | Deciding(event: E, collected: EmitResult<A>)

  datatype Return<E, A> = Return(event: E, result: EmitResult<A>)

  /**
    `finished` lists the finished calls in order and `callbacks` the finished callback
    invocations in order.  `expired` records that some wait ended before its answer came.
   */
  datatype State<E, A> = State(
    inFlight: bool,
    queued: Option<(nat, E)>,
    buffered: Option<Outcome<E, A>>,
    thread: Thread<E, A>,
    caller: Caller<E, A>,
    dropped: bool,
    expired: bool,
    finished: seq<Return<E, A>>,
    callbacks: seq<Outcome<E, A>>)

  function Initial<E, A>(): State<E, A> {
    State(false, None, None, Receiving, Idle, false, false, [], [])
  }

  datatype Step<E, A> =
    // Caller steps, in the order `emit` takes them.
    | Enter(event: E)
    | GateFails
    | SwapFlag
    | TrySend
    | ReceiveAnswer
    | ReceiveDisconnect
    | ExpireWaiting
    | ExpireDeciding
    | Confirm
    | DropWorker
    // Thread steps.
    | TakeEvent
    | SeeHangup
    | FinishCallback(answer: Answer<A>)
    | PanicInCallback
    | SendOutcome
    | CloseOutcomes
    | CloseEvents

  ghost predicate CanTake<E, A>(s: State<E, A>, step: Step<E, A>) {
    match step
    case Enter(_) => s.caller.Idle? && !s.dropped
    case GateFails => s.caller.Entered?
    case SwapFlag => s.caller.Entered?
    case TrySend => s.caller.Flagged?
    case ReceiveAnswer => s.caller.Waiting? && s.buffered.Some?
    case ReceiveDisconnect =>
      s.caller.Waiting? && s.buffered.None? && (s.thread.HalfClosed? || s.thread.Gone?)
    case ExpireWaiting => s.caller.Waiting?
    case ExpireDeciding => s.caller.Deciding?
    case Confirm => s.caller.Deciding?
    case DropWorker => s.caller.Idle? && !s.dropped
    case TakeEvent => s.thread.Receiving? && s.queued.Some?
    case SeeHangup => s.thread.Receiving? && s.queued.None? && s.dropped
    case FinishCallback(_) => s.thread.Running?
    case PanicInCallback => s.thread.Running?
    case SendOutcome => s.thread.Sending? && (s.dropped || s.buffered.None?)
    case CloseOutcomes => s.thread.Leaving?
    case CloseEvents => s.thread.HalfClosed?
  }

  function ReturnFrom<E, A>(s: State<E, A>, event: E, result: EmitResult<A>): State<E, A> {
    s.(caller := Idle, finished := s.finished + [Return(event, result)])
  }

  function ToResult<A>(answer: Answer<A>): EmitResult<A> {
    match answer
    case Value(value) => Answered(value)
    case Failure => CallbackFailed
  }

  ghost function Take<E, A>(s: State<E, A>, step: Step<E, A>): State<E, A>
    requires CanTake(s, step)
  {
    match step
    case Enter(event) => s.(caller := Entered(event))
    case GateFails => ReturnFrom(s, s.caller.event, Interrupted)
    case SwapFlag =>
      if s.inFlight then ReturnFrom(s, s.caller.event, AlreadyInFlight)
      else s.(inFlight := true, caller := Flagged(s.caller.event))
    case TrySend =>
      if s.thread.Gone? then ReturnFrom(s.(inFlight := false), s.caller.event, Stopped)
      else if s.queued.Some? then ReturnFrom(s.(inFlight := false), s.caller.event, QueueFull)
      else s.(queued := Some((|s.finished|, s.caller.event)), caller := Waiting(s.caller.event))
    case ReceiveAnswer =>
      s.(buffered := None, inFlight := false,
         caller := Deciding(s.caller.event, ToResult(s.buffered.value.answer)))
    case ReceiveDisconnect =>
      s.(inFlight := false, caller := Deciding(s.caller.event, StoppedWithoutResult))
    case ExpireWaiting => ReturnFrom(s.(expired := true), s.caller.event, Interrupted)
    case ExpireDeciding => ReturnFrom(s, s.caller.event, Interrupted)
    case Confirm => ReturnFrom(s, s.caller.event, s.caller.collected)
    case DropWorker => s.(dropped := true, buffered := None)
    case TakeEvent => s.(queued := None, thread := Running(s.queued.value.0, s.queued.value.1))
    case SeeHangup => s.(thread := Leaving)
    case FinishCallback(answer) =>
      var outcome := Outcome(s.thread.call, s.thread.event, answer);
      s.(thread := Sending(outcome), callbacks := s.callbacks + [outcome])
    case PanicInCallback => s.(thread := Leaving)
    case SendOutcome =>
      if s.dropped then s.(thread := Leaving)
      else s.(buffered := Some(s.thread.outcome),
              thread := if s.thread.outcome.answer.Failure? then Leaving else Receiving)
    case CloseOutcomes => s.(thread := HalfClosed)
    case CloseEvents => s.(thread := Gone, queued := None)
  }

  /** Taking `steps` one after another leads from `s` to `t`. */
  ghost predicate Reaches<E, A>(s: State<E, A>, steps: seq<Step<E, A>>, t: State<E, A>)
    decreases |steps|
  {
    if steps == [] then s == t
    else CanTake(s, steps[0]) && Reaches(Take(s, steps[0]), steps[1..], t)
  }

  /** Some interleaving from a fresh worker leads to `s`. */
  ghost predicate Reachable<E(!new), A(!new)>(s: State<E, A>) {
    exists steps: seq<Step<E, A>> :: Reaches(Initial(), steps, s)
  }

  // ---- What every interleaving keeps ----

  /** The thread has not left its receive loop. */
  predicate InLoop<E, A>(thread: Thread<E, A>) {
    thread.Receiving? || thread.Running? || thread.Sending?
  }

  predicate Working<E, A>(thread: Thread<E, A>) {
    thread.Running? || thread.Sending?
  }

  /** How many of the queue slot, the thread's hands and the answer slot hold something. */
  function Occupants<E, A>(s: State<E, A>): nat {
    (if s.queued.Some? then 1 else 0)
    + (if Working(s.thread) then 1 else 0)
    + (if s.buffered.Some? then 1 else 0)
  }

  ghost predicate FailedBefore<E, A>(s: State<E, A>) {
    exists k :: 0 <= k < |s.callbacks| && s.callbacks[k].answer.Failure?
  }

  /** The flag is set exactly while an answer may still come, and stays set after an expiry. */
  ghost predicate FlagDiscipline<E, A>(s: State<E, A>) {
    && Occupants(s) <= 1
    && (Working(s.thread) || s.buffered.Some? ==> s.inFlight)
    && (s.thread.Gone? ==> s.queued.None?)
    && (s.queued.Some? && !s.inFlight ==> s.thread.HalfClosed?)
    && (s.queued.Some? && s.caller.Flagged? ==> s.thread.HalfClosed?)
    && (s.caller.Flagged? ==> !Working(s.thread) && s.buffered.None?)
    && (s.caller.Flagged? || s.caller.Waiting? ==> s.inFlight && !s.expired)
    && (s.caller.Deciding? ==> !s.inFlight)
    && (s.expired ==> s.inFlight)
    && (s.inFlight && !s.expired ==> s.caller.Flagged? || s.caller.Waiting?)
    && (s.dropped ==> s.caller.Idle? && s.buffered.None?)
  }

  ghost predicate Holds<E, A>(s: State<E, A>, call: nat, event: E) {
    s.caller.Waiting? ==> call == |s.finished| && event == s.caller.event
  }

  /** While the caller waits, whatever is in the channels or at the callback is its own event. */
  ghost predicate WaitsForOwnEvent<E, A>(s: State<E, A>) {
    && (s.queued.Some? ==> Holds(s, s.queued.value.0, s.queued.value.1))
    && (s.thread.Running? ==> Holds(s, s.thread.call, s.thread.event))
    && (s.thread.Sending? ==> Holds(s, s.thread.outcome.call, s.thread.outcome.event))
    && (s.buffered.Some? ==> Holds(s, s.buffered.value.call, s.buffered.value.event))
  }

  ghost predicate Ascending<E, A>(callbacks: seq<Outcome<E, A>>) {
    forall i, j :: 0 <= i < j < |callbacks| ==> callbacks[i].call < callbacks[j].call
  }

  /** A finished callback belongs to a call before any that is still queued, running or to come. */
  ghost predicate ComesBefore<E, A>(s: State<E, A>, call: nat) {
    && call <= |s.finished|
    && (s.caller.Flagged? || s.caller.Entered? || s.caller.Idle? ==> call < |s.finished|)
    && (s.queued.Some? ==> call < s.queued.value.0)
    && (s.thread.Running? ==> call < s.thread.call)
  }

  /** What is queued, running or answered is of a call that has begun, and an answer is on record. */
  ghost predicate HasBegun<E, A>(s: State<E, A>) {
    && (s.queued.Some? ==>
          && s.queued.value.0 <= |s.finished|
          && (!s.caller.Waiting? ==> s.queued.value.0 < |s.finished| || s.caller.Deciding?))
    && (s.thread.Running? ==> s.thread.call <= |s.finished| && (!s.caller.Waiting? ==> s.thread.call < |s.finished|))
    && (s.thread.Sending? ==> s.thread.outcome in s.callbacks)
    && (s.buffered.Some? ==> s.buffered.value in s.callbacks)
  }

  /** Callbacks run in call order, each call's event at most once. */
  ghost predicate CallbacksInOrder<E, A>(s: State<E, A>) {
    && Ascending(s.callbacks)
    && (forall i :: 0 <= i < |s.callbacks| ==> ComesBefore(s, s.callbacks[i].call))
    && HasBegun(s)
  }

  /** Call number `call` was given `event`, and the callback answered that very event with `value`. */
  ghost predicate AnsweredBy<E, A>(callbacks: seq<Outcome<E, A>>, call: nat, event: E, value: A) {
    Outcome(call, event, Value(value)) in callbacks
  }

  ghost predicate OkMeansAnswered<E, A>(s: State<E, A>) {
    && (forall i :: 0 <= i < |s.finished| && s.finished[i].result.Answered? ==>
          AnsweredBy(s.callbacks, i, s.finished[i].event, s.finished[i].result.value))
    && (s.caller.Deciding? && s.caller.collected.Answered? ==>
          AnsweredBy(s.callbacks, |s.finished|, s.caller.event, s.caller.collected.value))
  }

  /** After a callback error nothing that could turn into Ok is left anywhere. */
  ghost predicate FailureIsFinal<E, A>(s: State<E, A>) {
    FailedBefore(s) ==>
      && !s.thread.Receiving? && !s.thread.Running?
      && (s.thread.Sending? ==> s.thread.outcome.answer.Failure?)
      && (s.buffered.Some? ==> s.buffered.value.answer.Failure?)
      && (s.caller.Deciding? ==> !s.caller.collected.Answered?)
  }

  ghost predicate Inv<E, A>(s: State<E, A>) {
    && FlagDiscipline(s)
    && WaitsForOwnEvent(s)
    && CallbacksInOrder(s)
    && OkMeansAnswered(s)
    && FailureIsFinal(s)
  }

  // Each part of the invariant needs only the parts before it.

  lemma {:induction false} FlagsKept<E, A>(s: State<E, A>, step: Step<E, A>)
    requires FlagDiscipline(s) && CanTake(s, step)
    ensures FlagDiscipline(Take(s, step))
  {
  }

  lemma {:induction false} OwnEventKept<E, A>(s: State<E, A>, step: Step<E, A>)
    requires FlagDiscipline(s) && WaitsForOwnEvent(s) && CanTake(s, step)
    ensures WaitsForOwnEvent(Take(s, step))
  {
  }

  lemma {:induction false} HasBegunKept<E, A>(s: State<E, A>, step: Step<E, A>)
    requires FlagDiscipline(s) && WaitsForOwnEvent(s) && HasBegun(s) && CanTake(s, step)
    ensures HasBegun(Take(s, step))
  {
  }

  lemma {:induction false} ComesBeforeKept<E, A>(s: State<E, A>, step: Step<E, A>, call: nat)
    requires FlagDiscipline(s) && WaitsForOwnEvent(s) && HasBegun(s) && ComesBefore(s, call) && CanTake(s, step)
    ensures ComesBefore(Take(s, step), call)
  {
  }

  /** The callback that finishes comes behind the others and before whatever is still to come. */
  lemma {:induction false} FinishKept<E, A>(s: State<E, A>, answer: Answer<A>)
    requires FlagDiscipline(s) && WaitsForOwnEvent(s) && HasBegun(s) && CanTake(s, FinishCallback(answer))
    ensures ComesBefore(Take(s, FinishCallback(answer)), s.thread.call)
  {
  }

  lemma {:induction false} OrderKept<E, A>(s: State<E, A>, step: Step<E, A>)
    requires FlagDiscipline(s) && WaitsForOwnEvent(s) && CallbacksInOrder(s) && CanTake(s, step)
    ensures CallbacksInOrder(Take(s, step))
  {
    hide FlagDiscipline, WaitsForOwnEvent, HasBegun;
    var t := Take(s, step);
    HasBegunKept(s, step);
    if step.FinishCallback? {
      FinishKept(s, step.answer);
    }
    forall i | 0 <= i < |t.callbacks| ensures ComesBefore(t, t.callbacks[i].call) {
      if i < |s.callbacks| {
        ComesBeforeKept(s, step, s.callbacks[i].call);
      }
    }
  }

  lemma {:induction false} AnswersKept<E, A>(s: State<E, A>, step: Step<E, A>)
    requires WaitsForOwnEvent(s) && CallbacksInOrder(s) && OkMeansAnswered(s) && CanTake(s, step)
    ensures OkMeansAnswered(Take(s, step))
  {
  }

  lemma {:induction false} FailureKept<E, A>(s: State<E, A>, step: Step<E, A>)
    requires FlagDiscipline(s) && CallbacksInOrder(s) && FailureIsFinal(s) && CanTake(s, step)
    ensures FailureIsFinal(Take(s, step))
  {
  }

  lemma {:induction false} InvStep<E, A>(s: State<E, A>, step: Step<E, A>)
    requires Inv(s) && CanTake(s, step)
    ensures Inv(Take(s, step))
  {
    hide FlagDiscipline, WaitsForOwnEvent, CallbacksInOrder, OkMeansAnswered, FailureIsFinal, Take;
    FlagsKept(s, step);
    OwnEventKept(s, step);
    OrderKept(s, step);
    AnswersKept(s, step);
    FailureKept(s, step);
  }

  lemma {:induction false} InvReaches<E, A>(s: State<E, A>, steps: seq<Step<E, A>>, t: State<E, A>)
    requires Inv(s) && Reaches(s, steps, t)
    ensures Inv(t)
    decreases |steps|
  {
    if steps != [] {
      InvStep(s, steps[0]);
      InvReaches(Take(s, steps[0]), steps[1..], t);
    }
  }

  lemma {:induction false} InvReachable<E(!new), A(!new)>(s: State<E, A>)
    requires Reachable(s)
    ensures Inv(s)
  {
    var steps: seq<Step<E, A>> :| Reaches(Initial(), steps, s);
    InvReaches(Initial(), steps, s);
  }

  // ---- Main results ----

  /**
    In every interleaving at most one of queued event, running callback and buffered answer
    exists.  While the thread is in its loop this happens only with the flag set, so `try_send`
    finds a free slot, and the thread's own send never finds the answer slot taken.
   */
  lemma {:induction false} OneEventAtATime<E(!new), A(!new)>(s: State<E, A>)
    requires Reachable(s)
    ensures Occupants(s) <= 1
    ensures InLoop(s.thread) && Occupants(s) == 1 ==> s.inFlight
    ensures s.caller.Flagged? && InLoop(s.thread) ==> Take(s, TrySend).caller.Waiting?
    ensures s.thread.Sending? ==> CanTake(s, SendOutcome)
  {
    InvReachable(s);
  }

  /**
    Whenever call `i` returned an answer, the callback was run on the event passed to that same
    call and returned that answer, and no other callback invocation belongs to the call.
   */
  lemma {:induction false} AnswerIsForOwnEvent<E(!new), A(!new)>(s: State<E, A>, i: nat) returns (k: nat)
    requires Reachable(s)
    requires i < |s.finished| && s.finished[i].result.Answered?
    ensures k < |s.callbacks|
    ensures s.callbacks[k] == Outcome(i, s.finished[i].event, Value(s.finished[i].result.value))
    ensures forall j :: 0 <= j < |s.callbacks| && s.callbacks[j].call == i ==> j == k
  {
    InvReachable(s);
    assert AnsweredBy(s.callbacks, i, s.finished[i].event, s.finished[i].result.value);
    k :| 0 <= k < |s.callbacks|
         && s.callbacks[k] == Outcome(i, s.finished[i].event, Value(s.finished[i].result.value));
  }

  /** A callback has returned an error, or a wait has expired before its answer was received. */
  ghost predicate Doomed<E, A>(s: State<E, A>) {
    FailedBefore(s) || s.expired
  }

  lemma {:induction false} DoomedStep<E, A>(s: State<E, A>, step: Step<E, A>)
    requires Inv(s) && CanTake(s, step) && Doomed(s)
    ensures Doomed(Take(s, step))
    ensures s.finished <= Take(s, step).finished
    ensures forall i :: |s.finished| <= i < |Take(s, step).finished| ==>
              !Take(s, step).finished[i].result.Answered?
  {
    var t := Take(s, step);
    if FailedBefore(s) {
      var k :| 0 <= k < |s.callbacks| && s.callbacks[k].answer.Failure?;
      assert t.callbacks[k].answer.Failure?;
    }
  }

  lemma {:induction false} DoomedReaches<E, A>(s: State<E, A>, steps: seq<Step<E, A>>, t: State<E, A>)
    requires Inv(s) && Doomed(s) && Reaches(s, steps, t)
    ensures s.finished <= t.finished
    ensures forall i :: |s.finished| <= i < |t.finished| ==> !t.finished[i].result.Answered?
    decreases |steps|
  {
    if steps != [] {
      InvStep(s, steps[0]);
      DoomedStep(s, steps[0]);
      DoomedReaches(Take(s, steps[0]), steps[1..], t);
    }
  }

  /**
    Once a callback returned an error or a wait expired unanswered, no call that returns from
    then on, including one already under way, returns an answer, whatever the thread still does.
   */
  lemma {:induction false} NoAnswerAfterFailure<E(!new), A(!new)>(s: State<E, A>, after: seq<Step<E, A>>, t: State<E, A>)
    requires Reachable(s) && Doomed(s) && Reaches(s, after, t)
    ensures s.finished <= t.finished
    ensures forall i :: |s.finished| <= i < |t.finished| ==> !t.finished[i].result.Answered?
  {
    InvReachable(s);
    DoomedReaches(s, after, t);
  }

  // ---- The queue-full refusal ----

  /** The caller is about to `try_send`, and the queue-full refusal is what it will return. */
  ghost predicate RefusesAsFull<E, A>(s: State<E, A>) {
    && s.caller.Flagged?
    && Take(s, TrySend).caller.Idle?
    && Take(s, TrySend).finished[|s.finished|].result.QueueFull?
  }

  lemma {:induction false} ReachesExtended<E, A>(
    s: State<E, A>, steps: seq<Step<E, A>>, t: State<E, A>, step: Step<E, A>)
    requires Reaches(s, steps, t) && CanTake(t, step)
    ensures Reaches(s, steps + [step], Take(t, step))
    decreases |steps|
  {
    if steps == [] {
      assert [step][1..] == [];
    } else {
      ReachesExtended(Take(s, steps[0]), steps[1..], t, step);
      assert (steps + [step])[1..] == steps[1..] + [step];
    }
  }

  lemma {:induction false} ThenTake<E(!new), A(!new)>(s: State<E, A>, step: Step<E, A>) returns (t: State<E, A>)
    requires Reachable(s) && CanTake(s, step)
    ensures t == Take(s, step) && Reachable(t)
  {
    t := Take(s, step);
    var steps: seq<Step<E, A>> :| Reaches(Initial(), steps, s);
    ReachesExtended(Initial(), steps, s, step);
  }

  /** A first call waiting while the thread runs the callback on its event. */
  lemma {:induction false} DuringFirstCall<E(!new), A(!new)>(event: E) returns (s: State<E, A>)
    ensures Reachable(s)
    ensures s == Initial<E, A>().(inFlight := true, thread := Running(0, event), caller := Waiting(event))
  {
    s := Initial();
    assert Reaches(s, [], s);
    s := ThenTake(s, Enter(event));
    s := ThenTake(s, SwapFlag);
    s := ThenTake(s, TrySend);
    s := ThenTake(s, TakeEvent);
  }

  /** A first call whose callback fails; the thread has left its loop but closed nothing yet. */
  lemma {:induction false} AfterFailingCall<E(!new), A(!new)>(event: E) returns (s: State<E, A>)
    ensures Reachable(s)
    ensures s == Initial<E, A>().(thread := Leaving, finished := [Return(event, CallbackFailed)],
                                  callbacks := [Outcome(0, event, Failure)])
  {
    s := DuringFirstCall(event);
    s := ThenTake(s, FinishCallback(Failure));
    s := ThenTake(s, SendOutcome);
    s := ThenTake(s, ReceiveAnswer);
    s := ThenTake(s, Confirm);
  }

  /** The next call queues its event with the departed thread and sees only the disconnection. */
  lemma {:induction false} RefusalWitness<E(!new), A(!new)>(event: E) returns (s: State<E, A>)
    ensures Reachable(s) && RefusesAsFull(s) && s.thread.HalfClosed?
  {
    s := AfterFailingCall(event);
    s := ThenTake(s, Enter(event));
    s := ThenTake(s, SwapFlag);
    s := ThenTake(s, TrySend);
    s := ThenTake(s, CloseOutcomes);
    s := ThenTake(s, ReceiveDisconnect);
    s := ThenTake(s, Confirm);
    s := ThenTake(s, Enter(event));
    s := ThenTake(s, SwapFlag);
  }

  /**
    Which states refuse: of all reachable states about to `try_send`, exactly those in which the
    thread has closed its outcome sender, not yet its event receiver, and left an event in the queue.
   */
  lemma {:induction false} QueueFullExactly<E(!new), A(!new)>(s: State<E, A>)
    requires Reachable(s) && s.caller.Flagged?
    ensures RefusesAsFull(s) <==> s.thread.HalfClosed? && s.queued.Some?
  {
    InvReachable(s);
  }

  /** Being half closed is not enough: with nothing left behind, the event is queued. */
  lemma {:induction false} HalfClosedMayAccept<E(!new), A(!new)>(event: E) returns (s: State<E, A>)
    ensures Reachable(s) && s.caller.Flagged? && s.thread.HalfClosed? && !RefusesAsFull(s)
  {
    s := AfterFailingCall(event);
    s := ThenTake(s, CloseOutcomes);
    s := ThenTake(s, Enter(event));
    s := ThenTake(s, SwapFlag);
  }

  // What a caller can see of it beforehand.

  /** The result of a call that may have left its event in the queue. */
  predicate LeavesBehind<A>(result: EmitResult<A>) {
    result.StoppedWithoutResult? || result.Interrupted?
  }

  ghost predicate LeftBehind<E, A>(finished: seq<Return<E, A>>, n: nat)
    requires n <= |finished|
  {
    exists j :: 0 <= j < n && LeavesBehind(finished[j].result)
  }

  /** An event in the queue that no call waits for was left there by a call that said so. */
  ghost predicate LeftoversExplained<E, A>(s: State<E, A>) {
    && (s.queued.Some? && (s.caller.Idle? || s.caller.Entered? || s.caller.Flagged?) ==>
          LeftBehind(s.finished, |s.finished|))
    && (s.caller.Deciding? ==> !s.caller.collected.QueueFull?)
    && (s.queued.Some? && s.caller.Deciding? ==>
          s.caller.collected.StoppedWithoutResult? || LeftBehind(s.finished, |s.finished|))
    && (forall i :: 0 <= i < |s.finished| && s.finished[i].result.QueueFull? ==> LeftBehind(s.finished, i))
  }

  lemma {:induction false} LeftBehindStays<E, A>(before: seq<Return<E, A>>, after: seq<Return<E, A>>, n: nat)
    requires before <= after && n <= |before|
    ensures LeftBehind(before, n) ==> LeftBehind(after, n) && LeftBehind(after, |after|)
  {
    if LeftBehind(before, n) {
      var j :| 0 <= j < n && LeavesBehind(before[j].result);
      assert LeavesBehind(after[j].result);
    }
  }

  /** A call returns `result`; if it is one that leaves its event behind, that is now on record. */
  lemma {:induction false} ReturnExplained<E, A>(s: State<E, A>, event: E, result: EmitResult<A>)
    requires forall i :: 0 <= i < |s.finished| && s.finished[i].result.QueueFull? ==> LeftBehind(s.finished, i)
    requires result.QueueFull? ==> LeftBehind(s.finished, |s.finished|)
    ensures var after := s.finished + [Return(event, result)];
      && (forall i :: 0 <= i < |after| && after[i].result.QueueFull? ==> LeftBehind(after, i))
      && (LeavesBehind(result) || LeftBehind(s.finished, |s.finished|) ==> LeftBehind(after, |after|))
  {
    var after := s.finished + [Return(event, result)];
    assert after[|s.finished|] == Return(event, result);
    forall i | 0 <= i < |after| && after[i].result.QueueFull? ensures LeftBehind(after, i) {
      LeftBehindStays(s.finished, after, i);
    }
    LeftBehindStays(s.finished, after, |s.finished|);
  }

  lemma {:induction false} ExplainedStep<E, A>(s: State<E, A>, step: Step<E, A>)
    requires Inv(s) && LeftoversExplained(s) && CanTake(s, step)
    ensures LeftoversExplained(Take(s, step))
  {
    var t := Take(s, step);
    if t.finished != s.finished {
      var last := t.finished[|s.finished|];
      assert t.finished == s.finished + [last];
      ReturnExplained(s, last.event, last.result);
    }
  }

  lemma {:induction false} ExplainedReaches<E, A>(s: State<E, A>, steps: seq<Step<E, A>>, t: State<E, A>)
    requires Inv(s) && LeftoversExplained(s) && Reaches(s, steps, t)
    ensures LeftoversExplained(t)
    decreases |steps|
  {
    if steps != [] {
      InvStep(s, steps[0]);
      ExplainedStep(s, steps[0]);
      ExplainedReaches(Take(s, steps[0]), steps[1..], t);
    }
  }

  /**
    A call refused as queue-full was preceded by one that returned without its event's answer:
    stopped without a result, or interrupted. A caller that has seen neither is never refused.
   */
  lemma {:induction false} QueueFullHasForerunner<E(!new), A(!new)>(s: State<E, A>, i: nat) returns (j: nat)
    requires Reachable(s) && i < |s.finished| && s.finished[i].result.QueueFull?
    ensures j < i && LeavesBehind(s.finished[j].result)
  {
    var steps: seq<Step<E, A>> :| Reaches(Initial(), steps, s);
    ExplainedReaches(Initial(), steps, s);
    j :| 0 <= j < i && LeavesBehind(s.finished[j].result);
  }
}
