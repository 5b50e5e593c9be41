/**
  The NDJSON stream encoder of crates/packetcraftr-cli/src/output/stream.rs.  Every way a call can
  end early is an input of the call: each deadline check may fail, serialization may fail, the wait
  for the writer may be refused, and a write may fail after any number of its bytes got out.
 */
module StreamEncoder {
  import opened Wrappers
  import opened StreamFormat

  const U64_MAX: nat := 0xFFFF_FFFF_FFFF_FFFF
  const BATCH_BYTES: nat := 16 * 1024

  datatype EncoderState = Open | Complete | Error | Failed

  datatype Batching = Off | On | Refused

  datatype Reason =
    | Unattributed
    | ReservedEvent
    | OverBudget
    | Terminal
    | AlreadyFailed
    | SequenceOverflow
    | NotSerialized
    | RecordLimit
    | WriteFailed

  datatype Verdict = Accepted | Rejected(reason: Reason)

  /** `Lost(count)`: the write failed with `count` bytes of its batch out, now or later. */
  datatype Write = Written | Lost(count: nat)

  /** What the surroundings let one call do, in the order it asks. */
  datatype Weather = Weather(
    lockBudget: bool, serializes: bool, serializedBudget: bool,
    publicationBudget: bool, waitBudget: bool, write: Write)

  datatype Call =
    | EmitData(event: string, payload: string, weather: Weather)
    | CompleteStream(payload: string, weather: Weather)
    | EmitError(payload: string, weather: Weather)
    | ObserveInput(regularFile: bool)

  /** A batch handed to the writer and what became of it. */
  datatype Handoff = Handoff(batch: seq<Byte>, write: Write)

  /**
    `delivered` is what the writer has taken and `handed` the batches it was given.  `accepted` are
    the records acknowledged to callers and `attempted` the one whose write failed.
   */
  datatype Output = Output(
    command: Option<string>, state: EncoderState, sequence: nat, batching: Batching,
    pending: seq<Byte>, delivered: seq<Byte>, handed: seq<Handoff>,
    accepted: seq<Record>, attempted: Option<Record>)

  function Initial(command: Option<string>): Output {
    Output(command, Open, 0, Off, [], [], [], [], None)
  }

  predicate MayBatch(output: Output, next: EncoderState) {
    output.batching.On? && next.Open?
  }

  /** `write_line`: batch, or hand pending bytes and the line to the writer together. */
  ghost function AfterWriteLine(output: Output, record: Record, line: seq<Byte>, next: EncoderState, weather: Weather)
    : (Output, Verdict)
  {
    if !weather.publicationBudget then (output, Rejected(OverBudget))
    else if MayBatch(output, next) && |output.pending| + |line| < BATCH_BYTES then
      (output.(pending := output.pending + line, state := next, accepted := output.accepted + [record]), Accepted)
    else if !weather.waitBudget then (output, Rejected(OverBudget))
    else
      var batch := output.pending + line;
      match weather.write
      case Written =>
        (output.(pending := [], delivered := output.delivered + batch, state := next,
                 handed := output.handed + [Handoff(batch, Written)],
                 accepted := output.accepted + [record]), Accepted)
      case Lost(count) =>
        (output.(pending := [], delivered := output.delivered + batch[..Min(count, |batch|)],
                 handed := output.handed + [Handoff(batch, Lost(count))],
                 state := Failed, attempted := Some(record)), Rejected(WriteFailed))
  }

  function RequireOpen(output: Output): Option<Reason> {
    match output.state
    case Open => None
    case Complete => Some(Terminal)
    case Error => Some(Terminal)
    case Failed => Some(AlreadyFailed)
  }

  /** Serialization and publication of one record, after the state checks. */
  ghost function AfterPublish(format: Format, output: Output, record: Record, next: EncoderState, weather: Weather)
    : (Output, Verdict)
  {
    var line := format.serialize(record);
    if |line| > MAX_RECORD then (output, Rejected(RecordLimit))
    else if !weather.serializes then (output, Rejected(NotSerialized))
    else if !weather.serializedBudget then (output, Rejected(OverBudget))
    else AfterWriteLine(output, record, line, next, weather)
  }

  ghost function AfterWriteSuccess(
    format: Format, output: Output, event: string, payload: string, terminal: bool, weather: Weather)
    : (Output, Verdict)
  {
    if output.command.None? then (output, Rejected(Unattributed))
    else if !weather.lockBudget then (output, Rejected(OverBudget))
    else if RequireOpen(output).Some? then (output, Rejected(RequireOpen(output).value))
    else if !terminal && output.sequence == U64_MAX then (output, Rejected(SequenceOverflow))
    else
      var record := Record(output.command, output.sequence, event, Success, payload);
      var (written, verdict) := AfterPublish(format, output, record, if terminal then Complete else Open, weather);
      if verdict.Accepted? && !terminal then (written.(sequence := output.sequence + 1), verdict)
      else (written, verdict)
  }

  ghost function Apply(format: Format, output: Output, call: Call): (Output, Verdict) {
    match call
    case EmitData(event, payload, weather) =>
      if event == "" || IsReserved(event) then (output, Rejected(ReservedEvent))
      else AfterWriteSuccess(format, output, event, payload, false, weather)
    case CompleteStream(payload, weather) => AfterWriteSuccess(format, output, "complete", payload, true, weather)
    case EmitError(payload, weather) =>
      if !weather.lockBudget then (output, Rejected(OverBudget))
      else if RequireOpen(output).Some? then (output, Rejected(RequireOpen(output).value))
      else
        var record := Record(output.command, output.sequence, "error", Errored, payload);
        AfterPublish(format, output, record, Error, weather)
    case ObserveInput(regularFile) =>
      (output.(batching := if output.batching.Refused? || !regularFile then Refused else On), Accepted)
  }

  /** The output after all the calls. */
  ghost function Run(format: Format, output: Output, calls: seq<Call>): Output
    decreases |calls|
  {
    if calls == [] then output else Run(format, Apply(format, output, calls[0]).0, calls[1..])
  }

  // ---- What every call keeps ----

  ghost predicate Fits(format: Format, records: seq<Record>) {
    forall i :: 0 <= i < |records| ==> |format.serialize(records[i])| <= MAX_RECORD
  }

  /**
    The records acknowledged so far fit their limit, carry the encoder's command and are numbered
    from zero.  Unless a write failed, what was delivered followed by what is pending is exactly
    their bytes.  After the terminal record nothing is pending, and that record is the only
    terminal one and the last.  After a failed write the output is still a prefix of a numbered
    stream.
   */
  ghost predicate NumberedOutput(format: Format, output: Output) {
    && output.sequence <= U64_MAX
    && |output.pending| < BATCH_BYTES
    && Fits(format, output.accepted)
    && (forall i :: 0 <= i < |output.accepted| ==> output.accepted[i].command == output.command)
    && match output.state
       case Open =>
         && NumberedData(output.accepted) && |output.accepted| == output.sequence
         && output.delivered + output.pending == Stream(format, output.accepted)
       case Complete =>
         && output.pending == [] && output.delivered == Stream(format, output.accepted)
         && FinishedRecords(output.accepted) && output.accepted[|output.accepted| - 1].status.Success?
       case Error =>
         && output.pending == [] && output.delivered == Stream(format, output.accepted)
         && FinishedRecords(output.accepted) && output.accepted[|output.accepted| - 1].status.Errored?
       case Failed =>
         && output.pending == [] && NumberedData(output.accepted)
         && output.attempted.Some? && output.attempted.value.sequence == |output.accepted|
         && |format.serialize(output.attempted.value)| <= MAX_RECORD
         && output.delivered <= Stream(format, output.accepted + [output.attempted.value])
  }

  /** The state a record may lead to, given what kind of record it is. */
  ghost predicate Suits(record: Record, next: EncoderState) {
    match next
    case Open => IsData(record)
    case Complete => IsTerminal(record) && record.status.Success?
    case Error => IsTerminal(record) && record.status.Errored?
    case Failed => false
  }

  lemma {:induction false} AcceptedKeeps(format: Format, output: Output, record: Record, next: EncoderState, after: Output)
    requires NumberedOutput(format, output) && output.state.Open?
    requires record.command == output.command && record.sequence == output.sequence && Suits(record, next)
    requires |format.serialize(record)| <= MAX_RECORD
    requires after.command == output.command && after.state == next
    requires after.accepted == output.accepted + [record]
    requires next.Open? ==> after.sequence == output.sequence + 1
    requires after.sequence <= U64_MAX && |after.pending| < BATCH_BYTES && (!next.Open? ==> after.pending == [])
    requires after.delivered + after.pending == output.delivered + output.pending + format.serialize(record)
    ensures NumberedOutput(format, after)
  {
    StreamAppends(format, output.accepted, record);
    assert after.accepted[..|output.accepted|] == output.accepted;
    assert !next.Open? ==> after.delivered + after.pending == after.delivered;
  }

  lemma {:induction false} LostKeeps(format: Format, output: Output, record: Record, count: nat, after: Output)
    requires NumberedOutput(format, output) && output.state.Open? && record.sequence == output.sequence
    requires count <= |output.pending + format.serialize(record)| && |format.serialize(record)| <= MAX_RECORD
    requires after == output.(pending := [], state := Failed, attempted := Some(record), handed := after.handed,
               delivered := output.delivered + (output.pending + format.serialize(record))[..count])
    ensures NumberedOutput(format, after)
  {
    StreamAppends(format, output.accepted, record);
    var batch := output.pending + format.serialize(record);
    assert output.delivered + batch == (output.delivered + output.pending) + format.serialize(record);
    assert after.delivered == (output.delivered + batch)[..|output.delivered| + count];
  }

  lemma {:induction false} PublishKeeps(format: Format, output: Output, record: Record, next: EncoderState, weather: Weather)
    requires NumberedOutput(format, output) && output.state.Open?
    requires record.command == output.command && record.sequence == output.sequence && Suits(record, next)
    requires next.Open? ==> output.sequence < U64_MAX
    ensures var (after, verdict) := AfterPublish(format, output, record, next, weather);
      if verdict.Accepted? && next.Open? then NumberedOutput(format, after.(sequence := output.sequence + 1))
      else NumberedOutput(format, after)
  {
    var (after, verdict) := AfterPublish(format, output, record, next, weather);
    var line := format.serialize(record);
    if verdict.Accepted? {
      assert after.delivered + after.pending == output.delivered + output.pending + line;
      AcceptedKeeps(format, output, record, next,
        if next.Open? then after.(sequence := output.sequence + 1) else after);
    } else if after != output {
      LostKeeps(format, output, record, Min(weather.write.count, |output.pending + line|), after);
    }
  }

  lemma {:induction false} DataKeeps(format: Format, output: Output, event: string, payload: string, weather: Weather)
    requires NumberedOutput(format, output)
    ensures NumberedOutput(format, Apply(format, output, EmitData(event, payload, weather)).0)
  {
    assert output.sequence <= U64_MAX;
    hide NumberedOutput, AfterPublish;
    if output.state.Open? && output.sequence < U64_MAX && event != "" && !IsReserved(event) {
      PublishKeeps(format, output, Record(output.command, output.sequence, event, Success, payload), Open, weather);
    }
  }

  lemma {:induction false} CompletionKeeps(format: Format, output: Output, payload: string, weather: Weather)
    requires NumberedOutput(format, output)
    ensures NumberedOutput(format, Apply(format, output, CompleteStream(payload, weather)).0)
  {
    hide NumberedOutput, AfterPublish;
    if output.state.Open? {
      var record := Record(output.command, output.sequence, "complete", Success, payload);
      PublishKeeps(format, output, record, Complete, weather);
    }
  }

  lemma {:induction false} ErrorKeeps(format: Format, output: Output, payload: string, weather: Weather)
    requires NumberedOutput(format, output)
    ensures NumberedOutput(format, Apply(format, output, EmitError(payload, weather)).0)
  {
    hide NumberedOutput, AfterPublish;
    if output.state.Open? {
      var record := Record(output.command, output.sequence, "error", Errored, payload);
      PublishKeeps(format, output, record, Error, weather);
    }
  }

  lemma {:induction false} ApplyKeeps(format: Format, output: Output, call: Call)
    requires NumberedOutput(format, output)
    ensures NumberedOutput(format, Apply(format, output, call).0)
  {
    match call
    case EmitData(event, payload, weather) => DataKeeps(format, output, event, payload, weather);
    case CompleteStream(payload, weather) => CompletionKeeps(format, output, payload, weather);
    case EmitError(payload, weather) => ErrorKeeps(format, output, payload, weather);
    case ObserveInput(regularFile) =>
  }

  lemma {:induction false} RunKeeps(format: Format, output: Output, calls: seq<Call>)
    requires NumberedOutput(format, output)
    ensures NumberedOutput(format, Run(format, output, calls))
    decreases |calls|
  {
    if calls != [] {
      ApplyKeeps(format, output, calls[0]);
      RunKeeps(format, Apply(format, output, calls[0]).0, calls[1..]);
    }
  }

  // ---- What was handed to the writer ----

  /** What of the batches is known to be out. */
  ghost function Flat(handed: seq<Handoff>): seq<Byte> {
    if handed == [] then []
    else
      var last := handed[|handed| - 1];
      Flat(handed[..|handed| - 1])
      + (if last.write.Written? then last.batch else last.batch[..Min(last.write.count, |last.batch|)])
  }

  /** The writer's bytes are those of the batches; only the last may be lost, and then the encoder has failed. */
  ghost predicate HandedOver(output: Output) {
    && output.delivered == Flat(output.handed)
    && (forall i :: 0 <= i < |output.handed| ==>
          (output.handed[i].write.Lost? <==> output.state.Failed? && i == |output.handed| - 1))
    && (output.state.Failed? ==> output.handed != [])
  }

  lemma {:induction false} WriteHandsOver(
    output: Output, record: Record, line: seq<Byte>, next: EncoderState, weather: Weather)
    requires HandedOver(output) && output.state.Open? && !next.Failed?
    ensures HandedOver(AfterWriteLine(output, record, line, next, weather).0)
  {
    var after := AfterWriteLine(output, record, line, next, weather).0;
    if after.handed != output.handed {
      assert after.handed[..|output.handed|] == output.handed;
    }
  }

  lemma {:induction false} CallHandsOver(format: Format, output: Output, call: Call)
    requires HandedOver(output)
    ensures HandedOver(Apply(format, output, call).0)
  {
    if !call.ObserveInput? && output.state.Open? {
      var record := match call
        case EmitData(event, payload, _) => Record(output.command, output.sequence, event, Success, payload)
        case CompleteStream(payload, _) => Record(output.command, output.sequence, "complete", Success, payload)
        case EmitError(payload, _) => Record(output.command, output.sequence, "error", Errored, payload);
      var next := if call.EmitData? then Open else if call.CompleteStream? then Complete else Error;
      WriteHandsOver(output, record, format.serialize(record), next, call.weather);
    }
  }

  /** After a failure, the batches handed over are together the accepted records and the attempted one. */
  ghost predicate FailedOn(format: Format, output: Output) {
    output.state.Failed? ==>
      && output.handed != [] && output.attempted.Some?
      && Flat(output.handed[..|output.handed| - 1]) + output.handed[|output.handed| - 1].batch
         == Stream(format, output.accepted + [output.attempted.value])
  }

  lemma {:induction false} WriteFailsOn(
    format: Format, output: Output, record: Record, next: EncoderState, weather: Weather)
    requires NumberedOutput(format, output) && HandedOver(output) && output.state.Open? && !next.Failed?
    ensures FailedOn(format, AfterWriteLine(output, record, format.serialize(record), next, weather).0)
  {
    var line := format.serialize(record);
    var after := AfterWriteLine(output, record, line, next, weather).0;
    if after.state.Failed? {
      assert after.handed[..|output.handed|] == output.handed;
      StreamAppends(format, output.accepted, record);
      assert output.delivered + (output.pending + line) == output.delivered + output.pending + line;
    }
  }

  lemma {:induction false} CallFailsOn(format: Format, output: Output, call: Call)
    requires NumberedOutput(format, output) && HandedOver(output) && FailedOn(format, output)
    ensures FailedOn(format, Apply(format, output, call).0)
  {
    hide NumberedOutput, HandedOver, Flat, Stream;
    if !call.ObserveInput? && output.state.Open? {
      var record := match call
        case EmitData(event, payload, _) => Record(output.command, output.sequence, event, Success, payload)
        case CompleteStream(payload, _) => Record(output.command, output.sequence, "complete", Success, payload)
        case EmitError(payload, _) => Record(output.command, output.sequence, "error", Errored, payload);
      var next := if call.EmitData? then Open else if call.CompleteStream? then Complete else Error;
      WriteFailsOn(format, output, record, next, call.weather);
    }
  }

  lemma {:induction false} RunHandsOver(format: Format, output: Output, calls: seq<Call>)
    requires NumberedOutput(format, output) && HandedOver(output) && FailedOn(format, output)
    ensures HandedOver(Run(format, output, calls)) && FailedOn(format, Run(format, output, calls))
    decreases |calls|
  {
    hide NumberedOutput, HandedOver, FailedOn;
    if calls != [] {
      ApplyKeeps(format, output, calls[0]);
      CallHandsOver(format, output, calls[0]);
      CallFailsOn(format, output, calls[0]);
      RunHandsOver(format, Apply(format, output, calls[0]).0, calls[1..]);
    }
  }

  // ---- Main results: `calls` is any sequence of calls on a fresh encoder ----

  /** Only the last batch can be lost; then the batches were the accepted records and the attempted one. */
  lemma {:induction false} BatchesAreTheOutput(format: Format, command: Option<string>, calls: seq<Call>)
    ensures HandedOver(Run(format, Initial(command), calls)) && FailedOn(format, Run(format, Initial(command), calls))
  {
    RunHandsOver(format, Initial(command), calls);
  }

  lemma {:induction false} OutputIsNumberedStream(format: Format, command: Option<string>, calls: seq<Call>)
    ensures NumberedOutput(format, Run(format, Initial(command), calls))
  {
    RunKeeps(format, Initial(command), calls);
  }

  /** No gap, no repeat, and at most one terminal record, in whatever state the encoder is. */
  lemma {:induction false} NumberedWithoutGap(format: Format, command: Option<string>, calls: seq<Call>, i: nat)
    requires i < |Run(format, Initial(command), calls).accepted|
    ensures var accepted := Run(format, Initial(command), calls).accepted;
      accepted[i].sequence == i && (IsTerminal(accepted[i]) ==> i == |accepted| - 1)
  {
    OutputIsNumberedStream(format, command, calls);
    var accepted := Run(format, Initial(command), calls).accepted;
    if FinishedRecords(accepted) && i < |accepted| - 1 {
      assert accepted[i] == accepted[..|accepted| - 1][i];
    }
  }

  /** Once the stream is complete, reported an error or failed, no call changes it any more. */
  lemma {:induction false} ClosedForever(format: Format, output: Output, calls: seq<Call>)
    requires !output.state.Open?
    ensures Run(format, output, calls) == output.(batching := Run(format, output, calls).batching)
    decreases |calls|
  {
    if calls != [] {
      ClosedForever(format, Apply(format, output, calls[0]).0, calls[1..]);
    }
  }

  /** A record once acknowledged stays where it is in the stream through all later calls. */
  lemma {:induction false} AcceptedStays(format: Format, output: Output, calls: seq<Call>)
    ensures output.accepted <= Run(format, output, calls).accepted
    decreases |calls|
  {
    if calls != [] {
      AcceptedStays(format, Apply(format, output, calls[0]).0, calls[1..]);
    }
  }

  // ---- What a verdict means ----

  /** The record a call asks for, numbered by the encoder. */
  ghost function RecordOf(output: Output, call: Call): Record
    requires !call.ObserveInput?
  {
    match call
    case EmitData(event, payload, _) => Record(output.command, output.sequence, event, Success, payload)
    case CompleteStream(payload, _) => Record(output.command, output.sequence, "complete", Success, payload)
    case EmitError(payload, _) => Record(output.command, output.sequence, "error", Errored, payload)
  }

  /** The call may be made in this state, its record fits, and no budget ran out before publication. */
  ghost predicate Publishes(format: Format, output: Output, call: Call)
    requires !call.ObserveInput?
  {
    && output.state.Open?
    && (call.EmitData? ==> call.event != "" && !IsReserved(call.event) && output.sequence < U64_MAX)
    && (!call.EmitError? ==> output.command.Some?)
    && |format.serialize(RecordOf(output, call))| <= MAX_RECORD
    && call.weather.lockBudget && call.weather.serializes && call.weather.serializedBudget
    && call.weather.publicationBudget
  }

  /** The record joins the pending bytes: only data, only while batching, and only below the batch size. */
  ghost predicate HeldBack(format: Format, output: Output, call: Call)
    requires !call.ObserveInput?
  {
    && output.batching.On? && call.EmitData?
    && |output.pending| + |format.serialize(RecordOf(output, call))| < BATCH_BYTES
  }

  /**
    A call is acknowledged exactly when its record was held back or wholly written; then that record,
    and nothing else, was accepted.  A failed write is the one rejection that changes anything.
   */
  lemma {:induction false} VerdictMeans(format: Format, output: Output, call: Call)
    requires !call.ObserveInput? && output.sequence <= U64_MAX
    ensures var (after, verdict) := Apply(format, output, call);
      && (verdict.Accepted? <==>
            && Publishes(format, output, call)
            && (HeldBack(format, output, call) || (call.weather.waitBudget && call.weather.write.Written?)))
      && (verdict == Rejected(WriteFailed) <==>
            && Publishes(format, output, call) && !HeldBack(format, output, call)
            && call.weather.waitBudget && call.weather.write.Lost?)
      && (verdict.Rejected? && verdict.reason != WriteFailed ==> after == output)
  {
  }

  /** What the acknowledged and the failed call leave behind. */
  lemma {:induction false} VerdictLeaves(format: Format, output: Output, call: Call)
    requires !call.ObserveInput?
    ensures var (after, verdict) := Apply(format, output, call);
      && (verdict.Accepted? <==> after.accepted == output.accepted + [RecordOf(output, call)])
      && (verdict.Rejected? ==> after.accepted == output.accepted)
      && (verdict == Rejected(WriteFailed) <==> after.state.Failed? && !output.state.Failed?)
      && (verdict.Accepted? ==> after.state == if call.EmitData? then Open else if call.EmitError? then Error else Complete)
      && (verdict.Accepted? ==> after.sequence == output.sequence + if call.EmitData? then 1 else 0)
  {
    var (after, verdict) := Apply(format, output, call);
    assert |output.accepted + [RecordOf(output, call)]| == |output.accepted| + 1;
  }

  /** The reason given for a rejection is the one that holds, and says why nothing was tried. */
  lemma {:induction false} ReasonHolds(format: Format, output: Output, call: Call)
    requires !call.ObserveInput? && Apply(format, output, call).1.Rejected?
    ensures match Apply(format, output, call).1.reason
      case Unattributed => output.command.None? && !call.EmitError?
      case ReservedEvent => call.EmitData? && (call.event == "" || IsReserved(call.event))
      case Terminal => output.state.Complete? || output.state.Error?
      case AlreadyFailed => output.state.Failed?
      case SequenceOverflow => call.EmitData? && output.sequence == U64_MAX
      case RecordLimit => |format.serialize(RecordOf(output, call))| > MAX_RECORD
      case NotSerialized => !call.weather.serializes
      case OverBudget =>
        !(call.weather.lockBudget && call.weather.serializedBudget
          && call.weather.publicationBudget && call.weather.waitBudget)
      case WriteFailed => call.weather.write.Lost?
  {
  }

  // ---- When records are held back ----

  ghost predicate SomeObserved(calls: seq<Call>) {
    exists i :: 0 <= i < |calls| && calls[i].ObserveInput?
  }

  ghost predicate AllRegular(calls: seq<Call>) {
    forall i :: 0 <= i < |calls| && calls[i].ObserveInput? ==> calls[i].regularFile
  }

  lemma {:induction false} RunAppends(format: Format, output: Output, calls: seq<Call>, call: Call)
    ensures Run(format, output, calls + [call]) == Apply(format, Run(format, output, calls), call).0
    decreases |calls|
  {
    if calls == [] {
      assert calls + [call] == [call] && [call][1..] == [];
    } else {
      assert (calls + [call])[1..] == calls[1..] + [call];
      RunAppends(format, Apply(format, output, calls[0]).0, calls[1..], call);
    }
  }

  lemma {:induction false} BatchingChanges(format: Format, output: Output, call: Call)
    ensures Apply(format, output, call).0.batching
         == if !call.ObserveInput? then output.batching
            else if output.batching.Refused? || !call.regularFile then Refused
            else On
  {
  }

  /** Batching is on exactly when some input was observed and every observed one was a regular file. */
  lemma {:induction false} BatchingMeans(format: Format, command: Option<string>, calls: seq<Call>)
    ensures var batching := Run(format, Initial(command), calls).batching;
      && (batching.On? <==> SomeObserved(calls) && AllRegular(calls))
      && (batching.Refused? <==> !AllRegular(calls))
    decreases |calls|
  {
    if calls != [] {
      var before, call := calls[..|calls| - 1], calls[|calls| - 1];
      assert calls == before + [call];
      BatchingMeans(format, command, before);
      RunAppends(format, Initial(command), before, call);
      BatchingChanges(format, Run(format, Initial(command), before), call);
      hide Run, Apply;
      assert AllRegular(calls) <==> AllRegular(before) && (call.ObserveInput? ==> call.regularFile);
      assert SomeObserved(calls) <==> SomeObserved(before) || call.ObserveInput? by {
        assert call.ObserveInput? ==> calls[|calls| - 1].ObserveInput?;
        assert forall i :: 0 <= i < |before| ==> before[i] == calls[i];
      }
    }
  }

  /**
    After any calls, an acknowledged record waits in the encoder only if some input was observed and
    every observed one was a regular file; otherwise it is delivered with all that waited before it.
   */
  lemma {:induction false} HeldBackOnlyForRegularFiles(
    format: Format, command: Option<string>, calls: seq<Call>, call: Call)
    requires !call.ObserveInput?
    requires Apply(format, Run(format, Initial(command), calls), call).1.Accepted?
    ensures var before, after := Run(format, Initial(command), calls), Run(format, Initial(command), calls + [call]);
      if HeldBack(format, before, call)
      then SomeObserved(calls) && AllRegular(calls) && after.delivered == before.delivered
      else after.pending == [] && after.delivered == Stream(format, after.accepted)
  {
    var before := Run(format, Initial(command), calls);
    BatchingMeans(format, command, calls);
    RunAppends(format, Initial(command), calls, call);
    VerdictLeaves(format, before, call);
    OutputIsNumberedStream(format, command, calls + [call]);
  }

  /** Observing a pipe stops holding back, but does not release what is already held back. */
  lemma {:induction false} RefusalReleasesNothing(format: Format, command: Option<string>, calls: seq<Call>)
    ensures var before, after :=
        Run(format, Initial(command), calls), Run(format, Initial(command), calls + [ObserveInput(false)]);
      after.batching.Refused? && after.pending == before.pending && after.delivered == before.delivered
  {
    RunAppends(format, Initial(command), calls, ObserveInput(false));
  }

  /** The encoder as the program holds it: its fields change in place under its lock. */
  class Encoder {
    const command: Option<string>
    const format: Format
    var state: EncoderState
    var sequence: nat
    var batching: Batching
    var pending: seq<Byte>
    var delivered: seq<Byte>
    ghost var handed: seq<Handoff>
    ghost var accepted: seq<Record>
    ghost var attempted: Option<Record>

    ghost function View(): Output
      reads this
    {
      Output(command, state, sequence, batching, pending, delivered, handed, accepted, attempted)
    }

    constructor (command: Option<string>, format: Format)
      ensures View() == Initial(command) && this.format == format
    {
      this.command, this.format := command, format;
      state, sequence, batching, pending, delivered := Open, 0, Off, [], [];
      handed, accepted, attempted := [], [], None;
    }

    method TakeBatch(line: seq<Byte>) returns (batch: seq<Byte>)
      modifies `pending
      ensures batch == old(pending) + line && pending == []
    {
      if pending == [] {
        return line;
      }
      batch := pending + line;
      pending := [];
    }

    method WriteLine(ghost record: Record, line: seq<Byte>, next: EncoderState, weather: Weather)
      returns (verdict: Verdict)
      modifies this
      ensures (View(), verdict) == AfterWriteLine(old(View()), record, line, next, weather)
    {
      if !weather.publicationBudget {
        return Rejected(OverBudget);
      }
      if batching.On? && next.Open? && |pending| + |line| < BATCH_BYTES {
        pending := pending + line;
        state := next;
        accepted := accepted + [record];
        return Accepted;
      }
      if !weather.waitBudget {
        return Rejected(OverBudget);
      }
      var batch := TakeBatch(line);
      match weather.write {
        case Written =>
          delivered := delivered + batch;
          handed := handed + [Handoff(batch, Written)];
          state := next;
          accepted := accepted + [record];
          return Accepted;
        case Lost(count) =>
          delivered := delivered + batch[..Min(count, |batch|)];
          handed := handed + [Handoff(batch, Lost(count))];
          state := Failed;
          attempted := Some(record);
          return Rejected(WriteFailed);
      }
    }

    method PublishRecord(record: Record, next: EncoderState, weather: Weather) returns (verdict: Verdict)
      modifies this
      ensures (View(), verdict) == AfterPublish(format, old(View()), record, next, weather)
    {
      var line := format.serialize(record);
      if |line| > MAX_RECORD {
        return Rejected(RecordLimit);
      }
      if !weather.serializes {
        return Rejected(NotSerialized);
      }
      if !weather.serializedBudget {
        return Rejected(OverBudget);
      }
      verdict := WriteLine(record, line, next, weather);
    }

    method WriteSuccess(event: string, payload: string, terminal: bool, weather: Weather)
      returns (verdict: Verdict)
      modifies this
      ensures (View(), verdict)
           == AfterWriteSuccess(format, old(View()), event, payload, terminal, weather)
    {
      if command.None? {
        return Rejected(Unattributed);
      }
      if !weather.lockBudget {
        return Rejected(OverBudget);
      }
      match state {
        case Open =>
        case Complete => return Rejected(Terminal);
        case Error => return Rejected(Terminal);
        case Failed => return Rejected(AlreadyFailed);
      }
      if !terminal && sequence == U64_MAX {
        return Rejected(SequenceOverflow);
      }
      verdict := PublishRecord(Record(command, sequence, event, Success, payload),
                               if terminal then Complete else Open, weather);
      if verdict.Accepted? && !terminal {
        sequence := sequence + 1;
      }
    }

    method Emit(event: string, payload: string, weather: Weather) returns (verdict: Verdict)
      modifies this
      ensures (View(), verdict) == Apply(format, old(View()), EmitData(event, payload, weather))
    {
      if event == "" || IsReserved(event) {
        return Rejected(ReservedEvent);
      }
      verdict := WriteSuccess(event, payload, false, weather);
    }

    method CompletePublished(payload: string, weather: Weather) returns (verdict: Verdict)
      modifies this
      ensures (View(), verdict) == Apply(format, old(View()), CompleteStream(payload, weather))
    {
      verdict := WriteSuccess("complete", payload, true, weather);
    }

    method ReportError(payload: string, weather: Weather) returns (verdict: Verdict)
      modifies this
      ensures (View(), verdict) == Apply(format, old(View()), EmitError(payload, weather))
    {
      if !weather.lockBudget {
        return Rejected(OverBudget);
      }
      match state {
        case Open =>
        case Complete => return Rejected(Terminal);
        case Error => return Rejected(Terminal);
        case Failed => return Rejected(AlreadyFailed);
      }
      verdict := PublishRecord(Record(command, sequence, "error", Errored, payload), Error, weather);
    }

    method Observe(regularFile: bool)
      modifies `batching
      ensures View() == Apply(format, old(View()), ObserveInput(regularFile)).0
    {
      match batching {
        case Refused =>
        case Off => batching := if regularFile then On else Refused;
        case On => batching := if regularFile then On else Refused;
      }
    }
  }
}
