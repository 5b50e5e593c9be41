/**
  The NDJSON framing loop of the reference consumer, examples/consumers/forwarding.py, and its
  relation to the encoder. It accepts exactly the byte streams whose lines decode to a numbered list
  of data records ended by one terminal record, and no proper prefix of one; every such list whose
  records fit their limit is one that the encoder can write, and what the encoder finishes is one.
 */
module FramingConsumer {
  import opened Wrappers
  import opened StreamFormat
  import E = StreamEncoder

  const MAX_STREAM: nat := 64 * 1024 * 1024
  const COMMAND: string := "verify-forwarding"
  const DATA_EVENT: string := "event"

  datatype Refusal =
    | StreamLimit
    | Truncated
    | AfterTerminal
    | Undecodable
    | WrongCommand
    | OutOfSequence
    | UnknownEvent
    | DataNotSuccess
    | MissingTerminal
    | StatusDisagrees

  /** How many bytes `readline(limit)` takes: through the first newline, or to the limit or end. */
  function LineLength(data: seq<Byte>, limit: nat): (n: nat)
    ensures n <= |data| && n <= limit
    ensures forall i :: 0 <= i < n - 1 ==> data[i] != NEWLINE
    ensures n == |data| || n == limit || (n > 0 && data[n - 1] == NEWLINE)
    decreases |data|
  {
    if data == [] || limit == 0 then 0
    else if data[0] == NEWLINE then 1
    else 1 + LineLength(data[1..], limit - 1)
  }

  /** The checks on one line: its record, if it is in order here. */
  function CheckLine(format: Format, line: seq<Byte>, terminal: Option<Record>, sequence: nat, total: nat)
    : Result<Record, Refusal>
    requires |line| > 0
  {
    if total + |line| > MAX_STREAM || |line| > MAX_RECORD then Err(StreamLimit)
    else if line[|line| - 1] != NEWLINE then Err(Truncated)
    else if terminal.Some? then Err(AfterTerminal)
    else
      var decoded := format.decode(line);
      if decoded.None? then Err(Undecodable)
      else if decoded.value.command != Some(COMMAND) then Err(WrongCommand)
      else if decoded.value.sequence != sequence then Err(OutOfSequence)
      else if decoded.value.event != DATA_EVENT && !IsReserved(decoded.value.event) then Err(UnknownEvent)
      else if decoded.value.event == DATA_EVENT && !decoded.value.status.Success? then Err(DataNotSuccess)
      else Ok(decoded.value)
  }

  /** The checks after the last line. */
  function Finish(terminal: Option<Record>): Result<Record, Refusal> {
    if terminal.None? then Err(MissingTerminal)
    else if terminal.value.event != (if terminal.value.status.Success? then "complete" else "error") then
      Err(StatusDisagrees)
    else Ok(terminal.value)
  }

  function Frame(format: Format, data: seq<Byte>, terminal: Option<Record>, sequence: nat, total: nat)
    : Result<Record, Refusal>
    decreases |data|
  {
    var n := LineLength(data, MAX_RECORD + 1);
    if n == 0 then Finish(terminal)
    else
      var checked := CheckLine(format, data[..n], terminal, sequence, total);
      if checked.Err? then checked
      else
        var record := checked.value;
        Frame(format, data[n..], if IsReserved(record.event) then Some(record) else None, sequence + 1, total + n)
  }

  lemma {:induction false} NoneBefore(format: Format, line: seq<Byte>, terminal: Option<Record>, sequence: nat, total: nat)
    requires line != [] && CheckLine(format, line, terminal, sequence, total).Ok?
    ensures terminal.None?
  {
  }

  /** The consumer's loop over the whole stream. */
  method Consume(format: Format, data: seq<Byte>) returns (result: Result<Record, Refusal>)
    ensures result == Frame(format, data, None, 0, 0)
    ensures result.Err? ==> exists lines, records, rest :: RefusedAfter(format, data, lines, records, rest, result.error)
  {
    RefusedExplained(format, data);
    hide RefusedAfter, CheckLine, Finish;
    var terminal: Option<Record> := None;
    var rest, sequence, total := data, 0, 0;
    while true
      invariant Frame(format, data, None, 0, 0) == Frame(format, rest, terminal, sequence, total)
      decreases |rest|
    {
      var n := LineLength(rest, MAX_RECORD + 1);
      if n == 0 {
        return Finish(terminal);
      }
      var line := rest[..n];
      var checked := CheckLine(format, line, terminal, sequence, total);
      if checked.Err? {
        return checked;
      }
      NoneBefore(format, line, terminal, sequence, total);
      if IsReserved(checked.value.event) {
        terminal := Some(checked.value);
      }
      rest, sequence, total := rest[n..], sequence + 1, total + n;
    }
  }

  // ---- Lists of records, and the lines that carry them ----

  predicate IsEvent(record: Record) {
    record.event == DATA_EVENT && record.status.Success?
  }

  /** Records for this consumer, numbered from `sequence`: data, then the one terminal record. */
  ghost predicate FinishesFrom(records: seq<Record>, sequence: nat) {
    && |records| > 0
    && (forall i :: 0 <= i < |records| ==> records[i].sequence == sequence + i && records[i].command == Some(COMMAND))
    && (forall i :: 0 <= i < |records| - 1 ==> IsEvent(records[i]))
    && IsTerminal(records[|records| - 1])
  }

  /** One line within the limit that the decoder reads as the record. */
  ghost predicate Carries(format: Format, line: seq<Byte>, record: Record) {
    IsLine(line) && |line| <= MAX_RECORD && format.decode(line) == Some(record)
  }

  ghost predicate AllCarry(format: Format, lines: seq<seq<Byte>>, records: seq<Record>) {
    && |lines| == |records|
    && forall i :: 0 <= i < |lines| ==> Carries(format, lines[i], records[i])
  }

  ghost function Concat(lines: seq<seq<Byte>>): seq<Byte> {
    if lines == [] then [] else lines[0] + Concat(lines[1..])
  }

  // ---- One line at a time ----

  lemma {:induction false} FirstLine(line: seq<Byte>, rest: seq<Byte>, limit: nat)
    requires IsLine(line) && |line| <= limit
    ensures LineLength(line + rest, limit) == |line|
    decreases |line|
  {
    if line[0] != NEWLINE {
      assert (line + rest)[1..] == line[1..] + rest;
      FirstLine(line[1..], rest, limit - 1);
    }
  }

  /** One record in order: the consumer takes its line and goes on behind it, or is over its limit. */
  lemma {:induction false} FrameTakesLine(format: Format, line: seq<Byte>, record: Record, rest: seq<Byte>, total: nat)
    requires Carries(format, line, record) && record.command == Some(COMMAND) && (IsEvent(record) || IsTerminal(record))
    ensures var framed := Frame(format, line + rest, None, record.sequence, total);
      if total + |line| > MAX_STREAM then framed.Err?
      else framed == Frame(format, rest, if IsTerminal(record) then Some(record) else None,
                           record.sequence + 1, total + |line|)
  {
    hide CheckLine, Finish;
    LineIsChecked(format, line, record, total);
    FirstLine(line, rest, MAX_RECORD + 1);
    assert (line + rest)[..|line|] == line && (line + rest)[|line|..] == rest;
  }

  lemma {:induction false} LineIsChecked(format: Format, line: seq<Byte>, record: Record, total: nat)
    requires Carries(format, line, record) && record.command == Some(COMMAND) && (IsEvent(record) || IsTerminal(record))
    ensures CheckLine(format, line, None, record.sequence, total)
         == if total + |line| > MAX_STREAM then Err(StreamLimit) else Ok(record)
  {
  }

  lemma {:induction false} TailFinishes(format: Format, lines: seq<seq<Byte>>, records: seq<Record>, sequence: nat)
    requires FinishesFrom(records, sequence) && AllCarry(format, lines, records)
    ensures Concat(lines) == lines[0] + Concat(lines[1..])
    ensures Carries(format, lines[0], records[0])
    ensures records[0].command == Some(COMMAND) && records[0].sequence == sequence
    ensures if |records| == 1 then IsTerminal(records[0]) && Concat(lines[1..]) == []
            else IsEvent(records[0]) && FinishesFrom(records[1..], sequence + 1) && AllCarry(format, lines[1..], records[1..])
  {
  }

  /** With no terminal record seen yet, the consumer ends on this rest as `result` says. */
  ghost predicate Ends(format: Format, rest: seq<Byte>, sequence: nat, total: nat, result: Option<Record>) {
    var framed := Frame(format, rest, None, sequence, total);
    if result.Some? then framed == Ok(result.value) else framed.Err?
  }

  lemma {:induction false} SkipData(
    format: Format, line: seq<Byte>, record: Record, rest: seq<Byte>, total: nat, result: Option<Record>)
    requires Carries(format, line, record) && record.command == Some(COMMAND) && IsEvent(record)
    requires result.Some? ==> total + |line| <= MAX_STREAM
    requires Ends(format, rest, record.sequence + 1, total + |line|, result)
    ensures Ends(format, line + rest, record.sequence, total, result)
  {
    FrameTakesLine(format, line, record, rest, total);
  }

  lemma {:induction false} EndsWithTerminal(format: Format, line: seq<Byte>, record: Record, total: nat)
    requires Carries(format, line, record) && record.command == Some(COMMAND) && IsTerminal(record)
    requires total + |line| <= MAX_STREAM
    ensures Ends(format, line, record.sequence, total, Some(record))
  {
    FrameTakesLine(format, line, record, [], total);
    assert line + [] == line;
  }

  lemma {:induction false} FrameAccepts(
    format: Format, lines: seq<seq<Byte>>, records: seq<Record>, sequence: nat, total: nat)
    requires FinishesFrom(records, sequence) && AllCarry(format, lines, records)
    requires total + |Concat(lines)| <= MAX_STREAM
    ensures Ends(format, Concat(lines), sequence, total, Some(records[|records| - 1]))
    decreases |records|
  {
    TailFinishes(format, lines, records, sequence);
    if |records| > 1 {
      FrameAccepts(format, lines[1..], records[1..], sequence + 1, total + |lines[0]|);
      SkipData(format, lines[0], records[0], Concat(lines[1..]), total, Some(records[|records| - 1]));
    } else {
      assert lines[0] + [] == lines[0];
      EndsWithTerminal(format, lines[0], records[0], total);
    }
  }

  /** Cut inside a line, the rest has no newline, so it is refused as missing or truncated. */
  lemma {:induction false} RefusesPartialLine(format: Format, data: seq<Byte>, sequence: nat, total: nat)
    requires forall i :: 0 <= i < |data| ==> data[i] != NEWLINE
    ensures Ends(format, data, sequence, total, None)
  {
    var n := LineLength(data, MAX_RECORD + 1);
    assert n == 0 || data[..n][n - 1] != NEWLINE;
  }

  lemma {:induction false} FrameRefusesPrefix(
    format: Format, lines: seq<seq<Byte>>, records: seq<Record>, sequence: nat, total: nat, k: nat)
    requires FinishesFrom(records, sequence) && AllCarry(format, lines, records)
    requires k < |Concat(lines)|
    ensures Ends(format, Concat(lines)[..k], sequence, total, None)
    decreases |records|
  {
    TailFinishes(format, lines, records, sequence);
    var line, rest := lines[0], Concat(lines[1..]);
    if k < |line| {
      assert (line + rest)[..k] == line[..k];
      RefusesPartialLine(format, line[..k], sequence, total);
    } else {
      assert (line + rest)[..k] == line + rest[..k - |line|];
      FrameRefusesPrefix(format, lines[1..], records[1..], sequence + 1, total + |line|, k - |line|);
      SkipData(format, line, records[0], rest[..k - |line|], total, None);
    }
  }

  // ---- Why the consumer refuses ----

  /** Records in order, numbered from `sequence`, of which only the last may be a terminal one. */
  ghost predicate BeginsFrom(records: seq<Record>, sequence: nat) {
    && (forall i :: 0 <= i < |records| ==> records[i].sequence == sequence + i && records[i].command == Some(COMMAND))
    && (forall i :: 0 <= i < |records| - 1 ==> IsEvent(records[i]))
    && (records != [] ==> IsEvent(records[|records| - 1]) || IsReserved(records[|records| - 1].event))
  }

  ghost function TerminalOf(records: seq<Record>): Option<Record> {
    if records != [] && IsReserved(records[|records| - 1].event) then Some(records[|records| - 1]) else None
  }

  /** The refusal holds of the rest, `total` bytes into the stream, behind the terminal record if one was read. */
  ghost predicate Holds(
    format: Format, rest: seq<Byte>, terminal: Option<Record>, sequence: nat, total: nat, refusal: Refusal)
  {
    var n := LineLength(rest, MAX_RECORD + 1);
    match refusal
    case MissingTerminal => rest == [] && terminal.None?
    case StatusDisagrees =>
      rest == [] && terminal.Some? && !IsTerminal(terminal.value)
    case StreamLimit => rest != [] && (n > MAX_RECORD || total + n > MAX_STREAM)
    case Truncated => rest != [] && NEWLINE !in rest
    case AfterTerminal => rest != [] && terminal.Some?
    case _ => rest != [] && terminal.None? && IsLine(rest[..n]) && Misread(format.decode(rest[..n]), sequence, refusal)
  }

  /** What is wrong with what was read from a whole line. */
  ghost predicate Misread(decoded: Option<Record>, sequence: nat, refusal: Refusal) {
    if decoded.None? then refusal == Undecodable
    else
      match refusal
      case WrongCommand => decoded.value.command != Some(COMMAND)
      case OutOfSequence => decoded.value.sequence != sequence
      case UnknownEvent => decoded.value.event !in {DATA_EVENT, "complete", "error"}
      case DataNotSuccess => decoded.value.event == DATA_EVENT && decoded.value.status.Errored?
      case _ => false
  }

  lemma {:induction false} LineRefused(
    format: Format, data: seq<Byte>, terminal: Option<Record>, sequence: nat, total: nat)
    requires data != []
    ensures var n := LineLength(data, MAX_RECORD + 1);
      && n > 0
      && var checked := CheckLine(format, data[..n], terminal, sequence, total);
         && (checked.Err? ==> Holds(format, data, terminal, sequence, total, checked.error))
         && (checked.Ok? ==> terminal.None? && Carries(format, data[..n], checked.value))
  {
    var n := LineLength(data, MAX_RECORD + 1);
    if n <= MAX_RECORD && data[n - 1] != NEWLINE {
      assert n == |data|;
    }
  }

  ghost predicate RefusedAfter(
    format: Format, data: seq<Byte>, lines: seq<seq<Byte>>, records: seq<Record>, rest: seq<Byte>, refusal: Refusal)
  {
    && data == Concat(lines) + rest && BeginsFrom(records, 0) && AllCarry(format, lines, records)
    && Holds(format, rest, TerminalOf(records), |records|, |Concat(lines)|, refusal)
  }

  lemma {:induction false} PrependRefused(
    format: Format, line: seq<Byte>, record: Record, lines: seq<seq<Byte>>, records: seq<Record>, sequence: nat)
    requires BeginsFrom(records, sequence + 1) && AllCarry(format, lines, records)
    requires Carries(format, line, record) && record.sequence == sequence && record.command == Some(COMMAND)
    requires IsEvent(record) || (records == [] && IsReserved(record.event))
    ensures BeginsFrom([record] + records, sequence) && AllCarry(format, [line] + lines, [record] + records)
    ensures Concat([line] + lines) == line + Concat(lines)
    ensures TerminalOf([record] + records) == if records == [] && IsReserved(record.event) then Some(record) else TerminalOf(records)
  {
    assert ([line] + lines)[1..] == lines;
  }

  /**
    A refused stream is cut into lines that carry records in order and a rest, and the refusal
    holds at the very place where the rest begins.
   */
  lemma {:induction false} RefusalHolds(format: Format, data: seq<Byte>, sequence: nat, total: nat)
    returns (lines: seq<seq<Byte>>, records: seq<Record>, rest: seq<Byte>)
    requires Frame(format, data, None, sequence, total).Err?
    ensures Concat(lines) + rest == data && BeginsFrom(records, sequence) && AllCarry(format, lines, records)
    ensures Holds(format, rest, TerminalOf(records), sequence + |records|, total + |Concat(lines)|,
                  Frame(format, data, None, sequence, total).error)
    decreases |data|
  {
    hide Holds, CheckLine, LineLength, BeginsFrom, AllCarry, Concat, TerminalOf, IsEvent, Carries;
    NothingRead(format, sequence);
    var refusal := Frame(format, data, None, sequence, total).error;
    lines, records, rest := [], [], data;
    if data == [] {
      assert Holds(format, data, None, sequence, total, refusal) by {
        EndRefused(format, None, sequence, total);
      }
      return;
    }
    LineRefused(format, data, None, sequence, total);
    var n := LineLength(data, MAX_RECORD + 1);
    var checked := CheckLine(format, data[..n], None, sequence, total);
    if checked.Err? {
      return;
    }
    InOrder(format, data[..n], sequence, total);
    var line, record, behind := data[..n], checked.value, data[n..];
    assert data == line + behind;
    if IsReserved(record.event) {
      NothingRead(format, sequence + 1);
      PrependRefused(format, line, record, [], [], sequence);
      lines, records, rest := [line] + [], [record] + [], behind;
      if behind == [] {
        EndRefused(format, Some(record), sequence + 1, total + n);
      } else {
        LineRefused(format, behind, Some(record), sequence + 1, total + n);
      }
    } else {
      var others, following, end := RefusalHolds(format, behind, sequence + 1, total + n);
      PrependRefused(format, line, record, others, following, sequence);
      lines, records, rest := [line] + others, [record] + following, end;
      assert data == line + (Concat(others) + rest);
    }
  }

  lemma {:induction false} NothingRead(format: Format, sequence: nat)
    ensures BeginsFrom([], sequence) && AllCarry(format, [], []) && Concat([]) == [] && TerminalOf([]) == None
    ensures LineLength([], MAX_RECORD + 1) == 0
  {
  }

  lemma {:induction false} RefusedExplained(format: Format, data: seq<Byte>)
    ensures Frame(format, data, None, 0, 0).Err? ==>
              exists lines, records, rest ::
                RefusedAfter(format, data, lines, records, rest, Frame(format, data, None, 0, 0).error)
  {
    if Frame(format, data, None, 0, 0).Err? {
      var lines, records, rest := RefusalHolds(format, data, 0, 0);
      assert RefusedAfter(format, data, lines, records, rest, Frame(format, data, None, 0, 0).error) by {
        hide Frame, Holds;
      }
    }
  }

  lemma {:induction false} EndRefused(format: Format, terminal: Option<Record>, sequence: nat, total: nat)
    requires terminal.Some? ==> IsReserved(terminal.value.event)
    requires Finish(terminal).Err?
    ensures Holds(format, [], terminal, sequence, total, Finish(terminal).error)
  {
  }

  lemma {:induction false} InOrder(format: Format, line: seq<Byte>, sequence: nat, total: nat)
    requires line != [] && CheckLine(format, line, None, sequence, total).Ok?
    ensures var record := CheckLine(format, line, None, sequence, total).value;
      && record.sequence == sequence && record.command == Some(COMMAND)
      && (IsEvent(record) || IsReserved(record.event)) && (IsEvent(record) ==> !IsReserved(record.event))
  {
  }

  // ---- What the consumer accepts ----

  ghost predicate Accepts(format: Format, rest: seq<Byte>, sequence: nat, total: nat) {
    Frame(format, rest, None, sequence, total).Ok?
  }

  lemma {:induction false} NothingIsRefused(format: Format, sequence: nat, total: nat)
    ensures !Accepts(format, [], sequence, total)
  {
  }

  /** An accepted stream starts with one record's line; behind it comes nothing or an accepted rest. */
  lemma {:induction false} AcceptedLine(format: Format, data: seq<Byte>, sequence: nat, total: nat)
    returns (line: seq<Byte>, record: Record, rest: seq<Byte>)
    requires Accepts(format, data, sequence, total)
    ensures data == line + rest && |rest| < |data| && Carries(format, line, record)
    ensures record.sequence == sequence && record.command == Some(COMMAND) && total + |line| <= MAX_STREAM
    ensures if rest == [] then IsTerminal(record)
            else IsEvent(record) && Accepts(format, rest, sequence + 1, total + |line|)
  {
    var n := LineLength(data, MAX_RECORD + 1);
    assert n > 0;
    line, record, rest := data[..n], format.decode(data[..n]).value, data[n..];
    assert data == line + rest;
    if IsReserved(record.event) {
      assert Frame(format, rest, Some(record), sequence + 1, total + n).Ok?;
      assert LineLength(rest, MAX_RECORD + 1) == 0;
    } else {
      NothingIsRefused(format, sequence + 1, total + n);
    }
  }

  lemma {:induction false} PrependData(
    format: Format, line: seq<Byte>, record: Record, lines: seq<seq<Byte>>, records: seq<Record>, sequence: nat)
    requires FinishesFrom(records, sequence + 1) && AllCarry(format, lines, records)
    requires Carries(format, line, record)
    requires record.sequence == sequence && record.command == Some(COMMAND) && IsEvent(record)
    ensures FinishesFrom([record] + records, sequence) && AllCarry(format, [line] + lines, [record] + records)
    ensures Concat([line] + lines) == line + Concat(lines)
  {
    assert ([line] + lines)[1..] == lines;
  }

  /** The lines and the records behind an accepted stream, in order. */
  lemma {:induction false} AcceptedLines(format: Format, data: seq<Byte>, sequence: nat, total: nat)
    returns (lines: seq<seq<Byte>>, records: seq<Record>)
    requires Accepts(format, data, sequence, total)
    ensures FinishesFrom(records, sequence) && AllCarry(format, lines, records)
    ensures Concat(lines) == data && total + |data| <= MAX_STREAM
    decreases |data|
  {
    var line, record, rest := AcceptedLine(format, data, sequence, total);
    if rest == [] {
      lines, records := [line], [record];
      assert Concat(lines[1..]) == [];
    } else {
      var otherLines, others := AcceptedLines(format, rest, sequence + 1, total + |line|);
      PrependData(format, line, record, otherLines, others, sequence);
      lines, records := [line] + otherLines, [record] + others;
    }
  }

  /** The bytes are the lines of the records, which are a finished list within the stream limit. */
  ghost predicate IsFramed(format: Format, data: seq<Byte>, lines: seq<seq<Byte>>, records: seq<Record>) {
    && FinishesFrom(records, 0) && AllCarry(format, lines, records)
    && Concat(lines) == data && |data| <= MAX_STREAM
  }

  /**
    For every byte stream and any format: the consumer accepts its framing if and only if it is cut
    into lines that carry a finished list of records.
   */
  lemma {:induction false} ConsumerAcceptsExactly(format: Format, data: seq<Byte>)
    ensures Frame(format, data, None, 0, 0).Ok? <==> exists lines, records :: IsFramed(format, data, lines, records)
  {
    if Frame(format, data, None, 0, 0).Ok? {
      var lines, records := AcceptedLines(format, data, 0, 0);
      assert IsFramed(format, data, lines, records);
    }
    if exists lines, records :: IsFramed(format, data, lines, records) {
      var lines, records :| IsFramed(format, data, lines, records);
      FrameAccepts(format, lines, records, 0, 0);
    }
  }

  /** The terminal record is what acceptance returns, and no proper prefix of an accepted stream is accepted. */
  lemma {:induction false} AcceptedWhole(
    format: Format, data: seq<Byte>, lines: seq<seq<Byte>>, records: seq<Record>, k: nat)
    requires IsFramed(format, data, lines, records)
    ensures Frame(format, data, None, 0, 0) == Ok(records[|records| - 1])
    ensures k < |data| ==> Frame(format, data[..k], None, 0, 0).Err?
  {
    FrameAccepts(format, lines, records, 0, 0);
    if k < |data| {
      FrameRefusesPrefix(format, lines, records, 0, 0, k);
    }
  }

  // ---- What the encoder finishes ----

  ghost function Lines(format: Format, records: seq<Record>): (lines: seq<seq<Byte>>)
    ensures |lines| == |records|
  {
    seq(|records|, i requires 0 <= i < |records| => format.serialize(records[i]))
  }

  lemma {:induction false} LinesMakeStream(format: Format, records: seq<Record>)
    ensures Concat(Lines(format, records)) == Stream(format, records)
    decreases |records|
  {
    if records != [] {
      LinesMakeStream(format, records[1..]);
      assert Lines(format, records)[1..] == Lines(format, records[1..]);
    }
  }

  /** The encoder has finished with a stream meant for this consumer. */
  ghost predicate FinishedForConsumer(format: Format, output: E.Output) {
    && (output.state.Complete? || output.state.Error?)
    && output.command == Some(COMMAND)
    && (forall i :: 0 <= i < |output.accepted| - 1 ==> output.accepted[i].event == DATA_EVENT)
    && |output.delivered| <= MAX_STREAM
  }

  /** A finished list whose records, as the encoder writes them, fit both limits. */
  ghost predicate FitsAsWritten(format: Format, records: seq<Record>) {
    FinishesFrom(records, 0) && E.Fits(format, records) && |Stream(format, records)| <= MAX_STREAM
  }

  lemma {:induction false} FinishedRecordsFinish(format: Format, calls: seq<E.Call>)
    requires FinishedForConsumer(format, E.Run(format, E.Initial(Some(COMMAND)), calls))
    ensures var output := E.Run(format, E.Initial(Some(COMMAND)), calls);
      FitsAsWritten(format, output.accepted) && output.delivered == Stream(format, output.accepted)
  {
    E.OutputIsNumberedStream(format, Some(COMMAND), calls);
    var accepted := E.Run(format, E.Initial(Some(COMMAND)), calls).accepted;
    forall i | 0 <= i < |accepted| - 1 ensures IsData(accepted[i]) && accepted[i].sequence == i {
      assert accepted[i] == accepted[..|accepted| - 1][i];
    }
  }

  /** Whatever calls led the encoder to a finished stream, the consumer accepts all of it and no less. */
  lemma {:induction false} FinishedStreamAcceptedWhole(format: Format, calls: seq<E.Call>, k: nat)
    requires Faithful(format)
    requires FinishedForConsumer(format, E.Run(format, E.Initial(Some(COMMAND)), calls))
    ensures var output := E.Run(format, E.Initial(Some(COMMAND)), calls);
      && |output.accepted| > 0
      && Frame(format, output.delivered, None, 0, 0) == Ok(output.accepted[|output.accepted| - 1])
      && (k < |output.delivered| ==> Frame(format, output.delivered[..k], None, 0, 0).Err?)
  {
    hide E.Run, Frame, Stream, Concat, IsTerminal;
    var output := E.Run(format, E.Initial(Some(COMMAND)), calls);
    FinishedRecordsFinish(format, calls);
    LinesMakeStream(format, output.accepted);
    assert AllCarry(format, Lines(format, output.accepted), output.accepted);
    AcceptedWhole(format, output.delivered, Lines(format, output.accepted), output.accepted, k);
  }

  // ---- What the encoder can write ----

  const FAIR: E.Weather := E.Weather(true, true, true, true, true, E.Written)

  function CallFor(record: Record): E.Call {
    if record.event == "complete" then E.CompleteStream(record.payload, FAIR)
    else if record.event == "error" then E.EmitError(record.payload, FAIR)
    else E.EmitData(record.event, record.payload, FAIR)
  }

  /** An open, unbatched encoder that has come to this sequence number. */
  ghost predicate ReadyAt(output: E.Output, sequence: nat) {
    && output.command == Some(COMMAND) && output.state.Open? && output.sequence == sequence
    && output.batching.Off? && output.pending == []
  }

  lemma {:induction false} WritesRecord(format: Format, output: E.Output, record: Record)
    requires ReadyAt(output, record.sequence) && record.sequence < E.U64_MAX
    requires record.command == Some(COMMAND) && |format.serialize(record)| <= MAX_RECORD
    requires IsEvent(record) || IsTerminal(record)
    ensures var after := E.Apply(format, output, CallFor(record)).0;
      && after.delivered == output.delivered + format.serialize(record)
      && after.accepted == output.accepted + [record]
      && after.command == output.command
      && (IsEvent(record) ==> ReadyAt(after, record.sequence + 1))
      && (IsTerminal(record) ==> after.state.Complete? || after.state.Error?)
  {
    assert [] + format.serialize(record) == format.serialize(record);
  }

  lemma {:induction false} WritesRecords(format: Format, output: E.Output, records: seq<Record>, sequence: nat)
    returns (calls: seq<E.Call>)
    requires FinishesFrom(records, sequence) && E.Fits(format, records) && ReadyAt(output, sequence)
    requires sequence + |records| <= E.U64_MAX
    ensures var after := E.Run(format, output, calls);
      && (after.state.Complete? || after.state.Error?) && after.command == Some(COMMAND)
      && after.delivered == output.delivered + Stream(format, records)
      && after.accepted == output.accepted + records
    decreases |records|
  {
    WritesRecord(format, output, records[0]);
    var first := CallFor(records[0]);
    var next := E.Apply(format, output, first).0;
    if |records| > 1 {
      assert IsEvent(records[0]) && FinishesFrom(records[1..], sequence + 1);
      var rest := WritesRecords(format, next, records[1..], sequence + 1);
      calls := [first] + rest;
      assert calls[1..] == rest;
      assert output.accepted + [records[0]] + records[1..] == output.accepted + records;
    } else {
      calls := [first];
      assert E.Run(format, next, calls[1..]) == next;
      assert records == [records[0]] && Stream(format, records[1..]) == [];
    }
  }

  lemma {:induction false} StreamAtLeastCount(format: Format, records: seq<Record>)
    requires Faithful(format)
    ensures |records| <= |Stream(format, records)|
  {
    if records != [] {
      StreamAtLeastCount(format, records[1..]);
    }
  }

  /** Some sequence of calls finishes a stream for this consumer with exactly these records. */
  ghost predicate EncoderFinishes(format: Format, records: seq<Record>) {
    exists calls ::
      && FinishedForConsumer(format, E.Run(format, E.Initial(Some(COMMAND)), calls))
      && E.Run(format, E.Initial(Some(COMMAND)), calls).accepted == records
  }

  /** The lists the encoder can finish for this consumer are exactly the finished lists that fit. */
  lemma {:induction false} EncoderFinishesExactly(format: Format, records: seq<Record>)
    requires Faithful(format)
    ensures EncoderFinishes(format, records) <==> FitsAsWritten(format, records)
  {
    if EncoderFinishes(format, records) {
      var calls :|
        && FinishedForConsumer(format, E.Run(format, E.Initial(Some(COMMAND)), calls))
        && E.Run(format, E.Initial(Some(COMMAND)), calls).accepted == records;
      FinishedRecordsFinish(format, calls);
    }
    if FitsAsWritten(format, records) {
      StreamAtLeastCount(format, records);
      var calls := WritesRecords(format, E.Initial(Some(COMMAND)), records, 0);
      assert [] + records == records && [] + Stream(format, records) == Stream(format, records);
      assert FinishedForConsumer(format, E.Run(format, E.Initial(Some(COMMAND)), calls));
    }
  }

  /** What the consumer read, however its lines were spelled, the encoder can write if it fits that way. */
  lemma {:induction false} AcceptedCanBeWritten(format: Format, data: seq<Byte>) returns (records: seq<Record>)
    requires Faithful(format) && Frame(format, data, None, 0, 0).Ok?
    ensures exists lines :: IsFramed(format, data, lines, records)
    ensures EncoderFinishes(format, records) <==> E.Fits(format, records) && |Stream(format, records)| <= MAX_STREAM
  {
    var lines;
    lines, records := AcceptedLines(format, data, 0, 0);
    assert IsFramed(format, data, lines, records);
    EncoderFinishesExactly(format, records);
  }
}
