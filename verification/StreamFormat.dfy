/**
  NDJSON records as the stream encoder of crates/packetcraftr-cli/src/output/stream.rs writes
  them and the reference consumer of examples/consumers/forwarding.py reads them.  What a record
  looks like as JSON is left open: a `Format` is any pair of a serializer that puts each record on
  one line of its own and a decoder that gives the record back.
 */
module StreamFormat {
  import opened Wrappers

  type Byte = b: int | 0 <= b < 256

  const NEWLINE: Byte := 10

  /** Both ends agree on the largest record, newline included. */
  const MAX_RECORD: nat := 16 * 1024 * 1024

  datatype Status = Success | Errored

  datatype Record = Record(
    command: Option<string>, sequence: nat, event: string, status: Status, payload: string)

  datatype Format = Format(serialize: Record -> seq<Byte>, decode: seq<Byte> -> Option<Record>)

  ghost predicate IsLine(bytes: seq<Byte>) {
    && |bytes| > 0 && bytes[|bytes| - 1] == NEWLINE
    && forall i :: 0 <= i < |bytes| - 1 ==> bytes[i] != NEWLINE
  }

  ghost predicate Faithful(format: Format) {
    forall record :: IsLine(format.serialize(record)) && format.decode(format.serialize(record)) == Some(record)
  }

  /** The bytes of the records one after another. */
  ghost function Stream(format: Format, records: seq<Record>): seq<Byte> {
    if records == [] then [] else format.serialize(records[0]) + Stream(format, records[1..])
  }

  lemma {:induction false} StreamAppends(format: Format, records: seq<Record>, record: Record)
    ensures Stream(format, records + [record]) == Stream(format, records) + format.serialize(record)
  {
    if records == [] {
      assert (records + [record])[1..] == [];
    } else {
      assert (records + [record])[1..] == records[1..] + [record];
      StreamAppends(format, records[1..], record);
    }
  }

  predicate IsReserved(event: string) {
    event == "complete" || event == "error"
  }

  ghost predicate IsData(record: Record) {
    record.event != "" && !IsReserved(record.event) && record.status.Success?
  }

  ghost predicate IsTerminal(record: Record) {
    (record.event == "complete" && record.status.Success?) || (record.event == "error" && record.status.Errored?)
  }

  /** Numbered from zero without gap or repeat, data records only. */
  ghost predicate NumberedData(records: seq<Record>) {
    forall i :: 0 <= i < |records| ==> records[i].sequence == i && IsData(records[i])
  }

  /** Data records numbered from zero, then the one terminal record. */
  ghost predicate FinishedRecords(records: seq<Record>) {
    && |records| > 0
    && NumberedData(records[..|records| - 1])
    && records[|records| - 1].sequence == |records| - 1
    && IsTerminal(records[|records| - 1])
  }
}
