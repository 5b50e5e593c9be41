/**
  The growing packet buffer of the builder, crates/packetcraftr-core/src/build/buffer.rs: a storage
  array holding the packet somewhere in its middle, wrapped in place, recentred or regrown.
 */
module PacketBuffer {
  import opened Wrappers

  newtype Byte = x: int | 0 <= x < 256

  const USIZE_MAX: nat := 0xFFFF_FFFF_FFFF_FFFF

  datatype BuildError =
    | EmptyPacket
    | LayerLimit(count: nat, maximum: nat)
    | MissingCodec(layer: nat)
    | CodecRefused(layer: nat)
    | ProtocolMismatch(layer: nat)
    | InvalidLayer(layer: nat)
    | InvalidBinding
    | InvalidCodecLayout(layer: nat)
    | PacketSizeLimit(actual: nat, limit: nat)
    | LengthOverflow
    | AllocationFailure(requested: nat)

  function Max(a: nat, b: nat): nat {
    if a <= b then b else a
  }

  method CopyInto(a: array<Byte>, at: nat, bytes: seq<Byte>)
    requires at + |bytes| <= a.Length
    modifies a
    ensures a[..] == old(a[..at]) + bytes + old(a[at + |bytes|..])
  {
    forall i | 0 <= i < |bytes| {
      a[at + i] := bytes[i];
    }
  }

  /** Moves a stretch of the array, source and destination possibly overlapping. */
  method CopyWithin(a: array<Byte>, from: nat, to: nat, at: nat)
    requires from <= to <= a.Length && at + (to - from) <= a.Length
    modifies a
    ensures a[..] == old(a[..at]) + old(a[from..to]) + old(a[at + (to - from)..])
  {
    forall i | 0 <= i < to - from {
      a[at + i] := a[from + i];
    }
  }

  /**
    What wrapping `length` bytes with `additional` more answers, in a storage of `room` bytes, when
    `canAllocate` says whether a larger one could be had.
   */
  predicate Answers(r: Result<(), BuildError>, additional: nat, length: nat, room: nat, maximum: nat, canAllocate: bool) {
    var total := length + additional;
    match r
    case Ok(_) => total <= maximum && (total <= room || canAllocate)
    case Err(LengthOverflow) => total > USIZE_MAX
    case Err(PacketSizeLimit(actual, limit)) => USIZE_MAX >= total > maximum && actual == total && limit == maximum
    case Err(AllocationFailure(requested)) => room < total <= requested <= maximum && !canAllocate
    case _ => false
  }

  class Buffer {
    var storage: array<Byte>
    var start: nat
    var end: nat

    static const MINIMUM_CAPACITY: nat := 64
    static const HEADER_ROOM: nat := 96
    static const SUFFIX_ROOM: nat := 64

    ghost predicate Valid()
      reads this
    {
      start <= end <= storage.Length <= USIZE_MAX
    }

    ghost function Contents(): seq<Byte>
      requires Valid()
      reads this, storage
    {
      storage[start..end]
    }

    /** An empty buffer with room ahead for headers and behind for trailers, never above `maximum`. */
    constructor WithEstimate(payload: nat, layers: nat, maximum: nat)
      requires maximum <= USIZE_MAX
      ensures Valid() && fresh(storage)
      ensures Contents() == []
      ensures storage.Length == EstimatedCapacity(payload, layers, maximum)
      ensures storage.Length - end == Min(SUFFIX_ROOM, storage.Length)
    {
      var capacity := EstimatedCapacity(payload, layers, maximum);
      storage := new Byte[capacity](_ => 0);
      start := capacity - Min(SUFFIX_ROOM, capacity);
      end := capacity - Min(SUFFIX_ROOM, capacity);
    }

    method Len() returns (length: nat)
      requires Valid()
      ensures length == |Contents()|
    {
      length := end - start;
    }

    method Bytes() returns (bytes: seq<Byte>)
      requires Valid()
      ensures bytes == Contents()
    {
      bytes := storage[start..end];
    }

    /** Puts `prefix` before and `suffix` behind the packet so far, or refuses and changes nothing. */
    method Wrap(prefix: seq<Byte>, suffix: seq<Byte>, maximum: nat, canAllocate: bool) returns (r: Result<(), BuildError>)
      requires Valid() && maximum <= USIZE_MAX
      modifies this, storage
      ensures Valid() && (storage == old(storage) || fresh(storage))
      ensures Answers(r, |prefix| + |suffix|, old(end - start), old(storage.Length), maximum, canAllocate)
      ensures Contents() == if r.Ok? then prefix + old(Contents()) + suffix else old(Contents())
    {
      var total := |prefix| + (end - start) + |suffix|;
      if total > USIZE_MAX {
        return Err(LengthOverflow);
      }
      if total > maximum {
        return Err(PacketSizeLimit(total, maximum));
      }
      if start < |prefix| || storage.Length - end < |suffix| {
        if storage.Length - (end - start) >= |prefix| + |suffix| {
          RecenterAndWrap(prefix, suffix, total);
          r := Ok(());
        } else {
          r := GrowAndWrap(prefix, suffix, total, maximum, canAllocate);
        }
        return;
      }
      WrapInPlace(prefix, suffix);
      r := Ok(());
    }

    method WrapInPlace(prefix: seq<Byte>, suffix: seq<Byte>)
      requires Valid() && |prefix| <= start && |suffix| <= storage.Length - end
      modifies this, storage
      ensures Valid() && storage == old(storage)
      ensures Contents() == prefix + old(Contents()) + suffix
    {
      WriteAround(start - |prefix|, prefix, end, suffix);
      start, end := start - |prefix|, end + |suffix|;
    }

    /** As much room in front as behind, but for an odd byte. */
    ghost predicate Centred()
      reads this
    {
      start <= storage.Length - end <= start + 1
    }

    method RecenterAndWrap(prefix: seq<Byte>, suffix: seq<Byte>, total: nat)
      requires Valid() && total == |prefix| + (end - start) + |suffix| <= storage.Length
      modifies this, storage
      ensures Valid() && storage == old(storage) && Centred()
      ensures Contents() == prefix + old(Contents()) + suffix
    {
      var from := (storage.Length - total) / 2;
      var prefixEnd, to := from + |prefix|, from + total;
      var payloadEnd := to - |suffix|;
      CopyWithin(storage, start, end, prefixEnd);
      assert storage[..][prefixEnd..payloadEnd] == old(Contents());
      WriteAround(from, prefix, payloadEnd, suffix);
      start, end := from, to;
    }

    /** Writes `prefix` and `suffix` next to the stretch between them, which stays as it is. */
    method WriteAround(from: nat, prefix: seq<Byte>, payloadEnd: nat, suffix: seq<Byte>)
      requires from + |prefix| <= payloadEnd && payloadEnd + |suffix| <= storage.Length
      modifies storage
      ensures storage[from..payloadEnd + |suffix|] == prefix + old(storage[from + |prefix|..payloadEnd]) + suffix
    {
      ghost var middle := storage[from + |prefix|..payloadEnd];
      CopyInto(storage, from, prefix);
      ghost var written := storage[..];
      assert written[from..from + |prefix|] == prefix;
      assert written[from + |prefix|..payloadEnd] == middle;
      assert written[from..payloadEnd] == written[from..from + |prefix|] + written[from + |prefix|..payloadEnd];
      CopyInto(storage, payloadEnd, suffix);
      assert storage[from..payloadEnd + |suffix|] == storage[..][from..payloadEnd + |suffix|];
      assert storage[..][from..payloadEnd + |suffix|] == written[from..payloadEnd] + suffix;
    }

    /** New storage is at least twice as large, unless that is too much; its spare room goes to the growing side. */
    method GrowAndWrap(prefix: seq<Byte>, suffix: seq<Byte>, total: nat, maximum: nat, canAllocate: bool)
      returns (r: Result<(), BuildError>)
      requires Valid() && total == |prefix| + (end - start) + |suffix| <= maximum <= USIZE_MAX
      requires storage.Length < total
      modifies this
      ensures Valid() && (storage == old(storage) || fresh(storage))
      ensures Answers(r, |prefix| + |suffix|, old(end - start), old(storage.Length), maximum, canAllocate)
      ensures Contents() == if r.Ok? then prefix + old(Contents()) + suffix else old(Contents())
      ensures r.Ok? ==> Min(Max(2 * old(storage.Length), MINIMUM_CAPACITY), maximum) <= storage.Length <= maximum
      ensures r.Ok? ==>
                if prefix != [] && suffix == [] then end == storage.Length
                else if prefix == [] && suffix != [] then start == 0
                else Centred()
    {
      var doubled := if storage.Length * 2 <= USIZE_MAX then storage.Length * 2 else maximum;
      var capacity := Min(Max(Max(doubled, Min(MINIMUM_CAPACITY, maximum)), total), maximum);
      if !canAllocate {
        return Err(AllocationFailure(capacity));
      }
      var spare := capacity - total;
      var from := if prefix != [] && suffix == [] then spare
                  else if prefix == [] && suffix != [] then 0
                  else spare / 2;
      var packet := prefix + storage[start..end] + suffix;
      var grown := new Byte[capacity](_ => 0);
      CopyInto(grown, from, packet);
      assert grown[from..from + total] == grown[..][from..from + total] == packet;
      storage, start, end := grown, from, from + total;
      r := Ok(());
    }
  }

  function EstimatedCapacity(payload: nat, layers: nat, maximum: nat): (capacity: nat)
    ensures capacity <= maximum
    ensures maximum <= USIZE_MAX ==> capacity == Min(layers * Buffer.HEADER_ROOM + payload + Buffer.SUFFIX_ROOM, maximum)
  {
    Min(Min(Min(layers * Buffer.HEADER_ROOM, USIZE_MAX) + payload, USIZE_MAX) + Buffer.SUFFIX_ROOM, maximum)
  }
}
