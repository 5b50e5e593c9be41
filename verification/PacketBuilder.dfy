/**
  The inside-out packet builder, crates/packetcraftr-core/src/build.rs, and the byte layouts it
  leaves, crates/packetcraftr-core/src/layout.rs. Layers are encoded from the last to the first,
  each by an arbitrary codec that sees the bytes built so far; a forward pass then shifts the layouts.
 */
module PacketBuilder {
  import opened Wrappers
  import opened PacketBuffer

  datatype ByteRange = ByteRange(start: nat, end: nat)

  datatype FieldLayout = FieldLayout(index: nat, range: ByteRange)

  datatype LayerLayout = LayerLayout(index: nat, protocol: nat, range: ByteRange, fields: seq<FieldLayout>)

  /** What a codec returns; `complete` says that its layer has all its required fields. */
  datatype Encoded = Encoded(
    protocol: nat, schemaWidth: nat, complete: bool, prefix: seq<Byte>, suffix: seq<Byte>, fields: seq<FieldLayout>)

  /** Any function of the layer's position, the payload inside it and the bytes still allowed. */
  datatype Codec = Codec(encode: (nat, seq<Byte>, nat) -> Option<Encoded>)

  /**
    A packet's layers and the limits of its build. By position: `raw` is the number of bytes a layer
    passes through unencoded and `complete` whether it has its required fields; `bound` is the answer
    of the checks between layers.
   */
  datatype Setup = Setup(
    protocols: seq<nat>, raw: nat -> nat, complete: nat -> bool, bound: bool,
    codecs: map<nat, Codec>, maxSize: nat, maxLayers: nat)

  datatype EncodedLayer = EncodedLayer(layout: LayerLayout, payloadLength: nat)

  datatype Built = Built(bytes: seq<Byte>, layouts: seq<LayerLayout>, payloadLengths: seq<nat>)

  // ---- The wire order ----

  ghost function Prefixes(es: seq<Encoded>): seq<Byte> {
    if es == [] then [] else es[0].prefix + Prefixes(es[1..])
  }

  ghost function Suffixes(es: seq<Encoded>): seq<Byte> {
    if es == [] then [] else Suffixes(es[1..]) + es[0].suffix
  }

  /** Prefixes outer to inner, then suffixes inner to outer. */
  ghost function Wire(es: seq<Encoded>): seq<Byte> {
    Prefixes(es) + Suffixes(es)
  }

  lemma {:induction false} WireWraps(e: Encoded, es: seq<Encoded>)
    ensures Wire([e] + es) == e.prefix + Wire(es) + e.suffix
  {
    assert ([e] + es)[1..] == es;
  }

  lemma {:induction false} WireAt(es: seq<Encoded>, k: nat)
    requires k < |es|
    ensures Wire(es[k..]) == es[k].prefix + Wire(es[k + 1..]) + es[k].suffix
  {
    assert es[k..] == [es[k]] + es[k + 1..];
    WireWraps(es[k], es[k + 1..]);
  }

  lemma {:induction false} InnerIsShorter(es: seq<Encoded>, k: nat)
    requires k <= |es|
    ensures |Wire(es[k..])| <= |Wire(es)|
  {
    if k == 0 {
      assert es[0..] == es;
    } else {
      InnerIsShorter(es, k - 1);
      WireAt(es, k - 1);
    }
  }

  // ---- Encoding one layer, and all of them ----

  predicate FieldsFit(fields: seq<FieldLayout>, width: nat, length: nat) {
    forall f :: f in fields ==> f.index < width && f.range.start <= f.range.end <= length
  }

  function EncodeOne(s: Setup, index: nat, payload: seq<Byte>): (r: Result<Encoded, BuildError>)
    requires index < |s.protocols| && |payload| <= s.maxSize
    ensures r.Ok? ==> FieldsFit(r.value.fields, r.value.schemaWidth, |r.value.prefix|)
  {
    var protocol := s.protocols[index];
    if protocol !in s.codecs then Err(MissingCodec(index))
    else
      match s.codecs[protocol].encode(index, payload, s.maxSize - |payload|)
      case None => Err(CodecRefused(index))
      case Some(e) =>
        if e.protocol != protocol then Err(ProtocolMismatch(index))
        else if !e.complete then Err(InvalidLayer(index))
        else if !FieldsFit(e.fields, e.schemaWidth, |e.prefix|) then Err(InvalidCodecLayout(index))
        else Ok(e)
  }

  /** The outcome of encoding layers `index` and inward, memory permitting. */
  ghost function EncodeFrom(s: Setup, index: nat): (r: Result<seq<Encoded>, BuildError>)
    requires index <= |s.protocols|
    ensures r.Ok? ==> |r.value| == |s.protocols| - index && |Wire(r.value)| <= s.maxSize
    decreases |s.protocols| - index
  {
    if index == |s.protocols| then Ok([])
    else
      var inner := EncodeFrom(s, index + 1);
      if inner.Err? then inner
      else
        var one := EncodeOne(s, index, Wire(inner.value));
        if one.Err? then Err(one.error)
        else
          var total := |one.value.prefix| + |Wire(inner.value)| + |one.value.suffix|;
          if total > USIZE_MAX then Err(LengthOverflow)
          else if total > s.maxSize then Err(PacketSizeLimit(total, s.maxSize))
          else WireWraps(one.value, inner.value); Ok([one.value] + inner.value)
  }

  /**
    The result of a build, said without order of evaluation: every codec was given exactly the wire
    bytes of the layers inside it and returned the entry of its layer, and the whole fits.
   */
  ghost predicate InsideOut(s: Setup, es: seq<Encoded>) {
    && |es| == |s.protocols|
    && |Wire(es)| <= s.maxSize
    && forall k: nat :: k < |es| ==> EncodedInside(s, es, k)
  }

  ghost predicate EncodedInside(s: Setup, es: seq<Encoded>, k: nat)
    requires k < |es| == |s.protocols|
  {
    var protocol, payload := s.protocols[k], Wire(es[k + 1..]);
    && protocol in s.codecs && |payload| <= s.maxSize
    && s.codecs[protocol].encode(k, payload, s.maxSize - |payload|) == Some(es[k])
    && es[k].protocol == protocol && es[k].complete
    && forall f :: f in es[k].fields ==>
         f.index < es[k].schemaWidth && f.range.start <= f.range.end <= |es[k].prefix|
  }

  lemma {:induction false} InsideIsEncoded(s: Setup, es: seq<Encoded>, k: nat)
    requires k < |es| == |s.protocols|
    ensures EncodedInside(s, es, k)
       <==> |Wire(es[k + 1..])| <= s.maxSize && EncodeOne(s, k, Wire(es[k + 1..])) == Ok(es[k])
  {
  }

  lemma {:induction false} EncodedMeansInside(s: Setup, index: nat, es: seq<Encoded>)
    requires index <= |s.protocols| == |es|
    requires EncodeFrom(s, index) == Ok(es[index..])
    ensures forall k: nat :: index <= k < |es| ==> EncodedInside(s, es, k)
    decreases |es| - index
  {
    hide EncodedInside, EncodeOne;
    if index < |es| {
      assert es[index..][0] == es[index] && es[index..][1..] == es[index + 1..];
      EncodedMeansInside(s, index + 1, es);
      InsideIsEncoded(s, es, index);
    }
  }

  lemma {:induction false} InsideMeansEncoded(s: Setup, index: nat, es: seq<Encoded>)
    requires s.maxSize <= USIZE_MAX && InsideOut(s, es) && index <= |es|
    ensures EncodeFrom(s, index) == Ok(es[index..])
    decreases |es| - index
  {
    hide EncodedInside, EncodeOne;
    if index < |es| {
      InsideMeansEncoded(s, index + 1, es);
      assert EncodedInside(s, es, index);
      InsideIsEncoded(s, es, index);
      WireAt(es, index);
      InnerIsShorter(es, index);
      assert es[index..] == [es[index]] + es[index + 1..];
    } else {
      assert es[index..] == [];
    }
  }

  /** Encoding from last to first succeeds with exactly the one inside-out result, if there is one. */
  lemma {:induction false} EncodingIsInsideOut(s: Setup, es: seq<Encoded>)
    requires s.maxSize <= USIZE_MAX
    ensures EncodeFrom(s, 0) == Ok(es) <==> InsideOut(s, es)
  {
    assert es[0..] == es;
    if EncodeFrom(s, 0) == Ok(es) {
      EncodedMeansInside(s, 0, es);
    }
    if InsideOut(s, es) {
      InsideMeansEncoded(s, 0, es);
    }
  }

  lemma {:induction false} FailureIsFinal(s: Setup, index: nat)
    requires index <= |s.protocols| && EncodeFrom(s, index).Err?
    ensures EncodeFrom(s, 0) == EncodeFrom(s, index)
  {
    if index > 0 {
      FailureIsFinal(s, index - 1);
    }
  }

  /**
    Why layer `index` could not be put around the layers inside it: the error names the layer and
    what its codec did wrong, or gives the length that would have been too much.
   */
  ghost predicate FailsAt(s: Setup, index: nat, inner: seq<Encoded>, error: BuildError) {
    && index < |s.protocols| && EncodeFrom(s, index + 1) == Ok(inner)
    && var protocol, payload := s.protocols[index], Wire(inner);
       if protocol !in s.codecs then error == MissingCodec(index)
       else
         match s.codecs[protocol].encode(index, payload, s.maxSize - |payload|)
         case None => error == CodecRefused(index)
         case Some(e) => FailsWith(s, index, inner, e, error)
  }

  /** The same, for the entry the codec returned. */
  ghost predicate FailsWith(s: Setup, index: nat, inner: seq<Encoded>, e: Encoded, error: BuildError)
    requires index < |s.protocols|
  {
    var valid := e.protocol == s.protocols[index] && e.complete;
    match error
    case ProtocolMismatch(layer) => layer == index && e.protocol != s.protocols[index]
    case InvalidLayer(layer) => layer == index && e.protocol == s.protocols[index] && !e.complete
    case InvalidCodecLayout(layer) => layer == index && valid && !FieldsFit(e.fields, e.schemaWidth, |e.prefix|)
    case LengthOverflow => valid && |Wire([e] + inner)| > USIZE_MAX
    case PacketSizeLimit(actual, limit) => valid && actual == |Wire([e] + inner)| > limit == s.maxSize
    case _ => false
  }

  /** A failed encoding failed at some layer, all those inside it being encoded, for the reason given. */
  lemma {:induction false} EncodingFailsAt(s: Setup, index: nat)
    requires index <= |s.protocols| && EncodeFrom(s, index).Err?
    ensures exists k, inner :: FailsAt(s, k, inner, EncodeFrom(s, index).error)
    decreases |s.protocols| - index
  {
    var inner := EncodeFrom(s, index + 1);
    if inner.Err? {
      EncodingFailsAt(s, index + 1);
    } else {
      var one := EncodeOne(s, index, Wire(inner.value));
      if one.Ok? {
        WireWraps(one.value, inner.value);
      }
      assert FailsAt(s, index, inner.value, EncodeFrom(s, index).error);
    }
  }

  // ---- The encoding loop ----

  /** The entry pushed for a layer, its layout still counted from its own first byte. */
  function Entry(e: Encoded, index: nat, payloadLength: nat): EncodedLayer {
    EncodedLayer(LayerLayout(index, e.protocol, ByteRange(0, |e.prefix|), e.fields), payloadLength)
  }

  /** The entries in the order the loop pushes them, innermost first. */
  ghost function Pushed(es: seq<Encoded>, base: nat): (entries: seq<EncodedLayer>)
    ensures |entries| == |es|
  {
    if es == [] then [] else Pushed(es[1..], base + 1) + [Entry(es[0], base, |Wire(es[1..])|)]
  }

  lemma {:induction false} PushedGrows(e: Encoded, es: seq<Encoded>, base: nat)
    ensures Pushed([e] + es, base) == Pushed(es, base + 1) + [Entry(e, base, |Wire(es)|)]
  {
    assert ([e] + es)[1..] == es;
  }

  lemma {:induction false} PushedAt(es: seq<Encoded>, base: nat, k: nat)
    requires k < |es|
    ensures Pushed(es, base)[|es| - 1 - k] == Entry(es[k], base + k, |Wire(es[k + 1..])|)
  {
    if k > 0 {
      PushedAt(es[1..], base + 1, k - 1);
      assert es[1..][k..] == es[k + 1..];
    }
  }

  function Reversed<T>(s: seq<T>): (r: seq<T>)
    ensures |r| == |s|
    ensures forall i :: 0 <= i < |s| ==> r[i] == s[|s| - 1 - i]
  {
    seq(|s|, i requires 0 <= i < |s| => s[|s| - 1 - i])
  }

  lemma {:induction false} WrapAnswers(
    s: Setup, index: nat, es: seq<Encoded>, wrapped: Result<(), BuildError>, room: nat, canAllocate: bool)
    requires s.maxSize <= USIZE_MAX && index < |s.protocols| && EncodeFrom(s, index + 1) == Ok(es)
    requires EncodeOne(s, index, Wire(es)).Ok?
    requires var e := EncodeOne(s, index, Wire(es)).value;
             Answers(wrapped, |e.prefix| + |e.suffix|, |Wire(es)|, room, s.maxSize, canAllocate)
    ensures wrapped.Ok? ==> EncodeFrom(s, index) == Ok([EncodeOne(s, index, Wire(es)).value] + es)
    ensures wrapped.Err? ==> EncodeFrom(s, index) == Err(wrapped.error) || (wrapped.error.AllocationFailure? && !canAllocate)
  {
  }

  /** Encodes one layer and wraps the buffer with it. `canAllocate` says whether storage could grow. */
  method EncodeLayer(s: Setup, buffer: Buffer, index: nat, canAllocate: bool, ghost es: seq<Encoded>)
    returns (r: Result<Encoded, BuildError>)
    requires s.maxSize <= USIZE_MAX && buffer.Valid() && index < |s.protocols|
    requires EncodeFrom(s, index + 1) == Ok(es) && buffer.Contents() == Wire(es)
    modifies buffer, buffer.storage
    ensures buffer.Valid() && (buffer.storage == old(buffer.storage) || fresh(buffer.storage))
    ensures r.Ok? ==> EncodeFrom(s, index) == Ok([r.value] + es) && buffer.Contents() == Wire([r.value] + es)
    ensures r.Err? ==> EncodeFrom(s, 0) == Err(r.error) || (r.error.AllocationFailure? && !canAllocate)
  {
    var payload := buffer.Bytes();
    r := EncodeOne(s, index, payload);
    if r.Ok? {
      WireWraps(r.value, es);
      var wrapped := buffer.Wrap(r.value.prefix, r.value.suffix, s.maxSize, canAllocate);
      WrapAnswers(s, index, es, wrapped, old(buffer.storage.Length), canAllocate);
      if wrapped.Err? {
        r := Err(wrapped.error);
      }
    }
    if EncodeFrom(s, index).Err? {
      FailureIsFinal(s, index);
    }
  }

  lemma {:induction false} NothingEncoded(base: nat)
    ensures Wire([]) == [] && Pushed([], base) == []
  {
  }

  ghost predicate GrowthFails(s: Setup, memory: nat -> bool) {
    exists index: nat :: index < |s.protocols| && !memory(index)
  }

  /** The loop over the layers, last to first. `memory` says at which layer storage could grow. */
  method EncodeLayers(s: Setup, buffer: Buffer, memory: nat -> bool)
    returns (r: Result<seq<EncodedLayer>, BuildError>, ghost es: seq<Encoded>)
    requires s.maxSize <= USIZE_MAX && buffer.Valid() && buffer.Contents() == []
    modifies buffer, buffer.storage
    ensures buffer.Valid()
    ensures r.Ok? ==> EncodeFrom(s, 0) == Ok(es) && buffer.Contents() == Wire(es) && r.value == Pushed(es, 0)
    ensures r.Err? ==> EncodeFrom(s, 0) == Err(r.error) || (r.error.AllocationFailure? && GrowthFails(s, memory))
  {
    hide Wire, Pushed;
    NothingEncoded(|s.protocols|);
    var layers: seq<EncodedLayer> := [];
    es := [];
    for index := |s.protocols| downto 0
      invariant buffer.Valid() && (buffer.storage == old(buffer.storage) || fresh(buffer.storage))
      invariant EncodeFrom(s, index) == Ok(es) && buffer.Contents() == Wire(es)
      invariant layers == Pushed(es, index)
    {
      var payloadLength := buffer.Len();
      var one := EncodeLayer(s, buffer, index, memory(index), es);
      if one.Err? {
        return Err(one.error), es;
      }
      layers := layers + [Entry(one.value, index, payloadLength)];
      PushedGrows(one.value, es, index);
      es := [one.value] + es;
    }
    r := Ok(layers);
  }

  // ---- Shifting the layouts ----

  function Shifted(range: ByteRange, amount: nat): (r: Option<ByteRange>)
    ensures r.Some? <==> range.start + amount <= USIZE_MAX && range.end + amount <= USIZE_MAX
  {
    if range.start + amount <= USIZE_MAX && range.end + amount <= USIZE_MAX
    then Some(ByteRange(range.start + amount, range.end + amount))
    else None
  }

  function Moved(f: FieldLayout, amount: nat): FieldLayout {
    f.(range := ByteRange(f.range.start + amount, f.range.end + amount))
  }

  /** Moves the range of a layer and those of all its fields, or none of them if one cannot be moved. */
  method ShiftLayer(layout: LayerLayout, amount: nat) returns (ok: bool, after: LayerLayout)
    ensures ok <==> && Shifted(layout.range, amount).Some?
                    && forall f :: f in layout.fields ==> Shifted(f.range, amount).Some?
    ensures after.index == layout.index && after.protocol == layout.protocol && |after.fields| == |layout.fields|
    ensures ok ==> after.range == ByteRange(layout.range.start + amount, layout.range.end + amount)
    ensures ok ==> forall i :: 0 <= i < |layout.fields| ==> after.fields[i] == Moved(layout.fields[i], amount)
    ensures !ok ==> after == layout
  {
    after := layout;
    var range := Shifted(layout.range, amount);
    if range.None? || exists f :: f in layout.fields && Shifted(f.range, amount).None? {
      return false, after;
    }
    after := after.(range := range.value);
    for i := 0 to |layout.fields|
      invariant after.index == layout.index && after.protocol == layout.protocol && after.range == range.value
      invariant |after.fields| == |layout.fields| && after.fields[i..] == layout.fields[i..]
      invariant forall j :: 0 <= j < i ==> after.fields[j] == Moved(layout.fields[j], amount)
    {
      assert layout.fields[i] in layout.fields && after.fields[i] == after.fields[i..][0];
      var moved := Shifted(after.fields[i].range, amount).value;
      after := after.(fields := after.fields[i := after.fields[i].(range := moved)]);
    }
    ok := true;
  }

  /** An entry as the encoding loop leaves it: counted from its own first byte, its fields inside it. */
  predicate Unplaced(entry: EncodedLayer) {
    && entry.layout.range.start == 0
    && forall f :: f in entry.layout.fields ==> f.range.start <= f.range.end <= entry.layout.range.end
  }

  /** Where layer `k` starts: behind the layers outside it. */
  ghost function Start(outward: seq<EncodedLayer>, k: nat): nat
    requires k <= |outward|
  {
    if k == 0 then 0 else Start(outward, k - 1) + outward[k - 1].layout.range.end
  }

  lemma {:induction false} StartGrows(outward: seq<EncodedLayer>, j: nat, k: nat)
    requires j <= k <= |outward|
    ensures Start(outward, j) <= Start(outward, k)
  {
    if j < k {
      StartGrows(outward, j, k - 1);
    }
  }

  /** The entry, moved as a whole so that it starts at `offset`. */
  ghost predicate MovedBy(layout: LayerLayout, entry: EncodedLayer, offset: nat) {
    && layout.index == entry.layout.index && layout.protocol == entry.layout.protocol
    && layout.range == ByteRange(offset, offset + entry.layout.range.end)
    && |layout.fields| == |entry.layout.fields|
    && forall i :: 0 <= i < |layout.fields| ==> layout.fields[i] == Moved(entry.layout.fields[i], offset)
  }

  ghost predicate AllMoved(layouts: seq<LayerLayout>, payloadLengths: seq<nat>, outward: seq<EncodedLayer>, n: nat)
    requires n <= |outward|
  {
    && |layouts| == |payloadLengths| == n
    && forall k: nat :: k < n ==>
         MovedBy(layouts[k], outward[k], Start(outward, k)) && payloadLengths[k] == outward[k].payloadLength
  }

  /** Moves one layer's layout behind the layers outside it, unless that needs more than a `usize`. */
  method PlaceLayer(entry: EncodedLayer, offset: nat) returns (ok: bool, after: LayerLayout)
    requires Unplaced(entry)
    ensures ok <==> offset + entry.layout.range.end <= USIZE_MAX
    ensures ok ==> MovedBy(after, entry, offset)
  {
    ok, after := ShiftLayer(entry.layout, offset);
  }

  lemma {:induction false} OneMoreMoved(
    layouts: seq<LayerLayout>, payloadLengths: seq<nat>, outward: seq<EncodedLayer>, k: nat, layout: LayerLayout)
    requires k < |outward| && AllMoved(layouts, payloadLengths, outward, k)
    requires MovedBy(layout, outward[k], Start(outward, k))
    ensures AllMoved(layouts + [layout], payloadLengths + [outward[k].payloadLength], outward, k + 1)
  {
  }

  /** The forward pass over the layers, outermost first. */
  method PlaceAll(outward: seq<EncodedLayer>) returns (r: Result<(seq<LayerLayout>, seq<nat>), BuildError>)
    requires forall i :: 0 <= i < |outward| ==> Unplaced(outward[i])
    ensures r.Ok? <==> Start(outward, |outward|) <= USIZE_MAX
    ensures r.Err? ==> r.error == LengthOverflow
    ensures r.Ok? ==> AllMoved(r.value.0, r.value.1, outward, |outward|)
  {
    var layouts: seq<LayerLayout> := [];
    var payloadLengths: seq<nat> := [];
    var offset := 0;
    for k := 0 to |outward|
      invariant offset == Start(outward, k) <= USIZE_MAX
      invariant AllMoved(layouts, payloadLengths, outward, k)
    {
      StartGrows(outward, k + 1, |outward|);
      var ok, layout := PlaceLayer(outward[k], offset);
      if !ok || offset + (layout.range.end - layout.range.start) > USIZE_MAX {
        return Err(LengthOverflow);
      }
      OneMoreMoved(layouts, payloadLengths, outward, k, layout);
      layouts := layouts + [layout];
      payloadLengths := payloadLengths + [outward[k].payloadLength];
      offset := offset + (layout.range.end - layout.range.start);
    }
    r := Ok((layouts, payloadLengths));
  }

  /**
    `finalize`: the entries are put outermost first and each layout is moved behind the ones before
    it. It fails exactly when the layers together are longer than a `usize` can say.
   */
  method Finalize(layers: seq<EncodedLayer>) returns (r: Result<(seq<LayerLayout>, seq<nat>), BuildError>)
    requires forall i :: 0 <= i < |layers| ==> Unplaced(layers[i])
    ensures r.Ok? <==> Start(Reversed(layers), |layers|) <= USIZE_MAX
    ensures r.Err? ==> r.error == LengthOverflow
    ensures r.Ok? ==> AllMoved(r.value.0, r.value.1, Reversed(layers), |layers|)
  {
    r := PlaceAll(Reversed(layers));
  }

  // ---- Layouts against the encoding ----

  /** The prefixes of the layers outside layer `k` come first. */
  ghost function Offset(es: seq<Encoded>, k: nat): nat
    requires k <= |es|
  {
    if k == 0 then 0 else Offset(es, k - 1) + |es[k - 1].prefix|
  }

  ghost predicate Placed(layout: LayerLayout, es: seq<Encoded>, k: nat)
    requires k < |es|
  {
    && layout.index == k && layout.protocol == es[k].protocol
    && layout.range == ByteRange(Offset(es, k), Offset(es, k + 1))
    && |layout.fields| == |es[k].fields|
    && forall i :: 0 <= i < |layout.fields| ==> layout.fields[i] == Moved(es[k].fields[i], Offset(es, k))
  }

  ghost predicate AllFit(es: seq<Encoded>) {
    forall k :: 0 <= k < |es| ==> FieldsFit(es[k].fields, es[k].schemaWidth, |es[k].prefix|)
  }

  ghost predicate AllPlaced(layouts: seq<LayerLayout>, payloadLengths: seq<nat>, es: seq<Encoded>) {
    && |layouts| == |payloadLengths| == |es|
    && forall k: nat :: k < |es| ==> Placed(layouts[k], es, k) && payloadLengths[k] == |Wire(es[k + 1..])|
  }

  lemma {:induction false} PushedUnplaced(es: seq<Encoded>, i: nat)
    requires AllFit(es) && i < |es|
    ensures Unplaced(Pushed(es, 0)[i])
  {
    PushedAt(es, 0, |es| - 1 - i);
  }

  lemma {:induction false} StartIsOffset(es: seq<Encoded>, k: nat)
    requires k <= |es|
    ensures Start(Reversed(Pushed(es, 0)), k) == Offset(es, k)
  {
    if k > 0 {
      StartIsOffset(es, k - 1);
      PushedAt(es, 0, k - 1);
    }
  }

  lemma {:induction false} EntryPlaced(layout: LayerLayout, es: seq<Encoded>, k: nat)
    requires k < |es| && MovedBy(layout, Entry(es[k], k, |Wire(es[k + 1..])|), Offset(es, k))
    ensures Placed(layout, es, k)
  {
  }

  lemma {:induction false} MovedMeansPlaced(layouts: seq<LayerLayout>, payloadLengths: seq<nat>, es: seq<Encoded>)
    requires AllMoved(layouts, payloadLengths, Reversed(Pushed(es, 0)), |es|)
    ensures AllPlaced(layouts, payloadLengths, es)
  {
    hide Pushed, Wire, Start, Placed;
    forall k: nat | k < |es|
      ensures Placed(layouts[k], es, k) && payloadLengths[k] == |Wire(es[k + 1..])|
    {
      StartIsOffset(es, k);
      PushedAt(es, 0, k);
      EntryPlaced(layouts[k], es, k);
    }
  }

  // ---- The whole build ----

  ghost predicate Describes(built: Built, es: seq<Encoded>) {
    built.bytes == Wire(es) && AllPlaced(built.layouts, built.payloadLengths, es)
  }

  lemma {:induction false} OffsetIsPrefixLength(es: seq<Encoded>, k: nat)
    requires k <= |es|
    ensures Offset(es, k) + |Prefixes(es[k..])| == |Prefixes(es)|
  {
    if k == 0 {
      assert es[0..] == es;
    } else {
      OffsetIsPrefixLength(es, k - 1);
      assert es[k - 1..][1..] == es[k..];
    }
  }

  // ---- The checks before encoding ----

  function RawTotal(s: Setup, n: nat): nat {
    if n == 0 then 0 else RawTotal(s, n - 1) + s.raw(n - 1)
  }

  lemma {:induction false} RawTotalGrows(s: Setup, m: nat, n: nat)
    requires m <= n
    ensures RawTotal(s, m) <= RawTotal(s, n)
  {
    if m < n {
      RawTotalGrows(s, m, n - 1);
    }
  }

  /** The bytes passed through, unless they are more than a `usize` can say. */
  method PassThroughLength(s: Setup) returns (r: Result<nat, BuildError>)
    ensures r == if RawTotal(s, |s.protocols|) <= USIZE_MAX then Ok(RawTotal(s, |s.protocols|)) else Err(LengthOverflow)
  {
    var total := 0;
    for i := 0 to |s.protocols|
      invariant total == RawTotal(s, i) <= USIZE_MAX
    {
      if total + s.raw(i) > USIZE_MAX {
        RawTotalGrows(s, i + 1, |s.protocols|);
        return Err(LengthOverflow);
      }
      total := total + s.raw(i);
    }
    r := Ok(total);
  }

  ghost predicate AllComplete(s: Setup, n: nat) {
    forall i: nat :: i < n ==> s.complete(i)
  }

  /** What a packet must be for its build to start. */
  ghost predicate MayBuild(s: Setup) {
    && 0 < |s.protocols| <= s.maxLayers
    && RawTotal(s, |s.protocols|) <= USIZE_MAX && RawTotal(s, |s.protocols|) <= s.maxSize
    && AllComplete(s, |s.protocols|) && s.bound
  }

  /** The error is that of the first check, in the order they are made, that does not hold. */
  ghost predicate RefusedBefore(s: Setup, error: BuildError) {
    var n := |s.protocols|;
    match error
    case EmptyPacket => n == 0
    case LayerLimit(count, maximum) => 0 < n && count == n > maximum == s.maxLayers
    case LengthOverflow => 0 < n <= s.maxLayers && RawTotal(s, n) > USIZE_MAX
    case PacketSizeLimit(actual, limit) =>
      0 < n <= s.maxLayers && actual == RawTotal(s, n) <= USIZE_MAX && limit == s.maxSize < actual
    case InvalidLayer(i) =>
      && 0 < n <= s.maxLayers && RawTotal(s, n) <= USIZE_MAX && RawTotal(s, n) <= s.maxSize
      && i < n && AllComplete(s, i) && !s.complete(i)
    case InvalidBinding =>
      && 0 < n <= s.maxLayers && RawTotal(s, n) <= USIZE_MAX && RawTotal(s, n) <= s.maxSize
      && AllComplete(s, n) && !s.bound
    case _ => false
  }

  method ValidatePacket(s: Setup) returns (r: Result<nat, BuildError>)
    ensures r.Ok? <==> MayBuild(s)
    ensures r.Ok? ==> r.value == RawTotal(s, |s.protocols|)
    ensures r.Err? ==> RefusedBefore(s, r.error)
  {
    if s.protocols == [] {
      return Err(EmptyPacket);
    }
    if |s.protocols| > s.maxLayers {
      return Err(LayerLimit(|s.protocols|, s.maxLayers));
    }
    r := PassThroughLength(s);
    if r.Err? {
      return;
    }
    if r.value > s.maxSize {
      return Err(PacketSizeLimit(r.value, s.maxSize));
    }
    for i := 0 to |s.protocols|
      invariant AllComplete(s, i)
    {
      if !s.complete(i) {
        return Err(InvalidLayer(i));
      }
    }
    if !s.bound {
      return Err(InvalidBinding);
    }
  }

  /**
    `build`: it is refused with the first check that fails, or storage could not be had, or it fails
    with the error of the encoding pass, or the packet describes the inside-out encoding. The overflow
    exits of the final pass are never taken.
   */
  method Build(s: Setup, memory: nat -> bool, estimate: bool) returns (r: Result<Built, BuildError>)
    requires s.maxSize <= USIZE_MAX
    ensures !MayBuild(s) ==> r.Err? && RefusedBefore(s, r.error)
    ensures r.Ok? ==> exists es :: InsideOut(s, es) && Describes(r.value, es)
    ensures MayBuild(s) && r.Err? ==>
              || (exists index, inner :: FailsAt(s, index, inner, r.error))
              || (r.error.AllocationFailure? && MemoryFails(s, memory, estimate))
    ensures MayBuild(s) && !MemoryFails(s, memory, estimate) ==> (r.Ok? <==> exists es :: InsideOut(s, es))
  {
    var checked := ValidatePacket(s);
    if checked.Err? {
      return Err(checked.error);
    }
    var capacity := EstimatedCapacity(checked.value, |s.protocols|, s.maxSize);
    if capacity > 0 && !estimate {
      return Err(AllocationFailure(capacity));
    }
    var buffer := new Buffer.WithEstimate(checked.value, |s.protocols|, s.maxSize);
    var layers, es := EncodeLayers(s, buffer, memory);
    if layers.Err? {
      if EncodeFrom(s, 0).Err? {
        EncodingFailsAt(s, 0);
      }
      forall fs ensures EncodeFrom(s, 0) == Ok(fs) <==> InsideOut(s, fs) {
        EncodingIsInsideOut(s, fs);
      }
      return Err(layers.error);
    }
    EncodingIsInsideOut(s, es);
    LayersFit(s, es);
    var bytes := buffer.Bytes();
    var placed := Finalize(layers.value);
    assert placed.Ok?;
    r := Ok(Built(bytes, placed.value.0, placed.value.1));
    MovedMeansPlaced(placed.value.0, placed.value.1, es);
    assert Describes(r.value, es);
  }

  /** What the final pass asks of the encoding loop's entries, and why it cannot overflow. */
  lemma {:induction false} LayersFit(s: Setup, es: seq<Encoded>)
    requires InsideOut(s, es)
    ensures forall i :: 0 <= i < |es| ==> Unplaced(Pushed(es, 0)[i])
    ensures Start(Reversed(Pushed(es, 0)), |es|) <= s.maxSize
  {
    OffsetIsPrefixLength(es, |es|);
    StartIsOffset(es, |es|);
    assert AllFit(es) by {
      forall k | 0 <= k < |es| ensures FieldsFit(es[k].fields, es[k].schemaWidth, |es[k].prefix|) {
        assert EncodedInside(s, es, k);
      }
    }
    forall i | 0 <= i < |es| ensures Unplaced(Pushed(es, 0)[i]) {
      PushedUnplaced(es, i);
    }
  }

  /** Some storage that was asked for could not be had. */
  ghost predicate MemoryFails(s: Setup, memory: nat -> bool, estimate: bool) {
    || (!estimate && EstimatedCapacity(RawTotal(s, |s.protocols|), |s.protocols|, s.maxSize) > 0)
    || GrowthFails(s, memory)
  }

  // ---- What a layout says about the bytes ----

  lemma {:induction false} SliceAt(es: seq<Encoded>, k: nat)
    requires k < |es|
    ensures Offset(es, k + 1) <= |Prefixes(es)|
    ensures Prefixes(es)[Offset(es, k)..Offset(es, k + 1)] == es[k].prefix
  {
    OffsetIsPrefixLength(es, k);
    OffsetIsPrefixLength(es, k + 1);
    PrefixesFrom(es, k);
    assert es[k..][1..] == es[k + 1..];
    assert Prefixes(es[k..])[..|es[k].prefix|] == es[k].prefix;
  }

  lemma {:induction false} PrefixesFrom(es: seq<Encoded>, k: nat)
    requires k <= |es|
    ensures Offset(es, k) <= |Prefixes(es)| && Prefixes(es)[Offset(es, k)..] == Prefixes(es[k..])
  {
    OffsetIsPrefixLength(es, k);
    if k == 0 {
      assert es[0..] == es;
    } else {
      PrefixesFrom(es, k - 1);
      OffsetIsPrefixLength(es, k - 1);
      assert es[k - 1..][1..] == es[k..];
      var from, length := Offset(es, k - 1), |es[k - 1].prefix|;
      assert Prefixes(es)[from..][length..] == Prefixes(es)[from + length..];
    }
  }

  lemma {:induction false} SliceOfSlice(bytes: seq<Byte>, from: nat, to: nat, a: nat, b: nat)
    requires from <= to <= |bytes| && a <= b <= to - from
    ensures bytes[from..to][a..b] == bytes[from + a..from + b]
  {
    var inner, outer := bytes[from..to][a..b], bytes[from + a..from + b];
    forall i | 0 <= i < |inner| ensures inner[i] == outer[i] {
      assert inner[i] == bytes[from..to][a + i] == bytes[from + a + i];
    }
  }

  /**
    In a built packet the layer ranges follow one another from zero, the bytes in each are its
    layer's prefix, every field range lies inside its layer and holds the bytes the codec gave it,
    and the recorded payload length is the length of everything inside the layer.
   */
  lemma {:induction false} BuiltLayoutIsExact(s: Setup, built: Built, es: seq<Encoded>, k: nat)
    requires InsideOut(s, es) && Describes(built, es) && k < |es|
    ensures built.layouts[k].index == k && built.layouts[k].protocol == s.protocols[k]
    ensures k == 0 ==> built.layouts[k].range.start == 0
    ensures k > 0 ==> built.layouts[k].range.start == built.layouts[k - 1].range.end
    ensures SliceIs(built.bytes, built.layouts[k].range, es[k].prefix)
    ensures forall i :: 0 <= i < |es[k].fields| ==> FieldIs(built, es, k, i)
    ensures built.payloadLengths[k] + |es[k].prefix| + |es[k].suffix| == |Wire(es[k..])|
  {
    assert Placed(built.layouts[k], es, k) && (k > 0 ==> Placed(built.layouts[k - 1], es, k - 1));
    assert EncodedInside(s, es, k);
    SliceAt(es, k);
    WireAt(es, k);
    var from, to := Offset(es, k), Offset(es, k + 1);
    assert Wire(es)[from..to] == Prefixes(es)[from..to];
    forall i | 0 <= i < |es[k].fields| ensures FieldIs(built, es, k, i) {
      var f := es[k].fields[i];
      assert f in es[k].fields;
      SliceOfSlice(Wire(es), from, to, f.range.start, f.range.end);
    }
  }

  ghost predicate SliceIs(bytes: seq<Byte>, range: ByteRange, part: seq<Byte>) {
    range.start <= range.end <= |bytes| && bytes[range.start..range.end] == part
  }

  ghost predicate FieldIs(built: Built, es: seq<Encoded>, k: nat, i: nat)
    requires k < |es| == |built.layouts| && i < |es[k].fields| == |built.layouts[k].fields|
  {
    var placed, given := built.layouts[k].fields[i], es[k].fields[i];
    && placed.index == given.index
    && built.layouts[k].range.start <= placed.range.start <= placed.range.end <= built.layouts[k].range.end
    && given.range.start <= given.range.end <= |es[k].prefix|
    && SliceIs(built.bytes, placed.range, es[k].prefix[given.range.start..given.range.end])
  }
}
