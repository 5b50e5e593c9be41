/**
  The layer stack of crates/packetcraftr-core/src/packet.rs. A padding layer may name, by index, the
  layer its bytes lie outside of; inserts and removes shift those indexes, and every mutation drops
  the payload lengths cached by the builder or the decoder.
 */
module PacketStack {
  import opened Wrappers

  const USIZE_MAX: nat := 0xFFFF_FFFF_FFFF_FFFF

  type Usize = n: nat | n <= USIZE_MAX

  /** `id` stands for the identity and contents of a layer. */
  datatype Layer = Plain(id: nat) | Padding(id: nat, outside: Option<Usize>)

  datatype Entry = Entry(layer: Layer, payloadLength: Option<nat>)

  datatype StackError = IndexOutOfBounds(index: nat, len: nat) | PaddingBoundaryRemoval(index: nat)

  // ---- Shifting one layer ----

  /** The boundary of a layer, if it is a padding that has one. */
  function Boundary(l: Layer): Option<Usize> {
    if l.Padding? then l.outside else None
  }

  function SaturatingAdd(n: Usize): Usize {
    if n == USIZE_MAX then n else n + 1
  }

  function ShiftedForInsert(l: Layer, index: Usize): Layer {
    if l.Padding? && l.outside.Some? && l.outside.value >= index
    then l.(outside := Some(SaturatingAdd(l.outside.value)))
    else l
  }

  function ShiftedForRemove(l: Layer, index: Usize): Layer {
    if l.Padding? && l.outside.Some? && l.outside.value > index
    then l.(outside := Some(l.outside.value - 1))
    else l
  }

  // ---- Whole stacks, as values ----

  type Stack = seq<Entry>

  function Fresh(l: Layer): Entry {
    Entry(l, None)
  }

  /** The stack with no cached length. */
  function Bare(s: Stack): (t: Stack)
    ensures |t| == |s|
  {
    seq(|s|, i requires 0 <= i < |s| => Fresh(s[i].layer))
  }

  function ShiftUp(s: Stack, index: Usize): (t: Stack)
    ensures |t| == |s|
  {
    seq(|s|, i requires 0 <= i < |s| => Fresh(ShiftedForInsert(s[i].layer, index)))
  }

  function ShiftDown(s: Stack, index: Usize): (t: Stack)
    ensures |t| == |s|
  {
    seq(|s|, i requires 0 <= i < |s| => Fresh(ShiftedForRemove(s[i].layer, index)))
  }

  predicate WouldOrphan(s: Stack, index: Usize) {
    exists i :: 0 <= i < |s| && Boundary(s[i].layer) == Some(index) && SaturatingAdd(index) >= i
  }

  function Inserted(s: Stack, index: Usize, l: Layer): Stack
    requires index <= |s|
  {
    ShiftUp(s, index)[..index] + [Fresh(l)] + ShiftUp(s, index)[index..]
  }

  function Removed(s: Stack, index: Usize): Stack
    requires index < |s|
  {
    ShiftDown(s[..index] + s[index + 1..], index)
  }

  // ---- Edits ----

  datatype Edit =
    | Push(layer: Layer)
    | Insert(index: Usize, layer: Layer)
    | Remove(index: Usize)
    | Replace(index: Usize, layer: Layer)

  function Outcome(s: Stack, e: Edit): Result<(), StackError> {
    match e
    case Push(_) => Ok(())
    case Insert(index, _) => if index > |s| then Err(IndexOutOfBounds(index, |s|)) else Ok(())
    case Remove(index) =>
      if index >= |s| then Err(IndexOutOfBounds(index, |s|))
      else if WouldOrphan(s, index) then Err(PaddingBoundaryRemoval(index))
      else Ok(())
    case Replace(index, _) => if index >= |s| then Err(IndexOutOfBounds(index, |s|)) else Ok(())
  }

  function Apply(s: Stack, e: Edit): Stack {
    if Outcome(s, e).Err? then s
    else
      match e
      case Push(l) => Bare(s) + [Fresh(l)]
      case Insert(index, l) => Inserted(s, index, l)
      case Remove(index) => Removed(s, index)
      case Replace(index, l) => Bare(s)[index := Fresh(l)]
  }

  function Run(s: Stack, es: seq<Edit>): Stack
    decreases |es|
  {
    if es == [] then s else Run(Apply(s, es[0]), es[1..])
  }

  /** No stack along the run is as long as an index can count. */
  ghost predicate Countable(s: Stack, es: seq<Edit>)
    decreases |es|
  {
    |s| < USIZE_MAX && (es == [] || Countable(Apply(s, es[0]), es[1..]))
  }

  // ---- Every boundary lies below its padding ----

  ghost predicate BoundaryBelow(l: Layer, index: nat) {
    Boundary(l).Some? ==> Boundary(l).value < index
  }

  ghost predicate WellFormed(s: Stack) {
    forall i :: 0 <= i < |s| ==> BoundaryBelow(s[i].layer, i)
  }

  /** The edit brings in no padding whose boundary is at or behind the place it takes. */
  ghost predicate Proper(s: Stack, e: Edit) {
    match e
    case Push(l) => BoundaryBelow(l, |s|)
    case Insert(index, l) => BoundaryBelow(l, index)
    case Remove(_) => true
    case Replace(index, l) => BoundaryBelow(l, index)
  }

  ghost predicate AllProper(s: Stack, es: seq<Edit>)
    decreases |es|
  {
    es == [] || (Proper(s, es[0]) && AllProper(Apply(s, es[0]), es[1..]))
  }

  lemma {:induction false} RemoveKeepsBelow(s: Stack, index: Usize, j: nat)
    requires WellFormed(s) && index < |s| <= USIZE_MAX && !WouldOrphan(s, index) && j < |s| - 1
    ensures BoundaryBelow(Removed(s, index)[j].layer, j)
  {
    var i := if j < index then j else j + 1;
    assert (s[..index] + s[index + 1..])[j] == s[i];
    assert BoundaryBelow(s[i].layer, i);
  }

  lemma {:induction false} InsertKeepsBelow(s: Stack, index: Usize, l: Layer, j: nat)
    requires WellFormed(s) && index <= |s| && BoundaryBelow(l, index) && j <= |s|
    ensures BoundaryBelow(Inserted(s, index, l)[j].layer, j)
  {
    if j != index {
      var i := if j < index then j else j - 1;
      assert Inserted(s, index, l)[j] == Fresh(ShiftedForInsert(s[i].layer, index));
      assert BoundaryBelow(s[i].layer, i);
    }
  }

  lemma {:induction false} EditKeeps(s: Stack, e: Edit)
    requires WellFormed(s) && Proper(s, e) && |s| <= USIZE_MAX
    ensures WellFormed(Apply(s, e))
    ensures Outcome(s, e).Ok? ==> Apply(s, e) == Bare(Apply(s, e))
  {
    var t := Apply(s, e);
    if Outcome(s, e).Ok? {
      forall j | 0 <= j < |t| ensures BoundaryBelow(t[j].layer, j) {
        match e
        case Push(l) => assert j < |s| ==> BoundaryBelow(s[j].layer, j);
        case Insert(index, l) => InsertKeepsBelow(s, index, l, j);
        case Remove(index) => RemoveKeepsBelow(s, index, j);
        case Replace(index, l) => assert BoundaryBelow(s[j].layer, j);
      }
    }
  }

  /** Over any run of proper edits, every padding's boundary stays below the padding itself. */
  lemma {:induction false} RunKeeps(s: Stack, es: seq<Edit>)
    requires WellFormed(s) && AllProper(s, es) && Countable(s, es)
    ensures WellFormed(Run(s, es))
    decreases |es|
  {
    if es != [] {
      EditKeeps(s, es[0]);
      RunKeeps(Apply(s, es[0]), es[1..]);
    }
  }

  /** After any run with a successful edit in it, not one cached length is left. */
  lemma {:induction false} NoLengthSurvives(s: Stack, es: seq<Edit>, k: nat)
    requires k < |es| && Outcome(Run(s, es[..k]), es[k]).Ok?
    ensures Run(s, es) == Bare(Run(s, es))
    decreases |es|
  {
    assert es[..k] == [] || es[..k][1..] == es[1..][..k - 1];
    if k == 0 {
      assert Apply(s, es[0]) == Bare(Apply(s, es[0]));
      BareStaysBare(Apply(s, es[0]), es[1..]);
    } else {
      NoLengthSurvives(Apply(s, es[0]), es[1..], k - 1);
    }
  }

  lemma {:induction false} BareStaysBare(s: Stack, es: seq<Edit>)
    requires s == Bare(s)
    ensures Run(s, es) == Bare(Run(s, es))
    decreases |es|
  {
    if es != [] {
      assert Apply(s, es[0]) == Bare(Apply(s, es[0]));
      BareStaysBare(Apply(s, es[0]), es[1..]);
    }
  }

  // ---- A boundary keeps naming its layer ----

  /** Padding `q`, at `i`, lies outside layer `t`. */
  ghost predicate NamesAt(s: Stack, q: nat, t: nat, i: nat, b: nat) {
    && b < i < |s| && s[i].layer.id == q && s[b].layer.id == t
    && Boundary(s[i].layer) == Some(b)
  }

  /** Where an entry is after an insert at `index`. */
  function Place(i: nat, index: nat): nat {
    if i < index then i else i + 1
  }

  lemma {:induction false} InsertedAt(s: Stack, index: Usize, l: Layer, i: nat)
    requires index <= |s| && i < |s|
    ensures Inserted(s, index, l)[Place(i, index)] == Fresh(ShiftedForInsert(s[i].layer, index))
  {
  }

  lemma {:induction false} RemovedAt(s: Stack, index: Usize, i: nat)
    requires index < |s| && i < |s| && i != index
    ensures Removed(s, index)[if i < index then i else i - 1] == Fresh(ShiftedForRemove(s[i].layer, index))
  {
    assert (s[..index] + s[index + 1..])[if i < index then i else i - 1] == s[i];
  }

  /** A push adds its layer at the end and keeps every other as it was. */
  lemma {:induction false} PushAppends(s: Stack, l: Layer)
    ensures Outcome(s, Push(l)).Ok?
    ensures var t := Apply(s, Push(l));
      |t| == |s| + 1 && t[|s|].layer == l && forall i :: 0 <= i < |s| ==> t[i].layer == s[i].layer
  {
  }

  /** The same layer but for the boundary of a padding. */
  ghost predicate SameLayer(a: Layer, b: Layer) {
    a.Padding? == b.Padding? && a.id == b.id && (Boundary(a).Some? <==> Boundary(b).Some?)
  }

  /** An insert succeeds up to the end of the stack; the layer is then at the index and the others around it. */
  lemma {:induction false} InsertPlaces(s: Stack, index: Usize, l: Layer)
    ensures Outcome(s, Insert(index, l)) == if index <= |s| then Ok(()) else Err(IndexOutOfBounds(index, |s|))
    ensures index <= |s| ==>
              var t := Apply(s, Insert(index, l));
              && |t| == |s| + 1 && t[index].layer == l
              && forall i: nat :: i < |s| ==> SameLayer(t[Place(i, index)].layer, s[i].layer)
  {
    if index <= |s| {
      forall i: nat | i < |s| ensures SameLayer(Inserted(s, index, l)[Place(i, index)].layer, s[i].layer) {
        InsertedAt(s, index, l, i);
      }
    }
  }

  /** A removal fails outside the stack, and inside it exactly when a padding would lose the layer it names. */
  lemma {:induction false} RemovalRefused(s: Stack, index: Usize)
    requires |s| < USIZE_MAX
    ensures Outcome(s, Remove(index)) ==
      if index >= |s| then Err(IndexOutOfBounds(index, |s|))
      else if exists i :: 0 <= i <= index + 1 && i < |s| && Boundary(s[i].layer) == Some(index)
      then Err(PaddingBoundaryRemoval(index))
      else Ok(())
  {
    if index < |s| {
      assert SaturatingAdd(index) == index + 1;
    }
  }

  /** A successful removal takes exactly the layer at the index and closes the gap. */
  lemma {:induction false} RemovalCloses(s: Stack, index: Usize)
    requires Outcome(s, Remove(index)).Ok?
    ensures index < |s| == |Apply(s, Remove(index))| + 1
    ensures forall i: nat :: i < |s| - 1 ==>
              SameLayer(Apply(s, Remove(index))[i].layer, s[Place(i, index)].layer)
  {
    forall i: nat | i < |s| - 1 ensures SameLayer(Apply(s, Remove(index))[i].layer, s[Place(i, index)].layer) {
      RemovedAt(s, index, Place(i, index));
    }
  }

  /** A replacement succeeds exactly inside the stack and changes the layer at the index only. */
  lemma {:induction false} ReplacementIsLocal(s: Stack, index: Usize, l: Layer)
    ensures Outcome(s, Replace(index, l)) == if index < |s| then Ok(()) else Err(IndexOutOfBounds(index, |s|))
    ensures index < |s| ==>
              var t := Apply(s, Replace(index, l));
              && |t| == |s| && t[index].layer == l
              && forall i :: 0 <= i < |s| && i != index ==> t[i].layer == s[i].layer
  {
  }

  /** When the named layer is removed, the padding names the one that followed it. */
  lemma {:induction false} RemovalPassesToSuccessor(s: Stack, index: Usize, q: nat, t: nat, i: nat)
    requires |s| < USIZE_MAX && NamesAt(s, q, t, i, index) && Outcome(s, Remove(index)).Ok?
    ensures index + 1 < i && NamesAt(Apply(s, Remove(index)), q, s[index + 1].layer.id, i - 1, index)
  {
    assert SaturatingAdd(index) < i;
    RemovedAt(s, index, i);
    RemovedAt(s, index, index + 1);
  }

  /** Where a padding and its boundary stand, and the layer the boundary is meant to name. */
  datatype Naming = Naming(padding: nat, boundary: nat, heir: nat)

  /** Removing the named layer makes its successor the heir; replacing it, the replacement. */
  ghost function Heir(s: Stack, e: Edit, n: Naming): nat {
    if Outcome(s, e).Err? then n.heir
    else if e.Remove? && e.index == n.boundary && n.boundary + 1 < |s| then s[n.boundary + 1].layer.id
    else if e.Replace? && e.index == n.boundary then e.layer.id
    else n.heir
  }

  ghost function NamingAfter(s: Stack, e: Edit, n: Naming): Naming {
    if Outcome(s, e).Err? then n
    else
      match e
      case Push(_) => n
      case Replace(_, _) => n.(heir := Heir(s, e, n))
      case Insert(index, _) => n.(padding := Place(n.padding, index), boundary := Place(n.boundary, index))
      case Remove(index) =>
        Naming(if n.padding <= index then n.padding else n.padding - 1,
               if n.boundary <= index then n.boundary else n.boundary - 1,
               Heir(s, e, n))
  }

  ghost function NamingAfterRun(s: Stack, es: seq<Edit>, n: Naming): Naming
    decreases |es|
  {
    if es == [] then n else NamingAfterRun(Apply(s, es[0]), es[1..], NamingAfter(s, es[0], n))
  }

  /** The edit does not take the padding itself away. */
  ghost predicate Spares(s: Stack, e: Edit, n: Naming) {
    Outcome(s, e).Ok? && (e.Remove? || e.Replace?) ==> e.index != n.padding
  }

  ghost predicate AllSpare(s: Stack, es: seq<Edit>, n: Naming)
    decreases |es|
  {
    es == [] || (Spares(s, es[0], n) && AllSpare(Apply(s, es[0]), es[1..], NamingAfter(s, es[0], n)))
  }

  ghost predicate Follows(s: Stack, q: nat, n: Naming) {
    NamesAt(s, q, n.heir, n.padding, n.boundary)
  }

  lemma {:induction false} InsertFollows(s: Stack, index: Usize, l: Layer, q: nat, n: Naming)
    requires |s| < USIZE_MAX && index <= |s| && Follows(s, q, n)
    ensures Follows(Inserted(s, index, l), q,
                    n.(padding := Place(n.padding, index), boundary := Place(n.boundary, index)))
  {
    InsertedAt(s, index, l, n.padding);
    InsertedAt(s, index, l, n.boundary);
  }

  lemma {:induction false} RemoveFollows(s: Stack, index: Usize, q: nat, n: Naming)
    requires |s| < USIZE_MAX && Follows(s, q, n) && Outcome(s, Remove(index)).Ok? && index != n.padding
    ensures Follows(Removed(s, index), q, NamingAfter(s, Remove(index), n))
  {
    if index == n.boundary {
      RemovalPassesToSuccessor(s, index, q, n.heir, n.padding);
    } else {
      RemovedAt(s, index, n.padding);
      RemovedAt(s, index, n.boundary);
    }
  }

  lemma {:induction false} EditFollows(s: Stack, e: Edit, q: nat, n: Naming)
    requires |s| < USIZE_MAX && Follows(s, q, n) && Spares(s, e, n)
    ensures Follows(Apply(s, e), q, NamingAfter(s, e, n))
  {
    if Outcome(s, e).Ok? {
      match e {
        case Push(_) =>
        case Replace(_, _) =>
        case Insert(index, l) => InsertFollows(s, index, l, q, n);
        case Remove(index) => RemoveFollows(s, index, q, n);
      }
    }
  }

  /**
    Over any run of edits that leaves the padding in the stack, it goes on naming its layer: the
    same one, or whoever succeeded it each time the named layer was removed or replaced.
   */
  lemma {:induction false} RunFollows(s: Stack, es: seq<Edit>, q: nat, n: Naming)
    requires Countable(s, es) && Follows(s, q, n) && AllSpare(s, es, n)
    ensures Follows(Run(s, es), q, NamingAfterRun(s, es, n))
    decreases |es|
  {
    if es != [] {
      EditFollows(s, es[0], q, n);
      RunFollows(Apply(s, es[0]), es[1..], q, NamingAfter(s, es[0], n));
    }
  }

  /** No edit of the run removes or replaces the named layer. */
  ghost predicate AllKeepNamed(s: Stack, es: seq<Edit>, n: Naming)
    decreases |es|
  {
    es == []
    || (&& (Outcome(s, es[0]).Ok? && (es[0].Remove? || es[0].Replace?) ==> es[0].index != n.boundary)
        && AllKeepNamed(Apply(s, es[0]), es[1..], NamingAfter(s, es[0], n)))
  }

  /** While the named layer stays, it is the very layer named at the start that is named at the end. */
  lemma {:induction false} NamedLayerStays(s: Stack, es: seq<Edit>, n: Naming)
    requires AllKeepNamed(s, es, n)
    ensures NamingAfterRun(s, es, n).heir == n.heir
    decreases |es|
  {
    if es != [] {
      NamedLayerStays(Apply(s, es[0]), es[1..], NamingAfter(s, es[0], n));
    }
  }

  /** In a well-formed stack a removal is refused exactly when a padding names the layer just before it. */
  lemma {:induction false} RefusedExactly(s: Stack, index: Usize)
    requires WellFormed(s) && index < |s| < USIZE_MAX
    ensures Outcome(s, Remove(index)).Err?
       <==> index + 1 < |s| && Boundary(s[index + 1].layer) == Some(index)
  {
    if WouldOrphan(s, index) {
      var i :| 0 <= i < |s| && Boundary(s[i].layer) == Some(index) && SaturatingAdd(index) >= i;
      assert BoundaryBelow(s[i].layer, i);
    }
  }

  // ---- Undoing ----

  ghost predicate UndoneByRemove(s: Stack, index: Usize, l: Layer)
    requires index <= |s|
  {
    var t := Inserted(s, index, l);
    Outcome(t, Remove(index)).Ok? && Apply(t, Remove(index)) == Bare(s)
  }

  /** Only the inserted layer itself can name the place it takes. */
  lemma {:induction false} OnlyItselfOrphans(s: Stack, index: Usize, l: Layer)
    requires index <= |s| < USIZE_MAX
    ensures WouldOrphan(Inserted(s, index, l), index) <==> Boundary(l) == Some(index)
  {
    var t := Inserted(s, index, l);
    assert t[index] == Fresh(l);
    forall j | 0 <= j < |t| && j != index ensures Boundary(t[j].layer) != Some(index) {
      var i := if j < index then j else j - 1;
      InsertedAt(s, index, l, i);
      assert t[j] == Fresh(ShiftedForInsert(s[i].layer, index));
    }
  }

  lemma {:induction false} RoundTripAt(s: Stack, index: Usize, l: Layer, i: nat)
    requires index <= |s| < USIZE_MAX && i < |s|
    ensures Removed(Inserted(s, index, l), index)[i] == Bare(s)[i] <==> Boundary(s[i].layer) != Some(USIZE_MAX)
  {
    InsertedAt(s, index, l, i);
    RemovedAt(Inserted(s, index, l), index, Place(i, index));
  }

  /**
    Insert then remove at one index restores the stack exactly when the layer does not name its own
    place and no padding already names the largest index there is.
   */
  lemma {:induction false} InsertThenRemove(s: Stack, index: Usize, l: Layer)
    requires index <= |s| < USIZE_MAX
    ensures UndoneByRemove(s, index, l)
       <==> Boundary(l) != Some(index) && forall i :: 0 <= i < |s| ==> Boundary(s[i].layer) != Some(USIZE_MAX)
  {
    OnlyItselfOrphans(s, index, l);
    var t := Removed(Inserted(s, index, l), index);
    forall i | 0 <= i < |s| ensures t[i] == Bare(s)[i] <==> Boundary(s[i].layer) != Some(USIZE_MAX) {
      RoundTripAt(s, index, l, i);
    }
    assert t == Bare(s) <==> forall i :: 0 <= i < |s| ==> t[i] == Bare(s)[i];
  }

  /** The failing side: a padding that names the place it is put in cannot be taken out again. */
  lemma {:induction false} SelfNamingIsNotUndone(s: Stack, index: Usize)
    requires index <= |s| < USIZE_MAX
    ensures !UndoneByRemove(s, index, Padding(0, Some(index)))
  {
    InsertThenRemove(s, index, Padding(0, Some(index)));
  }

  /** Remove then insert the same layer restores the stack exactly when no other padding named it. */
  lemma {:induction false} RemoveThenInsert(s: Stack, index: Usize)
    requires index < |s| <= USIZE_MAX && Outcome(s, Remove(index)).Ok?
    ensures Inserted(Apply(s, Remove(index)), index, s[index].layer) == Bare(s)
       <==> forall i :: 0 <= i < |s| && i != index ==> Boundary(s[i].layer) != Some(index)
  {
    var t := Inserted(Removed(s, index), index, s[index].layer);
    forall i | 0 <= i < |s| && i != index
      ensures t[i] == Fresh(ShiftedForInsert(ShiftedForRemove(s[i].layer, index), index))
    {
      RemovedAt(s, index, i);
    }
    if forall i :: 0 <= i < |s| && i != index ==> Boundary(s[i].layer) != Some(index) {
      assert t == Bare(s);
    }
    if t == Bare(s) {
      forall i | 0 <= i < |s| && i != index ensures Boundary(s[i].layer) != Some(index) {
        assert t[i] == Bare(s)[i];
      }
    }
  }

  // ---- The object ----

  class Packet {
    var layers: Stack

    constructor ()
      ensures layers == []
    {
      layers := [];
    }

    method InvalidateLengths()
      modifies this
      ensures layers == Bare(old(layers))
    {
      for k := 0 to |layers|
        invariant |layers| == old(|layers|)
        invariant forall i :: 0 <= i < k ==> layers[i] == Fresh(old(layers)[i].layer)
        invariant forall i :: k <= i < |layers| ==> layers[i] == old(layers)[i]
      {
        layers := layers[k := layers[k].(payloadLength := None)];
      }
    }

    method ShiftPaddingForInsert(index: Usize)
      modifies this
      ensures |layers| == old(|layers|)
      ensures forall i :: 0 <= i < |layers| ==>
                layers[i] == old(layers)[i].(layer := ShiftedForInsert(old(layers)[i].layer, index))
    {
      for k := 0 to |layers|
        invariant |layers| == old(|layers|)
        invariant forall i :: 0 <= i < k ==>
                    layers[i] == old(layers)[i].(layer := ShiftedForInsert(old(layers)[i].layer, index))
        invariant forall i :: k <= i < |layers| ==> layers[i] == old(layers)[i]
      {
        var layer := layers[k].layer;
        if layer.Padding? && layer.outside.Some? && layer.outside.value >= index {
          layers := layers[k := layers[k].(layer := layer.(outside := Some(SaturatingAdd(layer.outside.value))))];
        }
      }
    }

    method ShiftPaddingForRemove(index: Usize)
      modifies this
      ensures |layers| == old(|layers|)
      ensures forall i :: 0 <= i < |layers| ==>
                layers[i] == old(layers)[i].(layer := ShiftedForRemove(old(layers)[i].layer, index))
    {
      for k := 0 to |layers|
        invariant |layers| == old(|layers|)
        invariant forall i :: 0 <= i < k ==>
                    layers[i] == old(layers)[i].(layer := ShiftedForRemove(old(layers)[i].layer, index))
        invariant forall i :: k <= i < |layers| ==> layers[i] == old(layers)[i]
      {
        var layer := layers[k].layer;
        if layer.Padding? && layer.outside.Some? && layer.outside.value > index {
          layers := layers[k := layers[k].(layer := layer.(outside := Some(layer.outside.value - 1)))];
        }
      }
    }

    method PushLayer(layer: Layer)
      modifies this
      ensures layers == Apply(old(layers), Push(layer))
    {
      layers := layers + [Fresh(layer)];
      InvalidateLengths();
    }

    method InsertLayer(index: Usize, layer: Layer) returns (r: Result<(), StackError>)
      modifies this
      ensures r == Outcome(old(layers), Insert(index, layer))
      ensures layers == Apply(old(layers), Insert(index, layer))
    {
      if index > |layers| {
        return Err(IndexOutOfBounds(index, |layers|));
      }
      ShiftPaddingForInsert(index);
      layers := layers[..index] + [Fresh(layer)] + layers[index..];
      InvalidateLengths();
      r := Ok(());
    }

    method RemoveLayer(index: Usize) returns (r: Result<Layer, StackError>)
      modifies this
      ensures r.Ok? <==> Outcome(old(layers), Remove(index)).Ok?
      ensures r.Ok? ==> r.value == old(layers)[index].layer
      ensures r.Err? ==> Outcome(old(layers), Remove(index)) == Err(r.error)
      ensures layers == Apply(old(layers), Remove(index))
    {
      if index >= |layers| {
        return Err(IndexOutOfBounds(index, |layers|));
      }
      if WouldOrphan(layers, index) {
        return Err(PaddingBoundaryRemoval(index));
      }
      r := Ok(layers[index].layer);
      layers := layers[..index] + layers[index + 1..];
      ShiftPaddingForRemove(index);
      InvalidateLengths();
    }

    method ReplaceLayer(index: Usize, layer: Layer) returns (r: Result<Layer, StackError>)
      modifies this
      ensures r.Ok? <==> index < |old(layers)|
      ensures r.Ok? ==> r.value == old(layers)[index].layer
      ensures r.Err? ==> Outcome(old(layers), Replace(index, layer)) == Err(r.error)
      ensures layers == Apply(old(layers), Replace(index, layer))
    {
      if index >= |layers| {
        return Err(IndexOutOfBounds(index, |layers|));
      }
      r := Ok(layers[index].layer);
      layers := layers[index := layers[index].(layer := layer)];
      InvalidateLengths();
    }
  }
}
