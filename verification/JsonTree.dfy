/**
  The bounded traversal of decoded JSON, `_validate_tree` in scripts/script_support.py and the same
  loop in `decode` of examples/consumers/forwarding.py: an explicit stack of iterators.
 */
module JsonTree {
  import opened Wrappers

  const MAX_JSON_DEPTH: nat := 64

  /** Text is the sequence of its code points. */
  type Text = seq<nat>

  datatype Key = TextKey(text: Text) | OtherKey

  /** An object's keys and values are listed in iteration order; `Other` is null, a boolean or an integer. */
  datatype Json =
    | String(text: Text)
    | Real(finite: bool)
    | Other
    | Object(keys: seq<Key>, values: seq<Json>)
    | List(items: seq<Json>)

  datatype TreeError = TooDeep | NotEncodable | NotFinite | NotAString

  /** Strict UTF-8 has no form for surrogates or beyond the last code point. */
  predicate Encodable(t: Text) {
    forall c :: c in t ==> c < 0xD800 || 0xDFFF < c <= 0x10FFFF
  }

  function KeyError(keys: seq<Key>): Option<TreeError> {
    if keys == [] then None
    else
      match keys[0]
      case OtherKey => Some(NotAString)
      case TextKey(t) => if Encodable(t) then KeyError(keys[1..]) else Some(NotEncodable)
  }

  // ---- The recursive meaning: the first fault in document order ----

  function FirstError(v: Json, depth: nat): Option<TreeError>
    decreases v
  {
    if depth > MAX_JSON_DEPTH then Some(TooDeep)
    else
      match v
      case String(t) => if Encodable(t) then None else Some(NotEncodable)
      case Real(finite) => if finite then None else Some(NotFinite)
      case Other => None
      case Object(keys, values) => if KeyError(keys).Some? then KeyError(keys) else FirstErrorIn(values, depth + 1)
      case List(items) => FirstErrorIn(items, depth + 1)
  }

  function FirstErrorIn(vs: seq<Json>, depth: nat): Option<TreeError>
    decreases vs
  {
    if vs == [] then None
    else if FirstError(vs[0], depth).Some? then FirstError(vs[0], depth)
    else FirstErrorIn(vs[1..], depth)
  }

  // ---- What acceptance says about a value ----

  ghost function Max(a: nat, b: nat): nat {
    if a <= b then b else a
  }

  /** How far the deepest item lies below the value; an empty container holds none. */
  ghost function Height(v: Json): nat
    decreases v
  {
    match v
    case Object(_, values) => HeightIn(values)
    case List(items) => HeightIn(items)
    case _ => 0
  }

  ghost function HeightIn(vs: seq<Json>): nat
    decreases vs
  {
    if vs == [] then 0 else Max(Height(vs[0]) + 1, HeightIn(vs[1..]))
  }

  ghost predicate KeysClean(keys: seq<Key>) {
    forall i :: 0 <= i < |keys| ==> keys[i].TextKey? && Encodable(keys[i].text)
  }

  /** Every string and key can be encoded and every number is finite, at any depth. */
  ghost predicate Clean(v: Json)
    decreases v
  {
    match v
    case String(t) => Encodable(t)
    case Real(finite) => finite
    case Other => true
    case Object(keys, values) => KeysClean(keys) && forall i :: 0 <= i < |values| ==> Clean(values[i])
    case List(items) => forall i :: 0 <= i < |items| ==> Clean(items[i])
  }

  lemma {:induction false} KeyErrorMeans(keys: seq<Key>)
    ensures KeyError(keys).None? <==> KeysClean(keys)
  {
    if keys != [] {
      KeyErrorMeans(keys[1..]);
      assert KeysClean(keys) <==> keys[0].TextKey? && Encodable(keys[0].text) && KeysClean(keys[1..]) by {
        assert keys == [keys[0]] + keys[1..];
        if KeysClean(keys) {
          assert forall i :: 0 <= i < |keys[1..]| ==> keys[1..][i] == keys[i + 1];
        }
      }
    }
  }

  /** A value has no fault exactly when nothing in it lies below the limit and everything is clean. */
  lemma {:induction false} FirstErrorMeans(v: Json, depth: nat)
    ensures FirstError(v, depth).None? <==> depth + Height(v) <= MAX_JSON_DEPTH && Clean(v)
    decreases v, 1
  {
    match v
    case Object(keys, values) =>
      KeyErrorMeans(keys);
      FirstErrorInMeans(values, depth + 1);
    case List(items) => FirstErrorInMeans(items, depth + 1);
    case _ =>
  }

  lemma {:induction false} FirstErrorInMeans(vs: seq<Json>, depth: nat)
    requires depth > 0
    ensures FirstErrorIn(vs, depth).None?
       <==> (vs != [] ==> depth - 1 + HeightIn(vs) <= MAX_JSON_DEPTH) && forall i :: 0 <= i < |vs| ==> Clean(vs[i])
    decreases vs
  {
    if vs != [] {
      FirstErrorMeans(vs[0], depth);
      FirstErrorInMeans(vs[1..], depth);
      assert (forall i :: 0 <= i < |vs| ==> Clean(vs[i]))
        <==> Clean(vs[0]) && forall i :: 0 <= i < |vs[1..]| ==> Clean(vs[1..][i]) by {
        assert forall i :: 0 <= i < |vs[1..]| ==> vs[1..][i] == vs[i + 1];
        assert forall i :: 0 < i < |vs| ==> vs[i] == vs[1..][i - 1];
      }
    }
  }

  ghost predicate KeyFault(key: Key, error: TreeError) {
    if key.OtherKey? then error == NotAString else error == NotEncodable && !Encodable(key.text)
  }

  /** Something in the value has this fault, whatever its depth. */
  ghost predicate HasFault(v: Json, error: TreeError)
    decreases v
  {
    match v
    case String(t) => error == NotEncodable && !Encodable(t)
    case Real(finite) => error == NotFinite && !finite
    case Other => false
    case Object(keys, values) =>
      || (exists i :: 0 <= i < |keys| && KeyFault(keys[i], error))
      || (exists i :: 0 <= i < |values| && HasFault(values[i], error))
    case List(items) => exists i :: 0 <= i < |items| && HasFault(items[i], error)
  }

  /** The fault reported is there: something is too deep, or has that very fault. */
  lemma {:induction false} ReportedFaultHolds(v: Json, depth: nat)
    requires FirstError(v, depth).Some?
    ensures var error := FirstError(v, depth).value;
      if error == TooDeep then depth + Height(v) > MAX_JSON_DEPTH else HasFault(v, error)
    decreases v, 1
  {
    match v
    case Object(keys, values) =>
      if depth <= MAX_JSON_DEPTH && KeyError(keys).Some? {
        KeyFaultHolds(keys);
      } else if depth <= MAX_JSON_DEPTH {
        ReportedFaultInHolds(values, depth + 1);
      }
    case List(items) =>
      if depth <= MAX_JSON_DEPTH {
        ReportedFaultInHolds(items, depth + 1);
      }
    case _ =>
  }

  lemma {:induction false} ReportedFaultInHolds(vs: seq<Json>, depth: nat)
    requires depth > 0 && FirstErrorIn(vs, depth).Some?
    ensures var error := FirstErrorIn(vs, depth).value;
      if error == TooDeep then depth - 1 + HeightIn(vs) > MAX_JSON_DEPTH
      else exists i :: 0 <= i < |vs| && HasFault(vs[i], error)
    decreases vs
  {
    if FirstError(vs[0], depth).Some? {
      ReportedFaultHolds(vs[0], depth);
    } else {
      ReportedFaultInHolds(vs[1..], depth);
      assert forall i :: 0 <= i < |vs[1..]| ==> vs[1..][i] == vs[i + 1];
    }
  }

  lemma {:induction false} KeyFaultHolds(keys: seq<Key>)
    requires KeyError(keys).Some?
    ensures KeyError(keys).value != TooDeep
    ensures exists i :: 0 <= i < |keys| && KeyFault(keys[i], KeyError(keys).value)
  {
    if KeyFault(keys[0], KeyError(keys).value) {
    } else {
      KeyFaultHolds(keys[1..]);
      assert forall i :: 0 <= i < |keys[1..]| ==> keys[1..][i] == keys[i + 1];
    }
  }

  // ---- The stack ----

  /** What an iterator has still to give, and the depth of those items. */
  datatype Frame = Frame(items: seq<Json>, depth: nat)

  /** The first fault in what is left, innermost iterator first. */
  ghost function Pending(stack: seq<Frame>): Option<TreeError> {
    if stack == [] then None
    else
      var top := stack[|stack| - 1];
      if FirstErrorIn(top.items, top.depth).Some? then FirstErrorIn(top.items, top.depth)
      else Pending(stack[..|stack| - 1])
  }

  /** Unvisited items, a container counting also for the iterator it will open. */
  ghost function Size(v: Json): nat
    decreases v
  {
    match v
    case Object(_, values) => 2 + SizeOf(values)
    case List(items) => 2 + SizeOf(items)
    case _ => 1
  }

  ghost function SizeOf(vs: seq<Json>): nat
    decreases vs
  {
    if vs == [] then 0 else Size(vs[0]) + SizeOf(vs[1..])
  }

  /** What is left to do: the unvisited items of every open iterator, and the iterators themselves. */
  ghost function Work(stack: seq<Frame>): nat {
    if stack == [] then 0 else Work(stack[..|stack| - 1]) + 1 + SizeOf(stack[|stack| - 1].items)
  }

  lemma {:induction false} Pushed(stack: seq<Frame>, f: Frame)
    ensures Work(stack + [f]) == Work(stack) + 1 + SizeOf(f.items)
    ensures Pending(stack + [f])
         == if FirstErrorIn(f.items, f.depth).Some? then FirstErrorIn(f.items, f.depth) else Pending(stack)
  {
    assert (stack + [f])[..|stack|] == stack;
  }

  method CheckKeys(keys: seq<Key>) returns (r: Option<TreeError>)
    ensures r == KeyError(keys)
  {
    for i := 0 to |keys|
      invariant KeyError(keys) == KeyError(keys[i..])
    {
      assert keys[i..][1..] == keys[i + 1..];
      match keys[i] {
        case OtherKey => return Some(NotAString);
        case TextKey(t) =>
          if !Encodable(t) {
            return Some(NotEncodable);
          }
      }
    }
    r := None;
  }

  /** What one item asks for: a fault, or an iterator over its children, or nothing. */
  method Visit(item: Json, depth: nat) returns (r: Result<Option<Frame>, TreeError>)
    ensures r.Err? ==> FirstError(item, depth) == Some(r.error)
    ensures r.Ok? && r.value.None? ==> FirstError(item, depth).None?
    ensures r.Ok? && r.value.Some? ==> FirstError(item, depth) == FirstErrorIn(r.value.value.items, r.value.value.depth)
    ensures r.Ok? && r.value.Some? ==> SizeOf(r.value.value.items) + 2 == Size(item)
  {
    if depth > MAX_JSON_DEPTH {
      return Err(TooDeep);
    }
    match item {
      case String(t) =>
        r := if Encodable(t) then Ok(None) else Err(NotEncodable);
      case Real(finite) =>
        r := if finite then Ok(None) else Err(NotFinite);
      case Other =>
        r := Ok(None);
      case Object(keys, values) =>
        var fault := CheckKeys(keys);
        r := if fault.Some? then Err(fault.value) else Ok(Some(Frame(values, depth + 1)));
      case List(items) =>
        r := Ok(Some(Frame(items, depth + 1)));
    }
  }

  /** One turn of the loop: an exhausted iterator is dropped, or the next item is visited. */
  method Advance(stack: seq<Frame>) returns (r: Result<seq<Frame>, TreeError>)
    requires stack != []
    ensures r.Err? ==> Pending(stack) == Some(r.error)
    ensures r.Ok? ==> Pending(r.value) == Pending(stack) && Work(r.value) < Work(stack)
  {
    var top, below := stack[|stack| - 1], stack[..|stack| - 1];
    assert stack == below + [top];
    Pushed(below, top);
    if top.items == [] {
      return Ok(below);
    }
    var rest := Frame(top.items[1..], top.depth);
    var visited := Visit(top.items[0], top.depth);
    if visited.Err? {
      return Err(visited.error);
    }
    Pushed(below, rest);
    var after := below + [rest];
    if visited.value.Some? {
      Pushed(after, visited.value.value);
      after := after + [visited.value.value];
    }
    r := Ok(after);
  }

  /** The loop ends for every value and reports exactly its first fault in document order. */
  method ValidateTree(value: Json) returns (r: Option<TreeError>)
    ensures r == FirstError(value, 0)
    ensures r.None? <==> Height(value) <= MAX_JSON_DEPTH && Clean(value)
  {
    FirstErrorMeans(value, 0);
    var stack := Start(value);
    while stack != []
      invariant Pending(stack) == FirstError(value, 0)
      decreases Work(stack)
    {
      var next := Advance(stack);
      if next.Err? {
        return Some(next.error);
      }
      stack := next.value;
    }
    r := None;
  }

  method Start(value: Json) returns (stack: seq<Frame>)
    ensures stack == [Frame([value], 0)] && Pending(stack) == FirstError(value, 0)
  {
    stack := [] + [Frame([value], 0)];
    Pushed([], Frame([value], 0));
    assert [value][1..] == [];
  }
}
