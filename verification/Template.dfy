/**
  Template expansion, crates/packetcraftr-core/src/template.rs: numeric ranges, the size of a
  Cartesian product and its enumeration by stride arithmetic; and the axis parser of
  crates/packetcraftr-cli/src/command_options/template.rs, which keeps a running product under a ceiling.
 */
module Template {
  import opened Wrappers

  const U64_MAX: nat := 0xFFFF_FFFF_FFFF_FFFF
  const USIZE_MAX: nat := 0xFFFF_FFFF_FFFF_FFFF

  datatype Value = Unsigned(number: nat) | Other(token: nat)

  datatype Error =
    | InvalidRangeStep
    | ReversedRange
    | ExpansionOverflow
    | ExpansionLimit(requested: nat, limit: nat)
    | Usage
    | InvalidAxis

  // ---- Numeric ranges ----

  datatype NumericRange = NumericRange(start: nat, end: nat, step: nat) {
    predicate Valid() {
      0 < step && start <= end <= U64_MAX
    }

    function Len(): nat
      requires Valid()
    {
      (end - start) / step + 1
    }

    function Values(): seq<Value>
      requires Valid()
    {
      Successors(start, end, step)
    }
  }

  function NewRange(start: nat, end: nat, step: nat): (r: Result<NumericRange, Error>)
    requires start <= U64_MAX && end <= U64_MAX && step <= U64_MAX
    ensures r.Ok? <==> 0 < step && start <= end
    ensures r.Ok? ==> r.value.Valid() && (r.value.start, r.value.end, r.value.step) == (start, end, step)
    ensures r.Err? ==> r.error == if step == 0 then InvalidRangeStep else ReversedRange
  {
    if step == 0 then Err(InvalidRangeStep)
    else if start > end then Err(ReversedRange)
    else Ok(NumericRange(start, end, step))
  }

  /** `value` and its successors by `step`, while the sum neither overflows nor passes `end`. */
  function Successors(value: nat, end: nat, step: nat): seq<Value>
    requires value <= end <= U64_MAX && 0 < step
    decreases end - value
  {
    [Unsigned(value)] +
    if value + step <= U64_MAX && value + step <= end then Successors(value + step, end, step) else []
  }

  lemma {:induction false} SuccessorsAre(value: nat, end: nat, step: nat)
    requires value <= end <= U64_MAX && 0 < step
    ensures |Successors(value, end, step)| == (end - value) / step + 1
    ensures forall i :: 0 <= i < |Successors(value, end, step)| ==>
              Successors(value, end, step)[i] == Unsigned(value + i * step)
    decreases end - value
  {
    if value + step <= end {
      SuccessorsAre(value + step, end, step);
      Quotient(end - value, step, (end - value - step) / step + 1, (end - value - step) % step);
      var rest := Successors(value + step, end, step);
      forall i | 0 <= i < |rest| + 1
        ensures Successors(value, end, step)[i] == Unsigned(value + i * step)
      {
        if i > 0 {
          assert Successors(value, end, step)[i] == rest[i - 1];
          assert step + (i - 1) * step == i * step;
        }
      }
    } else {
      Quotient(end - value, step, 0, end - value);
    }
  }

  lemma {:induction false} StepInRange(r: NumericRange, i: nat)
    requires r.Valid() && i < r.Len()
    ensures r.start + i * r.step <= r.end
  {
    Grows(i, (r.end - r.start) / r.step, r.step);
  }

  /** A range yields `Len` values: its start and every whole step from it, up to its end. */
  lemma {:induction false} RangeIsExact(r: NumericRange)
    requires r.Valid()
    ensures |r.Values()| == r.Len()
    ensures forall i :: 0 <= i < r.Len() ==> r.Values()[i] == Unsigned(r.start + i * r.step)
    ensures forall v :: v in r.Values() ==> v.Unsigned? && r.start <= v.number <= r.end
  {
    SuccessorsAre(r.start, r.end, r.step);
    forall v | v in r.Values() ensures v.Unsigned? && r.start <= v.number <= r.end {
      var i :| 0 <= i < r.Len() && r.Values()[i] == v;
      StepInRange(r, i);
    }
  }

  /** No value on the stride is missed. */
  lemma {:induction false} RangeIsComplete(r: NumericRange, v: nat)
    requires r.Valid() && r.start <= v <= r.end && (v - r.start) % r.step == 0
    ensures Unsigned(v) in r.Values()
  {
    var i := (v - r.start) / r.step;
    QuotientGrows(v - r.start, r.end - r.start, r.step);
    RangeIsExact(r);
    assert i * r.step == v - r.start;
    assert r.Values()[i] == Unsigned(v);
  }

  // ---- Arithmetic ----

  lemma {:induction false} Grows(a: nat, b: nat, factor: nat)
    requires a <= b
    ensures a * factor <= b * factor
  {
  }

  lemma {:induction false} Quotient(a: nat, d: nat, q: nat, r: nat)
    requires r < d && a == q * d + r
    ensures a / d == q && a % d == r
  {
    var p := a / d;
    assert a == p * d + a % d;
    if p < q {
      Grows(p + 1, q, d);
    } else if q < p {
      Grows(q + 1, p, d);
    }
  }

  lemma {:induction false} QuotientGrows(a: nat, b: nat, d: nat)
    requires a <= b && 0 < d
    ensures a / d <= b / d
  {
    if b / d < a / d {
      Grows(b / d + 1, a / d, d);
    }
  }

  lemma {:induction false} CellBelow(digit: nat, length: nat, stride: nat, rest: nat)
    requires digit < length && rest < stride
    ensures digit * stride + rest < length * stride
  {
    Grows(digit + 1, length, stride);
    assert (digit + 1) * stride == digit * stride + stride;
  }

  lemma {:induction false} CellOrder(a: nat, restA: nat, b: nat, restB: nat, stride: nat)
    requires restA < stride && restB < stride
    ensures a * stride + restA < b * stride + restB <==> a < b || (a == b && restA < restB)
  {
    if a < b {
      CellBelow(a, b, stride, restA);
    } else if b < a {
      CellBelow(b, a, stride, restB);
    }
  }

  lemma {:induction false} Regroup(high: nat, length: nat, low: nat, stride: nat)
    ensures (high * length + low) * stride == high * (length * stride) + low * stride
  {
  }

  lemma {:induction false} Divided(a: nat, d: nat) returns (q: nat, r: nat)
    requires 0 < d
    ensures q == a / d && r == a % d && r < d && a == q * d + r
  {
    q, r := a / d, a % d;
  }

  /** Dropping the digits above the lowest two leaves those two. */
  lemma {:induction false} TwoDigits(o: nat, length: nat, stride: nat, product: nat)
    requires 0 < length && 0 < stride && product == length * stride && 0 < product
    ensures (o % product) / stride == (o / stride) % length
    ensures (o % product) % stride == o % stride
  {
    var q, r := Divided(o, stride);
    var high, low := Divided(q, length);
    var kept := Kept(o, q, r, high, low, length, stride, product);
    Quotient(o, product, high, kept);
    Quotient(kept, stride, low, r);
  }

  lemma {:induction false} Kept(
    o: nat, q: nat, r: nat, high: nat, low: nat, length: nat, stride: nat, product: nat) returns (kept: nat)
    requires o == q * stride + r && q == high * length + low
    requires low < length && r < stride && product == length * stride
    ensures kept == low * stride + r && kept < product && o == high * product + kept
  {
    kept := low * stride + r;
    CellBelow(low, length, stride, r);
    Regroup(high, length, low, stride);
  }

  // ---- The reference: the Cartesian product in lexicographic order ----

  type Axes = seq<seq<Value>>

  function Size(axes: Axes): nat {
    if axes == [] then 1 else |axes[0]| * Size(axes[1..])
  }

  ghost predicate NoneEmpty(axes: Axes) {
    forall i :: 0 <= i < |axes| ==> axes[i] != []
  }

  ghost function Prefixed(v: Value, tails: seq<seq<Value>>): (tuples: seq<seq<Value>>)
    ensures |tuples| == |tails|
  {
    seq(|tails|, i requires 0 <= i < |tails| => [v] + tails[i])
  }

  /** Every value of the first axis in turn, each with the whole product of the others. */
  ghost function Product(axes: Axes): seq<seq<Value>>
    decreases |axes|, 0
  {
    if axes == [] then [[]] else Joined(axes[0], Product(axes[1..]))
  }

  ghost function Joined(values: seq<Value>, tails: seq<seq<Value>>): seq<seq<Value>>
    decreases |values|
  {
    if values == [] then [] else Prefixed(values[0], tails) + Joined(values[1..], tails)
  }

  /** A choice of one index from every axis. */
  ghost predicate IsChoice(axes: Axes, ds: seq<nat>) {
    |ds| == |axes| && forall i :: 0 <= i < |ds| ==> ds[i] < |axes[i]|
  }

  ghost function Pick(axes: Axes, ds: seq<nat>): (tuple: seq<Value>)
    requires IsChoice(axes, ds)
  {
    seq(|ds|, i requires 0 <= i < |ds| => axes[i][ds[i]])
  }

  /** Lexicographic order, the last axis varying fastest. */
  ghost predicate Before(a: seq<nat>, b: seq<nat>)
    requires |a| == |b|
  {
    a != [] && (a[0] < b[0] || (a[0] == b[0] && Before(a[1..], b[1..])))
  }

  // ---- Choices and ordinals ----

  ghost function Ordinal(axes: Axes, ds: seq<nat>): nat
    requires IsChoice(axes, ds)
  {
    if axes == [] then 0 else ds[0] * Size(axes[1..]) + Ordinal(axes[1..], ds[1..])
  }

  ghost function Choice(axes: Axes, ordinal: nat): (ds: seq<nat>)
    requires ordinal < Size(axes)
    ensures IsChoice(axes, ds)
  {
    if axes == [] then []
    else
      var stride := Size(axes[1..]);
      DigitInAxis(ordinal, |axes[0]|, stride);
      [ordinal / stride] + Choice(axes[1..], ordinal % stride)
  }

  lemma {:induction false} ChoiceUnfolds(axes: Axes, ordinal: nat) returns (digit: nat, rest: nat)
    requires axes != [] && ordinal < Size(axes)
    ensures digit < |axes[0]| && rest < Size(axes[1..]) && ordinal == digit * Size(axes[1..]) + rest
    ensures Choice(axes, ordinal) == [digit] + Choice(axes[1..], rest)
  {
    DigitInAxis(ordinal, |axes[0]|, Size(axes[1..]));
    digit, rest := Divided(ordinal, Size(axes[1..]));
  }

  lemma {:induction false} DigitInAxis(ordinal: nat, length: nat, stride: nat)
    requires ordinal < length * stride
    ensures 0 < stride && ordinal / stride < length
  {
    if ordinal / stride >= length {
      Grows(length, ordinal / stride, stride);
    }
  }

  lemma {:induction false} OrdinalInRange(axes: Axes, ds: seq<nat>)
    requires IsChoice(axes, ds)
    ensures Ordinal(axes, ds) < Size(axes)
  {
    if axes != [] {
      OrdinalInRange(axes[1..], ds[1..]);
      CellBelow(ds[0], |axes[0]|, Size(axes[1..]), Ordinal(axes[1..], ds[1..]));
    }
  }

  /** Ordinals below the size and choices correspond one to one. */
  lemma {:induction false} ChoiceOfOrdinal(axes: Axes, ds: seq<nat>)
    requires IsChoice(axes, ds)
    ensures Ordinal(axes, ds) < Size(axes) && Choice(axes, Ordinal(axes, ds)) == ds
  {
    OrdinalInRange(axes, ds);
    if axes != [] {
      var rest := Ordinal(axes[1..], ds[1..]);
      OrdinalInRange(axes[1..], ds[1..]);
      Quotient(Ordinal(axes, ds), Size(axes[1..]), ds[0], rest);
      ChoiceOfOrdinal(axes[1..], ds[1..]);
    }
  }

  lemma {:induction false} OrdinalOfChoice(axes: Axes, ordinal: nat)
    requires ordinal < Size(axes)
    ensures Ordinal(axes, Choice(axes, ordinal)) == ordinal
  {
    if axes != [] {
      var digit, rest := ChoiceUnfolds(axes, ordinal);
      OrdinalOfChoice(axes[1..], rest);
      assert ([digit] + Choice(axes[1..], rest))[1..] == Choice(axes[1..], rest);
    }
  }

  /** Ordinal order is lexicographic order. */
  lemma {:induction false} OrdinalsAreLexicographic(axes: Axes, a: seq<nat>, b: seq<nat>)
    requires IsChoice(axes, a) && IsChoice(axes, b)
    ensures Ordinal(axes, a) < Ordinal(axes, b) <==> Before(a, b)
  {
    if axes != [] {
      OrdinalsAreLexicographic(axes[1..], a[1..], b[1..]);
      OrdinalInRange(axes[1..], a[1..]);
      OrdinalInRange(axes[1..], b[1..]);
      CellOrder(a[0], Ordinal(axes[1..], a[1..]), b[0], Ordinal(axes[1..], b[1..]), Size(axes[1..]));
    }
  }

  /** Tuple `r` of the block that belongs to value `q`. */
  lemma {:induction false} JoinedAt(values: seq<Value>, tails: seq<seq<Value>>, q: nat, r: nat)
    requires q < |values| && r < |tails|
    ensures q * |tails| + r < |Joined(values, tails)|
    ensures Joined(values, tails)[q * |tails| + r] == [values[q]] + tails[r]
    decreases |values|
  {
    JoinedLength(values, tails);
    CellBelow(q, |values|, |tails|, r);
    if q > 0 {
      JoinedAt(values[1..], tails, q - 1, r);
      assert q * |tails| + r == |tails| + ((q - 1) * |tails| + r);
    }
  }

  lemma {:induction false} JoinedLength(values: seq<Value>, tails: seq<seq<Value>>)
    ensures |Joined(values, tails)| == |values| * |tails|
  {
    if values != [] {
      JoinedLength(values[1..], tails);
      assert |values| * |tails| == |tails| + |values[1..]| * |tails|;
    }
  }

  /** The product has as many tuples as its size says. */
  lemma {:induction false} ProductLength(axes: Axes)
    ensures |Product(axes)| == Size(axes)
  {
    if axes != [] {
      ProductLength(axes[1..]);
      JoinedLength(axes[0], Product(axes[1..]));
    }
  }

  /** Position `ordinal` of the product holds the values of the choice with that ordinal. */
  lemma {:induction false} ProductAt(axes: Axes, ordinal: nat)
    requires ordinal < Size(axes)
    ensures |Product(axes)| == Size(axes)
    ensures Product(axes)[ordinal] == Pick(axes, Choice(axes, ordinal))
  {
    ProductLength(axes);
    if axes != [] {
      var digit, rest := ChoiceUnfolds(axes, ordinal);
      ProductLength(axes[1..]);
      JoinedAt(axes[0], Product(axes[1..]), digit, rest);
      ProductAt(axes[1..], rest);
      PickUnfolds(axes, digit, Choice(axes[1..], rest));
    }
  }

  lemma {:induction false} PickUnfolds(axes: Axes, digit: nat, ds: seq<nat>)
    requires axes != [] && digit < |axes[0]| && IsChoice(axes[1..], ds)
    ensures IsChoice(axes, [digit] + ds) && Pick(axes, [digit] + ds) == [axes[0][digit]] + Pick(axes[1..], ds)
  {
    assert forall i :: 0 < i < |axes| ==> axes[i] == axes[1..][i - 1];
  }

  // ---- Counting the product ----

  /** The checked fold over the axis lengths. */
  function FoldLen(axes: Axes, total: nat): Result<nat, Error> {
    if axes == [] then Ok(total)
    else if total * |axes[0]| > USIZE_MAX then Err(ExpansionOverflow)
    else FoldLen(axes[1..], total * |axes[0]|)
  }

  function ExpansionLen(axes: Axes): Result<nat, Error> {
    if exists i :: 0 <= i < |axes| && axes[i] == [] then Ok(0) else FoldLen(axes, 1)
  }

  lemma {:induction false} SizePositive(axes: Axes)
    ensures Size(axes) > 0 <==> NoneEmpty(axes)
  {
    if axes != [] {
      SizePositive(axes[1..]);
      assert NoneEmpty(axes) <==> axes[0] != [] && NoneEmpty(axes[1..]) by {
        if axes[0] != [] && NoneEmpty(axes[1..]) {
          forall i | 0 <= i < |axes| ensures axes[i] != [] {
            assert i > 0 ==> axes[i] == axes[1..][i - 1];
          }
        }
        if NoneEmpty(axes) {
          assert forall i :: 0 <= i < |axes[1..]| ==> axes[1..][i] == axes[i + 1];
        }
      }
      if Size(axes[1..]) > 0 && |axes[0]| > 0 {
        Grows(1, |axes[0]|, Size(axes[1..]));
      }
    }
  }

  lemma {:induction false} FoldLenIs(axes: Axes, total: nat)
    requires NoneEmpty(axes) && 0 < total <= USIZE_MAX
    ensures FoldLen(axes, total)
         == if total * Size(axes) <= USIZE_MAX then Ok(total * Size(axes)) else Err(ExpansionOverflow)
  {
    if axes != [] {
      var rest := axes[1..];
      SizePositive(axes);
      assert NoneEmpty(rest) by {
        assert forall i :: 0 <= i < |rest| ==> rest[i] == axes[i + 1];
      }
      SizePositive(rest);
      var next := total * |axes[0]|;
      assert next * Size(rest) == total * Size(axes);
      Grows(1, Size(rest), next);
      Grows(1, |axes[0]|, total);
      if next <= USIZE_MAX {
        FoldLenIs(rest, next);
      }
    }
  }

  /** The count is the size of the product; it overflows exactly when that is too large to say. */
  lemma {:induction false} ExpansionLenIsSize(axes: Axes)
    ensures ExpansionLen(axes) == if Size(axes) <= USIZE_MAX then Ok(Size(axes)) else Err(ExpansionOverflow)
  {
    SizePositive(axes);
    if NoneEmpty(axes) {
      FoldLenIs(axes, 1);
    }
  }

  // ---- The enumeration ----

  /** The loop of one ordinal: a shrinking stride picks a value from every axis. */
  method TupleAt(axes: Axes, total: nat, ordinal: nat) returns (tuple: seq<Value>)
    requires total == Size(axes) && ordinal < total
    ensures tuple == Pick(axes, Choice(axes, ordinal))
  {
    var stride := total;
    tuple := [];
    ghost var ds: seq<nat> := [];
    ghost var below := ordinal;
    Departs(axes, ordinal);
    for k := 0 to |axes|
      invariant OnCourse(axes, ordinal, ds, k, below)
      invariant stride == Size(axes[k..]) && below == ordinal % stride
      invariant Picked(axes, ds, tuple, k)
    {
      var digit;
      stride, digit, below := NextDigit(axes, ordinal, ds, k, stride, below);
      tuple := tuple + [axes[k][digit]];
      ds := ds + [digit];
    }
    Arrives(axes, ordinal, ds, tuple, below);
  }

  lemma {:induction false} Departs(axes: Axes, ordinal: nat)
    requires ordinal < Size(axes)
    ensures axes[0..] == axes && OnCourse(axes, ordinal, [], 0, ordinal) && ordinal == ordinal % Size(axes)
  {
    assert axes[0..] == axes;
    Quotient(ordinal, Size(axes), 0, ordinal);
  }

  lemma {:induction false} Arrives(axes: Axes, ordinal: nat, ds: seq<nat>, tuple: seq<Value>, below: nat)
    requires ordinal < Size(axes) && OnCourse(axes, ordinal, ds, |axes|, below) && Picked(axes, ds, tuple, |axes|)
    ensures tuple == Pick(axes, Choice(axes, ordinal))
  {
    assert Choice(axes, ordinal) == ds;
  }

  /** The digits so far begin the choice, and what lies below the stride gives the others. */
  ghost predicate OnCourse(axes: Axes, ordinal: nat, ds: seq<nat>, k: nat, below: nat)
    requires k <= |axes| && ordinal < Size(axes)
  {
    below < Size(axes[k..]) && Choice(axes, ordinal) == ds + Choice(axes[k..], below)
  }

  method NextDigit(axes: Axes, ordinal: nat, ghost ds: seq<nat>, k: nat, stride: nat, ghost below: nat)
    returns (next: nat, digit: nat, ghost rest: nat)
    requires k < |axes| && ordinal < Size(axes) && OnCourse(axes, ordinal, ds, k, below)
    requires stride == Size(axes[k..]) && below == ordinal % stride
    ensures digit < |axes[k]| && OnCourse(axes, ordinal, ds + [digit], k + 1, rest)
    ensures next == Size(axes[k + 1..]) > 0 && rest == ordinal % next
  {
    StrideDivides(axes, k);
    next := stride / |axes[k]|;
    digit := (ordinal / next) % |axes[k]|;
    ghost var first;
    first, rest := StaysOnCourse(axes, ordinal, ds, k, below);
    DigitsAgree(ordinal, |axes[k]|, next, stride, first, rest);
  }

  lemma {:induction false} StaysOnCourse(axes: Axes, ordinal: nat, ds: seq<nat>, k: nat, below: nat)
    returns (digit: nat, rest: nat)
    requires k < |axes| && ordinal < Size(axes) && OnCourse(axes, ordinal, ds, k, below)
    ensures digit < |axes[k]| && rest < Size(axes[k + 1..]) && below == digit * Size(axes[k + 1..]) + rest
    ensures OnCourse(axes, ordinal, ds + [digit], k + 1, rest)
  {
    assert axes[k..][1..] == axes[k + 1..];
    digit, rest := ChoiceUnfolds(axes[k..], below);
    assert ds + ([digit] + Choice(axes[k + 1..], rest)) == ds + [digit] + Choice(axes[k + 1..], rest);
  }

  lemma {:induction false} DigitsAgree(ordinal: nat, length: nat, next: nat, stride: nat, first: nat, second: nat)
    requires 0 < length && 0 < next && stride == length * next && 0 < stride
    requires second < next && ordinal % stride == first * next + second
    ensures first == (ordinal / next) % length && second == ordinal % next
  {
    TwoDigits(ordinal, length, next, stride);
    Quotient(ordinal % stride, next, first, second);
  }

  lemma {:induction false} StrideDivides(axes: Axes, k: nat)
    requires k < |axes| && Size(axes[k..]) > 0
    ensures axes[k..][1..] == axes[k + 1..] && axes[k..][0] == axes[k]
    ensures |axes[k]| > 0 && Size(axes[k + 1..]) > 0 && Size(axes[k..]) == |axes[k]| * Size(axes[k + 1..])
    ensures Size(axes[k..]) / |axes[k]| == Size(axes[k + 1..])
  {
    assert axes[k..][1..] == axes[k + 1..];
    Quotient(Size(axes[k..]), |axes[k]|, Size(axes[k + 1..]), 0);
  }

  ghost predicate Picked(axes: Axes, ds: seq<nat>, tuple: seq<Value>, k: nat)
    requires k <= |axes|
  {
    && |ds| == |tuple| == k
    && forall i :: 0 <= i < k ==> ds[i] < |axes[i]| && tuple[i] == axes[i][ds[i]]
  }

  /**
    `expand`: the packets' value tuples are the Cartesian product, in order and each choice once;
    `validation` is the answer of the checks on the axes' layers and fields, asked only if needed.
   */
  method Expand(axes: Axes, maximum: nat, validation: Result<(), Error>) returns (r: Result<seq<seq<Value>>, Error>)
    requires maximum <= USIZE_MAX
    ensures r.Ok? <==> Size(axes) <= maximum && (NoneEmpty(axes) ==> validation.Ok?)
    ensures r.Ok? ==> r.value == Product(axes)
    ensures Size(axes) > USIZE_MAX ==> r == Err(ExpansionOverflow)
    ensures maximum < Size(axes) <= USIZE_MAX ==> r == Err(ExpansionLimit(Size(axes), maximum))
  {
    ExpansionLenIsSize(axes);
    SizePositive(axes);
    var counted := ExpansionLen(axes);
    if counted.Err? {
      return Err(counted.error);
    }
    var total := counted.value;
    if total > maximum {
      return Err(ExpansionLimit(total, maximum));
    }
    if total != 0 && validation.Err? {
      return Err(validation.error);
    }
    var tuples: seq<seq<Value>> := [];
    ProductLength(axes);
    for ordinal := 0 to total
      invariant |tuples| == ordinal && tuples == Product(axes)[..ordinal]
    {
      ProductAt(axes, ordinal);
      var tuple := TupleAt(axes, total, ordinal);
      tuples := tuples + [tuple];
    }
    r := Ok(tuples);
  }

  // ---- The command line's axes ----

  /** One axis argument once its text has been read: refused, a list of values, or a range. */
  datatype Source = Malformed | List(values: seq<Value>) | Range(range: NumericRange)

  predicate SourceOk(s: Source) {
    match s
    case Malformed => false
    case List(values) => values != []
    case Range(range) => range.Valid()
  }

  function SourceValues(s: Source): seq<Value>
    requires SourceOk(s)
  {
    match s
    case List(values) => values
    case Range(range) => range.Values()
  }

  ghost predicate SourcesOk(sources: seq<Source>) {
    forall i :: 0 <= i < |sources| ==> SourceOk(sources[i])
  }

  ghost function AxesOf(sources: seq<Source>): Axes
    requires SourcesOk(sources)
  {
    seq(|sources|, i requires 0 <= i < |sources| => SourceValues(sources[i]))
  }

  /** How many values an axis has, known before any value of a range is made. */
  function SourceLen(s: Source): (n: nat)
    requires SourceOk(s)
    ensures n == |SourceValues(s)| > 0
  {
    match s
    case List(values) => |values|
    case Range(range) => RangeIsExact(range); range.Len()
  }

  lemma {:induction false} SizeExtended(axes: Axes, axis: seq<Value>)
    ensures Size(axes + [axis]) == Size(axes) * |axis|
  {
    if axes == [] {
      assert ([] + [axis])[1..] == [];
    } else {
      SizeExtended(axes[1..], axis);
      assert (axes + [axis])[1..] == axes[1..] + [axis];
      assert |axes[0]| * (Size(axes[1..]) * |axis|) == Size(axes) * |axis|;
    }
  }

  lemma {:induction false} PrefixIsSmaller(axes: Axes, k: nat)
    requires k <= |axes| && NoneEmpty(axes)
    ensures Size(axes[..k]) <= Size(axes)
    decreases |axes| - k
  {
    if k == |axes| {
      assert axes[..k] == axes;
    } else {
      PrefixIsSmaller(axes, k + 1);
      assert axes[..k + 1] == axes[..k] + [axes[k]];
      SizeExtended(axes[..k], axes[k]);
      Grows(1, |axes[k]|, Size(axes[..k]));
    }
  }

  ghost predicate Accepted(sources: seq<Source>, maximum: nat) {
    0 < maximum && SourcesOk(sources) && Size(AxesOf(sources)) <= maximum
  }

  lemma {:induction false} TooLargeAlready(sources: seq<Source>, k: nat, axes: Axes, maximum: nat)
    requires k <= |sources| && SourcesOk(sources[..k]) && axes == AxesOf(sources[..k]) && Size(axes) > maximum
    ensures !Accepted(sources, maximum)
  {
    if Accepted(sources, maximum) {
      var all := AxesOf(sources);
      assert NoneEmpty(all) by {
        forall i | 0 <= i < |all| ensures all[i] != [] {
          assert SourceLen(sources[i]) > 0;
        }
      }
      assert all[..k] == axes;
      PrefixIsSmaller(all, k);
    }
  }

  lemma {:induction false} AxesExtended(sources: seq<Source>, k: nat)
    requires k < |sources| && SourcesOk(sources[..k]) && SourceOk(sources[k])
    ensures SourcesOk(sources[..k + 1])
    ensures AxesOf(sources[..k + 1]) == AxesOf(sources[..k]) + [SourceValues(sources[k])]
    ensures Size(AxesOf(sources[..k + 1])) == Size(AxesOf(sources[..k])) * SourceLen(sources[k])
    ensures Size(AxesOf(sources[..k + 1])) >= SourceLen(sources[k])
  {
    var axes, longer := AxesOf(sources[..k]), sources[..k + 1];
    assert longer == sources[..k] + [sources[k]];
    SizeExtended(axes, SourceValues(sources[k]));
    SizePositive(axes);
    assert NoneEmpty(axes) by {
      forall i | 0 <= i < |axes| ensures axes[i] != [] {
        assert SourceOk(sources[..k][i]) && SourceLen(sources[i]) > 0;
      }
    }
    Grows(1, Size(axes), SourceLen(sources[k]));
  }

  /** `parse`: the running product accepts exactly the axis lists whose full product fits the ceiling. */
  method ParseAxes(sources: seq<Source>, maximum: nat) returns (r: Result<Axes, Error>)
    requires maximum <= USIZE_MAX
    ensures r.Ok? <==> Accepted(sources, maximum)
    ensures r.Ok? ==> r.value == AxesOf(sources)
  {
    if maximum == 0 {
      return Err(Usage);
    }
    var axes: Axes := [];
    var count := 1;
    for k := 0 to |sources|
      invariant SourcesOk(sources[..k]) && axes == AxesOf(sources[..k])
      invariant count == Size(axes) <= maximum
    {
      if !SourceOk(sources[k]) {
        return Err(Usage);
      }
      var length := SourceLen(sources[k]);
      AxesExtended(sources, k);
      axes := axes + [SourceValues(sources[k])];
      if length > USIZE_MAX || count * length > USIZE_MAX {
        TooLargeAlready(sources, k + 1, axes, maximum);
        return Err(ExpansionOverflow);
      }
      count := count * length;
      if count > maximum {
        TooLargeAlready(sources, k + 1, axes, maximum);
        return Err(ExpansionLimit(count, maximum));
      }
    }
    assert sources[..|sources|] == sources;
    r := Ok(axes);
  }

  /** Axes the parser accepted are never refused by `expand` under the same ceiling for their number. */
  method ParseThenExpand(sources: seq<Source>, maximum: nat) returns (parsed: bool, r: Result<seq<seq<Value>>, Error>)
    requires maximum <= USIZE_MAX
    ensures parsed <==> Accepted(sources, maximum)
    ensures parsed ==> r.Ok? && r.value == Product(AxesOf(sources)) && 0 < |r.value| <= maximum
  {
    var axes := ParseAxes(sources, maximum);
    if axes.Err? {
      return false, Err(axes.error);
    }
    r := Expand(axes.value, maximum, Ok(()));
    ProductLength(axes.value);
    SizePositive(axes.value);
    assert NoneEmpty(axes.value) by {
      forall i | 0 <= i < |axes.value| ensures axes.value[i] != [] {
        assert SourceLen(sources[i]) > 0;
      }
    }
    parsed := true;
  }
}
