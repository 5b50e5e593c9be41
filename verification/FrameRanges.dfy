/**
  Positional frame selection, crates/packetcraftr-cli/src/command_options/frame_ranges.rs: the parser
  of `--frames`, the merge of its ranges and the lookup of a position. The argument is modelled as its
  bytes, one character each, because its length limit counts bytes.
 */
module FrameRanges {
  import opened Wrappers
  import opened Decimal

  const U64_MAX: nat := 0xFFFF_FFFF_FFFF_FFFF
  const MAX_RANGES: nat := 256
  const MAX_ARGUMENT_BYTES: nat := 4096

  datatype Range = Range(start: nat, end: nat)

  datatype SelectionError = TooLong | TooMany | NotAPosition | ZeroPosition | TooLarge | Reversed | ZeroStride

  datatype FrameSelection = FrameSelection(ranges: Option<seq<Range>>, every: Option<nat>)

  // ---- What a list of ranges means ----

  ghost predicate Within(r: Range, p: nat) {
    r.start <= p <= r.end
  }

  ghost predicate Covers(rs: seq<Range>, p: nat) {
    exists i :: 0 <= i < |rs| && Within(rs[i], p)
  }

  ghost predicate InBounds(rs: seq<Range>) {
    forall i :: 0 <= i < |rs| ==> 1 <= rs[i].start <= rs[i].end <= U64_MAX
  }

  /** Sorted, disjoint and not even adjacent. */
  ghost predicate Normal(rs: seq<Range>) {
    && InBounds(rs)
    && forall i, j :: 0 <= i < j < |rs| ==> rs[i].end + 1 < rs[j].start
  }

  // ---- Parsing one item ----

  function ParsePosition(digits: string): (r: Result<nat, SelectionError>)
    ensures r.Ok? <==> digits != [] && AllDigits(digits) && 1 <= Number(digits) <= U64_MAX
    ensures r.Ok? ==> r.value == Number(digits)
    ensures r == Err(NotAPosition) <==> digits == [] || !AllDigits(digits)
    ensures r == Err(ZeroPosition) <==> digits != [] && AllDigits(digits) && Number(digits) == 0
    ensures r == Err(TooLarge) <==> digits != [] && AllDigits(digits) && Number(digits) > U64_MAX
  {
    if digits == [] || !AllDigits(digits) then Err(NotAPosition)
    else if Number(digits) > U64_MAX then Err(TooLarge)
    else if Number(digits) == 0 then Err(ZeroPosition)
    else Ok(Number(digits))
  }

  function ParseItem(item: string): (r: Result<Range, SelectionError>)
    ensures r.Ok? ==> 1 <= r.value.start <= r.value.end <= U64_MAX
    ensures r.Err? ==> r.error in {NotAPosition, ZeroPosition, TooLarge, Reversed}
  {
    var at := Find(item, '-');
    if at == |item| then
      var single := ParsePosition(item);
      if single.Err? then Err(single.error) else Ok(Range(single.value, single.value))
    else
      var start := ParsePosition(item[..at]);
      if start.Err? then Err(start.error)
      else if at + 1 == |item| then Ok(Range(start.value, U64_MAX))
      else
        var end := ParsePosition(item[at + 1..]);
        if end.Err? then Err(end.error)
        else if end.value < start.value then Err(Reversed)
        else Ok(Range(start.value, end.value))
  }

  /** The three written forms of an item mean one position, a closed range and an open one. */
  lemma {:induction false} ItemForms(n: nat, m: nat)
    requires 1 <= n <= U64_MAX && 1 <= m <= U64_MAX
    ensures ParseItem(Show(n)) == Ok(Range(n, n))
    ensures ParseItem(Show(n) + "-") == Ok(Range(n, U64_MAX))
    ensures ParseItem(Show(n) + "-" + Show(m)) == if n <= m then Ok(Range(n, m)) else Err(Reversed)
  {
    NumberOfShow(n);
    NumberOfShow(m);
    FindAfterDigits(Show(n), "");
    FindAfterDigits(Show(n), Show(m));
    assert '-' !in Show(n);
    assert Show(n) + "-" + "" == Show(n) + "-";
  }

  ghost predicate IsPosition(text: string, n: nat) {
    text != [] && AllDigits(text) && Number(text) == n && 1 <= n <= U64_MAX
  }

  /** The text means this range: one position, an open range, or a closed one. */
  ghost predicate IsItem(item: string, r: Range) {
    || (IsPosition(item, r.start) && r.end == r.start)
    || (exists at :: 0 <= at < |item| && item[at] == '-' && IsPosition(item[..at], r.start)
                     && if at + 1 == |item| then r.end == U64_MAX
                        else IsPosition(item[at + 1..], r.end) && r.start <= r.end)
  }

  /** For any text: it is read as a range exactly when it is one of the three forms of that range. */
  lemma {:induction false} ItemExactly(item: string, r: Range)
    ensures ParseItem(item) == Ok(r) <==> IsItem(item, r)
  {
    var at := Find(item, '-');
    assert item[..|item|] == item;
    forall k | 0 <= k < |item| && item[k] == '-' && AllDigits(item[..k]) ensures k == at {
      assert forall i :: 0 <= i < k ==> item[i] == item[..k][i];
      assert forall i :: 0 <= i < at ==> item[i] == item[..at][i];
    }
    assert at < |item| ==> !AllDigits(item);
  }

  /** One of the numbers written in the item. */
  ghost predicate IsBound(item: string, text: string) {
    var at := Find(item, '-');
    text == item[..at] || (at + 1 < |item| && text == item[at + 1..])
  }

  ghost predicate IsReversedAt(item: string, at: nat) {
    && at < |item| && item[at] == '-' && AllDigits(item[..at]) && AllDigits(item[at + 1..])
    && 1 <= Number(item[at + 1..]) < Number(item[..at]) <= U64_MAX
  }

  /** The error of an item that is not read is one that some bound, or the order of the two, has. */
  lemma {:induction false} ItemErrorHolds(item: string)
    requires ParseItem(item).Err?
    ensures ParseItem(item).error.Reversed?
         || exists text :: IsBound(item, text) && ParsePosition(text) == Err(ParseItem(item).error)
    ensures ParseItem(item).error.Reversed? ==> exists at :: IsReversedAt(item, at)
  {
    var at := Find(item, '-');
    assert item[..|item|] == item;
    assert IsBound(item, item[..at]);
    if at + 1 < |item| {
      assert IsBound(item, item[at + 1..]);
      if ParseItem(item).error.Reversed? {
        assert IsReversedAt(item, at);
      }
    }
  }

  lemma {:induction false} FindAfterDigits(digits: string, rest: string)
    requires AllDigits(digits)
    ensures Find(digits + "-" + rest, '-') == |digits|
    ensures (digits + "-" + rest)[..|digits|] == digits && (digits + "-" + rest)[|digits| + 1..] == rest
  {
    var text := digits + "-" + rest;
    var at := Find(text, '-');
    assert text[|digits|] == '-';
    assert forall i :: 0 <= i < |digits| ==> text[i] != '-';
    assert forall i :: 0 <= i < at ==> text[..at][i] != '-';
  }

  // ---- Sorting and merging ----

  predicate NotAfter(a: Range, b: Range) {
    a.start < b.start || (a.start == b.start && a.end <= b.end)
  }

  ghost predicate Sorted(rs: seq<Range>) {
    forall i, j :: 0 <= i < j < |rs| ==> NotAfter(rs[i], rs[j])
  }

  function Insert(rs: seq<Range>, r: Range): seq<Range> {
    if rs == [] || NotAfter(r, rs[0]) then [r] + rs else [rs[0]] + Insert(rs[1..], r)
  }

  function Sort(rs: seq<Range>): seq<Range> {
    if rs == [] then [] else Insert(Sort(rs[1..]), rs[0])
  }

  lemma {:induction false} InsertKeeps(rs: seq<Range>, r: Range)
    ensures multiset(Insert(rs, r)) == multiset(rs) + multiset{r}
  {
    if rs != [] && !NotAfter(r, rs[0]) {
      InsertKeeps(rs[1..], r);
      assert rs == [rs[0]] + rs[1..];
    }
  }

  /** The smallest range stays in front of what is inserted behind it. */
  lemma {:induction false} InsertBehind(first: Range, rs: seq<Range>, r: Range)
    requires NotAfter(first, r) && forall i :: 0 <= i < |rs| ==> NotAfter(first, rs[i])
    ensures forall i :: 0 <= i < |Insert(rs, r)| ==> NotAfter(first, Insert(rs, r)[i])
  {
    if rs != [] && !NotAfter(r, rs[0]) {
      InsertBehind(first, rs[1..], r);
    }
  }

  lemma {:induction false} InsertSorts(rs: seq<Range>, r: Range)
    requires Sorted(rs)
    ensures Sorted(Insert(rs, r))
  {
    if rs != [] && !NotAfter(r, rs[0]) {
      InsertSorts(rs[1..], r);
      InsertBehind(rs[0], rs[1..], r);
    }
  }

  lemma {:induction false} SortSorts(rs: seq<Range>)
    ensures Sorted(Sort(rs)) && multiset(Sort(rs)) == multiset(rs)
  {
    if rs != [] {
      SortSorts(rs[1..]);
      InsertSorts(Sort(rs[1..]), rs[0]);
      InsertKeeps(Sort(rs[1..]), rs[0]);
      assert rs == [rs[0]] + rs[1..];
    }
  }

  lemma {:induction false} SameRangesSameCover(a: seq<Range>, b: seq<Range>, p: nat)
    requires multiset(a) == multiset(b) && Covers(a, p)
    ensures Covers(b, p)
  {
    var i :| 0 <= i < |a| && Within(a[i], p);
    assert a[i] in multiset(b);
    var j :| 0 <= j < |b| && b[j] == a[i];
    assert Within(b[j], p);
  }

  lemma {:induction false} SortKeeps(rs: seq<Range>)
    requires InBounds(rs)
    ensures Sorted(Sort(rs)) && InBounds(Sort(rs))
    ensures forall p :: Covers(Sort(rs), p) <==> Covers(rs, p)
  {
    SortSorts(rs);
    var sorted := Sort(rs);
    forall i | 0 <= i < |sorted| ensures 1 <= sorted[i].start <= sorted[i].end <= U64_MAX {
      assert sorted[i] in multiset(rs);
      var j :| 0 <= j < |rs| && rs[j] == sorted[i];
    }
    forall p ensures Covers(sorted, p) <==> Covers(rs, p) {
      if Covers(sorted, p) { SameRangesSameCover(sorted, rs, p); }
      if Covers(rs, p) { SameRangesSameCover(rs, sorted, p); }
    }
  }

  /** The saturating successor of a position. */
  function Successor(p: nat): nat {
    if p == U64_MAX then U64_MAX else p + 1
  }

  function Widened(last: Range, r: Range): Range {
    last.(end := if last.end <= r.end then r.end else last.end)
  }

  /** Merged so far: normal, the same positions, and nothing that the ranges to come start before. */
  ghost predicate MergedUpTo(merged: seq<Range>, rs: seq<Range>, k: nat)
    requires k <= |rs|
  {
    && Normal(merged)
    && (forall p :: Covers(merged, p) <==> Covers(rs[..k], p))
    && (merged == [] <==> k == 0)
    && (k > 0 ==> merged[|merged| - 1].start <= rs[k - 1].start)
  }

  lemma {:induction false} CoversAppended(rs: seq<Range>, r: Range, p: nat)
    ensures Covers(rs + [r], p) <==> Covers(rs, p) || Within(r, p)
  {
    var longer := rs + [r];
    if Covers(rs, p) {
      var i :| 0 <= i < |rs| && Within(rs[i], p);
      assert Within(longer[i], p);
    }
    if Within(r, p) {
      assert Within(longer[|rs|], p);
    }
  }

  lemma {:induction false} PushKeeps(merged: seq<Range>, rs: seq<Range>, k: nat)
    requires k < |rs| && InBounds(rs) && MergedUpTo(merged, rs, k)
    requires merged == [] || merged[|merged| - 1].end + 1 < rs[k].start
    ensures MergedUpTo(merged + [rs[k]], rs, k + 1)
  {
    assert rs[..k + 1] == rs[..k] + [rs[k]];
    forall p ensures Covers(merged + [rs[k]], p) <==> Covers(rs[..k + 1], p) {
      CoversAppended(merged, rs[k], p);
      CoversAppended(rs[..k], rs[k], p);
    }
  }

  lemma {:induction false} WidenKeeps(merged: seq<Range>, rs: seq<Range>, k: nat, last: Range)
    requires k < |rs| && InBounds(rs) && Sorted(rs) && MergedUpTo(merged, rs, k) && k > 0
    requires var before := merged[|merged| - 1];
             rs[k].start <= before.end + 1 && last == Widened(before, rs[k])
    ensures MergedUpTo(merged[..|merged| - 1] + [last], rs, k + 1)
  {
    var front, before := merged[..|merged| - 1], merged[|merged| - 1];
    assert merged == front + [before];
    assert rs[..k + 1] == rs[..k] + [rs[k]];
    assert NotAfter(rs[k - 1], rs[k]);
    forall p ensures Covers(front + [last], p) <==> Covers(rs[..k + 1], p) {
      CoversAppended(front, before, p);
      CoversAppended(front, last, p);
      CoversAppended(rs[..k], rs[k], p);
    }
  }

  /** The merge loop: the last range is widened in place or a new one is pushed. */
  method Merge(rs: seq<Range>) returns (merged: seq<Range>)
    requires InBounds(rs) && Sorted(rs)
    ensures Normal(merged)
    ensures forall p :: Covers(merged, p) <==> Covers(rs, p)
  {
    merged := [];
    for k := 0 to |rs|
      invariant MergedUpTo(merged, rs, k)
    {
      var r := rs[k];
      if merged != [] && r.start <= Successor(merged[|merged| - 1].end) {
        var widened := Widened(merged[|merged| - 1], r);
        WidenKeeps(merged, rs, k, widened);
        merged := merged[..|merged| - 1] + [widened];
      } else {
        PushKeeps(merged, rs, k);
        merged := merged + [r];
      }
    }
    assert rs[..|rs|] == rs;
  }

  // ---- Normal lists are canonical ----

  lemma {:induction false} NormalTail(a: seq<Range>)
    requires Normal(a) && a != []
    ensures Normal(a[1..])
    ensures forall p :: Covers(a[1..], p) <==> Covers(a, p) && a[0].end < p
  {
    forall p ensures Covers(a[1..], p) <==> Covers(a, p) && a[0].end < p {
      if Covers(a[1..], p) {
        var i :| 0 <= i < |a[1..]| && Within(a[1..][i], p);
        assert Within(a[i + 1], p) && a[0].end + 1 < a[i + 1].start;
      }
      if Covers(a, p) && a[0].end < p {
        var i :| 0 <= i < |a| && Within(a[i], p);
        assert Within(a[1..][i - 1], p);
      }
    }
  }

  /** Where a normal list begins and where its first stretch stops can be read off its positions. */
  lemma {:induction false} FirstIsDetermined(a: seq<Range>, p: nat)
    requires Normal(a) && a != []
    ensures Covers(a, a[0].start) && Covers(a, a[0].end) && !Covers(a, a[0].end + 1)
    ensures p < a[0].start ==> !Covers(a, p)
    ensures Within(a[0], p) ==> Covers(a, p)
  {
    assert Within(a[0], a[0].start) && Within(a[0], a[0].end);
    NormalTail(a);
    if Covers(a, p) {
      var i :| 0 <= i < |a| && Within(a[i], p);
      assert i > 0 ==> a[0].end + 1 < a[i].start;
    }
  }

  lemma {:induction false} NormalIsCanonical(a: seq<Range>, b: seq<Range>)
    requires Normal(a) && Normal(b) && forall p :: Covers(a, p) <==> Covers(b, p)
    ensures a == b
    decreases |a|
  {
    if a == [] {
      if b != [] {
        FirstIsDetermined(b, b[0].start);
      }
    } else if b == [] {
      FirstIsDetermined(a, a[0].start);
    } else {
      FirstIsDetermined(a, b[0].start);
      FirstIsDetermined(b, a[0].start);
      assert a[0].start == b[0].start;
      FirstIsDetermined(a, b[0].end + 1);
      FirstIsDetermined(b, a[0].end + 1);
      assert a[0] == b[0];
      NormalTail(a);
      NormalTail(b);
      NormalIsCanonical(a[1..], b[1..]);
      assert a == [a[0]] + a[1..] && b == [b[0]] + b[1..];
    }
  }

  // ---- Parsing the argument ----

  /** The items of an argument: its comma-free pieces, of which it is the join. */
  ghost function Items(argument: string): (items: seq<string>)
    ensures ArePieces(items, argument, ',')
  {
    SplitGivesPieces(argument, ',');
    Split(argument, ',')
  }

  ghost predicate AllItemsOk(items: seq<string>) {
    forall i :: 0 <= i < |items| ==> ParseItem(items[i]).Ok?
  }

  ghost function ItemRanges(items: seq<string>): (rs: seq<Range>)
    requires AllItemsOk(items)
    ensures |rs| == |items| && InBounds(rs)
  {
    seq(|items|, i requires 0 <= i < |items| => ParseItem(items[i]).value)
  }

  ghost predicate Parses(argument: string) {
    |argument| <= MAX_ARGUMENT_BYTES && |Items(argument)| <= MAX_RANGES && AllItemsOk(Items(argument))
  }

  /** The argument is too long, or has too many items, or its first bad item is refused with the error. */
  ghost predicate RefusedRanges(argument: string, error: SelectionError) {
    if |argument| > MAX_ARGUMENT_BYTES then error == TooLong
    else
      var items := Items(argument);
      || (error == TooMany && |items| > MAX_RANGES && AllItemsOk(items[..MAX_RANGES]))
      || exists i :: 0 <= i < |items| && i < MAX_RANGES && AllItemsOk(items[..i]) && ParseItem(items[i]) == Err(error)
  }

  /** Accepts exactly the arguments within the bounds whose items all parse, and keeps their union. */
  method ParseRanges(argument: string) returns (r: Result<seq<Range>, SelectionError>)
    ensures r.Ok? <==> Parses(argument)
    ensures r.Err? ==> RefusedRanges(argument, r.error)
    ensures r.Ok? ==> Normal(r.value) && forall p :: Covers(r.value, p) <==> Covers(ItemRanges(Items(argument)), p)
  {
    if |argument| > MAX_ARGUMENT_BYTES {
      return Err(TooLong);
    }
    var items := Split(argument, ',');
    var ranges: seq<Range> := [];
    for i := 0 to |items|
      invariant i <= MAX_RANGES && AllItemsOk(items[..i]) && ranges == ItemRanges(items[..i])
    {
      if |ranges| == MAX_RANGES {
        return Err(TooMany);
      }
      var item := ParseItem(items[i]);
      if item.Err? {
        return Err(item.error);
      }
      ranges := ranges + [item.value];
      assert items[..i + 1] == items[..i] + [items[i]];
    }
    assert items[..|items|] == items;
    SortKeeps(ranges);
    var merged := Merge(Sort(ranges));
    r := Ok(merged);
  }

  /** Cut in any way into comma-free pieces, an argument has these items and no others. */
  lemma {:induction false} ItemsAreThePieces(argument: string, pieces: seq<string>)
    ensures ArePieces(pieces, argument, ',') <==> pieces == Items(argument)
  {
    SplitExactly(pieces, argument, ',');
  }

  // ---- Looking a position up ----

  ghost predicate Valid(s: FrameSelection) {
    && (s.ranges.Some? ==> Normal(s.ranges.value))
    && (s.every.Some? ==> 1 <= s.every.value <= U64_MAX)
  }

  /** Binary search for the first range that does not end before the position. */
  method PartitionPoint(rs: seq<Range>, p: nat) returns (at: nat)
    requires Normal(rs)
    ensures at <= |rs|
    ensures forall i :: 0 <= i < at ==> rs[i].end < p
    ensures forall i :: at <= i < |rs| ==> p <= rs[i].end
  {
    var low, high := 0, |rs|;
    while low < high
      invariant low <= high <= |rs|
      invariant forall i :: 0 <= i < low ==> rs[i].end < p
      invariant forall i :: high <= i < |rs| ==> p <= rs[i].end
    {
      var middle := (low + high) / 2;
      if rs[middle].end < p {
        low := middle + 1;
      } else {
        high := middle;
      }
    }
    at := low;
  }

  /** The positions a selection means to keep. */
  ghost predicate Selected(s: FrameSelection, p: nat)
    requires Valid(s)
  {
    && 1 <= p
    && (s.ranges.Some? ==> Covers(s.ranges.value, p))
    && (s.every.Some? ==> (p - 1) % s.every.value == 0)
  }

  method Keeps(s: FrameSelection, p: nat) returns (keeps: bool)
    requires Valid(s) && p <= U64_MAX
    ensures keeps <==> Selected(s, p)
  {
    if p == 0 {
      return false;
    }
    if s.ranges.Some? {
      var rs := s.ranges.value;
      var after := PartitionPoint(rs, p);
      var found := after < |rs| && rs[after].start <= p;
      assert found <==> Covers(rs, p) by {
        if found {
          assert Within(rs[after], p);
        }
        if Covers(rs, p) {
          var i :| 0 <= i < |rs| && Within(rs[i], p);
          assert after <= i;
        }
      }
      if !found {
        return false;
      }
    }
    keeps := s.every.None? || (p - 1) % s.every.value == 0;
  }

  predicate IsUnrestricted(s: FrameSelection) {
    && (s.ranges.None? || s.ranges.value == [Range(1, U64_MAX)])
    && (s.every.None? || s.every.value == 1)
  }

  /** The fast path is taken exactly when every position a frame can have is kept. */
  lemma {:induction false} UnrestrictedKeepsAll(s: FrameSelection)
    requires Valid(s)
    ensures IsUnrestricted(s) <==> forall p :: 1 <= p <= U64_MAX ==> Selected(s, p)
  {
    var all := [Range(1, U64_MAX)];
    forall p: nat ensures Covers(all, p) <==> 1 <= p <= U64_MAX {
      if 1 <= p <= U64_MAX {
        assert Within(all[0], p);
      }
    }
    if forall p :: 1 <= p <= U64_MAX ==> Selected(s, p) {
      if s.ranges.Some? {
        var rs := s.ranges.value;
        forall p: nat ensures Covers(rs, p) <==> Covers(all, p) {
          if 1 <= p <= U64_MAX {
            assert Selected(s, p);
          }
        }
        NormalIsCanonical(rs, all);
      }
      assert Selected(s, 2);
    }
  }

  /** `resolve`: what the two options select, from the text to each position. */
  method Resolve(frames: Option<string>, every: Option<nat>) returns (r: Result<FrameSelection, SelectionError>)
    requires every.Some? ==> every.value <= U64_MAX
    ensures r.Ok? <==> (frames.Some? ==> Parses(frames.value)) && every != Some(0)
    ensures frames.Some? && !Parses(frames.value) ==> r.Err? && RefusedRanges(frames.value, r.error)
    ensures (frames.Some? ==> Parses(frames.value)) && every == Some(0) ==> r == Err(ZeroStride)
    ensures r.Ok? ==> Valid(r.value) && forall p :: Selected(r.value, p) <==> Asked(frames, every, p)
  {
    var ranges: Option<seq<Range>> := None;
    if frames.Some? {
      var parsed := ParseRanges(frames.value);
      if parsed.Err? {
        return Err(parsed.error);
      }
      ranges := Some(parsed.value);
    }
    if every == Some(0) {
      return Err(ZeroStride);
    }
    r := Ok(FrameSelection(ranges, every));
  }

  /** A position is asked for when some item names it and it is on the stride. */
  ghost predicate Asked(frames: Option<string>, every: Option<nat>, p: nat)
    requires (frames.Some? ==> Parses(frames.value)) && every != Some(0)
  {
    && 1 <= p
    && (frames.Some? ==> Covers(ItemRanges(Items(frames.value)), p))
    && (every.Some? ==> (p - 1) % every.value == 0)
  }
}
