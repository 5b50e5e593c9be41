/**
  The report validation of the reference consumer, examples/consumers/forwarding.py: the census
  counters of `validate_report`, the retained evidence of `validate_details` and the evaluated checks
  of every match.
 */
module ForwardingReport {
  import opened Wrappers
  import opened ForwardingChecks

  const U64_MAX: int := 0xFFFF_FFFF_FFFF_FFFF
  const I64_LIMIT: int := 0x8000_0000_0000_0000
  const U32_LIMIT: int := 0x1_0000_0000
  const NANOS: int := 1_000_000_000

  datatype Side = Ingress | Egress

  datatype PerSide<T> = PerSide(ingress: T, egress: T) {
    function On(side: Side): T {
      match side
      case Ingress => ingress
      case Egress => egress
    }
  }

  type Key = seq<Operand>

  datatype Incompleteness = Complete | Truncated | FieldBudget | Unknown

  datatype Evidence = Evidence(
    frame: int, seconds: int, nanoseconds: int, linkType: int, interface: Option<int>,
    incomplete: Incompleteness)

  datatype Capture = Capture(read: int, selected: int, keyed: int, unkeyed: int, incomplete: int)

  datatype Match = Match(
    key: Key, evidence: PerSide<Evidence>, order: PerSide<int>, reordered: bool, checks: seq<Check>)

  datatype Unkeyed = Unkeyed(key: Key, evidence: Evidence)

  datatype Group = Group(key: Key, total: PerSide<int>, members: PerSide<seq<Evidence>>)

  datatype Violation = Violation(
    descriptor: Descriptor, egress: Evidence, ingress: Option<Evidence>, key: Option<Key>,
    actual: Operand, expected: Operand)

  datatype Summary = Summary(
    uniqueMatches: int, reorderedPairs: int, only: PerSide<int>,
    ambiguousGroups: int, ambiguousObservations: int,
    checksEvaluated: int, checksSatisfied: int, checksViolated: int, checksUnevaluable: int)

  datatype Omitted = Omitted(
    matches: int, violations: int, ambiguousGroups: int, groupMembers: int,
    unmatched: PerSide<int>, unkeyed: PerSide<int>)

  datatype Verdict = Pass | Fail | Inconclusive

  datatype Report = Report(
    verdict: Verdict, rules: Rules, captures: PerSide<Capture>, summary: Summary, omitted: Omitted,
    matches: seq<Match>, unmatched: PerSide<seq<Evidence>>, unkeyed: PerSide<seq<Unkeyed>>,
    ambiguous: seq<Group>, violations: seq<Violation>)

  predicate IsCounter(value: int) {
    0 <= value <= U64_MAX
  }

  // ---- Sequences without repetition ----

  ghost function Elements<T>(s: seq<T>): set<T> {
    set x | x in s
  }

  ghost predicate Distinct<T>(s: seq<T>) {
    forall i, j :: 0 <= i < j < |s| ==> s[i] != s[j]
  }

  /** No repetition within `s`, and nothing already in `seen`. */
  ghost predicate Fresh<T>(s: seq<T>, seen: set<T>) {
    Distinct(s) && forall x :: x in s ==> x !in seen
  }

  lemma {:induction false} FreshAppended<T>(s: seq<T>, x: T, seen: set<T>)
    ensures Fresh(s + [x], seen) <==> Fresh(s, seen) && x !in seen + Elements(s)
    ensures Elements(s + [x]) == Elements(s) + {x}
  {
    var t := s + [x];
    assert forall i :: 0 <= i < |s| ==> t[i] == s[i];
    assert t[|s|] == x;
    if Fresh(t, seen) {
      assert forall y :: y in s ==> y in t;
    }
  }

  lemma {:induction false} FreshJoined<T>(a: seq<T>, b: seq<T>, seen: set<T>)
    ensures Fresh(a + b, seen) <==> Fresh(a, seen) && Fresh(b, seen + Elements(a))
    ensures Elements(a + b) == Elements(a) + Elements(b)
  {
    var t := a + b;
    assert forall i :: 0 <= i < |a| ==> t[i] == a[i];
    assert forall i :: 0 <= i < |b| ==> t[|a| + i] == b[i];
    if Fresh(t, seen) {
      assert forall y :: y in a ==> y in t;
      assert forall y :: y in b ==> y in t;
      forall i, j | 0 <= i < j < |b| ensures b[i] != b[j] {
        assert t[|a| + i] != t[|a| + j];
      }
    }
    if Fresh(a, seen) && Fresh(b, seen + Elements(a)) {
      forall i, j | 0 <= i < j < |t| ensures t[i] != t[j] {
        if i < |a| <= j {
          assert t[i] in Elements(a) && t[j] in b;
        } else if |a| <= i {
          assert t[i] == b[i - |a|] && t[j] == b[j - |a|];
        }
      }
    }
  }

  // ---- One reference, one key ----

  predicate EvidenceOk(e: Evidence, capture: Capture) {
    && IsCounter(e.frame) && 1 <= e.frame <= capture.read
    && -I64_LIMIT <= e.seconds < I64_LIMIT
    && IsCounter(e.nanoseconds) && e.nanoseconds < NANOS
    && IsCounter(e.linkType) && e.linkType < U32_LIMIT
    && (e.interface.Some? ==> IsCounter(e.interface.value) && e.interface.value < U32_LIMIT)
    && !e.incomplete.Unknown?
  }

  predicate KeyOk(key: Key, width: nat, nullable: bool) {
    && |key| == width
    && forall i :: 0 <= i < |key| ==> key[i].Value? || (nullable && key[i].Null?)
  }

  /** `validate_evidence`. */
  method ValidateEvidence(e: Evidence, capture: Capture) returns (ok: bool)
    ensures ok <==> EvidenceOk(e, capture)
  {
    if !IsCounter(e.frame) || e.frame < 1 || e.frame > capture.read {
      return false;
    }
    if e.seconds < -I64_LIMIT || e.seconds >= I64_LIMIT || !IsCounter(e.nanoseconds) || e.nanoseconds >= NANOS {
      return false;
    }
    if !IsCounter(e.linkType) || e.linkType >= U32_LIMIT {
      return false;
    }
    if e.interface.Some? && (!IsCounter(e.interface.value) || e.interface.value >= U32_LIMIT) {
      return false;
    }
    ok := !e.incomplete.Unknown?;
  }

  /** `validate_key`. */
  method ValidateKey(key: Key, width: nat, nullable: bool) returns (ok: bool)
    ensures ok <==> KeyOk(key, width, nullable)
  {
    if |key| != width {
      return false;
    }
    for i := 0 to |key|
      invariant forall k :: 0 <= k < i ==> key[k].Value? || (nullable && key[k].Null?)
    {
      match key[i] {
        case Value(_) =>
        case Null =>
          if !nullable {
            return false;
          }
        case Malformed =>
          return false;
      }
    }
    ok := true;
  }

  predicate AllOk(entries: seq<Evidence>, capture: Capture) {
    forall i :: 0 <= i < |entries| ==> EvidenceOk(entries[i], capture)
  }

  function Frames(entries: seq<Evidence>): (frames: seq<int>)
    ensures |frames| == |entries|
  {
    seq(|entries|, i requires 0 <= i < |entries| => entries[i].frame)
  }

  ghost function Flagged(entries: seq<Evidence>): set<int> {
    set e | e in entries && !e.incomplete.Complete? :: e.frame
  }

  /** What the consumer remembers of one capture: frames referenced and frames seen incomplete. */
  datatype Ledger = Ledger(seen: set<int>, incomplete: set<int>)

  ghost function Listed(ledger: Ledger, entries: seq<Evidence>): Ledger {
    Ledger(ledger.seen + Elements(Frames(entries)), ledger.incomplete + Flagged(entries))
  }

  /** `entries` may all be referenced, each once, after what `ledger` has seen. */
  ghost predicate CanList(ledger: Ledger, entries: seq<Evidence>, capture: Capture) {
    AllOk(entries, capture) && Fresh(Frames(entries), ledger.seen)
  }

  lemma {:induction false} ListJoined(ledger: Ledger, a: seq<Evidence>, b: seq<Evidence>, capture: Capture)
    ensures CanList(ledger, a + b, capture)
       <==> CanList(ledger, a, capture) && CanList(Listed(ledger, a), b, capture)
    ensures Listed(ledger, a + b) == Listed(Listed(ledger, a), b)
  {
    assert Frames(a + b) == Frames(a) + Frames(b);
    FreshJoined(Frames(a), Frames(b), ledger.seen);
    assert AllOk(a + b, capture) <==> AllOk(a, capture) && AllOk(b, capture) by {
      if AllOk(a + b, capture) {
        forall i | 0 <= i < |a| ensures EvidenceOk(a[i], capture) { assert a[i] == (a + b)[i]; }
        forall i | 0 <= i < |b| ensures EvidenceOk(b[i], capture) { assert b[i] == (a + b)[|a| + i]; }
      }
    }
    assert Flagged(a + b) == Flagged(a) + Flagged(b);
  }

  lemma {:induction false} ListOne(ledger: Ledger, e: Evidence, capture: Capture)
    ensures CanList(ledger, [e], capture) <==> EvidenceOk(e, capture) && e.frame !in ledger.seen
    ensures Listed(ledger, [e])
         == Ledger(ledger.seen + {e.frame}, ledger.incomplete + (if e.incomplete.Complete? then {} else {e.frame}))
  {
    assert Frames([e]) == [e.frame];
    assert [e][0] == e;
  }

  method Reference(ledger: Ledger, e: Evidence, capture: Capture, unique: bool) returns (ok: bool, after: Ledger)
    ensures ok <==> EvidenceOk(e, capture) && (unique ==> e.frame !in ledger.seen)
    ensures ok && unique ==> after == Listed(ledger, [e])
    ensures ok && !unique ==> after == Ledger(ledger.seen, ledger.incomplete + Flagged([e]))
  {
    ListOne(ledger, e, capture);
    after := ledger;
    ok := ValidateEvidence(e, capture);
    if !ok || (unique && e.frame in ledger.seen) {
      return false, after;
    }
    if unique {
      after := after.(seen := after.seen + {e.frame});
    }
    if !e.incomplete.Complete? {
      after := after.(incomplete := after.incomplete + {e.frame});
    }
    assert Flagged([e]) == if e.incomplete.Complete? then {} else {e.frame};
    ok := true;
  }

  lemma {:induction false} ListStep(ledger: Ledger, entries: seq<Evidence>, i: nat, capture: Capture)
    requires i < |entries|
    ensures var before := Listed(ledger, entries[..i]);
      && Listed(ledger, entries[..i + 1]) == Listed(before, [entries[i]])
      && (CanList(ledger, entries[..i + 1], capture)
          <==> && CanList(ledger, entries[..i], capture)
               && EvidenceOk(entries[i], capture) && entries[i].frame !in before.seen)
    ensures CanList(ledger, entries, capture) ==> CanList(ledger, entries[..i + 1], capture)
  {
    ListJoined(ledger, entries[..i], [entries[i]], capture);
    ListOne(Listed(ledger, entries[..i]), entries[i], capture);
    assert entries[..i] + [entries[i]] == entries[..i + 1];
    ListJoined(ledger, entries[..i + 1], entries[i + 1..], capture);
    assert entries[..i + 1] + entries[i + 1..] == entries;
  }

  method ReferenceAll(ledger: Ledger, entries: seq<Evidence>, capture: Capture) returns (ok: bool, after: Ledger)
    ensures ok <==> CanList(ledger, entries, capture)
    ensures ok ==> after == Listed(ledger, entries)
  {
    after := ledger;
    for i := 0 to |entries|
      invariant CanList(ledger, entries[..i], capture) && after == Listed(ledger, entries[..i])
    {
      ListStep(ledger, entries, i, capture);
      ok, after := Reference(after, entries[i], capture, true);
      if !ok {
        return;
      }
    }
    assert entries[..|entries|] == entries;
    ok := true;
  }

  // ---- Matches ----

  function MatchEvidence(ms: seq<Match>, side: Side): (entries: seq<Evidence>)
    ensures |entries| == |ms|
  {
    seq(|ms|, i requires 0 <= i < |ms| => ms[i].evidence.On(side))
  }

  function MatchKeys(ms: seq<Match>): (keys: seq<Key>)
    ensures |keys| == |ms|
  {
    seq(|ms|, i requires 0 <= i < |ms| => ms[i].key)
  }

  function MatchRanks(ms: seq<Match>, side: Side): (ranks: seq<int>)
    ensures |ranks| == |ms|
  {
    seq(|ms|, i requires 0 <= i < |ms| => ms[i].order.On(side))
  }

  predicate RankOk(r: Report, m: Match, side: Side) {
    var rank := m.order.On(side);
    IsCounter(rank) && rank < r.captures.On(side).keyed && rank < m.evidence.On(side).frame
  }

  /** Some earlier match, in ingress order, left after this one. */
  ghost predicate Inverted(ms: seq<Match>, i: nat)
    requires i < |ms|
  {
    exists j :: 0 <= j < i && ms[j].order.egress > ms[i].order.egress
  }

  ghost predicate FlagOk(ms: seq<Match>, i: nat, complete: bool)
    requires i < |ms|
  {
    (Inverted(ms, i) ==> ms[i].reordered) && (complete ==> (ms[i].reordered <==> Inverted(ms, i)))
  }

  ghost predicate OrderOk(ms: seq<Match>, complete: bool) {
    && (forall i, j :: 0 <= i < j < |ms| ==> ms[i].order.ingress < ms[j].order.ingress)
    && (forall i: nat :: i < |ms| ==> FlagOk(ms, i, complete))
  }

  ghost predicate SideOk(r: Report, ms: seq<Match>, side: Side) {
    && CanList(Ledger({}, {}), MatchEvidence(ms, side), r.captures.On(side))
    && (forall i :: 0 <= i < |ms| ==> RankOk(r, ms[i], side))
    && Fresh(MatchRanks(ms, side), {})
  }

  ghost predicate KeysOk(ms: seq<Match>, width: nat) {
    && (forall i :: 0 <= i < |ms| ==> KeyOk(ms[i].key, width, false))
    && Fresh(MatchKeys(ms), {})
  }

  ghost predicate MatchesOk(r: Report, ms: seq<Match>) {
    && SideOk(r, ms, Ingress) && SideOk(r, ms, Egress)
    && KeysOk(ms, |r.rules.identity|)
    && OrderOk(ms, r.omitted.matches == 0)
  }

  function CountReordered(ms: seq<Match>): nat {
    if ms == [] then 0
    else CountReordered(ms[..|ms| - 1]) + (if ms[|ms| - 1].reordered then 1 else 0)
  }

  lemma {:induction false} SideExtended(r: Report, ms: seq<Match>, m: Match, side: Side)
    ensures SideOk(r, ms + [m], side)
       <==> && SideOk(r, ms, side) && RankOk(r, m, side)
            && m.order.On(side) !in Elements(MatchRanks(ms, side))
            && CanList(Listed(Ledger({}, {}), MatchEvidence(ms, side)), [m.evidence.On(side)], r.captures.On(side))
    ensures Listed(Ledger({}, {}), MatchEvidence(ms + [m], side))
         == Listed(Listed(Ledger({}, {}), MatchEvidence(ms, side)), [m.evidence.On(side)])
    ensures Elements(MatchRanks(ms + [m], side)) == Elements(MatchRanks(ms, side)) + {m.order.On(side)}
  {
    assert MatchEvidence(ms + [m], side) == MatchEvidence(ms, side) + [m.evidence.On(side)];
    ListJoined(Ledger({}, {}), MatchEvidence(ms, side), [m.evidence.On(side)], r.captures.On(side));
    assert MatchRanks(ms + [m], side) == MatchRanks(ms, side) + [m.order.On(side)];
    FreshAppended(MatchRanks(ms, side), m.order.On(side), {});
    assert (ms + [m])[|ms|] == m;
    if SideOk(r, ms + [m], side) {
      forall i | 0 <= i < |ms| ensures RankOk(r, ms[i], side) { assert (ms + [m])[i] == ms[i]; }
    }
  }

  lemma {:induction false} OrderExtended(ms: seq<Match>, m: Match, complete: bool)
    ensures OrderOk(ms + [m], complete)
       <==> && OrderOk(ms, complete)
            && (forall j :: 0 <= j < |ms| ==> ms[j].order.ingress < m.order.ingress)
            && FlagOk(ms + [m], |ms|, complete)
  {
    var longer := ms + [m];
    assert longer[|ms|] == m;
    forall i: nat | i < |ms| ensures FlagOk(longer, i, complete) <==> FlagOk(ms, i, complete) {
      assert longer[i] == ms[i];
      if Inverted(ms, i) {
        var j :| 0 <= j < i && ms[j].order.egress > ms[i].order.egress;
        assert longer[j].order.egress > longer[i].order.egress;
      }
      if Inverted(longer, i) {
        var j :| 0 <= j < i && longer[j].order.egress > longer[i].order.egress;
        assert ms[j].order.egress > ms[i].order.egress;
      }
    }
    if OrderOk(longer, complete) {
      forall i, j | 0 <= i < j < |ms| ensures ms[i].order.ingress < ms[j].order.ingress {
        assert longer[i].order.ingress < longer[j].order.ingress;
      }
      forall j | 0 <= j < |ms| ensures ms[j].order.ingress < m.order.ingress {
        assert longer[j].order.ingress < longer[|ms|].order.ingress;
      }
      forall i: nat | i < |ms| ensures FlagOk(ms, i, complete) {
        assert FlagOk(longer, i, complete);
      }
      assert FlagOk(longer, |ms|, complete);
    }
  }

  lemma {:induction false} KeysExtended(ms: seq<Match>, m: Match, width: nat)
    ensures KeysOk(ms + [m], width) <==> KeysOk(ms, width) && KeyOk(m.key, width, false) && m.key !in Elements(MatchKeys(ms))
    ensures Elements(MatchKeys(ms + [m])) == Elements(MatchKeys(ms)) + {m.key}
  {
    assert MatchKeys(ms + [m]) == MatchKeys(ms) + [m.key];
    FreshAppended(MatchKeys(ms), m.key, {});
    assert (ms + [m])[|ms|] == m;
    if KeysOk(ms + [m], width) {
      forall i | 0 <= i < |ms| ensures KeyOk(ms[i].key, width, false) { assert (ms + [m])[i] == ms[i]; }
    }
  }

  lemma {:induction false} MatchesExtended(r: Report, ms: seq<Match>, m: Match)
    ensures MatchesOk(r, ms + [m])
       <==> && MatchesOk(r, ms)
            && SideOk(r, ms + [m], Ingress) && SideOk(r, ms + [m], Egress)
            && KeyOk(m.key, |r.rules.identity|, false) && m.key !in Elements(MatchKeys(ms))
            && OrderOk(ms + [m], r.omitted.matches == 0)
    ensures Elements(MatchKeys(ms + [m])) == Elements(MatchKeys(ms)) + {m.key}
  {
    SideExtended(r, ms, m, Ingress);
    SideExtended(r, ms, m, Egress);
    KeysExtended(ms, m, |r.rules.identity|);
    OrderExtended(ms, m, r.omitted.matches == 0);
  }

  lemma {:induction false} MatchesPrefix(r: Report, i: nat)
    requires i <= |r.matches| && MatchesOk(r, r.matches)
    ensures MatchesOk(r, r.matches[..i])
    decreases |r.matches| - i
  {
    if i < |r.matches| {
      MatchesPrefix(r, i + 1);
      assert r.matches[..i + 1] == r.matches[..i] + [r.matches[i]];
      MatchesExtended(r, r.matches[..i], r.matches[i]);
    } else {
      assert r.matches[..i] == r.matches;
    }
  }

  /** Running state over the matches: ledgers, keys, ranks, last ingress rank, highest egress rank, flags. */
  datatype Walk = Walk(
    ingress: Ledger, egress: Ledger, identities: set<Key>, ranks: PerSide<set<int>>,
    previous: int, maximum: int, reordered: nat)

  ghost predicate WalkOk(w: Walk, r: Report, ms: seq<Match>) {
    && w.ingress == Listed(Ledger({}, {}), MatchEvidence(ms, Ingress))
    && w.egress == Listed(Ledger({}, {}), MatchEvidence(ms, Egress))
    && w.identities == Elements(MatchKeys(ms))
    && w.ranks == PerSide(Elements(MatchRanks(ms, Ingress)), Elements(MatchRanks(ms, Egress)))
    && w.previous == (if ms == [] then -1 else ms[|ms| - 1].order.ingress)
    && (forall j :: 0 <= j < |ms| ==> ms[j].order.egress <= w.maximum)
    && (w.maximum == -1 || exists j :: 0 <= j < |ms| && ms[j].order.egress == w.maximum)
    && w.reordered == CountReordered(ms)
  }

  method StepSide(r: Report, w: Walk, m: Match, side: Side, ghost ms: seq<Match>)
    returns (ok: bool, ledger: Ledger, ranks: set<int>)
    requires WalkOk(w, r, ms) && SideOk(r, ms, side)
    ensures ok <==> SideOk(r, ms + [m], side)
    ensures ok ==> ledger == Listed(Ledger({}, {}), MatchEvidence(ms + [m], side))
    ensures ok ==> ranks == Elements(MatchRanks(ms + [m], side))
  {
    SideExtended(r, ms, m, side);
    ListOne(if side.Ingress? then w.ingress else w.egress, m.evidence.On(side), r.captures.On(side));
    ranks := w.ranks.On(side);
    ok, ledger := Reference(if side.Ingress? then w.ingress else w.egress, m.evidence.On(side), r.captures.On(side), true);
    if ok {
      var rank := m.order.On(side);
      ok := && IsCounter(rank) && rank < r.captures.On(side).keyed && rank < m.evidence.On(side).frame
            && rank !in ranks;
      ranks := ranks + {rank};
    }
  }

  method StepOrder(r: Report, w: Walk, m: Match, ghost ms: seq<Match>) returns (ok: bool)
    requires WalkOk(w, r, ms) && OrderOk(ms, r.omitted.matches == 0) && m.order.ingress >= 0 && m.order.egress >= 0
    ensures ok <==> OrderOk(ms + [m], r.omitted.matches == 0)
  {
    OrderExtended(ms, m, r.omitted.matches == 0);
    var inversion := m.order.egress < w.maximum;
    assert inversion <==> Inverted(ms + [m], |ms|) by {
      if inversion {
        var j :| 0 <= j < |ms| && ms[j].order.egress == w.maximum;
        assert (ms + [m])[j] == ms[j];
      }
      if Inverted(ms + [m], |ms|) {
        var j :| 0 <= j < |ms| && (ms + [m])[j].order.egress > m.order.egress;
        assert ms[j].order.egress <= w.maximum;
      }
    }
    ok := m.order.ingress > w.previous;
    assert ok <==> forall j :: 0 <= j < |ms| ==> ms[j].order.ingress < m.order.ingress by {
      if ms != [] {
        forall j | 0 <= j < |ms| ensures ms[j].order.ingress <= ms[|ms| - 1].order.ingress {}
      }
    }
    if inversion && !m.reordered {
      ok := false;
    }
    if r.omitted.matches == 0 && m.reordered != inversion {
      ok := false;
    }
    assert (ms + [m])[|ms|] == m;
  }

  lemma {:induction false} WalkStarts(r: Report)
    ensures Walked(r, Walk(Ledger({}, {}), Ledger({}, {}), {}, PerSide({}, {}), -1, -1, 0), 0)
  {
    assert r.matches[..0] == [];
    assert Elements(MatchRanks([], Ingress)) == {} && Elements(MatchRanks([], Egress)) == {};
    assert Elements(MatchKeys([])) == {};
    assert Listed(Ledger({}, {}), MatchEvidence([], Ingress)) == Ledger({}, {});
    assert Listed(Ledger({}, {}), MatchEvidence([], Egress)) == Ledger({}, {});
  }

  lemma {:induction false} WalkExtended(r: Report, w: Walk, after: Walk, ms: seq<Match>, m: Match)
    requires WalkOk(w, r, ms)
    requires after.ingress == Listed(Ledger({}, {}), MatchEvidence(ms + [m], Ingress))
    requires after.egress == Listed(Ledger({}, {}), MatchEvidence(ms + [m], Egress))
    requires after.identities == Elements(MatchKeys(ms + [m]))
    requires after.ranks == PerSide(Elements(MatchRanks(ms + [m], Ingress)), Elements(MatchRanks(ms + [m], Egress)))
    requires after.previous == m.order.ingress
    requires after.maximum == if m.order.egress > w.maximum then m.order.egress else w.maximum
    requires after.reordered == w.reordered + (if m.reordered then 1 else 0)
    ensures WalkOk(after, r, ms + [m])
  {
    var longer := ms + [m];
    assert longer[|ms|] == m && longer[..|ms|] == ms;
    forall j | 0 <= j < |longer| ensures longer[j].order.egress <= after.maximum {
      if j < |ms| { assert longer[j] == ms[j]; }
    }
    if after.maximum == w.maximum && w.maximum != -1 {
      var j :| 0 <= j < |ms| && ms[j].order.egress == w.maximum;
      assert longer[j].order.egress == after.maximum;
    }
  }

  method StepMatch(r: Report, w: Walk, m: Match, ghost ms: seq<Match>) returns (ok: bool, after: Walk)
    requires WalkOk(w, r, ms) && MatchesOk(r, ms)
    ensures ok <==> MatchesOk(r, ms + [m])
    ensures ok ==> WalkOk(after, r, ms + [m])
  {
    MatchesExtended(r, ms, m);
    after := w;
    ok := ValidateKey(m.key, |r.rules.identity|, false);
    if !ok || m.key in w.identities {
      return false, after;
    }
    var okIngress, ingress, ingressRanks := StepSide(r, w, m, Ingress, ms);
    if !okIngress {
      return false, after;
    }
    var okEgress, egress, egressRanks := StepSide(r, w, m, Egress, ms);
    if !okEgress {
      return false, after;
    }
    assert RankOk(r, m, Ingress) && RankOk(r, m, Egress) by {
      assert (ms + [m])[|ms|] == m;
    }
    ok := StepOrder(r, w, m, ms);
    after := Walk(ingress, egress, w.identities + {m.key}, PerSide(ingressRanks, egressRanks),
                  m.order.ingress, if m.order.egress > w.maximum then m.order.egress else w.maximum,
                  w.reordered + (if m.reordered then 1 else 0));
    WalkExtended(r, w, after, ms, m);
  }

  predicate ReorderedCountOk(r: Report) {
    var flagged := CountReordered(r.matches);
    flagged <= r.summary.reorderedPairs <= flagged + r.omitted.matches
  }

  /** The first `i` matches hold, and the running state is theirs. */
  ghost predicate Walked(r: Report, w: Walk, i: nat)
    requires i <= |r.matches|
  {
    MatchesOk(r, r.matches[..i]) && WalkOk(w, r, r.matches[..i])
  }

  method StepAt(r: Report, w: Walk, i: nat) returns (ok: bool, after: Walk)
    requires i < |r.matches| && Walked(r, w, i)
    ensures ok ==> Walked(r, after, i + 1)
    ensures !ok ==> !MatchesOk(r, r.matches)
  {
    assert r.matches[..i + 1] == r.matches[..i] + [r.matches[i]];
    ok, after := StepMatch(r, w, r.matches[i], r.matches[..i]);
    if !ok {
      NotAllOk(r, i + 1);
    }
  }

  lemma {:induction false} NotAllOk(r: Report, i: nat)
    requires i <= |r.matches| && !MatchesOk(r, r.matches[..i])
    ensures !MatchesOk(r, r.matches)
  {
    if MatchesOk(r, r.matches) {
      MatchesPrefix(r, i);
    }
  }

  method WalkMatches(r: Report) returns (ok: bool, w: Walk)
    ensures ok <==> MatchesOk(r, r.matches)
    ensures ok ==> WalkOk(w, r, r.matches)
  {
    w := Walk(Ledger({}, {}), Ledger({}, {}), {}, PerSide({}, {}), -1, -1, 0);
    WalkStarts(r);
    for i := 0 to |r.matches|
      invariant Walked(r, w, i)
    {
      ok, w := StepAt(r, w, i);
      if !ok {
        return;
      }
    }
    assert r.matches[..|r.matches|] == r.matches;
    ok := true;
  }

  method CheckMatches(r: Report) returns (ok: bool, w: Walk)
    ensures ok <==> MatchesOk(r, r.matches) && ReorderedCountOk(r)
    ensures ok ==> WalkOk(w, r, r.matches)
  {
    ok, w := WalkMatches(r);
    ok := ok && w.reordered <= r.summary.reorderedPairs <= w.reordered + r.omitted.matches;
  }

  // ---- Unmatched and unkeyed observations ----

  function UnkeyedEvidence(entries: seq<Unkeyed>): (evidence: seq<Evidence>)
    ensures |evidence| == |entries|
  {
    seq(|entries|, i requires 0 <= i < |entries| => entries[i].evidence)
  }

  predicate UnkeyedKeysOk(entries: seq<Unkeyed>, width: nat) {
    forall i :: 0 <= i < |entries| ==> KeyOk(entries[i].key, width, true)
  }

  method ValidateUnkeyedKeys(entries: seq<Unkeyed>, width: nat) returns (ok: bool)
    ensures ok <==> UnkeyedKeysOk(entries, width)
  {
    for i := 0 to |entries|
      invariant UnkeyedKeysOk(entries[..i], width)
    {
      ok := ValidateKey(entries[i].key, width, true);
      if !ok {
        return;
      }
      assert entries[..i + 1] == entries[..i] + [entries[i]];
    }
    assert entries[..|entries|] == entries;
    ok := true;
  }

  predicate ListLengthsOk(r: Report, side: Side) {
    && IsCounter(r.omitted.unmatched.On(side))
    && |r.unmatched.On(side)| + r.omitted.unmatched.On(side) == r.summary.only.On(side)
    && IsCounter(r.omitted.unkeyed.On(side))
    && |r.unkeyed.On(side)| + r.omitted.unkeyed.On(side) == r.captures.On(side).unkeyed
  }

  ghost function ListedEvidence(r: Report, side: Side): seq<Evidence> {
    r.unmatched.On(side) + UnkeyedEvidence(r.unkeyed.On(side))
  }

  method CheckLists(r: Report, side: Side, ledger: Ledger) returns (ok: bool, after: Ledger)
    ensures ok <==> && ListLengthsOk(r, side) && UnkeyedKeysOk(r.unkeyed.On(side), |r.rules.identity|)
                    && CanList(ledger, ListedEvidence(r, side), r.captures.On(side))
    ensures ok ==> after == Listed(ledger, ListedEvidence(r, side))
  {
    ListJoined(ledger, r.unmatched.On(side), UnkeyedEvidence(r.unkeyed.On(side)), r.captures.On(side));
    after := ledger;
    var unmatched, unkeyed := r.omitted.unmatched.On(side), r.omitted.unkeyed.On(side);
    if !IsCounter(unmatched) || |r.unmatched.On(side)| + unmatched != r.summary.only.On(side)
       || !IsCounter(unkeyed) || |r.unkeyed.On(side)| + unkeyed != r.captures.On(side).unkeyed {
      return false, after;
    }
    ok, after := ReferenceAll(after, r.unmatched.On(side), r.captures.On(side));
    if !ok {
      return;
    }
    ok, after := ReferenceAll(after, UnkeyedEvidence(r.unkeyed.On(side)), r.captures.On(side));
    if ok {
      ok := ValidateUnkeyedKeys(r.unkeyed.On(side), |r.rules.identity|);
    }
  }

  // ---- Ambiguous groups ----

  predicate Ascending(frames: seq<int>) {
    forall i, j :: 0 <= i < j < |frames| ==> frames[i] <= frames[j]
  }

  predicate GroupSideOk(g: Group, side: Side) {
    && IsCounter(g.total.On(side)) && 1 <= g.total.On(side)
    && |g.members.On(side)| <= g.total.On(side)
    && Ascending(Frames(g.members.On(side)))
  }

  predicate GroupOk(g: Group, width: nat) {
    && KeyOk(g.key, width, false)
    && GroupSideOk(g, Ingress) && GroupSideOk(g, Egress)
    && g.total.ingress + g.total.egress >= 3
  }

  method IsAscending(frames: seq<int>) returns (ok: bool)
    ensures ok <==> Ascending(frames)
  {
    for i := 0 to |frames|
      invariant forall j, k :: 0 <= j < k < i ==> frames[j] <= frames[k]
    {
      if i > 0 && frames[i] < frames[i - 1] {
        return false;
      }
    }
    ok := true;
  }

  method CheckGroupSide(g: Group, side: Side) returns (ok: bool)
    ensures ok <==> GroupSideOk(g, side)
  {
    var total := g.total.On(side);
    if !IsCounter(total) || total < 1 || |g.members.On(side)| > total {
      return false;
    }
    ok := IsAscending(Frames(g.members.On(side)));
  }

  method CheckGroup(g: Group, width: nat) returns (ok: bool)
    ensures ok <==> GroupOk(g, width)
  {
    ok := ValidateKey(g.key, width, false);
    if !ok { return; }
    ok := CheckGroupSide(g, Ingress);
    if !ok { return; }
    ok := CheckGroupSide(g, Egress);
    ok := ok && g.total.ingress + g.total.egress >= 3;
  }

  ghost function GroupKeys(gs: seq<Group>): (keys: seq<Key>)
    ensures |keys| == |gs|
  {
    seq(|gs|, i requires 0 <= i < |gs| => gs[i].key)
  }

  ghost function GroupEvidence(gs: seq<Group>, side: Side): seq<Evidence> {
    if gs == [] then [] else GroupEvidence(gs[..|gs| - 1], side) + gs[|gs| - 1].members.On(side)
  }

  ghost function GroupTotal(gs: seq<Group>, side: Side): int {
    if gs == [] then 0 else GroupTotal(gs[..|gs| - 1], side) + gs[|gs| - 1].total.On(side)
  }

  /** The groups hold, after the keys and frames taken before them. */
  ghost predicate GroupsOk(r: Report, gs: seq<Group>, identities: set<Key>, ledgers: PerSide<Ledger>) {
    && (forall i :: 0 <= i < |gs| ==> GroupOk(gs[i], |r.rules.identity|))
    && Fresh(GroupKeys(gs), identities)
    && CanList(ledgers.ingress, GroupEvidence(gs, Ingress), r.captures.ingress)
    && CanList(ledgers.egress, GroupEvidence(gs, Egress), r.captures.egress)
  }

  lemma {:induction false} GroupsExtended(r: Report, gs: seq<Group>, g: Group, identities: set<Key>, ledgers: PerSide<Ledger>)
    ensures GroupsOk(r, gs + [g], identities, ledgers)
       <==> && GroupsOk(r, gs, identities, ledgers) && GroupOk(g, |r.rules.identity|)
            && g.key !in identities + Elements(GroupKeys(gs))
            && CanList(Listed(ledgers.ingress, GroupEvidence(gs, Ingress)), g.members.ingress, r.captures.ingress)
            && CanList(Listed(ledgers.egress, GroupEvidence(gs, Egress)), g.members.egress, r.captures.egress)
    ensures Elements(GroupKeys(gs + [g])) == Elements(GroupKeys(gs)) + {g.key}
    ensures forall side :: GroupEvidence(gs + [g], side) == GroupEvidence(gs, side) + g.members.On(side)
    ensures forall side :: GroupTotal(gs + [g], side) == GroupTotal(gs, side) + g.total.On(side)
  {
    var longer := gs + [g];
    assert longer[..|gs|] == gs && longer[|gs|] == g;
    assert GroupKeys(longer) == GroupKeys(gs) + [g.key];
    FreshAppended(GroupKeys(gs), g.key, identities);
    assert forall side :: GroupEvidence(longer, side) == GroupEvidence(gs, side) + g.members.On(side);
    ListJoined(ledgers.ingress, GroupEvidence(gs, Ingress), g.members.ingress, r.captures.ingress);
    ListJoined(ledgers.egress, GroupEvidence(gs, Egress), g.members.egress, r.captures.egress);
    if forall i :: 0 <= i < |longer| ==> GroupOk(longer[i], |r.rules.identity|) {
      forall i | 0 <= i < |gs| ensures GroupOk(gs[i], |r.rules.identity|) { assert longer[i] == gs[i]; }
    }
  }

  lemma {:induction false} GroupsPrefix(r: Report, i: nat, identities: set<Key>, ledgers: PerSide<Ledger>)
    requires i <= |r.ambiguous| && GroupsOk(r, r.ambiguous, identities, ledgers)
    ensures GroupsOk(r, r.ambiguous[..i], identities, ledgers)
    decreases |r.ambiguous| - i
  {
    if i < |r.ambiguous| {
      GroupsPrefix(r, i + 1, identities, ledgers);
      assert r.ambiguous[..i + 1] == r.ambiguous[..i] + [r.ambiguous[i]];
      GroupsExtended(r, r.ambiguous[..i], r.ambiguous[i], identities, ledgers);
    } else {
      assert r.ambiguous[..i] == r.ambiguous;
    }
  }

  /** What has been gathered from the groups so far. */
  datatype Tally = Tally(keys: set<Key>, ledgers: PerSide<Ledger>, totals: PerSide<int>, retained: int)

  ghost function Tallied(gs: seq<Group>, identities: set<Key>, ledgers: PerSide<Ledger>): Tally {
    Tally(identities + Elements(GroupKeys(gs)),
          PerSide(Listed(ledgers.ingress, GroupEvidence(gs, Ingress)), Listed(ledgers.egress, GroupEvidence(gs, Egress))),
          PerSide(GroupTotal(gs, Ingress), GroupTotal(gs, Egress)),
          |GroupEvidence(gs, Ingress)| + |GroupEvidence(gs, Egress)|)
  }

  method StepGroup(r: Report, t: Tally, g: Group,
                   ghost gs: seq<Group>, ghost identities: set<Key>, ghost ledgers: PerSide<Ledger>)
    returns (ok: bool, after: Tally)
    requires GroupsOk(r, gs, identities, ledgers) && t == Tallied(gs, identities, ledgers)
    ensures ok <==> GroupsOk(r, gs + [g], identities, ledgers)
    ensures ok ==> after == Tallied(gs + [g], identities, ledgers)
  {
    GroupsExtended(r, gs, g, identities, ledgers);
    ListJoined(ledgers.ingress, GroupEvidence(gs, Ingress), g.members.ingress, r.captures.ingress);
    ListJoined(ledgers.egress, GroupEvidence(gs, Egress), g.members.egress, r.captures.egress);
    after := t;
    ok := CheckGroup(g, |r.rules.identity|);
    if !ok || g.key in t.keys {
      return false, after;
    }
    var okIngress, ingress := ReferenceAll(t.ledgers.ingress, g.members.ingress, r.captures.ingress);
    var okEgress, egress := ReferenceAll(t.ledgers.egress, g.members.egress, r.captures.egress);
    ok := okIngress && okEgress;
    after := Tally(t.keys + {g.key}, PerSide(ingress, egress),
                   PerSide(t.totals.ingress + g.total.ingress, t.totals.egress + g.total.egress),
                   t.retained + |g.members.ingress| + |g.members.egress|);
  }

  method CheckGroups(r: Report, identities: set<Key>, ledgers: PerSide<Ledger>) returns (ok: bool, t: Tally)
    ensures ok <==> GroupsOk(r, r.ambiguous, identities, ledgers)
    ensures ok ==> t == Tallied(r.ambiguous, identities, ledgers)
  {
    ok, t := true, Tally(identities, ledgers, PerSide(0, 0), 0);
    assert Listed(ledgers.ingress, []) == ledgers.ingress && Listed(ledgers.egress, []) == ledgers.egress;
    assert Elements(GroupKeys([])) == {} && r.ambiguous[..0] == [];
    for i := 0 to |r.ambiguous|
      invariant ok && GroupsOk(r, r.ambiguous[..i], identities, ledgers)
      invariant t == Tallied(r.ambiguous[..i], identities, ledgers)
    {
      assert r.ambiguous[..i] + [r.ambiguous[i]] == r.ambiguous[..i + 1];
      ok, t := StepGroup(r, t, r.ambiguous[i], r.ambiguous[..i], identities, ledgers);
      if !ok {
        if GroupsOk(r, r.ambiguous, identities, ledgers) {
          GroupsPrefix(r, i + 1, identities, ledgers);
        }
        return;
      }
    }
    assert r.ambiguous[..|r.ambiguous|] == r.ambiguous;
  }

  // ---- Violations ----

  predicate ViolationOk(r: Report, v: Violation) {
    && v.descriptor in Declared(r.rules)
    && ContradictionOk(v.descriptor.kind, v.ingress.Some?, v.actual, v.expected)
    && EvidenceOk(v.egress, r.captures.egress)
    && (v.ingress.Some? ==> EvidenceOk(v.ingress.value, r.captures.ingress) && v.key.Some?)
    && (v.key.Some? ==> KeyOk(v.key.value, |r.rules.identity|, false))
  }

  /** A violation refers to frames that may be listed elsewhere, so only incompleteness is noted. */
  ghost function ViolationFlags(vs: seq<Violation>, side: Side): set<int> {
    if vs == [] then {}
    else
      var v := vs[|vs| - 1];
      ViolationFlags(vs[..|vs| - 1], side)
      + (match side
         case Egress => Flagged([v.egress])
         case Ingress => if v.ingress.Some? then Flagged([v.ingress.value]) else {})
  }

  predicate ViolationsOk(r: Report) {
    forall i :: 0 <= i < |r.violations| ==> ViolationOk(r, r.violations[i])
  }

  method CheckViolations(r: Report, ledgers: PerSide<Ledger>) returns (ok: bool, incomplete: PerSide<set<int>>)
    ensures ok <==> ViolationsOk(r)
    ensures ok ==> incomplete == PerSide(ledgers.ingress.incomplete + ViolationFlags(r.violations, Ingress),
                                         ledgers.egress.incomplete + ViolationFlags(r.violations, Egress))
  {
    hide EvidenceOk, ContradictionOk, KeyOk, Declared;
    var ingress, egress := ledgers.ingress, ledgers.egress;
    incomplete := PerSide({}, {});
    for i := 0 to |r.violations|
      invariant forall k :: 0 <= k < i ==> ViolationOk(r, r.violations[k])
      invariant ingress.incomplete == ledgers.ingress.incomplete + ViolationFlags(r.violations[..i], Ingress)
      invariant egress.incomplete == ledgers.egress.incomplete + ViolationFlags(r.violations[..i], Egress)
    {
      var v := r.violations[i];
      assert r.violations[..i + 1][..i] == r.violations[..i];
      var okEgress, okIngress := false, true;
      okEgress, egress := Reference(egress, v.egress, r.captures.egress, false);
      if v.ingress.Some? {
        okIngress, ingress := Reference(ingress, v.ingress.value, r.captures.ingress, false);
        okIngress := okIngress && v.key.Some?;
      }
      var okKey := true;
      if v.key.Some? {
        okKey := ValidateKey(v.key.value, |r.rules.identity|, false);
      }
      if !okEgress || !okIngress || !okKey || v.descriptor !in Declared(r.rules)
         || !ContradictionOk(v.descriptor.kind, v.ingress.Some?, v.actual, v.expected) {
        return false, incomplete;
      }
    }
    assert r.violations[..|r.violations|] == r.violations;
    ok, incomplete := true, PerSide(ingress.incomplete, egress.incomplete);
  }

  // ---- The whole of `validate_details` ----

  /** Every observation the report lists on one side, in the order the consumer meets them. */
  ghost function Retained(r: Report, side: Side): seq<Evidence> {
    MatchEvidence(r.matches, side) + ListedEvidence(r, side) + GroupEvidence(r.ambiguous, side)
  }

  function Census(r: Report, side: Side): int {
    r.captures.On(side).keyed - r.summary.uniqueMatches - r.summary.only.On(side)
  }

  ghost predicate GroupCensusOk(r: Report) {
    && IsCounter(r.omitted.groupMembers)
    && |GroupEvidence(r.ambiguous, Ingress)| + |GroupEvidence(r.ambiguous, Egress)| + r.omitted.groupMembers
       == r.summary.ambiguousObservations
    && TotalsOk(r, GroupTotal(r.ambiguous, Ingress), GroupTotal(r.ambiguous, Egress))
  }

  predicate TotalsOk(r: Report, ingress: int, egress: int) {
    && ingress + r.omitted.ambiguousGroups <= Census(r, Ingress)
    && egress + r.omitted.ambiguousGroups <= Census(r, Egress)
    && (r.omitted.ambiguousGroups == 0 ==> ingress == Census(r, Ingress) && egress == Census(r, Egress))
  }

  ghost predicate IncompleteOk(r: Report, side: Side) {
    |Listed(Ledger({}, {}), Retained(r, side)).incomplete + ViolationFlags(r.violations, side)|
      <= r.captures.On(side).incomplete
  }

  /** Lists of the right lengths, and every observation of the side listed validly and only once. */
  ghost predicate SideListed(r: Report, side: Side) {
    && ListLengthsOk(r, side) && UnkeyedKeysOk(r.unkeyed.On(side), |r.rules.identity|)
    && CanList(Ledger({}, {}), Retained(r, side), r.captures.On(side))
  }

  ghost predicate ObservationsOk(r: Report) {
    && MatchesOk(r, r.matches) && ReorderedCountOk(r)
    && SideListed(r, Ingress) && SideListed(r, Egress)
    && (forall i :: 0 <= i < |r.ambiguous| ==> GroupOk(r.ambiguous[i], |r.rules.identity|))
    && Fresh(MatchKeys(r.matches) + GroupKeys(r.ambiguous), {})
  }

  ghost predicate DetailsOk(r: Report) {
    ObservationsOk(r) && BalanceOk(r)
  }

  /** The ledger of one side after the matches and lists. */
  ghost function BeforeGroups(r: Report, side: Side): Ledger {
    Listed(Listed(Ledger({}, {}), MatchEvidence(r.matches, side)), ListedEvidence(r, side))
  }

  lemma {:induction false} RetainedInParts(r: Report, side: Side)
    requires MatchesOk(r, r.matches)
    ensures CanList(Ledger({}, {}), Retained(r, side), r.captures.On(side))
       <==> && CanList(Listed(Ledger({}, {}), MatchEvidence(r.matches, side)), ListedEvidence(r, side), r.captures.On(side))
            && CanList(BeforeGroups(r, side), GroupEvidence(r.ambiguous, side), r.captures.On(side))
    ensures Listed(Ledger({}, {}), Retained(r, side)) == Listed(BeforeGroups(r, side), GroupEvidence(r.ambiguous, side))
  {
    var a, b, c := MatchEvidence(r.matches, side), ListedEvidence(r, side), GroupEvidence(r.ambiguous, side);
    ListJoined(Ledger({}, {}), a + b, c, r.captures.On(side));
    ListJoined(Ledger({}, {}), a, b, r.captures.On(side));
    assert SideOk(r, r.matches, side);
  }

  lemma {:induction false} KeysInParts(r: Report)
    requires MatchesOk(r, r.matches)
    ensures Fresh(MatchKeys(r.matches) + GroupKeys(r.ambiguous), {})
       <==> Fresh(GroupKeys(r.ambiguous), Elements(MatchKeys(r.matches)))
  {
    FreshJoined(MatchKeys(r.matches), GroupKeys(r.ambiguous), {});
    assert {} + Elements(MatchKeys(r.matches)) == Elements(MatchKeys(r.matches));
  }

  method CheckObservations(r: Report) returns (ok: bool, t: Tally)
    ensures ok <==> ObservationsOk(r)
    ensures ok ==>
      && t.ledgers == PerSide(Listed(Ledger({}, {}), Retained(r, Ingress)), Listed(Ledger({}, {}), Retained(r, Egress)))
      && t.totals == PerSide(GroupTotal(r.ambiguous, Ingress), GroupTotal(r.ambiguous, Egress))
      && t.retained == |GroupEvidence(r.ambiguous, Ingress)| + |GroupEvidence(r.ambiguous, Egress)|
  {
    t := Tally({}, PerSide(Ledger({}, {}), Ledger({}, {})), PerSide(0, 0), 0);
    var w: Walk;
    ok, w := CheckMatches(r);
    if !ok {
      return;
    }
    RetainedInParts(r, Ingress);
    RetainedInParts(r, Egress);
    KeysInParts(r);
    var ingress, egress;
    ok, ingress := CheckLists(r, Ingress, w.ingress);
    if !ok {
      return;
    }
    ok, egress := CheckLists(r, Egress, w.egress);
    if !ok {
      return;
    }
    ok, t := CheckGroups(r, w.identities, PerSide(ingress, egress));
  }

  ghost predicate BalanceOk(r: Report) {
    GroupCensusOk(r) && EvidenceBalanceOk(r)
  }

  ghost predicate EvidenceBalanceOk(r: Report) {
    ViolationsOk(r) && IncompleteOk(r, Ingress) && IncompleteOk(r, Egress)
  }

  lemma {:induction false} WithinCount(r: Report, incomplete: PerSide<set<int>>, ledgers: PerSide<Ledger>, side: Side)
    requires ledgers.On(side) == Listed(Ledger({}, {}), Retained(r, side))
    requires incomplete.On(side) == ledgers.On(side).incomplete + ViolationFlags(r.violations, side)
    ensures |incomplete.On(side)| <= r.captures.On(side).incomplete <==> IncompleteOk(r, side)
  {
  }

  method CheckTally(r: Report, t: Tally) returns (ok: bool)
    requires t.totals == PerSide(GroupTotal(r.ambiguous, Ingress), GroupTotal(r.ambiguous, Egress))
    requires t.retained == |GroupEvidence(r.ambiguous, Ingress)| + |GroupEvidence(r.ambiguous, Egress)|
    ensures ok <==> GroupCensusOk(r)
  {
    var members, groups := r.omitted.groupMembers, r.omitted.ambiguousGroups;
    if !IsCounter(members) || t.retained + members != r.summary.ambiguousObservations {
      return false;
    }
    var ingress := r.captures.ingress.keyed - r.summary.uniqueMatches - r.summary.only.ingress;
    var egress := r.captures.egress.keyed - r.summary.uniqueMatches - r.summary.only.egress;
    ok := && t.totals.ingress + groups <= ingress && t.totals.egress + groups <= egress
          && (groups != 0 || (t.totals.ingress == ingress && t.totals.egress == egress));
  }

  /** `validate_details`: accepts exactly the reports whose details hold. */
  method ValidateDetails(r: Report) returns (ok: bool)
    ensures ok <==> DetailsOk(r)
  {
    var t: Tally;
    ok, t := CheckObservations(r);
    if !ok {
      return;
    }
    ok := CheckTally(r, t);
    if !ok {
      return;
    }
    var incomplete;
    ok, incomplete := CheckViolations(r, t.ledgers);
    if ok {
      WithinCount(r, incomplete, t.ledgers, Ingress);
      WithinCount(r, incomplete, t.ledgers, Egress);
      ok := |incomplete.ingress| <= r.captures.ingress.incomplete && |incomplete.egress| <= r.captures.egress.incomplete;
    }
  }

  // ---- The counters of `validate_report` ----

  predicate CountersOk(r: Report) {
    var s := r.summary;
    && IsCounter(s.uniqueMatches) && IsCounter(s.reorderedPairs)
    && IsCounter(s.only.ingress) && IsCounter(s.only.egress)
    && IsCounter(s.ambiguousGroups) && IsCounter(s.ambiguousObservations)
    && IsCounter(s.checksEvaluated) && IsCounter(s.checksSatisfied)
    && IsCounter(s.checksViolated) && IsCounter(s.checksUnevaluable)
    && s.checksEvaluated == s.checksSatisfied + s.checksViolated
    && s.reorderedPairs <= s.uniqueMatches
  }

  predicate CaptureOk(r: Report, side: Side) {
    var c := r.captures.On(side);
    && IsCounter(c.read) && IsCounter(c.selected) && IsCounter(c.keyed) && IsCounter(c.unkeyed) && IsCounter(c.incomplete)
    && c.keyed + c.unkeyed == c.selected <= c.read
    && c.incomplete <= c.selected
    && r.summary.uniqueMatches + r.summary.only.On(side) <= c.keyed
  }

  predicate AmbiguityOk(r: Report) {
    var groups, observations := r.summary.ambiguousGroups, r.summary.ambiguousObservations;
    && Census(r, Ingress) + Census(r, Egress) == observations
    && (groups == 0 <==> observations == 0)
    && Census(r, Ingress) >= groups && Census(r, Egress) >= groups
    && observations >= 3 * groups
  }

  function RequestedChecks(r: Report): int {
    r.summary.uniqueMatches * (|r.rules.preserve| + |r.rules.presence|)
    + r.captures.egress.selected * (|r.rules.expected| + |r.rules.absent|)
  }

  function ExpectedVerdict(r: Report): Verdict {
    var s := r.summary;
    var incomplete := r.captures.ingress.incomplete != 0 || r.captures.ingress.unkeyed != 0
                   || r.captures.egress.incomplete != 0 || r.captures.egress.unkeyed != 0;
    if s.checksViolated != 0 then Fail
    else if s.uniqueMatches != 0 && !incomplete && s.only.ingress == 0 && s.only.egress == 0
            && s.ambiguousGroups == 0 && s.checksUnevaluable == 0 then Pass
    else Inconclusive
  }

  /** Every requested check was evaluated or classified, and the verdict follows from the summary. */
  predicate VerdictOk(r: Report) {
    && r.summary.checksEvaluated + r.summary.checksUnevaluable == RequestedChecks(r)
    && r.verdict == ExpectedVerdict(r)
  }

  predicate OmissionsOk(r: Report) {
    && IsCounter(r.omitted.matches) && |r.matches| + r.omitted.matches == r.summary.uniqueMatches
    && IsCounter(r.omitted.violations) && |r.violations| + r.omitted.violations == r.summary.checksViolated
    && IsCounter(r.omitted.ambiguousGroups)
    && |r.ambiguous| + r.omitted.ambiguousGroups == r.summary.ambiguousGroups
  }

  predicate SummaryOk(r: Report) {
    && CountersOk(r) && CaptureOk(r, Ingress) && CaptureOk(r, Egress) && AmbiguityOk(r)
    && VerdictOk(r)
    && OmissionsOk(r)
  }

  /** The counters of one capture; on success, what they leave for ambiguous groups and whether it is incomplete. */
  method CheckCapture(r: Report, side: Side) returns (ok: bool, ambiguous: int, incomplete: bool)
    ensures ok <==> CaptureOk(r, side)
    ensures ambiguous == Census(r, side)
    ensures incomplete <==> r.captures.On(side).incomplete != 0 || r.captures.On(side).unkeyed != 0
  {
    var c := r.captures.On(side);
    var accounted := r.summary.uniqueMatches + r.summary.only.On(side);
    ok := && IsCounter(c.read) && IsCounter(c.selected) && IsCounter(c.keyed) && IsCounter(c.unkeyed)
          && IsCounter(c.incomplete);
    ok := ok && c.keyed + c.unkeyed == c.selected && c.selected <= c.read && c.incomplete <= c.selected;
    ok := ok && accounted <= c.keyed;
    ambiguous, incomplete := c.keyed - accounted, c.incomplete != 0 || c.unkeyed != 0;
  }

  method CheckCounters(r: Report) returns (ok: bool)
    ensures ok <==> CountersOk(r)
  {
    var s := r.summary;
    if !IsCounter(s.uniqueMatches) || !IsCounter(s.reorderedPairs) || !IsCounter(s.only.ingress)
       || !IsCounter(s.only.egress) || !IsCounter(s.ambiguousGroups) || !IsCounter(s.ambiguousObservations)
       || !IsCounter(s.checksEvaluated) || !IsCounter(s.checksSatisfied) || !IsCounter(s.checksViolated)
       || !IsCounter(s.checksUnevaluable) {
      return false;
    }
    ok := s.checksEvaluated == s.checksSatisfied + s.checksViolated && s.reorderedPairs <= s.uniqueMatches;
  }

  /** The counters, the census of both captures, the verdict and the omissions, as `validate_report` goes through them. */
  method CheckSummary(r: Report) returns (ok: bool)
    ensures ok <==> SummaryOk(r)
  {
    var s, groups := r.summary, r.summary.ambiguousGroups;
    ok := CheckCounters(r);
    if !ok { return; }
    var ingress, egress, ingressIncomplete, egressIncomplete;
    ok, ingress, ingressIncomplete := CheckCapture(r, Ingress);
    if !ok { return; }
    ok, egress, egressIncomplete := CheckCapture(r, Egress);
    if !ok { return; }
    if ingress + egress != s.ambiguousObservations || (groups == 0) != (s.ambiguousObservations == 0)
       || ingress < groups || egress < groups || s.ambiguousObservations < 3 * groups {
      return false;
    }
    var requested := s.uniqueMatches * (|r.rules.preserve| + |r.rules.presence|)
                   + r.captures.egress.selected * (|r.rules.expected| + |r.rules.absent|);
    if s.checksEvaluated + s.checksUnevaluable != requested {
      return false;
    }
    var verdict := Inconclusive;
    if s.checksViolated != 0 {
      verdict := Fail;
    } else if s.uniqueMatches != 0 && !ingressIncomplete && !egressIncomplete
              && s.only == PerSide(0, 0) && groups == 0 && s.checksUnevaluable == 0 {
      verdict := Pass;
    }
    if r.verdict != verdict {
      return false;
    }
    ok := && IsCounter(r.omitted.matches) && |r.matches| + r.omitted.matches == s.uniqueMatches
          && IsCounter(r.omitted.violations) && |r.violations| + r.omitted.violations == s.checksViolated
          && IsCounter(r.omitted.ambiguousGroups) && |r.ambiguous| + r.omitted.ambiguousGroups == groups;
  }

  // ---- The evaluated checks of every match ----

  function AllOutcomes(ms: seq<Match>): Outcomes {
    if ms == [] then Outcomes(0, 0, 0) else Plus(AllOutcomes(ms[..|ms| - 1]), OutcomesOf(ms[|ms| - 1].checks))
  }

  predicate MatchesEvidenced(ms: seq<Match>, rules: Rules) {
    forall i :: 0 <= i < |ms| ==> EvidenceMatches(ms[i].checks, rules)
  }

  predicate OutcomesWithin(o: Outcomes, s: Summary) {
    o.satisfied <= s.checksSatisfied && o.violated <= s.checksViolated && o.unevaluable <= s.checksUnevaluable
  }

  ghost predicate EvaluationsOk(r: Report) {
    MatchesEvidenced(r.matches, r.rules) && OutcomesWithin(AllOutcomes(r.matches), r.summary)
  }

  method CheckEvaluations(r: Report) returns (ok: bool)
    ensures ok <==> EvaluationsOk(r)
  {
    var declared, outcomes := Declared(r.rules), Outcomes(0, 0, 0);
    for i := 0 to |r.matches|
      invariant MatchesEvidenced(r.matches[..i], r.rules) && outcomes == AllOutcomes(r.matches[..i])
    {
      assert r.matches[..i + 1][..i] == r.matches[..i];
      if Descriptors(r.matches[i].checks) != declared {
        return false;
      }
      ok, outcomes := CountChecks(r.matches[i].checks, outcomes);
      if !ok {
        return;
      }
    }
    assert r.matches[..|r.matches|] == r.matches;
    ok := OutcomesWithin(outcomes, r.summary);
  }

  ghost predicate ReportOk(r: Report) {
    RulesOk(r.rules) && SummaryOk(r) && DetailsOk(r) && EvaluationsOk(r)
  }

  // ---- What acceptance means ----

  lemma {:induction false} MembersWithinTotals(gs: seq<Group>, side: Side, width: nat)
    requires forall i :: 0 <= i < |gs| ==> GroupOk(gs[i], width)
    ensures |GroupEvidence(gs, side)| <= GroupTotal(gs, side)
    ensures |GroupEvidence(gs, side)| == GroupTotal(gs, side) ==> FullyListed(gs, side)
  {
    if gs != [] {
      var last := |gs| - 1;
      MembersWithinTotals(gs[..last], side, width);
      assert GroupOk(gs[last], width);
      if |GroupEvidence(gs, side)| == GroupTotal(gs, side) {
        forall i | 0 <= i < |gs| ensures |gs[i].members.On(side)| == gs[i].total.On(side) {
          assert i < last ==> gs[i] == gs[..last][i];
        }
      }
    }
  }

  ghost predicate FullyListed(gs: seq<Group>, side: Side) {
    forall i :: 0 <= i < |gs| ==> |gs[i].members.On(side)| == gs[i].total.On(side)
  }

  ghost predicate Conserved(r: Report) {
    |Retained(r, Ingress)| + |Retained(r, Egress)|
    + 2 * r.omitted.matches + r.omitted.groupMembers
    + r.omitted.unmatched.ingress + r.omitted.unmatched.egress
    + r.omitted.unkeyed.ingress + r.omitted.unkeyed.egress
    == r.captures.ingress.selected + r.captures.egress.selected
  }

  /**
    Conservation: over both captures, the observations listed and the observations counted as
    omitted make up the selected frames exactly. An omitted match stands for a frame on each side.
   */
  lemma {:induction false} ObservationsConserved(r: Report)
    requires ReportOk(r)
    ensures Conserved(r)
  {
    assert SideListed(r, Ingress) && SideListed(r, Egress);
    assert GroupCensusOk(r);
  }

  ghost predicate NothingOmitted(r: Report) {
    && r.omitted.matches == 0 && r.omitted.groupMembers == 0 && r.omitted.ambiguousGroups == 0
    && r.omitted.unmatched == PerSide(0, 0) && r.omitted.unkeyed == PerSide(0, 0)
  }

  ghost predicate Partitioned(r: Report, side: Side) {
    && Distinct(Frames(Retained(r, side)))
    && (forall frame :: frame in Frames(Retained(r, side)) ==> 1 <= frame <= r.captures.On(side).read)
    && |Retained(r, side)| == r.captures.On(side).selected
    && FullyListed(r.ambiguous, side)
  }

  /**
    The census partition: an accepted report that omits nothing lists, on each side, pairwise
    distinct frames of the capture, exactly as many as were selected, with every group complete.
   */
  lemma {:induction false} CensusIsPartition(r: Report, side: Side)
    requires ReportOk(r) && NothingOmitted(r)
    ensures Partitioned(r, side)
  {
    assert SideListed(r, Ingress) && SideListed(r, Egress);
    assert GroupCensusOk(r);
    MembersWithinTotals(r.ambiguous, Ingress, |r.rules.identity|);
    MembersWithinTotals(r.ambiguous, Egress, |r.rules.identity|);
    FramesInRange(Retained(r, side), r.captures.On(side));
    assert CanList(Ledger({}, {}), Retained(r, side), r.captures.On(side));
  }

  lemma {:induction false} FramesInRange(entries: seq<Evidence>, capture: Capture)
    requires AllOk(entries, capture)
    ensures forall frame :: frame in Frames(entries) ==> 1 <= frame <= capture.read
  {
    forall frame | frame in Frames(entries) ensures 1 <= frame <= capture.read {
      var i :| 0 <= i < |entries| && Frames(entries)[i] == frame;
      assert EvidenceOk(entries[i], capture);
    }
  }

  ghost function InvertedAt(ms: seq<Match>, n: nat): set<int>
    requires n <= |ms|
  {
    set i: nat | i < n && Inverted(ms, i) :: i
  }

  lemma {:induction false} FlagsCountInversions(ms: seq<Match>, n: nat)
    requires n <= |ms| && OrderOk(ms, true)
    ensures CountReordered(ms[..n]) == |InvertedAt(ms, n)|
  {
    hide Inverted;
    if n > 0 {
      FlagsCountInversions(ms, n - 1);
      assert ms[..n][..n - 1] == ms[..n - 1];
      assert FlagOk(ms, n - 1, true);
      assert InvertedAt(ms, n) == InvertedAt(ms, n - 1) + (if Inverted(ms, n - 1) then {n - 1} else {});
    }
  }

  /** With no match omitted, the reorder count is the number of matches an earlier one overtook. */
  lemma {:induction false} ReorderCountIsExact(r: Report)
    requires ReportOk(r) && r.omitted.matches == 0
    ensures r.summary.reorderedPairs == |InvertedAt(r.matches, |r.matches|)|
  {
    hide RulesOk, SummaryOk, EvaluationsOk, BalanceOk, SideOk, SideListed, KeysOk, Fresh;
    FlagsCountInversions(r.matches, |r.matches|);
    assert r.matches[..|r.matches|] == r.matches;
  }

  /**
    Some pair matched, every check was evaluated, no frame was incomplete and the matches account for
    every selected frame of both captures.
   */
  ghost predicate EveryFrameMatched(r: Report) {
    && r.summary.uniqueMatches > 0 && r.summary.checksUnevaluable == 0
    && r.captures.ingress.incomplete == 0 && r.captures.egress.incomplete == 0
    && r.captures.ingress.selected == r.summary.uniqueMatches == r.captures.egress.selected
  }

  /** The violations listed and the violations omitted. */
  function ViolationCount(r: Report): int {
    |r.violations| + r.omitted.violations
  }

  /** A verdict of pass means exactly that every frame matched and no check was violated. */
  lemma {:induction false} PassMeansEveryFrameMatched(r: Report)
    requires SummaryOk(r)
    ensures r.verdict.Pass? <==> EveryFrameMatched(r) && ViolationCount(r) == 0
  {
    assert CaptureOk(r, Ingress) && CaptureOk(r, Egress) && AmbiguityOk(r);
    if r.verdict.Pass? {
      assert Census(r, Ingress) == 0 && Census(r, Egress) == 0;
    }
  }

  /** A report fails exactly when it lists or omits a violation, whatever else it says. */
  lemma {:induction false} FailMeansViolation(r: Report)
    requires SummaryOk(r)
    ensures r.verdict.Fail? <==> ViolationCount(r) > 0
    ensures r.verdict.Inconclusive? <==> ViolationCount(r) == 0 && !EveryFrameMatched(r)
  {
    assert OmissionsOk(r);
    PassMeansEveryFrameMatched(r);
  }

  /** An accepted pass that lists all its matches pairs the two captures' selected frames one to one. */
  lemma {:induction false} PassPairsOneToOne(r: Report, side: Side)
    requires ReportOk(r) && r.verdict.Pass? && r.omitted.matches == 0
    ensures Distinct(Frames(MatchEvidence(r.matches, side)))
    ensures |r.matches| == r.captures.On(side).selected
    ensures Retained(r, side) == MatchEvidence(r.matches, side)
  {
    PassMeansEveryFrameMatched(r);
    assert SideOk(r, r.matches, side);
    assert SideListed(r, side) && GroupCensusOk(r);
    assert r.ambiguous == [] && ListedEvidence(r, side) == [];
  }

  lemma {:induction false} AscendingIsCounting(ranks: seq<int>, i: nat)
    requires forall j, k :: 0 <= j < k < |ranks| ==> ranks[j] < ranks[k]
    requires forall j :: 0 <= j < |ranks| ==> 0 <= ranks[j] < |ranks|
    requires i < |ranks|
    ensures ranks[i] == i
  {
    AtLeast(ranks, i);
    AtMost(ranks, i);
  }

  lemma {:induction false} AtLeast(ranks: seq<int>, i: nat)
    requires forall j, k :: 0 <= j < k < |ranks| ==> ranks[j] < ranks[k]
    requires forall j :: 0 <= j < |ranks| ==> 0 <= ranks[j]
    requires i < |ranks|
    ensures ranks[i] >= i
  {
    if i > 0 {
      AtLeast(ranks, i - 1);
      assert ranks[i - 1] < ranks[i];
    }
  }

  lemma {:induction false} AtMost(ranks: seq<int>, i: nat)
    requires forall j, k :: 0 <= j < k < |ranks| ==> ranks[j] < ranks[k]
    requires forall j :: 0 <= j < |ranks| ==> ranks[j] < |ranks|
    requires i < |ranks|
    ensures ranks[i] <= i
    decreases |ranks| - i
  {
    if i + 1 < |ranks| {
      AtMost(ranks, i + 1);
      assert ranks[i] < ranks[i + 1];
    }
  }

  /** The first `n` ranks. */
  ghost function Below(n: nat): set<int> {
    if n == 0 then {} else Below(n - 1) + {n - 1}
  }

  lemma {:induction false} BelowSize(n: nat)
    ensures |Below(n)| == n && forall i :: i in Below(n) <==> 0 <= i < n
  {
    if n > 0 {
      BelowSize(n - 1);
    }
  }

  lemma {:induction false} DistinctSize(s: seq<int>)
    requires Distinct(s)
    ensures |Elements(s)| == |s|
  {
    if s == [] {
      assert Elements(s) == {};
    } else {
      var front, last := s[..|s| - 1], s[|s| - 1];
      DistinctSize(front);
      assert Elements(s) == Elements(front) + {last};
      assert last !in front;
    }
  }

  lemma {:induction false} DistinctFills(s: seq<int>)
    requires Distinct(s) && forall i :: 0 <= i < |s| ==> 0 <= s[i] < |s|
    ensures Elements(s) == Below(|s|)
  {
    DistinctSize(s);
    BelowSize(|s|);
    var rest := Below(|s|) - Elements(s);
    assert Elements(s) <= Below(|s|);
    assert |Below(|s|)| == |Elements(s)| + |rest|;
  }

  /**
    In an accepted pass that lists all its matches the ranks are exact: the matches stand in the
    order of the ingress capture, and their egress ranks are a permutation of the same numbers.
   */
  lemma {:induction false} PassRanksAreExact(r: Report)
    requires ReportOk(r) && r.verdict.Pass? && r.omitted.matches == 0
    ensures forall i :: 0 <= i < |r.matches| ==> r.matches[i].order.ingress == i
    ensures Distinct(MatchRanks(r.matches, Egress))
    ensures Elements(MatchRanks(r.matches, Egress)) == Below(|r.matches|)
  {
    PassMeansEveryFrameMatched(r);
    assert CaptureOk(r, Ingress) && CaptureOk(r, Egress) && OmissionsOk(r);
    assert SideOk(r, r.matches, Ingress) && SideOk(r, r.matches, Egress) && OrderOk(r.matches, true);
    hide SummaryOk, RulesOk, EvaluationsOk, DetailsOk, EvidenceOk, CanList, KeysOk, FlagOk, CaptureOk;
    var ingress, egress := MatchRanks(r.matches, Ingress), MatchRanks(r.matches, Egress);
    forall i | 0 <= i < |r.matches| ensures 0 <= ingress[i] < |r.matches| && 0 <= egress[i] < |r.matches| {
      assert RankOk(r, r.matches[i], Ingress) && RankOk(r, r.matches[i], Egress);
    }
    forall i | 0 <= i < |r.matches| ensures r.matches[i].order.ingress == i {
      AscendingIsCounting(ingress, i);
    }
    DistinctFills(egress);
  }

  // ---- What the checks of an accepted report mean ----

  ghost predicate EachHas(ms: seq<Match>, width: nat) {
    forall i :: 0 <= i < |ms| ==> |ms[i].checks| == width && AllChecksOk(ms[i].checks)
  }

  lemma {:induction false} OutcomesAddUp(ms: seq<Match>, width: nat)
    requires EachHas(ms, width)
    ensures var o := AllOutcomes(ms); o.satisfied + o.violated + o.unevaluable == |ms| * width
  {
    hide AllChecksOk, Count;
    if ms != [] {
      var last := |ms| - 1;
      OutcomesAddUp(ms[..last], width);
      CountsAddUp(ms[last].checks);
      OneMoreTimes(last, width);
    }
  }

  lemma {:induction false} OneMoreTimes(n: nat, width: nat)
    ensures (n + 1) * width == n * width + width
  {
  }

  lemma {:induction false} EachHasDeclared(ms: seq<Match>, rules: Rules)
    requires MatchesEvidenced(ms, rules)
    ensures EachHas(ms, |Declared(rules)|)
  {
    hide Declared, AllChecksOk;
    forall i | 0 <= i < |ms| ensures |ms[i].checks| == |Declared(rules)| && AllChecksOk(ms[i].checks) {
      assert EvidenceMatches(ms[i].checks, rules);
    }
  }

  /** Every requested check is a check of some match: none is omitted, and expectations need no more frames. */
  ghost predicate ChecksAllListed(r: Report) {
    && r.omitted.matches == 0
    && (r.captures.egress.selected == r.summary.uniqueMatches || |r.rules.expected| + |r.rules.absent| == 0)
  }

  lemma {:induction false} RequestedAreListed(r: Report)
    requires ReportOk(r) && ChecksAllListed(r)
    ensures RequestedChecks(r) == |r.matches| * |Declared(r.rules)|
  {
    hide RulesOk, DetailsOk, EvaluationsOk, CountersOk, CaptureOk, AmbiguityOk, VerdictOk, Declared;
    Distributes(|r.matches|, r.captures.egress.selected,
                |r.rules.preserve| + |r.rules.presence|, |r.rules.expected| + |r.rules.absent|);
  }

  lemma {:induction false} Distributes(n: nat, selected: int, preserved: nat, expectations: nat)
    requires selected == n || expectations == 0
    ensures n * preserved + selected * expectations == n * (preserved + expectations)
  {
  }

  /**
    When every requested check is listed with some match, the summary counts exactly the listed
    outcomes: three upper bounds and one total leave no room.
   */
  lemma {:induction false} CheckSummaryIsExact(r: Report)
    requires ReportOk(r) && ChecksAllListed(r)
    ensures AllOutcomes(r.matches)
         == Outcomes(r.summary.checksSatisfied, r.summary.checksViolated, r.summary.checksUnevaluable)
  {
    hide RulesOk, DetailsOk, Declared;
    EachHasDeclared(r.matches, r.rules);
    OutcomesAddUp(r.matches, |Declared(r.rules)|);
    RequestedAreListed(r);
  }

  lemma {:induction false} NoneAmong(ms: seq<Match>, i: nat)
    requires AllOutcomes(ms).violated == 0 && AllOutcomes(ms).unevaluable == 0 && i < |ms|
    ensures Count(ms[i].checks, Violated) == 0 && Count(ms[i].checks, Unevaluable) == 0
  {
    if i < |ms| - 1 {
      NoneAmong(ms[..|ms| - 1], i);
    }
  }

  /** In an accepted pass every listed check is satisfied, and a preserved field shows the same value twice. */
  lemma {:induction false} PassMeansChecksSatisfied(r: Report, i: nat, k: nat)
    requires ReportOk(r) && r.verdict.Pass? && i < |r.matches| && k < |r.matches[i].checks|
    ensures r.matches[i].checks[k].outcome.Satisfied?
    ensures var c := r.matches[i].checks[k];
      c.descriptor.kind.Preserve? ==> c.actual.Value? && c.actual == c.expected
  {
    hide RulesOk, DetailsOk;
    var checks := r.matches[i].checks;
    NoneAmong(r.matches, i);
    NoneCounted(checks, Violated, k);
    NoneCounted(checks, Unevaluable, k);
    assert EvidenceMatches(checks, r.rules);
    assert CheckOk(checks[k]);
    CheckMeans(checks[k]);
  }

  /**
    `validate_report`: it accepts exactly the reports that hold, and so what they imply is what
    acceptance implies.
   */
  method ValidateReport(r: Report) returns (ok: bool)
    ensures ok <==> ReportOk(r)
    ensures ok ==> Conserved(r)
    ensures ok && NothingOmitted(r) ==> Partitioned(r, Ingress) && Partitioned(r, Egress)
    ensures ok && r.omitted.matches == 0 ==> r.summary.reorderedPairs == |InvertedAt(r.matches, |r.matches|)|
    ensures ok ==>
      r.verdict == if ViolationCount(r) > 0 then Fail else if EveryFrameMatched(r) then Pass else Inconclusive
  {
    hide RulesOk, DetailsOk, EvaluationsOk, Conserved, Partitioned;
    ok := CheckRules(r.rules);
    if !ok { return; }
    ok := CheckSummary(r);
    if !ok { return; }
    ok := ValidateDetails(r);
    if ok {
      ok := CheckEvaluations(r);
      if ok {
        Accepted(r);
        FailMeansViolation(r);
      }
    }
  }

  lemma {:induction false} Accepted(r: Report)
    requires ReportOk(r)
    ensures Conserved(r)
    ensures NothingOmitted(r) ==> Partitioned(r, Ingress) && Partitioned(r, Egress)
    ensures r.omitted.matches == 0 ==> r.summary.reorderedPairs == |InvertedAt(r.matches, |r.matches|)|
  {
    hide ReportOk, Conserved, Partitioned;
    ObservationsConserved(r);
    if NothingOmitted(r) {
      CensusIsPartition(r, Ingress);
      CensusIsPartition(r, Egress);
    }
    if r.omitted.matches == 0 {
      ReorderCountIsExact(r);
    }
  }

  // ---- An accepted report ----

  const SEEN := Evidence(1, 0, 0, 1, None, Complete)
  const READ := Capture(1, 1, 1, 0, 0)
  const FIELD := Word([116, 116, 108])

  /** One frame in, the same frame out, one field compared and found preserved. */
  function OnePair(): Report {
    Report(Pass, Rules([FIELD], [FIELD], [], [], [], PropertyChecks), PerSide(READ, READ),
           Summary(1, 0, PerSide(0, 0), 0, 0, 1, 1, 0, 0), Omitted(0, 0, 0, 0, PerSide(0, 0), PerSide(0, 0)),
           [Match([Value(7)], PerSide(SEEN, SEEN), PerSide(0, 0), false,
                  [Check(Descriptor(Preserve, FIELD, Nothing), Satisfied, Observed, Some(Observed), Value(64), Value(64))])],
           PerSide([], []), PerSide([], []), [], [])
  }

  lemma {:induction false} OnePairSide(side: Side)
    ensures SideOk(OnePair(), OnePair().matches, side) && SideListed(OnePair(), side)
    ensures Listed(Ledger({}, {}), Retained(OnePair(), side)).incomplete == {}
  {
    var r := OnePair();
    assert r.matches == [] + [r.matches[0]];
    SideExtended(r, [], r.matches[0], side);
    ListOne(Ledger({}, {}), SEEN, READ);
    assert MatchEvidence(r.matches, side) == [SEEN];
    assert Retained(r, side) == [SEEN];
    assert Listed(Ledger({}, {}), MatchEvidence([], side)) == Ledger({}, {});
    assert SideOk(r, [], side);
  }

  lemma {:induction false} OnePairMatches()
    ensures MatchesOk(OnePair(), OnePair().matches) && ReorderedCountOk(OnePair())
  {
    var r := OnePair();
    OnePairSide(Ingress);
    OnePairSide(Egress);
    KeysExtended([], r.matches[0], 1);
    assert [] + [r.matches[0]] == r.matches;
    assert !Inverted(r.matches, 0);
    assert OrderOk(r.matches, true);
    assert CountReordered(r.matches[..0]) == 0;
  }

  lemma {:induction false} OnePairCounters(r: Report)
    requires r == OnePair()
    ensures CountersOk(r) && CaptureOk(r, Ingress) && CaptureOk(r, Egress) && AmbiguityOk(r)
  {
  }

  lemma {:induction false} OnePairVerdict(r: Report)
    requires r == OnePair()
    ensures VerdictOk(r) && r.verdict.Pass? && OmissionsOk(r) && NothingOmitted(r)
  {
  }

  lemma {:induction false} OnePairRules(r: Report)
    requires r == OnePair()
    ensures RulesOk(r.rules)
  {
    assert FieldBytes([FIELD][..0]) == 0;
    assert Utf8Size([116, 116, 108]) == 3 by {
      assert [116, 116, 108][1..] == [116, 108] && [116, 108][1..] == [108];
    }
  }

  lemma {:induction false} OneOutcome(c: Check)
    requires c.outcome.Satisfied?
    ensures OutcomesOf([c]) == Outcomes(1, 0, 0)
  {
    var none: seq<Check> := [];
    assert [c][..|[c]| - 1] == none;
    assert Count([c], Satisfied) == Count(none, Satisfied) + 1;
    assert Count([c], Violated) == Count(none, Violated);
    assert Count([c], Unevaluable) == Count(none, Unevaluable);
  }

  lemma {:induction false} OnePairEvidence(r: Report)
    requires r == OnePair()
    ensures EvidenceMatches(r.matches[0].checks, r.rules)
  {
    var checks := r.matches[0].checks;
    assert Descriptors(checks) == [Descriptor(Preserve, FIELD, Nothing)] == Declared(r.rules);
    assert CheckOk(checks[0]);
  }

  lemma {:induction false} OnePairEvaluations(r: Report)
    requires r == OnePair()
    ensures EvaluationsOk(r)
  {
    hide EvidenceMatches, AllOutcomes;
    var m := r.matches[0];
    OnePairEvidence(r);
    OneEvidenced(m);
    assert r.matches == [m];
    assert MatchesEvidenced(r.matches, r.rules);
    assert OutcomesWithin(AllOutcomes([m]), r.summary);
  }

  lemma {:induction false} OneEvidenced(m: Match)
    requires |m.checks| == 1 && m.checks[0].outcome.Satisfied?
    ensures AllOutcomes([m]) == Outcomes(1, 0, 0)
  {
    hide OutcomesOf;
    var none: seq<Match> := [];
    OneOutcome(m.checks[0]);
    assert m.checks == [m.checks[0]];
    assert [m][..|[m]| - 1] == none;
    assert AllOutcomes([m]) == Plus(AllOutcomes(none), OutcomesOf(m.checks));
  }

  lemma {:induction false} OnePairBalance()
    ensures BalanceOk(OnePair())
  {
    var r := OnePair();
    OnePairSide(Ingress);
    OnePairSide(Egress);
    assert {} + ViolationFlags(r.violations, Ingress) == {} && {} + ViolationFlags(r.violations, Egress) == {};
  }

  lemma {:induction false} OnePairObservations()
    ensures ObservationsOk(OnePair())
  {
    var r := OnePair();
    OnePairMatches();
    OnePairSide(Ingress);
    OnePairSide(Egress);
    assert MatchKeys(r.matches) + GroupKeys(r.ambiguous) == MatchKeys(r.matches);
  }

  lemma {:induction false} Assembled(r: Report)
    requires RulesOk(r.rules)
    requires CountersOk(r) && CaptureOk(r, Ingress) && CaptureOk(r, Egress) && AmbiguityOk(r)
    requires VerdictOk(r) && OmissionsOk(r)
    requires ObservationsOk(r) && BalanceOk(r) && EvaluationsOk(r)
    ensures ReportOk(r)
  {
  }

  /** Such a report passes, omits nothing and is accepted: what acceptance implies is not empty. */
  lemma {:induction false} OnePairIsAccepted()
    ensures ReportOk(OnePair()) && NothingOmitted(OnePair()) && OnePair().verdict.Pass?
  {
    hide *;
    OnePairRules(OnePair());
    OnePairCounters(OnePair());
    OnePairVerdict(OnePair());
    OnePairObservations();
    OnePairBalance();
    OnePairEvaluations(OnePair());
    Assembled(OnePair());
  }
}
