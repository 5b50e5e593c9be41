/**
  The rules of a forwarding report and the evidence of its checks, in the reference consumer
  examples/consumers/forwarding.py: the budget of declared rules, the checks they declare, and the
  validation of each evaluated check.

  A typed-evidence operand is represented by a token for its canonical value; `Null` is a missing
  operand and `Malformed` one that is rejected wherever it appears.
 */
module ForwardingChecks {
  import opened Wrappers
  import J = JsonTree

  const MAX_RULE_DECLARATIONS: nat := 256
  const MAX_RULE_DECLARATION_BYTES: nat := 64 * 1024

  datatype Operand = Value(token: nat) | Null | Malformed

  /** A JSON value where the rules want a string: a string, null or missing, or anything else. */
  datatype Literal = Word(text: J.Text) | Nothing | Odd(token: nat)

  datatype Kind = Preserve | PreservePresence | Expect | ExpectAbsent | OtherKind(token: nat)

  /** What a check is: its kind, its field and the literal it was declared with. */
  datatype Descriptor = Descriptor(kind: Kind, field: Literal, value: Literal)

  datatype Expectation = Expectation(field: Literal, value: Literal)

  datatype Comparison = PropertyChecks | CorrespondenceOnly | OtherComparison

  datatype Rules = Rules(
    identity: seq<Literal>, preserve: seq<Literal>, presence: seq<Literal>,
    expected: seq<Expectation>, absent: seq<Literal>, comparison: Comparison)

  // ---- The budget of the declarations ----

  function Utf8Width(c: nat): nat {
    if c < 0x80 then 1 else if c < 0x800 then 2 else if c < 0x1_0000 then 3 else 4
  }

  ghost function Pow2(n: nat): nat {
    if n == 0 then 1 else 2 * Pow2(n - 1)
  }

  /** How many code points fit in `width` bytes of UTF-8: a longer form carries five bits a byte and one more. */
  ghost function Utf8Room(width: nat): nat {
    if width == 1 then Pow2(7) else Pow2(5 * width + 1)
  }

  /** A code point takes the fewest bytes that have room for it. */
  lemma {:induction false} WidthIsLeast(c: nat)
    requires c <= 0x10FFFF
    ensures 1 <= Utf8Width(c) <= 4 && c < Utf8Room(Utf8Width(c))
    ensures Utf8Width(c) > 1 ==> c >= Utf8Room(Utf8Width(c) - 1)
  {
    assert Pow2(7) == 0x80 && Pow2(11) == 0x800 && Pow2(16) == 0x1_0000 && Pow2(21) == 0x20_0000;
  }

  function Utf8Size(text: J.Text): nat {
    if text == [] then 0 else Utf8Width(text[0]) + Utf8Size(text[1..])
  }

  predicate IsText(l: Literal) {
    l.Word? && J.Encodable(l.text)
  }

  predicate IsField(l: Literal) {
    IsText(l) && l.text != []
  }

  predicate AreFields(fields: seq<Literal>) {
    forall i :: 0 <= i < |fields| ==> IsField(fields[i])
  }

  predicate AreExpectations(expected: seq<Expectation>) {
    forall i :: 0 <= i < |expected| ==> IsText(expected[i].field) && IsText(expected[i].value)
  }

  ghost function FieldBytes(fields: seq<Literal>): nat
    requires AreFields(fields)
  {
    if fields == [] then 0 else FieldBytes(fields[..|fields| - 1]) + Utf8Size(fields[|fields| - 1].text)
  }

  ghost function ExpectationBytes(expected: seq<Expectation>): nat
    requires AreExpectations(expected)
  {
    if expected == [] then 0
    else
      var last := expected[|expected| - 1];
      ExpectationBytes(expected[..|expected| - 1]) + Utf8Size(last.field.text) + 1 + Utf8Size(last.value.text)
  }

  function Declarations(rules: Rules): nat {
    |rules.identity| + |rules.preserve| + |rules.presence| + |rules.expected| + |rules.absent|
  }

  ghost predicate BudgetOk(rules: Rules) {
    && Declarations(rules) <= MAX_RULE_DECLARATIONS
    && AreFields(rules.identity) && AreFields(rules.preserve) && AreFields(rules.presence) && AreFields(rules.absent)
    && AreExpectations(rules.expected)
    && FieldBytes(rules.identity) + FieldBytes(rules.preserve) + FieldBytes(rules.presence)
       + FieldBytes(rules.absent) + ExpectationBytes(rules.expected) <= MAX_RULE_DECLARATION_BYTES
  }

  method CountFields(fields: seq<Literal>, before: nat) returns (ok: bool, bytes: nat)
    ensures ok <==> AreFields(fields)
    ensures ok ==> bytes == before + FieldBytes(fields)
  {
    bytes := before;
    for i := 0 to |fields|
      invariant AreFields(fields[..i]) && bytes == before + FieldBytes(fields[..i])
    {
      if !IsField(fields[i]) {
        return false, bytes;
      }
      assert fields[..i + 1][..i] == fields[..i];
      bytes := bytes + Utf8Size(fields[i].text);
    }
    assert fields[..|fields|] == fields;
    ok := true;
  }

  method CountExpectations(expected: seq<Expectation>, before: nat) returns (ok: bool, bytes: nat)
    ensures ok <==> AreExpectations(expected)
    ensures ok ==> bytes == before + ExpectationBytes(expected)
  {
    bytes := before;
    for i := 0 to |expected|
      invariant AreExpectations(expected[..i]) && bytes == before + ExpectationBytes(expected[..i])
    {
      if !IsText(expected[i].field) || !IsText(expected[i].value) {
        return false, bytes;
      }
      assert expected[..i + 1][..i] == expected[..i];
      bytes := bytes + Utf8Size(expected[i].field.text) + 1 + Utf8Size(expected[i].value.text);
    }
    assert expected[..|expected|] == expected;
    ok := true;
  }

  /** `validate_rule_budget`: one byte budget runs through all five lists. */
  method CheckBudget(rules: Rules) returns (ok: bool)
    ensures ok <==> BudgetOk(rules)
  {
    if Declarations(rules) > MAX_RULE_DECLARATIONS {
      return false;
    }
    var bytes := 0;
    ok, bytes := CountFields(rules.identity, bytes);
    if !ok { return; }
    ok, bytes := CountFields(rules.preserve, bytes);
    if !ok { return; }
    ok, bytes := CountFields(rules.presence, bytes);
    if !ok { return; }
    ok, bytes := CountFields(rules.absent, bytes);
    if !ok { return; }
    ok, bytes := CountExpectations(rules.expected, bytes);
    ok := ok && bytes <= MAX_RULE_DECLARATION_BYTES;
  }

  // ---- The declared checks ----

  function FieldChecks(kind: Kind, fields: seq<Literal>): (checks: seq<Descriptor>)
    ensures |checks| == |fields|
  {
    seq(|fields|, i requires 0 <= i < |fields| => Descriptor(kind, fields[i], Nothing))
  }

  function ExpectationChecks(expected: seq<Expectation>): (checks: seq<Descriptor>)
    ensures |checks| == |expected|
  {
    seq(|expected|, i requires 0 <= i < |expected| => Descriptor(Expect, expected[i].field, expected[i].value))
  }

  /** Preservations first, then expectations, as the producer declares them. */
  function Declared(rules: Rules): (checks: seq<Descriptor>)
    ensures |checks| == |rules.preserve| + |rules.presence| + |rules.expected| + |rules.absent|
  {
    FieldChecks(Preserve, rules.preserve) + FieldChecks(PreservePresence, rules.presence)
    + ExpectationChecks(rules.expected) + FieldChecks(ExpectAbsent, rules.absent)
  }

  predicate DescriptorOk(d: Descriptor) {
    && d.field.Word? && d.field.text != []
    && (d.kind.Expect? ==> d.value.Word?)
  }

  predicate LabelOk(rules: Rules) {
    rules.comparison == if Declared(rules) == [] then CorrespondenceOnly else PropertyChecks
  }

  ghost predicate RulesOk(rules: Rules) {
    && BudgetOk(rules) && rules.identity != [] && LabelOk(rules)
    && forall i :: 0 <= i < |Declared(rules)| ==> DescriptorOk(Declared(rules)[i])
  }

  method CheckRules(rules: Rules) returns (ok: bool)
    ensures ok <==> RulesOk(rules)
  {
    ok := CheckBudget(rules);
    if ok {
      var declared := Declared(rules);
      ok := rules.identity != [] && LabelOk(rules)
            && forall i :: 0 <= i < |declared| ==> DescriptorOk(declared[i]);
    }
  }

  /** Of the declared checks, only an expectation without a field can be refused that the budget let through. */
  lemma {:induction false} RulesMean(rules: Rules)
    ensures RulesOk(rules)
       <==> && BudgetOk(rules) && rules.identity != [] && LabelOk(rules)
            && forall i :: 0 <= i < |rules.expected| ==> rules.expected[i].field.text != []
  {
    if BudgetOk(rules) {
      var declared, first := Declared(rules), |rules.preserve| + |rules.presence|;
      assert forall i :: 0 <= i < |rules.preserve| ==> IsField(rules.preserve[i]);
      assert forall i :: 0 <= i < |rules.presence| ==> IsField(rules.presence[i]);
      assert forall i :: 0 <= i < |rules.absent| ==> IsField(rules.absent[i]);
      forall i | 0 <= i < |rules.expected|
        ensures declared[first + i] == Descriptor(Expect, rules.expected[i].field, rules.expected[i].value)
      {
      }
      forall i | 0 <= i < |declared|
        ensures DescriptorOk(declared[i])
           <==> (first <= i < first + |rules.expected| ==> rules.expected[i - first].field.text != [])
      {
      }
      if RulesOk(rules) {
        forall i | 0 <= i < |rules.expected| ensures rules.expected[i].field.text != [] {
          assert DescriptorOk(declared[first + i]);
        }
      }
    }
  }

  // ---- One evaluated check ----

  datatype Outcome = Satisfied | Violated | Unevaluable | OtherOutcome

  /** What is known of a cell: a value, its absence, or that neither could be read. */
  datatype Cell = Observed | Absent | Unreadable | OtherCell

  datatype Check = Check(
    descriptor: Descriptor, outcome: Outcome, actualState: Cell, expectedState: Option<Cell>,
    actual: Operand, expected: Operand)

  predicate Preserves(kind: Kind) {
    kind.Preserve? || kind.PreservePresence?
  }

  predicate IsKnown(cell: Cell) {
    cell.Observed? || cell.Absent?
  }

  /** An observed cell has a value and an absent one has none. */
  predicate CellOk(cell: Cell, operand: Operand) {
    && !cell.OtherCell? && !operand.Malformed?
    && (cell.Observed? ==> operand.Value?) && (cell.Absent? ==> operand.Null?)
  }

  /** Whether the evidence can decide the check at all. */
  predicate Available(c: Check) {
    match c.descriptor.kind
    case Preserve => c.actualState.Observed? && c.expectedState == Some(Observed)
    case PreservePresence => IsKnown(c.actualState) && c.expectedState.Some? && IsKnown(c.expectedState.value)
    case Expect => c.actualState.Observed?
    case ExpectAbsent => IsKnown(c.actualState)
    case OtherKind(_) => false
  }

  /** `validate_check`. */
  predicate CheckOk(c: Check) {
    && !c.descriptor.kind.OtherKind? && !c.outcome.OtherOutcome?
    && CellOk(c.actualState, c.actual) && !c.expected.Malformed?
    && (c.expectedState.Some? ==> !c.expectedState.value.OtherCell?)
    && (if Preserves(c.descriptor.kind) then c.expectedState.Some? && CellOk(c.expectedState.value, c.expected)
        else c.expectedState.None? && c.expected.Null?)
    && (!c.outcome.Unevaluable? <==> Available(c))
    && (!c.outcome.Unevaluable? ==>
          match c.descriptor.kind
          case Preserve => c.actual == c.expected <==> c.outcome.Satisfied?
          case PreservePresence => c.actualState == c.expectedState.value <==> c.outcome.Satisfied?
          case Expect => true
          case ExpectAbsent => c.actualState.Absent? <==> c.outcome.Satisfied?
          case OtherKind(_) => false)
  }

  /** `validate_check`, one requirement after the other. */
  method ValidateCheck(c: Check) returns (ok: bool)
    ensures ok <==> CheckOk(c)
  {
    var kind := c.descriptor.kind;
    if kind.OtherKind? || c.outcome.OtherOutcome? || c.actualState.OtherCell? || c.expectedState == Some(OtherCell) {
      return false;
    }
    if c.actual.Malformed? || c.expected.Malformed? {
      return false;
    }
    if (c.actualState.Observed? && c.actual.Null?) || (c.actualState.Absent? && !c.actual.Null?) {
      return false;
    }
    var available;
    if kind.Preserve? || kind.PreservePresence? {
      if c.expectedState.None?
         || (c.expectedState.value.Observed? && c.expected.Null?) || (c.expectedState.value.Absent? && !c.expected.Null?) {
        return false;
      }
      available := if kind.Preserve? then c.actualState.Observed? && c.expectedState.value.Observed?
                   else IsKnown(c.actualState) && IsKnown(c.expectedState.value);
    } else {
      if c.expectedState.Some? || !c.expected.Null? {
        return false;
      }
      available := if kind.Expect? then c.actualState.Observed? else IsKnown(c.actualState);
    }
    if c.outcome.Unevaluable? == available {
      return false;
    }
    if c.outcome.Unevaluable? || kind.Expect? {
      return true;
    }
    var satisfied := match kind
      case Preserve => c.actual == c.expected
      case PreservePresence => c.actualState == c.expectedState.value
      case _ => c.actualState.Absent?;
    ok := satisfied == c.outcome.Satisfied?;
  }

  /** The cells agree with their operands, and only a preservation has an ingress side. */
  ghost predicate CellsOk(c: Check) {
    && CellOk(c.actualState, c.actual)
    && if c.descriptor.kind.Preserve? || c.descriptor.kind.PreservePresence?
       then c.expectedState.Some? && CellOk(c.expectedState.value, c.expected)
       else c.expectedState.None? && c.expected.Null?
  }

  /** The outcome that the evidence of a check allows, if it decides it; an expectation is decided elsewhere. */
  ghost predicate Deserves(c: Check)
    requires CellsOk(c)
  {
    var actual, expected := c.actualState, c.expectedState;
    match c.descriptor.kind
    case Preserve =>
      if actual.Observed? && expected.value.Observed?
      then c.outcome == if c.actual.token == c.expected.token then Satisfied else Violated
      else c.outcome == Unevaluable
    case PreservePresence =>
      if !actual.Unreadable? && !expected.value.Unreadable?
      then c.outcome == if c.actual.Null? == c.expected.Null? then Satisfied else Violated
      else c.outcome == Unevaluable
    case Expect => c.outcome in (if actual.Observed? then {Satisfied, Violated} else {Unevaluable})
    case ExpectAbsent =>
      if !actual.Unreadable? then c.outcome == if c.actual.Null? then Satisfied else Violated
      else c.outcome == Unevaluable
    case OtherKind(_) => false
  }

  /**
    With cells that agree with their operands a check is valid exactly when its outcome is the one
    its evidence deserves: equal values, equal presence, absence, and nothing where evidence is short.
   */
  lemma {:induction false} CheckMeans(c: Check)
    ensures CheckOk(c) <==> CellsOk(c) && Deserves(c)
  {
  }

  // ---- The checks of one match ----

  function Descriptors(checks: seq<Check>): (ds: seq<Descriptor>)
    ensures |ds| == |checks|
  {
    seq(|checks|, i requires 0 <= i < |checks| => checks[i].descriptor)
  }

  function Count(checks: seq<Check>, outcome: Outcome): nat {
    if checks == [] then 0
    else Count(checks[..|checks| - 1], outcome) + (if checks[|checks| - 1].outcome == outcome then 1 else 0)
  }

  predicate AllChecksOk(checks: seq<Check>) {
    forall i :: 0 <= i < |checks| ==> CheckOk(checks[i])
  }

  /** The checks of a match are exactly the declared ones, in order, each valid. */
  predicate EvidenceMatches(checks: seq<Check>, rules: Rules) {
    Descriptors(checks) == Declared(rules) && AllChecksOk(checks)
  }

  lemma {:induction false} CountsAddUp(checks: seq<Check>)
    requires AllChecksOk(checks)
    ensures Count(checks, Satisfied) + Count(checks, Violated) + Count(checks, Unevaluable) == |checks|
  {
    if checks != [] {
      var last := |checks| - 1;
      CountsAddUp(checks[..last]);
      assert CheckOk(checks[last]);
    }
  }

  lemma {:induction false} NoneCounted(checks: seq<Check>, outcome: Outcome, i: nat)
    requires Count(checks, outcome) == 0 && i < |checks|
    ensures checks[i].outcome != outcome
  {
    var last := |checks| - 1;
    if i < last {
      NoneCounted(checks[..last], outcome, i);
    }
  }

  /** How often each outcome occurs. */
  datatype Outcomes = Outcomes(satisfied: nat, violated: nat, unevaluable: nat)

  function OutcomesOf(checks: seq<Check>): Outcomes {
    Outcomes(Count(checks, Satisfied), Count(checks, Violated), Count(checks, Unevaluable))
  }

  function Plus(a: Outcomes, b: Outcomes): Outcomes {
    Outcomes(a.satisfied + b.satisfied, a.violated + b.violated, a.unevaluable + b.unevaluable)
  }

  /** The loop over one match's checks: valid ones are counted by their outcome. */
  method CountChecks(checks: seq<Check>, before: Outcomes) returns (ok: bool, after: Outcomes)
    ensures ok <==> AllChecksOk(checks)
    ensures ok ==> after == Plus(before, OutcomesOf(checks))
  {
    after := before;
    for i := 0 to |checks|
      invariant AllChecksOk(checks[..i]) && after == Plus(before, OutcomesOf(checks[..i]))
    {
      var c := checks[i];
      ok := ValidateCheck(c);
      if !ok {
        return false, after;
      }
      assert checks[..i + 1][..i] == checks[..i];
      match c.outcome {
        case Satisfied => after := after.(satisfied := after.satisfied + 1);
        case Violated => after := after.(violated := after.violated + 1);
        case Unevaluable => after := after.(unevaluable := after.unevaluable + 1);
      }
    }
    assert checks[..|checks|] == checks;
    ok := true;
  }

  // ---- A reported violation ----

  /** What a violation of each kind must show. */
  predicate ContradictionOk(kind: Kind, hasIngress: bool, actual: Operand, expected: Operand) {
    && !actual.Malformed? && !expected.Malformed?
    && match kind
       case Preserve => hasIngress && actual.Value? && expected.Value? && actual != expected
       case PreservePresence => hasIngress && (actual.Null? <==> !expected.Null?)
       case _ => expected.Null? && actual.Value?
  }

  /** The cell of an operand that could be read. */
  ghost function CellOf(operand: Operand): Cell {
    if operand.Value? then Observed else Absent
  }

  /**
    What a violation must show is exactly the evidence on which a check of its kind is valid and
    violated; a preservation must show its ingress side too.
   */
  lemma {:induction false} ContradictionIsViolation(
    d: Descriptor, hasIngress: bool, actual: Operand, expected: Operand)
    requires !d.kind.OtherKind?
    ensures var preserves := d.kind.Preserve? || d.kind.PreservePresence?;
      ContradictionOk(d.kind, hasIngress, actual, expected) <==>
        && (preserves ==> hasIngress)
        && CheckOk(Check(d, Violated, CellOf(actual), if preserves then Some(CellOf(expected)) else None, actual, expected))
  {
  }
}
