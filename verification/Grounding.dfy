/** agent/grounding.py: can every figure of an answer be traced to what a tool returned?

    Floating-point numbers are modelled as reals.  Finding the numbers in a text is the
    business of core/numerics.py; here it is a function that comes with the call. */
module Grounding {
  import opened Seqs

  const MATCH_RELATIVE: real := 0.005
  const ZERO_WIDTH: real := 0.000000000001
  const RESCALINGS: seq<real> := [1.0, 100.0, 0.01, 0.001, 1000.0, 0.000001, 1000000.0, 0.000000001, 1000000000.0]
  const DERIVED_RESCALINGS: seq<real> := [1.0, 100.0, 0.01]
  const DERIVATION_LIMIT: nat := 120

  // ----- the trace

  /** What a tool returns: a JSON value. */
  datatype Value =
    | Null
    | Bool(b: bool)
    | Number(x: real)
    | Text(s: string)
    | List(items: seq<Value>)
    | Dict(fields: seq<(string, Value)>)

  /** Why a step is in the trace.  The program itself only has the `tool` name, and a model
      may ask for a tool by any name, "final_answer" included. */
  datatype Kind = ToolCall | UngroundedAnswer | AdvisoryAnswer | ToolCallBudget | FinalAnswer

  datatype Step = Step(iteration: nat, kind: Kind, tool: string, result: Value, ok: bool)

  /** A number found in a text, before its scale word is applied. */
  datatype Candidate = Candidate(value: real, scale: real, isPercent: bool, text: string)

  type Reader = string -> seq<Candidate>

  function Magnitudes(found: seq<Candidate>): seq<real> {
    seq(|found|, i requires 0 <= i < |found| => found[i].value * found[i].scale)
  }

  /** Every number anywhere in a value, however nested. */
  function Walk(read: Reader, v: Value): seq<real>
    decreases v
  {
    match v
    case Null => []
    case Bool(_) => []
    case Number(x) => [x]
    case Text(s) => Magnitudes(read(s))
    case List(items) => WalkItems(read, v, items)
    case Dict(fields) => WalkFields(read, v, fields)
  }

  function WalkItems(read: Reader, ghost whole: Value, items: seq<Value>): seq<real>
    requires forall i :: 0 <= i < |items| ==> items[i] < whole
    decreases whole, |items|
  {
    if items == [] then [] else Walk(read, items[0]) + WalkItems(read, whole, items[1..])
  }

  function WalkFields(read: Reader, ghost whole: Value, fields: seq<(string, Value)>): seq<real>
    requires forall i :: 0 <= i < |fields| ==> fields[i].1 < whole
    decreases whole, |fields|
  {
    if fields == [] then []
    else Magnitudes(read(fields[0].0)) + Walk(read, fields[0].1) + WalkFields(read, whole, fields[1..])
  }

  const CONTROL_TOOLS: set<string> := {"final_answer", "ungrounded_answer", "tool_call_budget"}

  predicate IsEvidence(step: Step) {
    step.tool !in CONTROL_TOOLS && step.ok
  }

  /** The numbers that successful tool calls returned. */
  function EvidenceOf(read: Reader, steps: seq<Step>): set<real> {
    set i, x | 0 <= i < |steps| && IsEvidence(steps[i]) && x in Walk(read, steps[i].result) :: x
  }

  method EvidenceValues(read: Reader, steps: seq<Step>) returns (values: set<real>)
    ensures values == EvidenceOf(read, steps)
  {
    values := {};
    for n := 0 to |steps|
      invariant values == EvidenceOf(read, steps[..n])
    {
      var step := steps[n];
      EvidenceSnoc(read, steps[..n], step);
      assert steps[..n + 1] == steps[..n] + [step];
      if step.tool in CONTROL_TOOLS { continue; }
      if !step.ok { continue; }
      values := values + (set x | x in Walk(read, step.result));
    }
    assert steps[..|steps|] == steps;
  }

  lemma EvidenceSnoc(read: Reader, steps: seq<Step>, step: Step)
    ensures EvidenceOf(read, steps + [step])
         == EvidenceOf(read, steps) + if IsEvidence(step) then (set x | x in Walk(read, step.result)) else {}
  {
    var longer := steps + [step];
    forall x | x in EvidenceOf(read, steps) ensures x in EvidenceOf(read, longer) {
      var i :| 0 <= i < |steps| && IsEvidence(steps[i]) && x in Walk(read, steps[i].result);
      assert longer[i] == steps[i];
    }
    if IsEvidence(step) {
      forall x | x in Walk(read, step.result) ensures x in EvidenceOf(read, longer) {
        assert longer[|steps|] == step;
      }
    }
    forall x | x in EvidenceOf(read, longer)
      ensures x in EvidenceOf(read, steps) || (IsEvidence(step) && x in Walk(read, step.result))
    {
      var i :| 0 <= i < |longer| && IsEvidence(longer[i]) && x in Walk(read, longer[i].result);
      if i < |steps| { assert steps[i] == longer[i]; }
    }
  }

  // ----- support

  function Abs(x: real): real { if x < 0.0 then -x else x }

  predicate Close(a: real, b: real) {
    if b == 0.0 then Abs(a) < ZERO_WIDTH else Abs(a - b) <= Abs(b) * MATCH_RELATIVE
  }

  predicate DirectlySupported(value: real, evidence: set<real>, factors: seq<real>) {
    exists known, i | known in evidence && 0 <= i < |factors| :: Close(value * factors[i], known)
  }

  /** What one arithmetic step makes of two numbers. */
  function Combinations(a: real, b: real): seq<real> {
    [a * b, a + b, a - b, b - a] + (if b != 0.0 then [a / b] else []) + (if a != 0.0 then [b / a] else [])
  }

  predicate Reaches(value: real, a: real, b: real) {
    exists i | 0 <= i < |Combinations(a, b)| :: DirectlySupported(value, {Combinations(a, b)[i]}, DERIVED_RESCALINGS)
  }

  predicate Derivable(value: real, evidence: set<real>) {
    |evidence| <= DERIVATION_LIMIT && exists a, b | a in evidence && b in evidence :: Reaches(value, a, b)
  }

  predicate Supported(value: real, evidence: set<real>) {
    evidence != {} && (DirectlySupported(value, evidence, RESCALINGS) || Derivable(value, evidence))
  }

  lemma CombinationsAreSymmetric(a: real, b: real, c: real)
    requires c in Combinations(a, b)
    ensures c in Combinations(b, a)
  {
    var there := Combinations(b, a);
    assert there[0] == a * b && there[1] == a + b && there[2] == b - a && there[3] == a - b;
    if a != 0.0 { assert there[4] == b / a; }
    if b != 0.0 { assert there[|there| - 1] == a / b; }
  }

  lemma ReachesIsSymmetric(value: real, a: real, b: real)
    requires Reaches(value, a, b)
    ensures Reaches(value, b, a)
  {
    var i :| 0 <= i < |Combinations(a, b)| && DirectlySupported(value, {Combinations(a, b)[i]}, DERIVED_RESCALINGS);
    var c := Combinations(a, b)[i];
    CombinationsAreSymmetric(a, b, c);
    var j :| 0 <= j < |Combinations(b, a)| && Combinations(b, a)[j] == c;
    assert DirectlySupported(value, {Combinations(b, a)[j]}, DERIVED_RESCALINGS);
  }

  /** The elements of a set, in some order. */
  method Listed<T(==)>(s: set<T>) returns (values: seq<T>)
    ensures forall x :: x in values <==> x in s
  {
    values := [];
    var rest := s;
    while rest != {}
      invariant rest <= s
      invariant forall x :: x in s <==> x in rest || x in values
    {
      var x :| x in rest;
      rest := rest - {x};
      values := values + [x];
    }
  }

  /** Looking at each unordered pair once, a number with itself included, finds every value
      that one arithmetic step can reach. */
  method FindDerivation(value: real, evidence: set<real>) returns (found: bool)
    ensures found == Derivable(value, evidence)
  {
    if |evidence| > DERIVATION_LIMIT { return false; }
    var values := Listed(evidence);
    for i := 0 to |values|
      invariant forall p, q :: 0 <= p < i && p <= q < |values| ==> !Reaches(value, values[p], values[q])
    {
      for j := i to |values|
        invariant forall q :: i <= q < j ==> !Reaches(value, values[i], values[q])
      {
        if Reaches(value, values[i], values[j]) { return true; }
      }
    }
    forall a, b | a in evidence && b in evidence ensures !Reaches(value, a, b) {
      var p :| 0 <= p < |values| && values[p] == a;
      var q :| 0 <= q < |values| && values[q] == b;
      if Reaches(value, a, b) { ReachesIsSymmetric(value, a, b); }
    }
    return false;
  }

  // ----- figures

  datatype Figure = Figure(value: real, text: string)

  function FigureValue(c: Candidate): real {
    if c.isPercent then c.value else c.value * c.scale
  }

  predicate CloseToOneOf(value: real, figures: seq<Figure>) {
    exists i | 0 <= i < |figures| :: Close(value, figures[i].value)
  }

  /** `figures` extended by the candidates that are not close to one already there. */
  function FiguresFrom(figures: seq<Figure>, found: seq<Candidate>): seq<Figure>
    decreases |found|
  {
    if found == [] then figures
    else if CloseToOneOf(FigureValue(found[0]), figures) then FiguresFrom(figures, found[1..])
    else FiguresFrom(figures + [Figure(FigureValue(found[0]), found[0].text)], found[1..])
  }

  function FiguresOf(read: Reader, answer: string): seq<Figure> {
    FiguresFrom([], read(answer))
  }

  method AnswerFigures(read: Reader, answer: string) returns (figures: seq<Figure>)
    ensures figures == FiguresOf(read, answer)
  {
    var found := read(answer);
    figures := [];
    for n := 0 to |found|
      invariant FiguresFrom(figures, found[n..]) == FiguresOf(read, answer)
    {
      assert found[n..][1..] == found[n + 1..];
      var value := FigureValue(found[n]);
      if CloseToOneOf(value, figures) { continue; }
      figures := figures + [Figure(value, found[n].text)];
    }
    assert found[|found|..] == [];
  }

  function UnsupportedAmong(figures: seq<Figure>, evidence: set<real>): seq<Figure> {
    if figures == [] then []
    else (if Supported(figures[0].value, evidence) then [] else [figures[0]]) + UnsupportedAmong(figures[1..], evidence)
  }

  /** The figures of an answer that no successful tool result accounts for. */
  function UnsupportedFigures(read: Reader, answer: string, steps: seq<Step>): seq<Figure> {
    UnsupportedAmong(FiguresOf(read, answer), EvidenceOf(read, steps))
  }

  // ----- what support means

  /** Within `tolerance` of the non-zero `target` after a rescaling by `factor`. */
  predicate Within(value: real, factor: real, target: real, tolerance: real) {
    target != 0.0 && Abs(value * factor - target) <= Abs(target) * tolerance
  }

  ghost predicate NearUpTo(value: real, target: real, factors: seq<real>, tolerance: real) {
    exists i | 0 <= i < |factors| :: Within(value, factors[i], target, tolerance)
  }

  /** The value is, up to a rescaling and the tolerance, a non-zero number a tool returned. */
  ghost predicate Returned(value: real, evidence: set<real>, tolerance: real) {
    exists known | known in evidence :: NearUpTo(value, known, RESCALINGS, tolerance)
  }

  /** The same for the non-zero result of one arithmetic step on two returned numbers. */
  ghost predicate Computed(value: real, evidence: set<real>, tolerance: real) {
    exists a, b, k | a in evidence && b in evidence && 0 <= k < |Combinations(a, b)| ::
      NearUpTo(value, Combinations(a, b)[k], DERIVED_RESCALINGS, tolerance)
  }

  ghost predicate Traced(value: real, evidence: set<real>, tolerance: real) {
    || Returned(value, evidence, tolerance)
    || (|evidence| <= DERIVATION_LIMIT && Computed(value, evidence, tolerance))
  }

  /** The smallest rescaling is 1e-9, so a returned zero supports everything below 1e-3. */
  const ZERO_REACH: real := 0.001
  /** A number minus itself is zero, so any evidence at all supports everything below 1e-10. */
  const DERIVED_ZERO_REACH: real := 0.0000000001

  predicate MatchesZero(value: real, factors: seq<real>) {
    exists i | 0 <= i < |factors| :: Close(value * factors[i], 0.0)
  }

  lemma ZeroReachIs(value: real)
    ensures MatchesZero(value, RESCALINGS) <==> Abs(value) < ZERO_REACH
  {
    if Abs(value) < ZERO_REACH { assert Close(value * RESCALINGS[7], 0.0); }
  }

  lemma DerivedZeroReachIs(value: real)
    ensures MatchesZero(value, DERIVED_RESCALINGS) <==> Abs(value) < DERIVED_ZERO_REACH
  {
    if Abs(value) < DERIVED_ZERO_REACH { assert Close(value * DERIVED_RESCALINGS[2], 0.0); }
  }

  /** Support by one number: near it if it is not zero, near zero if it is. */
  lemma SupportedByOneIff(value: real, known: real, factors: seq<real>)
    ensures DirectlySupported(value, {known}, factors)
       <==> NearUpTo(value, known, factors, MATCH_RELATIVE) || (known == 0.0 && MatchesZero(value, factors))
  {
    if DirectlySupported(value, {known}, factors) {
      var x, i :| x in {known} && 0 <= i < |factors| && Close(value * factors[i], x);
      assert known != 0.0 ==> Within(value, factors[i], known, MATCH_RELATIVE);
    }
    if i :| 0 <= i < |factors| && Within(value, factors[i], known, MATCH_RELATIVE) {
      assert known in {known} && Close(value * factors[i], known);
    }
    if known == 0.0 && MatchesZero(value, factors) {
      var i :| 0 <= i < |factors| && Close(value * factors[i], 0.0);
      assert known in {known};
    }
  }

  lemma DirectlySupportedBySome(value: real, evidence: set<real>, factors: seq<real>)
    ensures DirectlySupported(value, evidence, factors)
       <==> exists known | known in evidence :: DirectlySupported(value, {known}, factors)
  {
    if DirectlySupported(value, evidence, factors) {
      var known, i :| known in evidence && 0 <= i < |factors| && Close(value * factors[i], known);
      assert known in {known};
      assert DirectlySupported(value, {known}, factors);
    }
    if known :| known in evidence && DirectlySupported(value, {known}, factors) {
      var x, i :| x in {known} && 0 <= i < |factors| && Close(value * factors[i], x);
      assert x in evidence;
    }
  }

  lemma DirectlySupportedIff(value: real, evidence: set<real>)
    ensures DirectlySupported(value, evidence, RESCALINGS)
       <==> Returned(value, evidence, MATCH_RELATIVE) || (0.0 in evidence && Abs(value) < ZERO_REACH)
  {
    DirectlySupportedBySome(value, evidence, RESCALINGS);
    ZeroReachIs(value);
    forall known | known in evidence
      ensures DirectlySupported(value, {known}, RESCALINGS)
         <==> NearUpTo(value, known, RESCALINGS, MATCH_RELATIVE) || (known == 0.0 && MatchesZero(value, RESCALINGS))
    {
      SupportedByOneIff(value, known, RESCALINGS);
    }
  }

  lemma ReachesIff(value: real, a: real, b: real)
    ensures Reaches(value, a, b) <==> exists k | 0 <= k < |Combinations(a, b)| ::
      || NearUpTo(value, Combinations(a, b)[k], DERIVED_RESCALINGS, MATCH_RELATIVE)
      || (Combinations(a, b)[k] == 0.0 && MatchesZero(value, DERIVED_RESCALINGS))
  {
    var made := Combinations(a, b);
    forall k | 0 <= k < |made|
      ensures DirectlySupported(value, {made[k]}, DERIVED_RESCALINGS)
         <==> || NearUpTo(value, made[k], DERIVED_RESCALINGS, MATCH_RELATIVE)
              || (made[k] == 0.0 && MatchesZero(value, DERIVED_RESCALINGS))
    {
      SupportedByOneIff(value, made[k], DERIVED_RESCALINGS);
    }
  }

  lemma DerivableIff(value: real, evidence: set<real>)
    requires evidence != {}
    ensures Derivable(value, evidence)
       <==> && |evidence| <= DERIVATION_LIMIT
            && (Computed(value, evidence, MATCH_RELATIVE) || Abs(value) < DERIVED_ZERO_REACH)
  {
    DerivedZeroReachIs(value);
    if Derivable(value, evidence) {
      var a, b :| a in evidence && b in evidence && Reaches(value, a, b);
      ReachesIff(value, a, b);
    }
    if Computed(value, evidence, MATCH_RELATIVE) {
      var a, b, k :| a in evidence && b in evidence && 0 <= k < |Combinations(a, b)|
        && NearUpTo(value, Combinations(a, b)[k], DERIVED_RESCALINGS, MATCH_RELATIVE);
      ReachesIff(value, a, b);
    }
    if Abs(value) < DERIVED_ZERO_REACH {
      var a := Member(evidence);
      assert Combinations(a, a)[2] == 0.0;
      ReachesIff(value, a, a);
    }
  }

  lemma Member<T>(s: set<T>) returns (x: T)
    requires s != {}
    ensures x in s
  {
    x :| x in s;
  }

  /** When the guard accepts a figure, exactly: it matches a non-zero returned number or a
      non-zero result of one step within 0.5%, or it is small enough for a zero to match it. */
  lemma SupportedIff(value: real, evidence: set<real>)
    ensures Supported(value, evidence) <==>
      && evidence != {}
      && (|| Traced(value, evidence, MATCH_RELATIVE)
          || (0.0 in evidence && Abs(value) < ZERO_REACH)
          || (|evidence| <= DERIVATION_LIMIT && Abs(value) < DERIVED_ZERO_REACH))
  {
    if evidence != {} {
      DirectlySupportedIff(value, evidence);
      DerivableIff(value, evidence);
    }
  }

  /** So "every accepted non-zero figure is near a non-zero value" is false: a tool that
      returned only 0 supports the figure 0.0005. */
  lemma TinyFigureIsAccepted(tolerance: real)
    ensures Supported(0.0005, {0.0}) && !Traced(0.0005, {0.0}, tolerance)
  {
    SupportedIff(0.0005, {0.0});
  }

  // ----- the bound for the numbers of an accepted answer

  /** Two tolerances of 0.5% one after the other: 1.005 * 1.005 - 1. */
  const COMPOSED_TOLERANCE: real := 0.010025
  /** What zeros reach, by way of a figure that was kept for the number. */
  const WIDE_ZERO_REACH: real := 0.001005
  const WIDE_DERIVED_ZERO_REACH: real := 0.0000000001005

  /** What the guard vouches for: the number is traced, or a zero reaches it, one that a tool
      returned or one that a subtraction made of evidence few enough to be combined. */
  ghost predicate Grounded(value: real, evidence: set<real>) {
    || Traced(value, evidence, COMPOSED_TOLERANCE)
    || (0.0 in evidence && Abs(value) < WIDE_ZERO_REACH)
    || (|evidence| <= DERIVATION_LIMIT && Abs(value) < WIDE_DERIVED_ZERO_REACH)
  }

  lemma ScaledAbs(x: real, f: real)
    requires f > 0.0
    ensures Abs(x * f) == Abs(x) * f
  {
    if x < 0.0 { assert x * f < 0.0; } else { assert x * f >= 0.0; }
  }

  lemma RescaledClose(value: real, seen: real, f: real)
    requires f > 0.0 && Abs(value - seen) <= Abs(seen) * 0.005
    ensures Abs(value * f - seen * f) <= Abs(seen * f) * 0.005
  {
    ScaledAbs(value - seen, f);
    ScaledAbs(seen, f);
    assert (value - seen) * f == value * f - seen * f;
    var d, s := Abs(value - seen), Abs(seen);
    assert d * f <= (s * 0.005) * f == (s * f) * 0.005;
  }

  lemma TwoTolerances(x: real, y: real, target: real)
    requires Abs(x - y) <= Abs(y) * 0.005 && Abs(y - target) <= Abs(target) * 0.005
    ensures Abs(x - target) <= Abs(target) * 0.010025
  {
  }

  lemma TolerancesCompose(value: real, seen: real, factor: real, target: real)
    requires factor > 0.0 && seen != 0.0 && Close(value, seen)
    requires Within(seen, factor, target, MATCH_RELATIVE)
    ensures Within(value, factor, target, COMPOSED_TOLERANCE)
  {
    RescaledClose(value, seen, factor);
    TwoTolerances(value * factor, seen * factor, target);
  }

  lemma NearAlike(value: real, seen: real, target: real, factors: seq<real>)
    requires forall i :: 0 <= i < |factors| ==> factors[i] > 0.0
    requires seen != 0.0 && Close(value, seen) && NearUpTo(seen, target, factors, MATCH_RELATIVE)
    ensures NearUpTo(value, target, factors, COMPOSED_TOLERANCE)
  {
    var i :| 0 <= i < |factors| && Within(seen, factors[i], target, MATCH_RELATIVE);
    TolerancesCompose(value, seen, factors[i], target);
  }

  lemma TracedAlike(value: real, seen: real, evidence: set<real>)
    requires seen != 0.0 && Close(value, seen) && Traced(seen, evidence, MATCH_RELATIVE)
    ensures Traced(value, evidence, COMPOSED_TOLERANCE)
  {
    if Returned(seen, evidence, MATCH_RELATIVE) {
      var known :| known in evidence && NearUpTo(seen, known, RESCALINGS, MATCH_RELATIVE);
      NearAlike(value, seen, known, RESCALINGS);
    } else {
      var a, b, k :| a in evidence && b in evidence && 0 <= k < |Combinations(a, b)|
        && NearUpTo(seen, Combinations(a, b)[k], DERIVED_RESCALINGS, MATCH_RELATIVE);
      NearAlike(value, seen, Combinations(a, b)[k], DERIVED_RESCALINGS);
    }
  }

  lemma {:induction false} FiguresAreKept(figures: seq<Figure>, found: seq<Candidate>)
    ensures figures <= FiguresFrom(figures, found)
    decreases |found|
  {
    if found != [] {
      FiguresAreKept(figures, found[1..]);
      FiguresAreKept(figures + [Figure(FigureValue(found[0]), found[0].text)], found[1..]);
    }
  }

  /** De-duplication drops a number only for one that is close to it. */
  lemma {:induction false} EveryNumberHasAFigure(figures: seq<Figure>, found: seq<Candidate>, n: nat) returns (k: nat)
    requires n < |found|
    ensures k < |FiguresFrom(figures, found)|
    ensures var v, s := FigureValue(found[n]), FiguresFrom(figures, found)[k].value; v == s || Close(v, s)
    decreases |found|
  {
    var v := FigureValue(found[0]);
    var longer := figures + [Figure(v, found[0].text)];
    if n > 0 {
      k := EveryNumberHasAFigure(if CloseToOneOf(v, figures) then figures else longer, found[1..], n - 1);
    } else if CloseToOneOf(v, figures) {
      k :| 0 <= k < |figures| && Close(v, figures[k].value);
      FiguresAreKept(figures, found[1..]);
    } else {
      k := |figures|;
      FiguresAreKept(longer, found[1..]);
    }
  }

  lemma {:induction false} NothingUnsupported(figures: seq<Figure>, evidence: set<real>, k: nat)
    requires UnsupportedAmong(figures, evidence) == [] && k < |figures|
    ensures Supported(figures[k].value, evidence)
  {
    if k > 0 { NothingUnsupported(figures[1..], evidence, k - 1); }
  }

  lemma ZeroIsNotTraced(evidence: set<real>)
    ensures !Traced(0.0, evidence, MATCH_RELATIVE)
  {
    forall target: real, factors: seq<real> ensures !NearUpTo(0.0, target, factors, MATCH_RELATIVE) {
      forall i | 0 <= i < |factors| ensures !Within(0.0, factors[i], target, MATCH_RELATIVE) {
        assert 0.0 * factors[i] == 0.0;
      }
    }
  }

  lemma CloseToSmall(value: real, seen: real, reach: real)
    requires Abs(seen) < reach && ZERO_WIDTH <= reach && (value == seen || Close(value, seen))
    ensures Abs(value) < 1.005 * reach
  {
  }

  lemma GroundedByFigure(value: real, seen: real, evidence: set<real>)
    requires Supported(seen, evidence) && (value == seen || Close(value, seen))
    ensures Grounded(value, evidence)
  {
    SupportedIff(seen, evidence);
    if Traced(seen, evidence, MATCH_RELATIVE) {
      ZeroIsNotTraced(evidence);
      assert value == seen ==> Close(value, seen);
      TracedAlike(value, seen, evidence);
    } else if 0.0 in evidence && Abs(seen) < ZERO_REACH {
      CloseToSmall(value, seen, ZERO_REACH);
    } else {
      CloseToSmall(value, seen, DERIVED_ZERO_REACH);
    }
  }

  /** Every number of an answer the guard lets through, however it was de-duplicated, is
      grounded: traced to the evidence within 1.0025%, or within reach of a zero. */
  lemma GroundedNumber(read: Reader, answer: string, steps: seq<Step>, n: nat)
    requires UnsupportedFigures(read, answer, steps) == [] && n < |read(answer)|
    ensures Grounded(FigureValue(read(answer)[n]), EvidenceOf(read, steps))
  {
    var figures, evidence := FiguresOf(read, answer), EvidenceOf(read, steps);
    var k := EveryNumberHasAFigure([], read(answer), n);
    NothingUnsupported(figures, evidence, k);
    GroundedByFigure(FigureValue(read(answer)[n]), figures[k].value, evidence);
  }

  /** Where no tool returned a zero, every number of at least 1.005e-10 is traced, and with
      more evidence than is ever combined, every number whatever its size. */
  lemma TracedWithoutZeros(read: Reader, answer: string, steps: seq<Step>, n: nat)
    requires UnsupportedFigures(read, answer, steps) == [] && n < |read(answer)|
    requires 0.0 !in EvidenceOf(read, steps)
    ensures var v, evidence := FigureValue(read(answer)[n]), EvidenceOf(read, steps);
      Abs(v) >= WIDE_DERIVED_ZERO_REACH || |evidence| > DERIVATION_LIMIT ==> Traced(v, evidence, COMPOSED_TOLERANCE)
  {
    GroundedNumber(read, answer, steps, n);
  }

  // ----- when 0.5% is kept

  /** No number is close to an earlier one without being equal to it. */
  predicate Apart(found: seq<Candidate>) {
    forall i, j | 0 <= i < j < |found| && Close(FigureValue(found[j]), FigureValue(found[i])) ::
      FigureValue(found[j]) == FigureValue(found[i])
  }

  ghost function FigureValues(figures: seq<Figure>): set<real> {
    set k | 0 <= k < |figures| :: figures[k].value
  }

  ghost function Numbers(found: seq<Candidate>): set<real> {
    set i | 0 <= i < |found| :: FigureValue(found[i])
  }

  lemma FigureValuesSnoc(figures: seq<Figure>, last: Figure)
    ensures FigureValues(figures + [last]) == FigureValues(figures) + {last.value}
  {
    var longer := figures + [last];
    forall k | 0 <= k < |longer| ensures longer[k] == if k < |figures| then figures[k] else last { }
    assert longer[|figures|] == last;
    forall v | v in FigureValues(figures) ensures v in FigureValues(longer) {
      var k :| 0 <= k < |figures| && figures[k].value == v;
      assert longer[k].value == v;
    }
  }

  lemma NumbersSnoc(found: seq<Candidate>, last: Candidate)
    ensures Numbers(found + [last]) == Numbers(found) + {FigureValue(last)}
  {
    var longer := found + [last];
    forall i | 0 <= i < |longer| ensures longer[i] == if i < |found| then found[i] else last { }
    assert longer[|found|] == last;
    forall v | v in Numbers(found) ensures v in Numbers(longer) {
      var i :| 0 <= i < |found| && FigureValue(found[i]) == v;
      assert FigureValue(longer[i]) == v;
    }
  }

  /** A number that is dropped has the value of a figure already. */
  lemma DroppedIsThere(figures: seq<Figure>, found: seq<Candidate>, n: nat)
    requires Apart(found) && n < |found| && FigureValues(figures) == Numbers(found[..n])
    requires CloseToOneOf(FigureValue(found[n]), figures)
    ensures FigureValue(found[n]) in FigureValues(figures)
  {
    var k :| 0 <= k < |figures| && Close(FigureValue(found[n]), figures[k].value);
    assert figures[k].value in FigureValues(figures);
    var i :| 0 <= i < n && FigureValue(found[..n][i]) == figures[k].value;
    assert found[..n][i] == found[i];
  }

  /** The figures, with the first `n` numbers behind them, go through the rest of the numbers
      without losing a value. */
  lemma {:induction false} NothingIsDropped(figures: seq<Figure>, found: seq<Candidate>, n: nat)
    requires Apart(found) && n <= |found| && FigureValues(figures) == Numbers(found[..n])
    ensures FigureValues(FiguresFrom(figures, found[n..])) == Numbers(found)
    decreases |found| - n
  {
    if n == |found| {
      assert found[..n] == found && found[n..] == [];
    } else {
      var v, longer := FigureValue(found[n]), figures + [Figure(FigureValue(found[n]), found[n].text)];
      assert found[..n + 1] == found[..n] + [found[n]] && found[n..][1..] == found[n + 1..];
      NumbersSnoc(found[..n], found[n]);
      FigureValuesSnoc(figures, Figure(v, found[n].text));
      if CloseToOneOf(v, figures) {
        DroppedIsThere(figures, found, n);
        NothingIsDropped(figures, found, n + 1);
      } else {
        NothingIsDropped(longer, found, n + 1);
      }
    }
  }

  /** If no number of the answer is close to an earlier, different one, the guard vouches for
      each number on its own: within 0.5%, or within reach of a zero, as `SupportedIff` says. */
  lemma ApartNumbersAreSupported(read: Reader, answer: string, steps: seq<Step>, n: nat)
    requires UnsupportedFigures(read, answer, steps) == [] && n < |read(answer)|
    requires Apart(read(answer))
    ensures Supported(FigureValue(read(answer)[n]), EvidenceOf(read, steps))
  {
    var found, figures := read(answer), FiguresOf(read, answer);
    assert found[0..] == found;
    NothingIsDropped([], found, 0);
    assert FigureValue(found[n]) in Numbers(found);
    var k :| 0 <= k < |figures| && figures[k].value == FigureValue(found[n]);
    NothingUnsupported(figures, EvidenceOf(read, steps), k);
  }

  lemma FarFromOneThousand()
    ensures !Supported(1010.025, {1000.0})
  {
    SupportedIff(1010.025, {1000.0});
    assert Combinations(1000.0, 1000.0) == [1000000.0, 2000.0, 0.0, 0.0, 1.0, 1.0];
  }

  /** The two tolerances do add up: with 1000 as the only evidence, an answer that says 1005
      and 1010.025 passes, though 1010.025 on its own would not. */
  lemma DeduplicationWidensTheTolerance(read: Reader, answer: string, steps: seq<Step>)
    requires EvidenceOf(read, steps) == {1000.0}
    requires read(answer) == [Candidate(1005.0, 1.0, false, "1005"), Candidate(1010.025, 1.0, false, "1010.025")]
    ensures UnsupportedFigures(read, answer, steps) == []
    ensures !Supported(1010.025, {1000.0})
  {
    var first, found := Figure(1005.0, "1005"), read(answer);
    assert [] + [first] == [first] && found[1..][1..] == [];
    assert CloseToOneOf(1010.025, [first]) by { assert Close(1010.025, [first][0].value); }
    assert FiguresFrom([first], found[1..]) == FiguresFrom([first], found[1..][1..]) == [first];
    assert !CloseToOneOf(1005.0, []) && FiguresOf(read, answer) == [first];
    SupportedIff(1005.0, {1000.0});
    assert Within(1005.0, RESCALINGS[0], 1000.0, MATCH_RELATIVE);
    assert NearUpTo(1005.0, 1000.0, RESCALINGS, MATCH_RELATIVE);
    assert [first][1..] == [] && UnsupportedAmong([first], {1000.0}) == [];
    FarFromOneThousand();
  }
}
