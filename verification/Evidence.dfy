/** Where evidence comes from: the numbers of a result by the paths that lead to them, the
    figures of an answer, and what one arithmetic step makes, written out. */
module Evidence {
  import opened Seqs
  import opened Grounding

  // ----- paths into a value

  /** Into a list by position, and into a dictionary to the key or the value of a field. */
  datatype Turn = Item(n: nat) | Key(n: nat) | Field(n: nat)

  function At(v: Value, path: seq<Turn>): Option<Value>
    decreases |path|
  {
    if path == [] then Some(v)
    else
      var rest := path[1..];
      match path[0]
      case Item(n) => if v.List? && n < |v.items| then At(v.items[n], rest) else None
      case Key(n) => if v.Dict? && n < |v.fields| then At(Value.Text(v.fields[n].0), rest) else None
      case Field(n) => if v.Dict? && n < |v.fields| then At(v.fields[n].1, rest) else None
  }

  /** A number gives itself, and a text the numbers found in it, each times its scale. */
  predicate Gives(read: Reader, v: Value, x: real) {
    || (v.Number? && v.x == x)
    || (v.Text? && exists i :: 0 <= i < |read(v.s)| && read(v.s)[i].value * read(v.s)[i].scale == x)
  }

  ghost predicate GivesSomewhere(read: Reader, v: Value, x: real) {
    exists path :: At(v, path).Some? && Gives(read, At(v, path).value, x)
  }

  lemma MagnitudesIff(read: Reader, s: string, x: real)
    ensures x in Magnitudes(read(s)) <==> Gives(read, Value.Text(s), x)
  {
    if Gives(read, Value.Text(s), x) {
      var i :| 0 <= i < |read(s)| && read(s)[i].value * read(s)[i].scale == x;
      assert Magnitudes(read(s))[i] == x;
    }
  }

  lemma {:induction false} ItemsIff(read: Reader, whole: Value, items: seq<Value>, x: real)
    requires forall i :: 0 <= i < |items| ==> items[i] < whole
    ensures x in WalkItems(read, whole, items) <==> exists n :: 0 <= n < |items| && x in Walk(read, items[n])
  {
    if items != [] {
      ItemsIff(read, whole, items[1..], x);
      if n :| 0 <= n < |items| && x in Walk(read, items[n]) {
        if n > 0 { assert items[n] == items[1..][n - 1]; }
      }
      if n :| 0 <= n < |items[1..]| && x in Walk(read, items[1..][n]) { assert items[n + 1] == items[1..][n]; }
    }
  }

  predicate FieldGives(read: Reader, field: (string, Value), x: real) {
    x in Magnitudes(read(field.0)) || x in Walk(read, field.1)
  }

  lemma {:induction false} FieldsIff(read: Reader, whole: Value, fields: seq<(string, Value)>, x: real)
    requires forall i :: 0 <= i < |fields| ==> fields[i].1 < whole
    ensures x in WalkFields(read, whole, fields) <==>
      exists n :: 0 <= n < |fields| && FieldGives(read, fields[n], x)
  {
    if fields != [] {
      FieldsIff(read, whole, fields[1..], x);
      if n :| 0 <= n < |fields| && FieldGives(read, fields[n], x) {
        if n > 0 { assert fields[n] == fields[1..][n - 1]; }
      }
      if n :| 0 <= n < |fields[1..]| && FieldGives(read, fields[1..][n], x) {
        assert fields[n + 1] == fields[1..][n];
      }
    }
  }

  lemma Behind(turn: Turn, path: seq<Turn>)
    ensures ([turn] + path)[0] == turn && ([turn] + path)[1..] == path
  {
  }

  lemma {:induction false} WalkedHasAPath(read: Reader, v: Value, x: real) returns (path: seq<Turn>)
    requires x in Walk(read, v)
    ensures At(v, path).Some? && Gives(read, At(v, path).value, x)
    decreases v
  {
    path := [];
    match v {
      case Null =>
      case Bool(_) =>
      case Number(_) =>
      case Text(s) => MagnitudesIff(read, s, x);
      case List(items) =>
        ItemsIff(read, v, items, x);
        var n :| 0 <= n < |items| && x in Walk(read, items[n]);
        var rest := WalkedHasAPath(read, items[n], x);
        Behind(Item(n), rest);
        path := [Item(n)] + rest;
      case Dict(fields) =>
        FieldsIff(read, v, fields, x);
        var n :| 0 <= n < |fields| && FieldGives(read, fields[n], x);
        path := FieldHasAPath(read, v, fields, n, x);
    }
  }

  lemma FieldHasAPath(read: Reader, v: Value, fields: seq<(string, Value)>, n: nat, x: real) returns (path: seq<Turn>)
    requires v == Dict(fields) && n < |fields| && FieldGives(read, fields[n], x)
    ensures At(v, path).Some? && Gives(read, At(v, path).value, x)
    decreases v, 0
  {
    if x in Magnitudes(read(fields[n].0)) {
      MagnitudesIff(read, fields[n].0, x);
      Behind(Key(n), []);
      path := [Key(n)] + [];
    } else {
      var rest := WalkedHasAPath(read, fields[n].1, x);
      Behind(Field(n), rest);
      path := [Field(n)] + rest;
    }
  }

  lemma {:induction false} PathIsWalked(read: Reader, v: Value, path: seq<Turn>, x: real)
    requires At(v, path).Some? && Gives(read, At(v, path).value, x)
    ensures x in Walk(read, v)
    decreases |path|
  {
    if path == [] {
      if v.Text? { MagnitudesIff(read, v.s, x); }
    } else {
      var rest := path[1..];
      match path[0] {
        case Item(n) =>
          PathIsWalked(read, v.items[n], rest, x);
          ItemsIff(read, v, v.items, x);
        case Field(n) =>
          PathIsWalked(read, v.fields[n].1, rest, x);
          assert FieldGives(read, v.fields[n], x);
          FieldsIff(read, v, v.fields, x);
        case Key(n) =>
          PathIsWalked(read, Value.Text(v.fields[n].0), rest, x);
          assert FieldGives(read, v.fields[n], x);
          FieldsIff(read, v, v.fields, x);
      }
    }
  }

  /** What a step returned successfully, if its tool is none of the names the program gives
      its own steps. */
  predicate ReturnedByATool(step: Step) {
    step.ok && step.tool != "final_answer" && step.tool != "ungrounded_answer" && step.tool != "tool_call_budget"
  }

  /** A number is evidence exactly if a successful step has it somewhere in its result: at some
      path there is the number itself, or a text, keys included, in which it is found. */
  lemma EvidenceIff(read: Reader, steps: seq<Step>, x: real)
    ensures x in EvidenceOf(read, steps) <==>
      exists i :: 0 <= i < |steps| && ReturnedByATool(steps[i]) && GivesSomewhere(read, steps[i].result, x)
  {
    if x in EvidenceOf(read, steps) {
      var i :| 0 <= i < |steps| && IsEvidence(steps[i]) && x in Walk(read, steps[i].result);
      var path := WalkedHasAPath(read, steps[i].result, x);
      assert ReturnedByATool(steps[i]);
    }
    if i :| 0 <= i < |steps| && ReturnedByATool(steps[i]) && GivesSomewhere(read, steps[i].result, x) {
      var path :| At(steps[i].result, path).Some? && Gives(read, At(steps[i].result, path).value, x);
      PathIsWalked(read, steps[i].result, path, x);
    }
  }

  // ----- the numbers of the guard

  /** The rescalings are by units and per cents, and fewer for what was computed; at most 120
      numbers are combined. */
  lemma GuardNumbersAre(f: real)
    ensures f in RESCALINGS <==>
      f in {1.0, 100.0, 0.01, 1000.0, 0.001, 1000000.0, 0.000001, 1000000000.0, 0.000000001}
    ensures f in DERIVED_RESCALINGS <==> f in {1.0, 100.0, 0.01}
    ensures DERIVATION_LIMIT == 120
  {
    var all, some := RESCALINGS, DERIVED_RESCALINGS;
    assert all[0] == 1.0 && all[1] == 100.0 && all[2] == 0.01 && all[3] == 0.001 && all[4] == 1000.0;
    assert all[5] == 0.000001 && all[6] == 1000000.0 && all[7] == 0.000000001 && all[8] == 1000000000.0;
    assert some[0] == 1.0 && some[1] == 100.0 && some[2] == 0.01;
  }

  // ----- one arithmetic step

  /** What one step makes of two numbers: their product, their sum, their differences, and the
      quotients there are. */
  lemma CombinationsIff(a: real, b: real, c: real)
    ensures c in Combinations(a, b) <==>
      || c == a * b || c == a + b || c == a - b || c == b - a
      || (b != 0.0 && c == a / b) || (a != 0.0 && c == b / a)
  {
    var made := Combinations(a, b);
    assert made[0] == a * b && made[1] == a + b && made[2] == a - b && made[3] == b - a;
    if b != 0.0 { assert made[4] == a / b; }
    if a != 0.0 { assert made[|made| - 1] == b / a; }
  }

  /** A number is close to another if it is within 0.5% of it, or below 1e-12 if that is 0. */
  lemma CloseIff(a: real, b: real)
    ensures Close(a, b) <==>
      || (b == 0.0 && -0.000000000001 < a < 0.000000000001)
      || (b > 0.0 && b - b * 0.005 <= a <= b + b * 0.005)
      || (b < 0.0 && b + b * 0.005 <= a <= b - b * 0.005)
  {
  }

  // ----- the figures of an answer

  /** The value of a number in an answer: a percentage is not scaled. */
  function ValueOf(c: Candidate): real { if c.isPercent then c.value else c.value * c.scale }

  /** Figures are numbers of the answer, in order, none close to one before it. */
  predicate AreFigures(figures: seq<Figure>, found: seq<Candidate>, at: seq<nat>) {
    && |at| == |figures|
    && (forall m, n :: 0 <= m < n < |at| ==> at[m] < at[n])
    && (forall k :: 0 <= k < |at| ==> at[k] < |found| && figures[k] == Figure(ValueOf(found[at[k]]), found[at[k]].text))
    && (forall m, n :: 0 <= m < n < |figures| ==> !Close(figures[n].value, figures[m].value))
  }

  lemma FiguresMore(figures: seq<Figure>, found: seq<Candidate>, at: seq<nat>, i: nat)
    requires AreFigures(figures, found, at) && i < |found| && forall k :: 0 <= k < |at| ==> at[k] < i
    requires !CloseToOneOf(FigureValue(found[i]), figures)
    ensures AreFigures(figures + [Figure(FigureValue(found[i]), found[i].text)], found, at + [i])
  {
    var more, moreAt := figures + [Figure(FigureValue(found[i]), found[i].text)], at + [i];
    forall m | 0 <= m < |figures| ensures !Close(more[|figures|].value, more[m].value) { }
  }

  lemma {:induction false} FiguresFromAre(figures: seq<Figure>, found: seq<Candidate>, at: seq<nat>, i: nat)
      returns (all: seq<nat>)
    requires i <= |found| && AreFigures(figures, found, at) && forall k :: 0 <= k < |at| ==> at[k] < i
    ensures AreFigures(FiguresFrom(figures, found[i..]), found, all)
    decreases |found| - i
  {
    if i == |found| {
      all := at;
    } else {
      assert found[i..][1..] == found[i + 1..];
      if CloseToOneOf(FigureValue(found[i]), figures) {
        all := FiguresFromAre(figures, found, at, i + 1);
      } else {
        FiguresMore(figures, found, at, i);
        all := FiguresFromAre(figures + [Figure(FigureValue(found[i]), found[i].text)], found, at + [i], i + 1);
      }
    }
  }

  /** The figures of an answer are some of its numbers, as they stand in it, no two close. */
  lemma FiguresAreNumbers(read: Reader, answer: string) returns (at: seq<nat>)
    ensures AreFigures(FiguresOf(read, answer), read(answer), at)
  {
    assert read(answer)[0..] == read(answer);
    at := FiguresFromAre([], read(answer), [], 0);
  }

  /** The figures that the guard names are exactly those it does not find supported. */
  lemma {:induction false} UnsupportedIff(figures: seq<Figure>, evidence: set<real>, f: Figure)
    ensures f in UnsupportedAmong(figures, evidence) <==> f in figures && !Supported(f.value, evidence)
  {
    if figures != [] {
      UnsupportedIff(figures[1..], evidence, f);
      assert figures == [figures[0]] + figures[1..];
    }
  }
}
