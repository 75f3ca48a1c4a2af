/** ingestion/chunker.py, second half: packing units greedily into overlapping chunks.

    A run of the packing loop is described by its `Load`s.  A load is what `current` holds
    when it is flushed: the overlap carried over from the previous chunk, the heading held
    back from it (at most one), and the units added since.  `Packing` says which lists of
    loads the greedy rules allow; there is only one (`PackingIsUnique`), the loop produces it
    (`ChunkSection`), and every promise about the chunks is proved from it. */
module Chunker {
  import opened Seqs
  import opened Text
  import opened Sentences
  import Parser

  const HEADING_MAX_TOKENS: nat := 15
  const TERMINAL_PUNCT: string := ".!?:;\U{201d}\"')"
  const BULLETS: string := "\U{2022}-\U{2013}"

  predicate IsHeading(unit: Unit) {
    var text := Strip(unit.text);
    && text != "" && unit.tokens <= HEADING_MAX_TOKENS
    && text[0] !in BULLETS
    && text[|text| - 1] !in TERMINAL_PUNCT
  }

  function Cost(units: seq<Unit>): nat {
    if units == [] then 0 else units[0].tokens + Cost(units[1..])
  }

  // ----- joining units

  function Joined(units: seq<Unit>): string {
    if units == [] then ""
    else
      var n := |units| - 1;
      if n == 0 then units[0].text
      else Joined(units[..n]) + (if units[n].paragraph != units[n - 1].paragraph then "\n\n" else " ") + units[n].text
  }

  lemma {:induction false} JoinedKeepsWords(units: seq<Unit>)
    ensures Words(Joined(units)) == UnitWords(units)
  {
    if units != [] {
      var n := |units| - 1;
      assert units == units[..n] + [units[n]];
      UnitWordsOfConcat(units[..n], [units[n]]);
      UnitWordsOfOne(units[n]);
      if n > 0 {
        JoinedKeepsWords(units[..n]);
        var sep := if units[n].paragraph != units[n - 1].paragraph then "\n\n" else " ";
        WordsOfSeparated(Joined(units[..n]), sep, units[n].text);
      }
    }
  }

  /** Joining restores the paragraph breaks and keeps every word. */
  method JoinUnits(units: seq<Unit>) returns (out: string)
    ensures out == Joined(units)
    ensures Words(out) == UnitWords(units)
  {
    out := "";
    for i := 0 to |units|
      invariant out == Joined(units[..i])
    {
      assert units[..i + 1][..i] == units[..i];
      if i == 0 {
        out := units[i].text;
      } else if units[i].paragraph != units[i - 1].paragraph {
        out := out + "\n\n" + units[i].text;
      } else {
        out := out + " " + units[i].text;
      }
    }
    assert units[..|units|] == units;
    JoinedKeepsWords(units);
  }

  // ----- overlap

  /** The longest run of trailing units within the budget. */
  function Trailing(units: seq<Unit>, budget: nat): seq<Unit> {
    if units == [] then []
    else
      var n := |units| - 1;
      if units[n].tokens > budget then []
      else Trailing(units[..n], budget - units[n].tokens) + [units[n]]
  }

  function TokenSum(lang: Language, sentences: seq<string>): nat {
    if sentences == [] then 0 else lang.Count(sentences[0]) + TokenSum(lang, sentences[1..])
  }

  function TrailingSentences(lang: Language, sentences: seq<string>, budget: nat): seq<string> {
    if sentences == [] then []
    else
      var n := |sentences| - 1;
      if lang.Count(sentences[n]) > budget then []
      else TrailingSentences(lang, sentences[..n], budget - lang.Count(sentences[n])) + [sentences[n]]
  }

  /** What is repeated at the head of the next chunk: whole trailing units if one fits the
      budget, else the trailing sentences of the last unit, else nothing. */
  function Overlap(lang: Language, units: seq<Unit>, overlap: nat): seq<Unit>
    requires units != []
  {
    var carried := Trailing(units, overlap);
    if carried != [] then carried
    else
      var last := units[|units| - 1];
      var tail := TrailingSentences(lang, SentencesOf(lang, last.text), overlap);
      if tail == [] then []
      else [Unit(Join(tail, " "), TokenSum(lang, tail), last.paragraph, false)]
  }

  method CarryUnits(units: seq<Unit>, overlap: nat) returns (carried: seq<Unit>)
    ensures carried == Trailing(units, overlap)
  {
    carried := [];
    var total, i := 0, |units|;
    assert units[..|units|] == units;
    while i > 0 && total + units[i - 1].tokens <= overlap
      invariant 0 <= i <= |units| && total <= overlap
      invariant Trailing(units, overlap) == Trailing(units[..i], overlap - total) + carried
    {
      i := i - 1;
      assert units[..i + 1][..i] == units[..i];
      Assoc(Trailing(units[..i], overlap - total - units[i].tokens), [units[i]], carried);
      carried := [units[i]] + carried;
      total := total + units[i].tokens;
    }
  }

  method CarrySentences(lang: Language, sentences: seq<string>, overlap: nat) returns (tail: seq<string>, total: nat)
    ensures tail == TrailingSentences(lang, sentences, overlap)
    ensures total == TokenSum(lang, tail)
  {
    tail, total := [], 0;
    var i := |sentences|;
    assert sentences[..|sentences|] == sentences;
    while i > 0 && total + lang.Count(sentences[i - 1]) <= overlap
      invariant 0 <= i <= |sentences| && total == TokenSum(lang, tail) <= overlap
      invariant TrailingSentences(lang, sentences, overlap)
             == TrailingSentences(lang, sentences[..i], overlap - total) + tail
    {
      i := i - 1;
      var sentence := sentences[i];
      assert sentences[..i + 1][..i] == sentences[..i];
      Assoc(TrailingSentences(lang, sentences[..i], overlap - total - lang.Count(sentence)), [sentence], tail);
      assert ([sentence] + tail)[1..] == tail;
      tail := [sentence] + tail;
      total := total + lang.Count(sentence);
    }
  }

  /** The overlap is within its budget and repeats the last words of the flushed units. */
  method OverlapUnits(lang: Language, units: seq<Unit>, overlap: nat) returns (carried: seq<Unit>)
    requires units != []
    ensures carried == Overlap(lang, units, overlap)
    ensures Cost(carried) <= overlap
    ensures IsSuffix(UnitWords(carried), UnitWords(units))
  {
    OverlapFitsAndIsSuffix(lang, units, overlap);
    carried := CarryUnits(units, overlap);
    if carried != [] { return; }
    var last := units[|units| - 1];
    var sentences := SplitSentences(lang, last.text);
    var tail, total := CarrySentences(lang, sentences, overlap);
    if tail == [] { return []; }
    carried := [Unit(Join(tail, " "), total, last.paragraph, false)];
  }

  lemma {:induction false} CostOfConcat(a: seq<Unit>, b: seq<Unit>)
    ensures Cost(a + b) == Cost(a) + Cost(b)
  {
    if a == [] {
      assert a + b == b;
    } else {
      assert (a + b)[1..] == a[1..] + b;
      CostOfConcat(a[1..], b);
    }
  }

  lemma CostOfOne(u: Unit)
    ensures Cost([u]) == u.tokens
  {
    assert Cost([u]) == u.tokens + Cost([u][1..]);
  }

  lemma CostSnoc(units: seq<Unit>, u: Unit)
    ensures Cost(units + [u]) == Cost(units) + u.tokens
  {
    CostOfConcat(units, [u]);
    CostOfOne(u);
  }

  lemma OneMoreFits(tail: seq<Unit>, front: seq<Unit>, last: Unit, budget: nat)
    requires IsSuffix(tail, front) && Cost(tail) + last.tokens <= budget
    ensures IsSuffix(tail + [last], front + [last]) && Cost(tail + [last]) <= budget
  {
    CostSnoc(tail, last);
    SuffixSnoc(tail, front, last);
  }

  lemma {:induction false} TrailingFits(units: seq<Unit>, budget: nat)
    ensures Cost(Trailing(units, budget)) <= budget
    ensures IsSuffix(Trailing(units, budget), units)
  {
    if units != [] {
      var front, last := units[..|units| - 1], units[|units| - 1];
      assert units == front + [last];
      if last.tokens <= budget {
        var tail := Trailing(front, budget - last.tokens);
        TrailingFits(front, budget - last.tokens);
        OneMoreFits(tail, front, last, budget);
        assert Trailing(units, budget) == tail + [last];
      } else {
        assert Trailing(units, budget) == [];
      }
    }
  }

  lemma {:induction false} TokenSumOfConcat(lang: Language, a: seq<string>, b: seq<string>)
    ensures TokenSum(lang, a + b) == TokenSum(lang, a) + TokenSum(lang, b)
  {
    if a == [] {
      assert a + b == b;
    } else {
      assert (a + b)[1..] == a[1..] + b;
      TokenSumOfConcat(lang, a[1..], b);
    }
  }

  lemma OneMoreSentenceFits(lang: Language, tail: seq<string>, front: seq<string>, last: string, budget: nat)
    requires IsSuffix(tail, front) && TokenSum(lang, tail) + lang.Count(last) <= budget
    ensures IsSuffix(tail + [last], front + [last]) && TokenSum(lang, tail + [last]) <= budget
  {
    TokenSumOfConcat(lang, tail, [last]);
    SuffixSnoc(tail, front, last);
    assert TokenSum(lang, [last]) == lang.Count(last) + TokenSum(lang, [last][1..]);
  }

  lemma {:induction false} TrailingSentencesFit(lang: Language, sentences: seq<string>, budget: nat)
    ensures TokenSum(lang, TrailingSentences(lang, sentences, budget)) <= budget
    ensures IsSuffix(TrailingSentences(lang, sentences, budget), sentences)
  {
    if sentences != [] {
      var front, last := sentences[..|sentences| - 1], sentences[|sentences| - 1];
      assert sentences == front + [last];
      if lang.Count(last) <= budget {
        var tail := TrailingSentences(lang, front, budget - lang.Count(last));
        TrailingSentencesFit(lang, front, budget - lang.Count(last));
        OneMoreSentenceFits(lang, tail, front, last, budget);
        assert TrailingSentences(lang, sentences, budget) == tail + [last];
      } else {
        assert TrailingSentences(lang, sentences, budget) == [];
      }
    }
  }

  lemma UnitWordsOfSuffix(tail: seq<Unit>, units: seq<Unit>)
    requires IsSuffix(tail, units)
    ensures IsSuffix(UnitWords(tail), UnitWords(units))
  {
    var front := units[..|units| - |tail|];
    assert units == front + tail;
    UnitWordsOfConcat(front, tail);
  }

  lemma AllWordsOfSuffix(tail: seq<string>, parts: seq<string>)
    requires IsSuffix(tail, parts)
    ensures IsSuffix(AllWords(tail), AllWords(parts))
  {
    var front := parts[..|parts| - |tail|];
    assert parts == front + tail;
    AllWordsOfConcat(front, tail);
  }

  /** The overlap stays within its budget and repeats the last words of the chunk before,
      with nothing skipped. */
  lemma OverlapFitsAndIsSuffix(lang: Language, units: seq<Unit>, overlap: nat)
    requires units != []
    ensures Cost(Overlap(lang, units, overlap)) <= overlap
    ensures IsSuffix(UnitWords(Overlap(lang, units, overlap)), UnitWords(units))
  {
    var carried := Trailing(units, overlap);
    TrailingFits(units, overlap);
    if carried != [] {
      UnitWordsOfSuffix(carried, units);
    } else {
      var last := units[|units| - 1];
      var sentences := SentencesOf(lang, last.text);
      var tail := TrailingSentences(lang, sentences, overlap);
      TrailingSentencesFit(lang, sentences, overlap);
      if tail != [] {
        var unit := Unit(Join(tail, " "), TokenSum(lang, tail), last.paragraph, false);
        CostOfOne(unit);
        UnitWordsOfOne(unit);
        WordsOfJoin(tail, " ");
        AllWordsOfSuffix(tail, sentences);
        SentencesKeepWords(lang, last.text);
        UnitWordsOfOne(last);
        UnitWordsOfSuffix([last], units);
      }
    }
  }

  // ----- the greedy packing

  datatype Load = Load(carry: seq<Unit>, held: seq<Unit>, added: seq<Unit>) {
    /** The units in `current`. */
    function All(): seq<Unit> { carry + held + added }

    /** Whether a closing chunk gives up its last unit, a heading, to the next one. */
    predicate HoldsBack() { |All()| > 1 && added != [] && IsHeading(added[|added| - 1]) }

    function Kept(closing: bool): seq<Unit>
      requires added != []
    {
      if closing && HoldsBack() then added[..|added| - 1] else added
    }

    /** The units that are in this chunk for the first time. */
    function Fresh(closing: bool): seq<Unit>
      requires added != []
    {
      held + Kept(closing)
    }

    /** The units of the flushed chunk. */
    function Flushed(closing: bool): (units: seq<Unit>)
      requires added != []
      ensures units != []
    {
      carry + Fresh(closing)
    }
  }

  /** `b` is what the loop opens when unit `b.added[0]` no longer fits into `a`. */
  ghost predicate Follows(lang: Language, target: nat, overlap: nat, a: Load, b: Load)
    requires a.added != [] && b.added != []
  {
    && Cost(a.All()) + b.added[0].tokens > target
    && b.carry == Overlap(lang, a.Flushed(true), overlap)
    && b.held == if a.HoldsBack() then [a.added[|a.added| - 1]] else []
  }

  /** Only the first unit of a load may go over the target. */
  ghost predicate Fits(target: nat, l: Load) {
    && l.added != []
    && (|l.added| > 1 ==> Cost(l.All()) <= target)
  }

  ghost predicate Chained(lang: Language, target: nat, overlap: nat, loads: seq<Load>) {
    && (forall k :: 0 <= k < |loads| ==> Fits(target, loads[k]))
    && (forall k :: 0 < k < |loads| ==> Follows(lang, target, overlap, loads[k - 1], loads[k]))
  }

  function Added(loads: seq<Load>): seq<Unit> {
    if loads == [] then [] else loads[0].added + Added(loads[1..])
  }

  /** The greedy packing of `units`. */
  ghost predicate Packing(lang: Language, target: nat, overlap: nat, units: seq<Unit>, loads: seq<Load>) {
    && Chained(lang, target, overlap, loads)
    && Added(loads) == units
    && (loads != [] ==> loads[0].carry == [] && loads[0].held == [])
  }

  datatype Chunk = Chunk(section: string, index: nat, content: string, tokenCount: nat, hardSplit: bool)

  function Render(lang: Language, section: string, index: nat, units: seq<Unit>): Chunk {
    Chunk(section, index, Joined(units), lang.Count(Joined(units)), !NoHardSplit(units))
  }

  ghost predicate Rendered(lang: Language, section: string, start: nat, loads: seq<Load>, chunks: seq<Chunk>)
    requires forall k :: 0 <= k < |loads| ==> loads[k].added != []
  {
    && |chunks| == |loads|
    && forall k :: 0 <= k < |loads| ==>
         chunks[k] == Render(lang, section, start + k, loads[k].Flushed(k < |loads| - 1))
  }

  method Flush(lang: Language, section: string, index: nat, current: seq<Unit>) returns (chunk: Chunk)
    ensures chunk == Render(lang, section, index, current)
  {
    var content := JoinUnits(current);
    var hardSplit := exists i :: 0 <= i < |current| && current[i].hardSplit;
    chunk := Chunk(section, index, content, lang.Count(content), hardSplit);
  }

  lemma {:induction false} AddedSnoc(loads: seq<Load>, last: Load)
    ensures Added(loads + [last]) == Added(loads) + last.added
  {
    if loads == [] {
      assert loads + [last] == [last];
      assert Added([last]) == last.added + Added([last][1..]);
    } else {
      assert (loads + [last])[1..] == loads[1..] + [last];
      AddedSnoc(loads[1..], last);
      Assoc(loads[0].added, Added(loads[1..]), last.added);
    }
  }

  lemma PackingGrows(lang: Language, target: nat, overlap: nat, units: seq<Unit>, closed: seq<Load>, open: Load,
                     u: Unit)
    requires Packing(lang, target, overlap, units, closed + [open])
    requires Cost(open.All()) + u.tokens <= target
    ensures Packing(lang, target, overlap, units + [u], closed + [open.(added := open.added + [u])])
  {
    var loads, grown := closed + [open], open.(added := open.added + [u]);
    var loads' := closed + [grown];
    assert loads[|closed|] == open;
    assert grown.All() == open.All() + [u];
    CostOfConcat(open.All(), [u]);
    CostOfOne(u);
    forall k | 0 <= k < |loads'| ensures Fits(target, loads'[k]) {
      assert Fits(target, loads[k]);
    }
    forall k | 0 < k < |loads'| ensures Follows(lang, target, overlap, loads'[k - 1], loads'[k]) {
      assert Follows(lang, target, overlap, loads[k - 1], loads[k]);
    }
    AddedSnoc(closed, open);
    AddedSnoc(closed, grown);
    Assoc(Added(closed), open.added, [u]);
  }

  lemma PackingCloses(lang: Language, target: nat, overlap: nat, units: seq<Unit>, loads: seq<Load>, next: Load)
    requires loads != [] && Packing(lang, target, overlap, units, loads)
    requires |next.added| == 1 && Follows(lang, target, overlap, loads[|loads| - 1], next)
    ensures Packing(lang, target, overlap, units + next.added, loads + [next])
  {
    var loads' := loads + [next];
    forall k | 0 <= k < |loads'| ensures Fits(target, loads'[k]) {
      assert k < |loads| ==> Fits(target, loads[k]);
    }
    forall k | 0 < k < |loads'| ensures Follows(lang, target, overlap, loads'[k - 1], loads'[k]) {
      assert k < |loads| ==> Follows(lang, target, overlap, loads[k - 1], loads[k]);
    }
    AddedSnoc(loads, next);
  }

  /** The state of the packing loop once the units `done` have been placed. */
  ghost predicate Placed(lang: Language, target: nat, overlap: nat, done: seq<Unit>, closed: seq<Load>, open: Load) {
    if done == [] then closed == [] && open == Load([], [], [])
    else Packing(lang, target, overlap, done, closed + [open])
  }

  lemma PlaceInOpen(lang: Language, target: nat, overlap: nat, done: seq<Unit>, closed: seq<Load>, open: Load,
                    unit: Unit)
    requires Placed(lang, target, overlap, done, closed, open)
    requires open.All() == [] || Cost(open.All()) + unit.tokens <= target
    ensures Placed(lang, target, overlap, done + [unit], closed, open.(added := open.added + [unit]))
  {
    var grown := open.(added := open.added + [unit]);
    if done == [] {
      assert closed + [grown] == [grown];
      AddedSnoc([], grown);
    } else {
      assert Fits(target, (closed + [open])[|closed|]);
      PackingGrows(lang, target, overlap, done, closed, open, unit);
    }
  }

  lemma PlaceInNew(lang: Language, target: nat, overlap: nat, done: seq<Unit>, closed: seq<Load>, open: Load,
                   next: Load)
    requires Placed(lang, target, overlap, done, closed, open) && open.All() != []
    requires open.added != [] && |next.added| == 1 && Follows(lang, target, overlap, open, next)
    ensures Placed(lang, target, overlap, done + next.added, closed + [open], next)
  {
    PackingCloses(lang, target, overlap, done, closed + [open], next);
  }

  lemma OpenHasAdded(lang: Language, target: nat, overlap: nat, done: seq<Unit>, closed: seq<Load>, open: Load)
    requires Placed(lang, target, overlap, done, closed, open)
    ensures done != [] ==> open.added != [] && open.All()[|open.All()| - 1] == open.added[|open.added| - 1]
    ensures done == [] ==> open.All() == []
  {
    if done != [] { assert Fits(target, (closed + [open])[|closed|]); }
  }

  /** Closing a chunk: hold a trailing heading back, flush, and carry the overlap forward. */
  method CloseChunk(lang: Language, section: string, index: nat, current: seq<Unit>, overlap: nat, ghost open: Load)
    returns (chunk: Chunk, carried: seq<Unit>, held: seq<Unit>)
    requires current == open.All() && open.added != []
    ensures chunk == Render(lang, section, index, open.Flushed(true))
    ensures carried == Overlap(lang, open.Flushed(true), overlap)
    ensures held == if open.HoldsBack() then [open.added[|open.added| - 1]] else []
  {
    var last := |current| - 1;
    assert current[last] == open.added[|open.added| - 1];
    var kept := current;
    held := [];
    if |current| > 1 && IsHeading(current[last]) {
      held, kept := [current[last]], current[..last];
    }
    assert kept == open.Flushed(true);
    chunk := Flush(lang, section, index, kept);
    carried := OverlapUnits(lang, kept, overlap);
  }

  /** The chunks flushed so far, one for each closed load. */
  ghost predicate Flushed(lang: Language, section: string, start: nat, closed: seq<Load>, chunks: seq<Chunk>) {
    && |chunks| == |closed|
    && forall k :: 0 <= k < |closed| ==>
         closed[k].added != [] && chunks[k] == Render(lang, section, start + k, closed[k].Flushed(true))
  }

  lemma FlushedSnoc(lang: Language, section: string, start: nat, closed: seq<Load>, chunks: seq<Chunk>, open: Load,
                    chunk: Chunk)
    requires Flushed(lang, section, start, closed, chunks) && open.added != []
    requires chunk == Render(lang, section, start + |closed|, open.Flushed(true))
    ensures Flushed(lang, section, start, closed + [open], chunks + [chunk])
  {
  }

  lemma RenderedAtEnd(lang: Language, section: string, start: nat, closed: seq<Load>, chunks: seq<Chunk>, open: Load,
                      chunk: Chunk)
    requires Flushed(lang, section, start, closed, chunks) && open.added != []
    requires chunk == Render(lang, section, start + |closed|, open.All())
    ensures Rendered(lang, section, start, closed + [open], chunks + [chunk])
  {
    assert open.All() == open.Flushed(false);
  }

  /** Closing a load, flushing its chunk and opening the next. */
  lemma ClosesAndOpens(lang: Language, section: string, start: nat, target: nat, overlap: nat, done: seq<Unit>,
                       closed: seq<Load>, chunks: seq<Chunk>, open: Load, chunk: Chunk, next: Load)
    requires Placed(lang, target, overlap, done, closed, open) && Flushed(lang, section, start, closed, chunks)
    requires open.added != [] && |next.added| == 1 && Cost(open.All()) + next.added[0].tokens > target
    requires chunk == Render(lang, section, start + |closed|, open.Flushed(true))
    requires next.carry == Overlap(lang, open.Flushed(true), overlap)
    requires next.held == if open.HoldsBack() then [open.added[|open.added| - 1]] else []
    ensures Placed(lang, target, overlap, done + next.added, closed + [open], next)
    ensures Flushed(lang, section, start, closed + [open], chunks + [chunk])
  {
    PlaceInNew(lang, target, overlap, done, closed, open, next);
    FlushedSnoc(lang, section, start, closed, chunks, open, chunk);
  }

  /** The chunks are the greedy packing of the units, one per load, numbered from `start`. */
  ghost predicate IsChunking(lang: Language, target: nat, overlap: nat, units: seq<Unit>, section: string, start: nat,
                             chunks: seq<Chunk>) {
    exists loads :: Packing(lang, target, overlap, units, loads) && Rendered(lang, section, start, loads, chunks)
  }

  /** The packing loop produces the greedy packing of the section's units, which it also
      returns. */
  method ChunkSection(lang: Language, section: Parser.Section, start: nat, target: nat, overlap: nat)
    returns (chunks: seq<Chunk>, ghost loads: seq<Load>)
    requires target > 0
    ensures IsChunking(lang, target, overlap, UnitsOf(lang, section.text, target), section.item, start, chunks)
    ensures Packing(lang, target, overlap, UnitsOf(lang, section.text, target), loads)
    ensures Rendered(lang, section.item, start, loads, chunks)
  {
    var units := BuildUnits(lang, section.text, target);
    if units == [] {
      chunks, loads := [], [];
      assert Packing(lang, target, overlap, units, loads) && Rendered(lang, section.item, start, loads, chunks);
      return;
    }
    chunks, loads := PackUnits(lang, section.item, start, units, target, overlap);
  }

  method PackUnits(lang: Language, section: string, start: nat, units: seq<Unit>, target: nat, overlap: nat)
    returns (chunks: seq<Chunk>, ghost loads: seq<Load>)
    requires units != []
    ensures Packing(lang, target, overlap, units, loads)
    ensures Rendered(lang, section, start, loads, chunks)
  {
    chunks := [];
    var current: seq<Unit>, running, index := [], 0, start;
    ghost var closed, open := [], Load([], [], []);
    for i := 0 to |units|
      invariant current == open.All() && running == Cost(current) && index == start + |closed|
      invariant Placed(lang, target, overlap, units[..i], closed, open)
      invariant Flushed(lang, section, start, closed, chunks)
    {
      var unit := units[i];
      OpenHasAdded(lang, target, overlap, units[..i], closed, open);
      assert units[..i + 1] == units[..i] + [unit];
      if current != [] && running + unit.tokens > target {
        var chunk, carried, held := CloseChunk(lang, section, index, current, overlap, open);
        ghost var next := Load(carried, held, [unit]);
        ClosesAndOpens(lang, section, start, target, overlap, units[..i], closed, chunks, open, chunk, next);
        chunks, index := chunks + [chunk], index + 1;
        current := carried + held;
        running := Cost(current);
        closed, open := closed + [open], next;
      } else {
        PlaceInOpen(lang, target, overlap, units[..i], closed, open, unit);
        Assoc(open.carry + open.held, open.added, [unit]);
        open := open.(added := open.added + [unit]);
      }
      CostSnoc(current, unit);
      current := current + [unit];
      running := running + unit.tokens;
    }
    assert units[..|units|] == units;
    OpenHasAdded(lang, target, overlap, units, closed, open);
    var chunk := Flush(lang, section, index, current);
    RenderedAtEnd(lang, section, start, closed, chunks, open, chunk);
    chunks := chunks + [chunk];
    loads := closed + [open];
  }
}
