/** When a heading travels: chunks that bring nothing new, and headings at the end of one. */
module Headings {
  import opened Seqs
  import opened Text
  import opened Sentences
  import opened Chunker
  import opened Filing

  // ----- chunks that bring nothing new

  /** A closing chunk repeats its predecessor and adds nothing exactly when all it was given
      was one heading, which it then passes on. */
  lemma AddsNothingIff(l: Load)
    requires l.added != []
    ensures l.Fresh(true) == [] <==> l.carry != [] && l.held == [] && |l.added| == 1 && IsHeading(l.added[0])
  {
    if l.Fresh(true) == [] {
      assert l.held == [] && l.Kept(true) == [];
    }
  }

  /** It does happen.  Three units of two tokens, the second a heading, a target of 3 and
      an overlap of 2: the second chunk is the first one again. */
  lemma ChunkMayAddNothing(lang: Language, a: Unit, b: Unit, c: Unit)
    requires a.tokens == b.tokens == c.tokens == 2
    requires !IsHeading(a) && IsHeading(b)
    ensures var loads := [Load([], [], [a]), Load([a], [], [b]), Load([a], [b], [c])];
      && Packing(lang, 3, 2, [a, b, c], loads)
      && loads[1].Fresh(true) == []
      && loads[1].Flushed(true) == loads[0].Flushed(true)
  {
    var l, m, n := Load([], [], [a]), Load([a], [], [b]), Load([a], [b], [c]);
    HeadingIsPassedOn(lang, a, b, c);
    ThreeAdded(l, m, n);
    ThreeChained(lang, 3, 2, l, m, n);
  }

  lemma ThreeChained(lang: Language, target: nat, overlap: nat, l: Load, m: Load, n: Load)
    requires |l.added| == |m.added| == |n.added| == 1
    requires Follows(lang, target, overlap, l, m) && Follows(lang, target, overlap, m, n)
    ensures Chained(lang, target, overlap, [l, m, n])
  {
  }

  lemma ThreeAdded(l: Load, m: Load, n: Load)
    ensures Added([l, m, n]) == l.added + (m.added + n.added)
  {
    assert [l, m, n][1..] == [m, n] && [m, n][1..] == [n];
    assert Added([n]) == n.added + Added([n][1..]);
  }

  lemma HeadingIsPassedOn(lang: Language, a: Unit, b: Unit, c: Unit)
    requires a.tokens == b.tokens == c.tokens == 2
    requires !IsHeading(a) && IsHeading(b)
    ensures var l0, l1, l2 := Load([], [], [a]), Load([a], [], [b]), Load([a], [b], [c]);
      && Follows(lang, 3, 2, l0, l1) && Follows(lang, 3, 2, l1, l2)
      && l1.Fresh(true) == [] && l0.Flushed(true) == l1.Flushed(true)
  {
    var l0, l1 := Load([], [], [a]), Load([a], [], [b]);
    assert [a][..0] == [] && Trailing([a], 2) == Trailing([a][..0], 0) + [a] == [a];
    CostOfOne(a);
    CostOfOne(b);
    assert l0.All() == [a] && l1.All() == [a] + [b];
    CostOfConcat([a], [b]);
    assert l0.Flushed(true) == [a] && l1.Flushed(true) == [a];
  }

  lemma IndexOfBreak(p: string, rest: string)
    requires '\n' !in p
    ensures IndexOf(p + "\n\n" + rest, "\n\n") == |p|
    ensures IndexOf(p, "\n\n") == -1
  {
    var s := p + "\n\n" + rest;
    assert s[|p|..|p| + 2] == "\n\n";
    assert OccursAt(s, "\n\n", |p|);
    forall i | 0 <= i < |p| ensures !OccursAt(s, "\n\n", i) && !OccursAt(p, "\n\n", i) {
      assert s[i] == p[i] && p[i] in p;
      assert s[i..i + 2][0] == s[i];
      if i + 2 <= |p| { assert p[i..i + 2][0] == p[i]; }
    }
  }

  lemma SplitAtBreak(p: string, rest: string)
    requires '\n' !in p
    ensures Split(p + "\n\n" + rest, "\n\n") == [p] + Split(rest, "\n\n")
    ensures Split(p, "\n\n") == [p]
  {
    var s := p + "\n\n" + rest;
    IndexOfBreak(p, rest);
    assert s[..|p|] == p && s[|p| + 2..] == rest;
  }

  /** A sentence, a heading and the sentence again. */
  const EXAMPLE: string := "Done." + "\n\n" + ("Risks" + "\n\n" + "Done.")

  lemma ExampleParagraphs()
    ensures Split(EXAMPLE, "\n\n") == ["Done."] + (["Risks"] + ["Done."])
  {
    SplitAtBreak("Done.", "Risks" + "\n\n" + "Done.");
    SplitAtBreak("Risks", "Done.");
    SplitAtBreak("Done.", "");
  }

  lemma ExampleHeading()
    ensures Strip("Done.") == "Done." && Strip("Risks") == "Risks"
    ensures !IsHeading(Unit("Done.", 2, 0, false)) && IsHeading(Unit("Risks", 2, 1, false))
  {
    Unstripped("Done.");
    Unstripped("Risks");
  }

  lemma Unstripped(p: string)
    requires p != "" && !IsSpace(p[0]) && !IsSpace(p[|p| - 1])
    ensures Strip(p) == p
  {
  }

  lemma OneParagraph(lang: Language, p: string, rest: seq<string>, index: nat, target: nat)
    requires target > 0 && p != "" && Strip(p) == p && lang.Count(p) <= target
    ensures ParagraphUnits(lang, [p] + rest, index, target)
         == [Unit(p, lang.Count(p), index, false)] + ParagraphUnits(lang, rest, index + 1, target)
  {
    assert ([p] + rest)[1..] == rest;
  }

  lemma LastParagraph(lang: Language, p: string, index: nat, target: nat)
    requires target > 0 && p != "" && Strip(p) == p && lang.Count(p) <= target
    ensures ParagraphUnits(lang, [p], index, target) == [Unit(p, lang.Count(p), index, false)]
  {
    OneParagraph(lang, p, [], index, target);
    assert [p] + [] == [p];
  }

  lemma ThreeParagraphs(lang: Language, text: string, p: string, q: string, target: nat)
    requires target > 0 && Split(text, "\n\n") == [p] + ([q] + [p])
    requires p != "" && Strip(p) == p && lang.Count(p) <= target
    requires q != "" && Strip(q) == q && lang.Count(q) <= target
    ensures UnitsOf(lang, text, target)
         == [Unit(p, lang.Count(p), 0, false), Unit(q, lang.Count(q), 1, false), Unit(p, lang.Count(p), 2, false)]
  {
    var rest := [q] + [p];
    var behind := ParagraphUnits(lang, rest, 1, target);
    OneParagraph(lang, p, rest, 0, target);
    assert behind == [Unit(q, lang.Count(q), 1, false)] + [Unit(p, lang.Count(p), 2, false)] by {
      OneParagraph(lang, q, [p], 1, target);
      LastParagraph(lang, p, 2, target);
    }
  }

  lemma ExampleUnits(lang: Language)
    requires lang.Count("Done.") == 2 && lang.Count("Risks") == 2
    ensures UnitsOf(lang, EXAMPLE, 3)
         == [Unit("Done.", 2, 0, false), Unit("Risks", 2, 1, false), Unit("Done.", 2, 2, false)]
  {
    ExampleParagraphs();
    ExampleHeading();
    ThreeParagraphs(lang, EXAMPLE, "Done.", "Risks", 3);
  }

  /** A text whose second chunk is its first again: with a target of 3, an overlap of 2 and
      two tokens a paragraph, chunking the example can come to nothing else. */
  lemma ATextWithARepeatedChunk(lang: Language, section: string, start: nat, chunks: seq<Chunk>)
    requires lang.Count("Done.") == 2 && lang.Count("Risks") == 2
    requires IsChunking(lang, 3, 2, UnitsOf(lang, EXAMPLE, 3), section, start, chunks)
    ensures |chunks| == 3 && chunks[1].content == chunks[0].content
  {
    var a, b, c := Unit("Done.", 2, 0, false), Unit("Risks", 2, 1, false), Unit("Done.", 2, 2, false);
    ExampleUnits(lang);
    ExampleHeading();
    ChunkMayAddNothing(lang, a, b, c);
    var loads := [Load([], [], [a]), Load([a], [], [b]), Load([a], [b], [c])];
    var found :| Packing(lang, 3, 2, [a, b, c], found) && Rendered(lang, section, start, found, chunks);
    PackingIsUnique(lang, 3, 2, [a, b, c], loads, found);
  }

  // ----- room for headings

  /** A heading, the unit behind it and an overlap fit into one chunk. */
  predicate HeadingsHaveRoom(units: seq<Unit>, target: nat, overlap: nat) {
    forall i :: 0 < i < |units| && IsHeading(units[i - 1]) ==> overlap + units[i - 1].tokens + units[i].tokens <= target
  }

  /** Where unit `j` of load `k` is among all units, and the unit behind the load. */
  lemma UnitBehind(loads: seq<Load>, k: nat)
    requires k + 1 < |loads| && loads[k].added != [] && loads[k + 1].added != []
    ensures var at, n := |Added(loads[..k])|, |loads[k].added|;
      && at + n < |Added(loads)|
      && Added(loads)[at + n - 1] == loads[k].added[n - 1]
      && Added(loads)[at + n] == loads[k + 1].added[0]
  {
    AddedAt(loads, k);
    var before, l, rest := Added(loads[..k]), loads[k].added, loads[k + 1..];
    assert rest[0] == loads[k + 1];
    var behind := Added(rest);
    assert behind[0] == loads[k + 1].added[0];
    assert (before + l + behind)[|before + l|] == behind[0];
    assert (before + l + behind)[|before + l| - 1] == l[|l| - 1];
  }

  /** A chunk that adds nothing has a heading too big for the overlap and the next unit. */
  lemma NothingAddedForWantOfRoom(lang: Language, target: nat, overlap: nat, units: seq<Unit>, loads: seq<Load>, k: nat)
      returns (i: nat)
    requires Packing(lang, target, overlap, units, loads) && k < |loads| - 1
    requires loads[k].added != [] && loads[k].Fresh(true) == []
    ensures 0 < i < |units| && IsHeading(units[i - 1])
    ensures overlap + units[i - 1].tokens + units[i].tokens > target
  {
    AddsNothingExactly(lang, target, overlap, units, loads, k);
    HeldIsShortHeading(lang, target, overlap, units, loads, k);
    i := |Added(loads[..k])| + 1;
  }

  lemma CostOfFirstTwo(l: Load)
    requires l.held == [] && |l.added| > 1
    ensures Cost(l.carry) + l.added[0].tokens + l.added[1].tokens <= Cost(l.All())
  {
    assert l.added == [l.added[0]] + ([l.added[1]] + l.added[2..]) && l.All() == l.carry + l.added;
    CostOfConcat(l.carry, l.added);
    CostOfConcat([l.added[0]], [l.added[1]] + l.added[2..]);
    CostOfConcat([l.added[1]], l.added[2..]);
    CostOfOne(l.added[0]);
    CostOfOne(l.added[1]);
  }

  /** In terms of the units: a chunk that is followed by another adds nothing exactly if it
      opened with a carry-over, nothing held and a heading, and the unit behind the heading
      did not fit any more. */
  lemma AddsNothingExactly(lang: Language, target: nat, overlap: nat, units: seq<Unit>, loads: seq<Load>, k: nat)
    requires Packing(lang, target, overlap, units, loads) && k < |loads| - 1
    ensures var l, at := loads[k], |Added(loads[..k])|;
      && at + 1 < |units| && l.added != []
      && (l.Fresh(true) == [] <==>
            && l.carry != [] && l.held == [] && IsHeading(units[at])
            && Cost(l.carry) + units[at].tokens + units[at + 1].tokens > target)
  {
    var l, at := loads[k], |Added(loads[..k])|;
    assert Fits(target, l) && Fits(target, loads[k + 1]);
    assert Follows(lang, target, overlap, l, loads[k + 1]);
    AddsNothingIff(l);
    UnitBehind(loads, k);
    FirstAdded(loads, k);
    if l.held == [] {
      if |l.added| == 1 { CostWithHeading(l); } else { CostOfFirstTwo(l); }
    }
  }

  lemma FirstAdded(loads: seq<Load>, k: nat)
    requires k < |loads| && loads[k].added != []
    ensures var at, added := |Added(loads[..k])|, loads[k].added;
      && at + |added| <= |Added(loads)| && Added(loads)[at] == added[0]
      && (|added| > 1 ==> Added(loads)[at + 1] == added[1])
  {
    AddedAt(loads, k);
    var at, added := |Added(loads[..k])|, loads[k].added;
    assert Added(loads)[at..at + |added|] == added;
    assert Added(loads)[at..at + |added|][0] == Added(loads)[at];
  }

  lemma CostWithHeading(l: Load)
    requires l.held == [] && |l.added| == 1
    ensures Cost(l.All()) == Cost(l.carry) + l.added[0].tokens
  {
    assert l.added == [l.added[0]] && l.All() == l.carry + l.added;
    CostOfOne(l.added[0]);
    CostOfConcat(l.carry, l.added);
  }

  /** If each heading has room for the overlap and the unit behind it, every chunk adds
      something. */
  lemma EveryChunkAddsSomething(lang: Language, target: nat, overlap: nat, units: seq<Unit>, loads: seq<Load>, k: nat)
    requires Packing(lang, target, overlap, units, loads) && k < |loads|
    requires HeadingsHaveRoom(units, target, overlap)
    ensures loads[k].added != [] && loads[k].Fresh(k < |loads| - 1) != []
  {
    assert Fits(target, loads[k]);
    if k < |loads| - 1 && loads[k].Fresh(true) == [] {
      var i := NothingAddedForWantOfRoom(lang, target, overlap, units, loads, k);
    }
  }

  // ----- headings

  ghost predicate NoTwoHeadings(units: seq<Unit>) {
    forall i :: 0 < i < |units| ==> !(IsHeading(units[i - 1]) && IsHeading(units[i]))
  }

  /** The units of a chunk end with those of its predecessor if it adds none. */
  lemma CarriedEnd(lang: Language, units: seq<Unit>, overlap: nat)
    requires units != []
    ensures var carried := Overlap(lang, units, overlap);
      |carried| > 1 ==> |units| > 1 && carried[|carried| - 1] == units[|units| - 1]
  {
    TrailingFits(units, overlap);
  }

  /** A chunk ends in a heading only if that is its single unit. */
  predicate EndsWell(chunk: seq<Unit>)
    requires chunk != []
  {
    IsHeading(chunk[|chunk| - 1]) ==> |chunk| == 1
  }

  lemma CarriedEndsWell(lang: Language, target: nat, overlap: nat, before: Load, l: Load)
    requires before.added != [] && l.added != [] && Follows(lang, target, overlap, before, l)
    requires l.Fresh(true) == [] && EndsWell(before.Flushed(true))
    ensures EndsWell(l.Flushed(true))
  {
    CarriedEnd(lang, before.Flushed(true), overlap);
    assert l.Flushed(true) == l.carry;
  }

  lemma BroughtEndsWell(lang: Language, target: nat, overlap: nat, units: seq<Unit>, loads: seq<Load>, k: nat)
    requires Packing(lang, target, overlap, units, loads) && k < |loads| && NoTwoHeadings(units)
    requires loads[k].added != [] && loads[k].Fresh(true) != []
    ensures EndsWell(loads[k].Flushed(true))
  {
    var l, brought := loads[k], loads[k].Fresh(true);
    assert l.Flushed(true)[|l.Flushed(true)| - 1] == brought[|brought| - 1];
    if l.HoldsBack() {
      PoppedHeadingIsAlone(lang, target, overlap, units, loads, k);
    } else {
      assert l.Flushed(true) == l.carry + (l.held + l.added);
      Assoc(l.carry, l.held, l.added);
    }
  }

  /** A chunk that is followed by another never leaves a heading stranded at its end: it ends
      in one only if the chunk is that single unit. */
  lemma {:induction false} HeadingsAreNotStranded(lang: Language, target: nat, overlap: nat, units: seq<Unit>,
                                                  loads: seq<Load>, k: nat)
    requires Packing(lang, target, overlap, units, loads) && k < |loads| - 1
    requires NoTwoHeadings(units)
    ensures loads[k].added != [] && EndsWell(loads[k].Flushed(true))
  {
    assert Fits(target, loads[k]);
    if loads[k].Fresh(true) == [] {
      AddsNothingIff(loads[k]);
      assert k > 0;
      assert Fits(target, loads[k - 1]) && Follows(lang, target, overlap, loads[k - 1], loads[k]);
      HeadingsAreNotStranded(lang, target, overlap, units, loads, k - 1);
      CarriedEndsWell(lang, target, overlap, loads[k - 1], loads[k]);
    } else {
      BroughtEndsWell(lang, target, overlap, units, loads, k);
    }
  }

  lemma PoppedHeadingIsAlone(lang: Language, target: nat, overlap: nat, units: seq<Unit>, loads: seq<Load>, k: nat)
    requires Packing(lang, target, overlap, units, loads) && k < |loads|
    requires NoTwoHeadings(units) && loads[k].HoldsBack()
    ensures var brought := loads[k].Fresh(true);
      brought != [] ==> !IsHeading(brought[|brought| - 1])
  {
    var l, at := loads[k], |Added(loads[..k])|;
    AddedAt(loads, k);
    if |l.added| > 1 {
      PoppedFromSeveral(units, at, l);
    } else {
      HeldIsShortHeading(lang, target, overlap, units, loads, k);
      if l.held != [] { HeldPrecedes(lang, target, overlap, units, loads, k); }
    }
  }

  lemma PoppedFromSeveral(units: seq<Unit>, at: nat, l: Load)
    requires NoTwoHeadings(units) && l.HoldsBack() && |l.added| > 1
    requires at + |l.added| <= |units| && units[at..at + |l.added|] == l.added
    ensures !IsHeading(l.Fresh(true)[|l.Fresh(true)| - 1])
  {
    var n := |l.added|;
    assert units[at + n - 1] == l.added[n - 1] && units[at + n - 2] == l.added[n - 2];
  }

  /** A held heading is the unit right before the first one added after it. */
  lemma HeldPrecedes(lang: Language, target: nat, overlap: nat, units: seq<Unit>, loads: seq<Load>, k: nat)
    requires Packing(lang, target, overlap, units, loads) && 0 < k < |loads| && loads[k].held != []
    ensures var at := |Added(loads[..k])|;
      0 < at <= |units| && units[at - 1] == loads[k].held[0]
  {
    assert Fits(target, loads[k - 1]) && Fits(target, loads[k]);
    assert Follows(lang, target, overlap, loads[k - 1], loads[k]);
    AddedUpTo(loads, k);
  }

  lemma AddedUpTo(loads: seq<Load>, k: nat)
    requires 0 < k < |loads| && loads[k - 1].added != []
    ensures var at := |Added(loads[..k])|;
      0 < at <= |Added(loads)| && Added(loads)[at - 1] == loads[k - 1].added[|loads[k - 1].added| - 1]
  {
    var before, last := Added(loads[..k - 1]), loads[k - 1].added;
    assert loads[..k] == loads[..k - 1] + [loads[k - 1]];
    AddedSnoc(loads[..k - 1], loads[k - 1]);
    AddedAt(loads, k);
    assert Added(loads)[|before + last| - 1] == (before + last)[|before + last| - 1];
  }
}
