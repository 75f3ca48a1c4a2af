/** What a chunk repeats of the one before, how units are joined, and what a heading is. */
module Carry {
  import opened Seqs
  import opened Text
  import opened Sentences
  import opened Chunker

  // ----- headings

  lemma StripOf(a: string, t: string, b: string)
    requires Blank(a) && Blank(b) && t != "" && !IsSpace(t[0]) && !IsSpace(t[|t| - 1])
    ensures Strip(a + t + b) == t
  {
    Assoc(a, t, b);
    LeftStripOf(a, t + b);
    RightStripOf(t, b);
  }

  lemma {:induction false} LeftStripOf(a: string, t: string)
    requires Blank(a) && (t == "" || !IsSpace(t[0]))
    ensures LeftStrip(a + t) == t
  {
    if a == "" {
      assert a + t == t;
    } else {
      assert (a + t)[1..] == a[1..] + t;
      LeftStripOf(a[1..], t);
    }
  }

  lemma {:induction false} RightStripOf(t: string, b: string)
    requires Blank(b) && (t == "" || !IsSpace(t[|t| - 1]))
    ensures RightStrip(t + b) == t
  {
    if b == "" {
      assert t + b == t;
    } else {
      assert (t + b)[..|t + b| - 1] == t + b[..|b| - 1];
      RightStripOf(t, b[..|b| - 1]);
    }
  }

  /** A unit reads as a heading if, without the white space around it, it is at most 15 tokens
      long, opens with no bullet and ends with no closing punctuation; and only then. */
  lemma HeadingIff(a: string, t: string, b: string, tokens: nat, paragraph: nat, hardSplit: bool)
    requires Blank(a) && Blank(b) && t != "" && !IsSpace(t[0]) && !IsSpace(t[|t| - 1])
    ensures IsHeading(Unit(a + t + b, tokens, paragraph, hardSplit)) <==>
      && tokens <= 15
      && t[0] !in {'\U{2022}', '-', '\U{2013}'}
      && t[|t| - 1] !in {'.', '!', '?', ':', ';', '\U{201d}', '"', '\'', ')'}
  {
    StripOf(a, t, b);
  }

  lemma BlankIsNoHeading(unit: Unit)
    requires Blank(unit.text)
    ensures !IsHeading(unit)
  {
    LeftStripOf(unit.text, "");
    assert unit.text + "" == unit.text;
  }

  // ----- joining

  lemma JoinedOfOne(unit: Unit)
    ensures Joined([unit]) == unit.text
  {
  }

  /** Where units of one paragraph meet there is a space between them, and where paragraphs
      meet a blank line. */
  /** What is between two joined lists of units. */
  predicate JoinsBetween(a: seq<Unit>, b: seq<Unit>, sep: string) {
    Joined(a + b) == Joined(a) + sep + Joined(b)
  }

  lemma JoinsOneMore(a: seq<Unit>, front: seq<Unit>, last: Unit, sep: string)
    requires a != [] && front != [] && JoinsBetween(a, front, sep)
    ensures JoinsBetween(a, front + [last], sep)
  {
    JoinedSnoc(a + front, last);
    JoinedSnoc(front, last);
    Assoc(a, front, [last]);
    FourParts(Joined(a), sep, Joined(front), Between(front, last), last.text);
  }

  lemma JoinsFirst(a: seq<Unit>, first: Unit)
    requires a != []
    ensures JoinsBetween(a, [first], Between(a, first))
  {
    JoinedSnoc(a, first);
    JoinedOfOne(first);
  }

  lemma {:induction false} JoinedOfConcat(a: seq<Unit>, b: seq<Unit>)
    requires a != [] && b != []
    ensures JoinsBetween(a, b, if a[|a| - 1].paragraph == b[0].paragraph then " " else "\n\n")
  {
    var sep := if a[|a| - 1].paragraph == b[0].paragraph then " " else "\n\n";
    if |b| == 1 {
      JoinsFirst(a, b[0]);
      assert b == [b[0]];
    } else {
      JoinedOfConcat(a, b[..|b| - 1]);
      JoinsOneMore(a, b[..|b| - 1], b[|b| - 1], sep);
      assert b == b[..|b| - 1] + [b[|b| - 1]];
    }
  }

  function Between(units: seq<Unit>, next: Unit): string
    requires units != []
  {
    if units[|units| - 1].paragraph != next.paragraph then "\n\n" else " "
  }

  lemma JoinedSnoc(units: seq<Unit>, last: Unit)
    requires units != []
    ensures Joined(units + [last]) == Joined(units) + Between(units, last) + last.text
  {
    assert (units + [last])[..|units|] == units;
  }

  lemma FourParts(a: string, s: string, b: string, t: string, c: string)
    ensures a + s + b + t + c == a + s + (b + t + c)
  {
    Assoc(a + s, b, t);
    Assoc(a + s, b + t, c);
  }

  // ----- the overlap is the longest there is

  /** `tail` is the longest part at the end of `units` that costs no more than the budget. */
  predicate IsLongest(tail: seq<Unit>, units: seq<Unit>, budget: nat) {
    && IsSuffix(tail, units) && Cost(tail) <= budget
    && (|tail| < |units| ==> units[|units| - |tail| - 1].tokens + Cost(tail) > budget)
  }

  lemma LongestMore(tail: seq<Unit>, units: seq<Unit>, budget: nat)
    requires units != [] && units[|units| - 1].tokens <= budget
    requires IsLongest(tail, units[..|units| - 1], budget - units[|units| - 1].tokens)
    ensures IsLongest(tail + [units[|units| - 1]], units, budget)
  {
    var front, last := units[..|units| - 1], units[|units| - 1];
    CostSnoc(tail, last);
    SuffixSnoc(tail, front, last);
    assert units == front + [last];
  }

  lemma NoneIsLongest(units: seq<Unit>, budget: nat)
    requires units != [] ==> units[|units| - 1].tokens > budget
    ensures IsLongest([], units, budget)
  {
  }

  lemma {:induction false} TrailingIsLongest(units: seq<Unit>, budget: nat) returns (tail: seq<Unit>)
    ensures tail == Trailing(units, budget) && IsLongest(tail, units, budget)
  {
    if units == [] || units[|units| - 1].tokens > budget {
      tail := [];
      NoneIsLongest(units, budget);
    } else {
      var last := units[|units| - 1];
      var shorter := TrailingIsLongest(units[..|units| - 1], budget - last.tokens);
      LongestMore(shorter, units, budget);
      tail := shorter + [last];
    }
  }

  /** The same for the sentences of a unit. */
  predicate IsLongestOf(lang: Language, tail: seq<string>, sentences: seq<string>, budget: nat) {
    && IsSuffix(tail, sentences) && TokenSum(lang, tail) <= budget
    && (|tail| < |sentences| ==> lang.Count(sentences[|sentences| - |tail| - 1]) + TokenSum(lang, tail) > budget)
  }

  lemma LongestOfMore(lang: Language, tail: seq<string>, sentences: seq<string>, budget: nat)
    requires sentences != [] && lang.Count(sentences[|sentences| - 1]) <= budget
    requires IsLongestOf(lang, tail, sentences[..|sentences| - 1], budget - lang.Count(sentences[|sentences| - 1]))
    ensures IsLongestOf(lang, tail + [sentences[|sentences| - 1]], sentences, budget)
  {
    var front, last := sentences[..|sentences| - 1], sentences[|sentences| - 1];
    TokenSumOfConcat(lang, tail, [last]);
    TokenSumOfOne(lang, last);
    SuffixSnoc(tail, front, last);
    assert sentences == front + [last];
  }

  lemma NoneIsLongestOf(lang: Language, sentences: seq<string>, budget: nat)
    requires sentences != [] ==> lang.Count(sentences[|sentences| - 1]) > budget
    ensures IsLongestOf(lang, [], sentences, budget)
  {
  }

  lemma TokenSumOfOne(lang: Language, sentence: string)
    ensures TokenSum(lang, [sentence]) == lang.Count(sentence)
  {
    assert TokenSum(lang, [sentence]) == lang.Count(sentence) + TokenSum(lang, [sentence][1..]);
  }

  lemma {:induction false} TrailingSentencesAreLongest(lang: Language, sentences: seq<string>, budget: nat)
      returns (tail: seq<string>)
    ensures tail == TrailingSentences(lang, sentences, budget) && IsLongestOf(lang, tail, sentences, budget)
  {
    if sentences == [] || lang.Count(sentences[|sentences| - 1]) > budget {
      tail := [];
      NoneIsLongestOf(lang, sentences, budget);
    } else {
      var last := sentences[|sentences| - 1];
      var shorter := TrailingSentencesAreLongest(lang, sentences[..|sentences| - 1], budget - lang.Count(last));
      LongestOfMore(lang, shorter, sentences, budget);
      tail := shorter + [last];
    }
  }

  /** The overlap is as long as its budget allows: the longest run of units at the end of the
      chunk, or if not even the last unit fits, the longest run of sentences at its end in one
      unit; nothing only if not even the last sentence fits. */
  lemma OverlapIsLongest(lang: Language, units: seq<Unit>, overlap: nat) returns (tail: seq<string>)
    requires units != []
    ensures var last, carried := units[|units| - 1], Overlap(lang, units, overlap);
      && (last.tokens <= overlap ==> carried != [] && IsLongest(carried, units, overlap))
      && (last.tokens > overlap ==>
            && IsLongestOf(lang, tail, SentencesOf(lang, last.text), overlap)
            && carried == if tail == [] then []
                          else [Unit(Join(tail, " "), TokenSum(lang, tail), last.paragraph, false)])
  {
    var last := units[|units| - 1];
    var whole := TrailingIsLongest(units, overlap);
    tail := TrailingSentencesAreLongest(lang, SentencesOf(lang, last.text), overlap);
    EmptyOnlyIf(units, whole, overlap);
  }

  lemma EmptyOnlyIf(units: seq<Unit>, tail: seq<Unit>, budget: nat)
    requires units != [] && IsLongest(tail, units, budget)
    ensures tail == [] <==> units[|units| - 1].tokens > budget
  {
    if tail != [] {
      var front, last := tail[..|tail| - 1], tail[|tail| - 1];
      assert tail == front + [last];
      CostSnoc(front, last);
      assert last == units[|units| - 1];
    }
  }

  /** A chunk's label, token count and text are its own: the section it is from, the tokens of
      its very text, and its units joined. */
  lemma ChunksAreLabelled(lang: Language, target: nat, overlap: nat, units: seq<Unit>, section: string, start: nat,
                          chunks: seq<Chunk>)
    requires IsChunking(lang, target, overlap, units, section, start, chunks)
    ensures forall k :: 0 <= k < |chunks| ==>
      chunks[k].section == section && chunks[k].tokenCount == |lang.encode(chunks[k].content)|
  {
    var loads :| Packing(lang, target, overlap, units, loads) && Rendered(lang, section, start, loads, chunks);
    forall k | 0 <= k < |chunks|
      ensures chunks[k].section == section && chunks[k].tokenCount == |lang.encode(chunks[k].content)|
    {
      assert Fits(target, loads[k]);
    }
  }

  /** The units in each chunk: a chunk is its units joined, and begins with the overlap of the
      one before. */
  ghost predicate HoldUnits(lang: Language, overlap: nat, chunks: seq<Chunk>, held: seq<seq<Unit>>) {
    && |held| == |chunks|
    && (forall k :: 0 <= k < |held| ==> held[k] != [] && chunks[k].content == Joined(held[k]))
    && forall k :: 0 < k < |held| ==> BeginsWithOverlap(lang, overlap, held[k - 1], held[k])
  }

  predicate BeginsWithOverlap(lang: Language, overlap: nat, before: seq<Unit>, units: seq<Unit>) {
    before != [] && Overlap(lang, before, overlap) <= units
  }

  /** Each chunk repeats, at its head, the overlap of the chunk before it: as much of its end as
      fits the budget. */
  lemma ChunksBeginWithTheOverlap(lang: Language, target: nat, overlap: nat, units: seq<Unit>, section: string,
                                  start: nat, chunks: seq<Chunk>) returns (held: seq<seq<Unit>>)
    requires IsChunking(lang, target, overlap, units, section, start, chunks)
    ensures HoldUnits(lang, overlap, chunks, held)
  {
    var loads: seq<Load> :| Packing(lang, target, overlap, units, loads)
      && Rendered(lang, section, start, loads, chunks);
    AllAdded(lang, target, overlap, loads);
    held := UnitsOfEach(loads);
    EachBegins(lang, target, overlap, loads);
    EachRendered(lang, section, start, loads, chunks);
  }

  lemma EachBegins(lang: Language, target: nat, overlap: nat, loads: seq<Load>)
    requires Chained(lang, target, overlap, loads)
    requires forall k :: 0 <= k < |loads| ==> loads[k].added != []
    ensures var held := UnitsOfEach(loads);
      forall k :: 0 < k < |held| ==> BeginsWithOverlap(lang, overlap, held[k - 1], held[k])
  {
    var held := UnitsOfEach(loads);
    forall k | 0 < k < |held| ensures BeginsWithOverlap(lang, overlap, held[k - 1], held[k]) {
      assert Follows(lang, target, overlap, loads[k - 1], loads[k]);
    }
  }

  lemma EachRendered(lang: Language, section: string, start: nat, loads: seq<Load>, chunks: seq<Chunk>)
    requires forall k :: 0 <= k < |loads| ==> loads[k].added != []
    requires Rendered(lang, section, start, loads, chunks)
    ensures var held := UnitsOfEach(loads);
      |held| == |chunks| && forall k :: 0 <= k < |held| ==> held[k] != [] && chunks[k].content == Joined(held[k])
  {
  }

  function UnitsOfEach(loads: seq<Load>): seq<seq<Unit>>
    requires forall k :: 0 <= k < |loads| ==> loads[k].added != []
  {
    seq(|loads|, k requires 0 <= k < |loads| => loads[k].Flushed(k < |loads| - 1))
  }

  lemma AllAdded(lang: Language, target: nat, overlap: nat, loads: seq<Load>)
    requires Chained(lang, target, overlap, loads)
    ensures forall k :: 0 <= k < |loads| ==> loads[k].added != []
  {
    forall k | 0 <= k < |loads| ensures loads[k].added != [] { assert Fits(target, loads[k]); }
  }
}
