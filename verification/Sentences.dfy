/** ingestion/chunker.py, first half: paragraphs into sentences and sentences into units.
    The tokenizer and the case tables belong to libraries; they are a `Language`. */
module Sentences {
  import opened Seqs
  import opened Text

  datatype Language = Language(
    encode: string -> seq<nat>,
    decode: seq<nat> -> string,
    lower: string -> string,
    isLower: char -> bool)
  {
    /** Tokens in a text. */
    function Count(text: string): nat { |encode(text)| }
  }

  const ABBREVIATIONS: set<string> := {
    "u.s", "u.k", "e.u", "inc", "corp", "co", "ltd", "llc", "plc", "no", "nos",
    "mr", "mrs", "ms", "dr", "jr", "sr", "st", "vs", "etc", "e.g", "i.e",
    "approx", "fig", "al", "dept", "est", "ch", "sec", "art"
  }

  // ----- the regular expression: end of sentence, white space, start of sentence

  predicate EndsSentence(c: char) {
    c == '.' || c == '!' || c == '?' || c == ';'
  }

  predicate StartsSentence(c: char) {
    c == '"' || c == '\U{201c}' || c == '\'' || c == '(' || 'A' <= c <= 'Z'
  }

  predicate BreakAt(s: string, i: nat) {
    && 0 < i < |s|
    && EndsSentence(s[i - 1])
    && IsSpace(s[i])
    && SkipSpaces(s, i) < |s|
    && StartsSentence(s[SkipSpaces(s, i)])
  }

  function NextBreak(s: string, i: nat): (k: nat)
    ensures k <= |s|
    ensures k < |s| ==> BreakAt(s, k)
    decreases |s| - i
  {
    if i >= |s| then |s| else if BreakAt(s, i) then i else NextBreak(s, i + 1)
  }

  /** The text between the breaks, as the regular expression's `split` returns it. */
  function Pieces(s: string): seq<string>
    decreases |s|
  {
    var k := NextBreak(s, 1);
    if k >= |s| then [s]
    else
      assert SkipSpaces(s, k) > k;
      [s[..k]] + Pieces(s[SkipSpaces(s, k)..])
  }

  // ----- merging what an abbreviation split apart

  function StripDots(s: string): string {
    if s != "" && s[|s| - 1] == '.' then StripDots(s[..|s| - 1]) else s
  }

  /** The last word of `s`, lower-cased and without its full stops; "" if there is none. */
  function LastWord(lang: Language, s: string): string {
    var words := Words(RightStrip(s));
    if words == [] then "" else StripDots(lang.lower(words[|words| - 1]))
  }

  predicate Continues(lang: Language, previous: string, piece: string) {
    || LastWord(lang, previous) in ABBREVIATIONS
    || (piece != "" && lang.isLower(piece[0]))
  }

  function Merge(lang: Language, merged: seq<string>, pieces: seq<string>): seq<string>
    decreases |pieces|
  {
    if pieces == [] then merged
    else
      var last := |merged| - 1;
      if merged != [] && Continues(lang, merged[last], pieces[0]) then
        Merge(lang, merged[last := merged[last] + " " + pieces[0]], pieces[1..])
      else
        Merge(lang, merged + [pieces[0]], pieces[1..])
  }

  /** Every text stripped, and those with nothing left dropped. */
  function Trimmed(parts: seq<string>): seq<string> {
    if parts == [] then []
    else (if Strip(parts[0]) == "" then [] else [Strip(parts[0])]) + Trimmed(parts[1..])
  }

  function SentencesOf(lang: Language, paragraph: string): seq<string> {
    Trimmed(Merge(lang, [], Pieces(paragraph)))
  }

  /** Sentence splitting loses no word of the paragraph and adds none. */
  method SplitSentences(lang: Language, paragraph: string) returns (sentences: seq<string>)
    ensures sentences == SentencesOf(lang, paragraph)
    ensures AllWords(sentences) == Words(paragraph)
    ensures forall i :: 0 <= i < |sentences| ==> sentences[i] != ""
  {
    var pieces := Pieces(paragraph);
    var merged: seq<string> := [];
    for i := 0 to |pieces|
      invariant Merge(lang, merged, pieces[i..]) == Merge(lang, [], pieces)
    {
      assert pieces[i..][1..] == pieces[i + 1..];
      if merged != [] && Continues(lang, merged[|merged| - 1], pieces[i]) {
        merged := merged[|merged| - 1 := merged[|merged| - 1] + " " + pieces[i]];
      } else {
        merged := merged + [pieces[i]];
      }
    }
    assert pieces[|pieces|..] == [];
    sentences := Trimmed(merged);
    SentencesKeepWords(lang, paragraph);
    TrimmedHasNoBlanks(merged);
  }

  lemma {:induction false} TrimmedHasNoBlanks(parts: seq<string>)
    ensures forall i :: 0 <= i < |Trimmed(parts)| ==> Trimmed(parts)[i] != ""
  {
    if parts != [] { TrimmedHasNoBlanks(parts[1..]); }
  }

  lemma {:induction false} PiecesKeepWords(s: string)
    ensures AllWords(Pieces(s)) == Words(s)
    decreases |s|
  {
    var k := NextBreak(s, 1);
    if k >= |s| {
      AllWordsOfOne(s);
    } else {
      var j := SkipSpaces(s, k);
      CutAtSpaces(s, k, j);
      PiecesKeepWords(s[j..]);
    }
  }

  lemma CutAtSpaces(s: string, k: nat, j: nat)
    requires k < j <= |s| && Blank(s[k..j])
    ensures Words(s) == Words(s[..k]) + Words(s[j..])
  {
    assert s == s[..k] + s[k..j] + s[j..];
    WordsOfSeparated(s[..k], s[k..j], s[j..]);
  }

  lemma {:induction false} MergeKeepsWords(lang: Language, merged: seq<string>, pieces: seq<string>)
    ensures AllWords(Merge(lang, merged, pieces)) == AllWords(merged) + AllWords(pieces)
    decreases |pieces|
  {
    if pieces != [] {
      var last := |merged| - 1;
      var piece, rest := pieces[0], pieces[1..];
      if merged != [] && Continues(lang, merged[last], piece) {
        GlueToLast(merged, piece);
        MergeKeepsWords(lang, merged[last := merged[last] + " " + piece], rest);
      } else {
        AllWordsSnoc(merged, piece);
        MergeKeepsWords(lang, merged + [piece], rest);
      }
      Assoc(AllWords(merged), Words(piece), AllWords(rest));
    }
  }

  lemma {:induction false} TrimmedKeepsWords(parts: seq<string>)
    ensures AllWords(Trimmed(parts)) == AllWords(parts)
  {
    if parts != [] {
      TrimmedKeepsWords(parts[1..]);
      StripKeepsWords(parts[0]);
      var first := if Strip(parts[0]) == "" then [] else [Strip(parts[0])];
      AllWordsOfConcat(first, Trimmed(parts[1..]));
      if first != [] { AllWordsOfOne(first[0]); }
    }
  }

  lemma SentencesKeepWords(lang: Language, paragraph: string)
    ensures AllWords(SentencesOf(lang, paragraph)) == Words(paragraph)
  {
    PiecesKeepWords(paragraph);
    MergeKeepsWords(lang, [], Pieces(paragraph));
    TrimmedKeepsWords(Merge(lang, [], Pieces(paragraph)));
  }

  // ----- units

  datatype Unit = Unit(text: string, tokens: nat, paragraph: nat, hardSplit: bool)

  function UnitWords(units: seq<Unit>): seq<string> {
    if units == [] then [] else Words(units[0].text) + UnitWords(units[1..])
  }

  predicate NoHardSplit(units: seq<Unit>) {
    forall i :: 0 <= i < |units| ==> !units[i].hardSplit
  }

  /** Tokens decoded `limit` at a time: the last resort for one over-long sentence.  Only
      here can a unit end inside a sentence, so only these units are flagged. */
  function FragmentUnits(lang: Language, ids: seq<nat>, index: nat, limit: nat): (units: seq<Unit>)
    requires limit > 0
    ensures ids != [] ==> units != [] && units[0].hardSplit
    decreases |ids|
  {
    if ids == [] then []
    else
      var n := if |ids| <= limit then |ids| else limit;
      var fragment := lang.decode(ids[..n]);
      [Unit(fragment, lang.Count(fragment), index, true)] + FragmentUnits(lang, ids[n..], index, limit)
  }

  function SentenceUnits(lang: Language, sentences: seq<string>, index: nat, target: nat): seq<Unit>
    requires target > 0
  {
    if sentences == [] then []
    else
      var tokens := lang.Count(sentences[0]);
      (if tokens <= target then [Unit(sentences[0], tokens, index, false)]
       else FragmentUnits(lang, lang.encode(sentences[0]), index, target))
      + SentenceUnits(lang, sentences[1..], index, target)
  }

  /** The units of one paragraph, broken down only as far as the target makes necessary. */
  function UnitsOfOne(lang: Language, paragraph: string, index: nat, target: nat): seq<Unit>
    requires target > 0
  {
    if paragraph == "" then []
    else if lang.Count(paragraph) <= target then [Unit(paragraph, lang.Count(paragraph), index, false)]
    else SentenceUnits(lang, SentencesOf(lang, paragraph), index, target)
  }

  /** The units of the paragraphs from number `index` on. */
  function ParagraphUnits(lang: Language, paragraphs: seq<string>, index: nat, target: nat): seq<Unit>
    requires target > 0
  {
    if paragraphs == [] then []
    else
      UnitsOfOne(lang, Strip(paragraphs[0]), index, target) + ParagraphUnits(lang, paragraphs[1..], index + 1, target)
  }

  function UnitsOf(lang: Language, text: string, target: nat): seq<Unit>
    requires target > 0
  {
    ParagraphUnits(lang, Split(text, "\n\n"), 0, target)
  }

  /** The units hold the words of the text, in order, unless a sentence had to be cut by
      tokens; and every other unit fits the target. */
  method BuildUnits(lang: Language, text: string, target: nat) returns (units: seq<Unit>)
    requires target > 0
    ensures units == UnitsOf(lang, text, target)
    ensures NoHardSplit(units) ==> UnitWords(units) == Words(text)
    ensures UnitsFit(units, target)
  {
    var paragraphs := Split(text, "\n\n");
    units := [];
    for p := 0 to |paragraphs|
      invariant units + ParagraphUnits(lang, paragraphs[p..], p, target) == UnitsOf(lang, text, target)
    {
      assert paragraphs[p..][1..] == paragraphs[p + 1..];
      var paragraph := Strip(paragraphs[p]);
      Assoc(units, UnitsOfOne(lang, paragraph, p, target), ParagraphUnits(lang, paragraphs[p + 1..], p + 1, target));
      if paragraph == "" {
        assert units + [] == units;
        continue;
      }
      var tokens := lang.Count(paragraph);
      if tokens <= target {
        units := units + [Unit(paragraph, tokens, p, false)];
        continue;
      }
      var sentences := SplitSentences(lang, paragraph);
      var broken := BuildSentenceUnits(lang, sentences, p, target);
      units := units + broken;
    }
    assert paragraphs[|paragraphs|..] == [];
    UnitsKeepWords(lang, text, target);
    ParagraphUnitsFit(lang, paragraphs, 0, target);
  }

  method BuildSentenceUnits(lang: Language, sentences: seq<string>, index: nat, target: nat) returns (units: seq<Unit>)
    requires target > 0
    ensures units == SentenceUnits(lang, sentences, index, target)
  {
    units := [];
    for s := 0 to |sentences|
      invariant units + SentenceUnits(lang, sentences[s..], index, target)
             == SentenceUnits(lang, sentences, index, target)
    {
      assert sentences[s..][1..] == sentences[s + 1..];
      ghost var later := SentenceUnits(lang, sentences[s + 1..], index, target);
      var tokens := lang.Count(sentences[s]);
      var made := if tokens <= target then [Unit(sentences[s], tokens, index, false)]
                  else FragmentUnits(lang, lang.encode(sentences[s]), index, target);
      Assoc(units, made, later);
      units := units + made;
    }
    assert sentences[|sentences|..] == [];
  }

  lemma {:induction false} UnitWordsOfConcat(a: seq<Unit>, b: seq<Unit>)
    ensures UnitWords(a + b) == UnitWords(a) + UnitWords(b)
  {
    if a == [] {
      assert a + b == b;
    } else {
      assert (a + b)[1..] == a[1..] + b;
      UnitWordsOfConcat(a[1..], b);
      Assoc(Words(a[0].text), UnitWords(a[1..]), UnitWords(b));
    }
  }

  lemma UnitWordsOfOne(u: Unit)
    ensures UnitWords([u]) == Words(u.text)
  {
    assert UnitWords([u]) == Words(u.text) + UnitWords([u][1..]);
  }

  lemma NoHardSplitParts(a: seq<Unit>, b: seq<Unit>)
    requires NoHardSplit(a + b)
    ensures NoHardSplit(a) && NoHardSplit(b)
  {
    forall i | 0 <= i < |a| ensures !a[i].hardSplit { assert (a + b)[i] == a[i]; }
    forall i | 0 <= i < |b| ensures !b[i].hardSplit { assert (a + b)[|a| + i] == b[i]; }
  }

  lemma {:induction false} SentenceUnitsKeepWords(lang: Language, sentences: seq<string>, index: nat, target: nat)
    requires target > 0
    requires NoHardSplit(SentenceUnits(lang, sentences, index, target))
    ensures UnitWords(SentenceUnits(lang, sentences, index, target)) == AllWords(sentences)
  {
    if sentences != [] {
      var tokens := lang.Count(sentences[0]);
      var first := if tokens <= target then [Unit(sentences[0], tokens, index, false)]
                   else FragmentUnits(lang, lang.encode(sentences[0]), index, target);
      var rest := SentenceUnits(lang, sentences[1..], index, target);
      NoHardSplitParts(first, rest);
      assert tokens <= target by { assert !first[0].hardSplit; }
      SentenceUnitsKeepWords(lang, sentences[1..], index, target);
      UnitWordsOfConcat(first, rest);
      UnitWordsOfOne(first[0]);
    }
  }

  lemma {:induction false} ParagraphUnitsKeepWords(lang: Language, paragraphs: seq<string>, index: nat, target: nat)
    requires target > 0
    requires NoHardSplit(ParagraphUnits(lang, paragraphs, index, target))
    ensures UnitWords(ParagraphUnits(lang, paragraphs, index, target)) == AllWords(paragraphs)
  {
    if paragraphs != [] {
      var paragraph := Strip(paragraphs[0]);
      var first := UnitsOfOne(lang, paragraph, index, target);
      var rest := ParagraphUnits(lang, paragraphs[1..], index + 1, target);
      NoHardSplitParts(first, rest);
      ParagraphUnitsKeepWords(lang, paragraphs[1..], index + 1, target);
      UnitWordsOfConcat(first, rest);
      StripKeepsWords(paragraphs[0]);
      if paragraph == "" {
      } else if lang.Count(paragraph) <= target {
        UnitWordsOfOne(first[0]);
      } else {
        SentenceUnitsKeepWords(lang, SentencesOf(lang, paragraph), index, target);
        SentencesKeepWords(lang, paragraph);
      }
    }
  }

  lemma UnitsKeepWords(lang: Language, text: string, target: nat)
    requires target > 0
    ensures NoHardSplit(UnitsOf(lang, text, target)) ==> UnitWords(UnitsOf(lang, text, target)) == Words(text)
  {
    if NoHardSplit(UnitsOf(lang, text, target)) {
      ParagraphUnitsKeepWords(lang, Split(text, "\n\n"), 0, target);
      JoinOfSplit(text, "\n\n");
      WordsOfJoin(Split(text, "\n\n"), "\n\n");
    }
  }

  predicate UnitsFit(units: seq<Unit>, target: nat) {
    forall i :: 0 <= i < |units| ==> units[i].hardSplit || units[i].tokens <= target
  }

  lemma {:induction false} FragmentsAreFlagged(lang: Language, ids: seq<nat>, index: nat, limit: nat)
    requires limit > 0
    ensures UnitsFit(FragmentUnits(lang, ids, index, limit), limit)
    decreases |ids|
  {
    if ids != [] { FragmentsAreFlagged(lang, ids[if |ids| <= limit then |ids| else limit..], index, limit); }
  }

  lemma {:induction false} SentenceUnitsFit(lang: Language, sentences: seq<string>, index: nat, target: nat)
    requires target > 0
    ensures UnitsFit(SentenceUnits(lang, sentences, index, target), target)
  {
    if sentences != [] {
      FragmentsAreFlagged(lang, lang.encode(sentences[0]), index, target);
      SentenceUnitsFit(lang, sentences[1..], index, target);
    }
  }

  lemma {:induction false} ParagraphUnitsFit(lang: Language, paragraphs: seq<string>, index: nat, target: nat)
    requires target > 0
    ensures UnitsFit(ParagraphUnits(lang, paragraphs, index, target), target)
  {
    if paragraphs != [] {
      SentenceUnitsFit(lang, SentencesOf(lang, Strip(paragraphs[0])), index, target);
      ParagraphUnitsFit(lang, paragraphs[1..], index + 1, target);
    }
  }
}
