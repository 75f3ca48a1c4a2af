/** What sentence splitting and unit building come to, told by where a text is cut: sentences
    between breaks, breaks undone behind abbreviations, and paragraphs cut only if they must. */
module Units {
  import opened Seqs
  import opened Text
  import opened Sentences

  // ----- breaks

  /** White space from `i` to `j` between the end of a sentence and the start of one. */
  predicate SentenceBreak(s: string, i: nat, j: nat) {
    && 0 < i < j < |s|
    && s[i - 1] in {'.', '!', '?', ';'}
    && (forall k :: i <= k < j ==> IsSpace(s[k]))
    && (s[j] in {'"', '\U{201c}', '\'', '('} || 'A' <= s[j] <= 'Z')
  }

  ghost predicate NoBreakIn(s: string) {
    forall i, j :: !SentenceBreak(s, i, j)
  }

  lemma BreakIsAt(s: string, i: nat, j: nat)
    requires SentenceBreak(s, i, j)
    ensures BreakAt(s, i)
  {
    SkipSpacesIs(s, i, j);
  }

  lemma {:induction false} NextIsFirst(s: string, from: nat, i: nat)
    requires from <= i < NextBreak(s, from)
    ensures !BreakAt(s, i)
    decreases |s| - from
  {
    if from < i { NextIsFirst(s, from + 1, i); }
  }

  lemma NoBreakBefore(s: string)
    ensures NoBreakIn(s[..NextBreak(s, 1)])
  {
    var end := NextBreak(s, 1);
    var piece := s[..end];
    forall i, j ensures !SentenceBreak(piece, i, j) {
      if 0 < i < j < end {
        NextIsFirst(s, 1, i);
        if SentenceBreak(s, i, j) { BreakIsAt(s, i, j); }
      }
    }
  }

  /** A gap is white space, with the end of a sentence before it and the start of one behind. */
  predicate IsBreak(before: string, gap: string, behind: string) {
    && gap != "" && Blank(gap)
    && before != "" && before[|before| - 1] in {'.', '!', '?', ';'}
    && behind != "" && (behind[0] in {'"', '\U{201c}', '\'', '('} || 'A' <= behind[0] <= 'Z')
  }

  ghost predicate AreBreaks(pieces: seq<string>, gaps: seq<string>) {
    && |pieces| == |gaps| + 1
    && (forall k :: 0 <= k < |gaps| ==> IsBreak(pieces[k], gaps[k], pieces[k + 1]))
    && (forall k :: 0 <= k < |pieces| ==> NoBreakIn(pieces[k]))
  }

  lemma BreakBefore(piece: string, gap: string, pieces: seq<string>, gaps: seq<string>)
    requires AreBreaks(pieces, gaps) && IsBreak(piece, gap, pieces[0]) && NoBreakIn(piece)
    ensures AreBreaks([piece] + pieces, [gap] + gaps)
    ensures Woven([piece] + pieces, [gap] + gaps) == piece + gap + Woven(pieces, gaps)
  {
    var morePieces, moreGaps := [piece] + pieces, [gap] + gaps;
    WovenNext(morePieces, moreGaps);
    assert morePieces[1..] == pieces && moreGaps[1..] == gaps;
    forall k | 0 <= k < |moreGaps| ensures IsBreak(morePieces[k], moreGaps[k], morePieces[k + 1]) {
      if k > 0 { assert morePieces[k] == pieces[k - 1] && morePieces[k + 1] == pieces[k]; }
    }
  }

  lemma ThreeParts<T>(s: seq<T>, k: nat, j: nat)
    requires k <= j <= |s|
    ensures s == s[..k] + s[k..j] + s[j..]
  {
  }

  lemma PiecesNext(s: string)
    requires NextBreak(s, 1) < |s|
    ensures var k := NextBreak(s, 1); var j := SkipSpaces(s, k);
      0 < k < j < |s| && Pieces(s) == [s[..k]] + Pieces(s[j..]) && IsBreak(s[..k], s[k..j], s[j..])
  {
    BreakHolds(s, NextBreak(s, 1));
  }

  lemma BreakHolds(s: string, k: nat)
    requires BreakAt(s, k)
    ensures k < SkipSpaces(s, k) && IsBreak(s[..k], s[k..SkipSpaces(s, k)], s[SkipSpaces(s, k)..])
  {
    assert s[..k][k - 1] == s[k - 1];
  }

  lemma {:induction false} PiecesStartTheText(s: string)
    ensures Pieces(s) != [] && (s != "" ==> Pieces(s)[0] != "" && Pieces(s)[0][0] == s[0])
  {
  }

  /** The pieces of a paragraph are what lies between its sentence breaks. */
  lemma {:induction false} PiecesLieBetweenBreaks(s: string) returns (pieces: seq<string>, gaps: seq<string>)
    ensures pieces == Pieces(s) && AreBreaks(pieces, gaps) && Woven(pieces, gaps) == s
    decreases |s|
  {
    NoBreakBefore(s);
    var k := NextBreak(s, 1);
    if k >= |s| {
      assert s[..k] == s;
      pieces, gaps := [s], [];
    } else {
      var j := SkipSpaces(s, k);
      PiecesNext(s);
      ThreeParts(s, k, j);
      var rest, restGaps := PiecesLieBetweenBreaks(s[j..]);
      PiecesStartTheText(s[j..]);
      BreakBefore(s[..k], s[k..j], rest, restGaps);
      pieces, gaps := [s[..k]] + rest, [s[k..j]] + restGaps;
    }
  }

  // ----- breaks undone

  lemma {:induction false} StripDotsIs(s: string)
    ensures StripDots(s) <= s
    ensures forall i :: |StripDots(s)| <= i < |s| ==> s[i] == '.'
    ensures StripDots(s) != "" ==> StripDots(s)[|StripDots(s)| - 1] != '.'
  {
    if s != "" && s[|s| - 1] == '.' { StripDotsIs(s[..|s| - 1]); }
  }

  /** A break is undone behind an abbreviation, whatever its case and full stops, and before a
      small letter. */
  lemma NoEmptyAbbreviation()
    ensures "" !in ABBREVIATIONS
  {
  }

  lemma ContinuesIff(lang: Language, previous: string, piece: string)
    ensures Continues(lang, previous, piece) <==>
      || EndsAbbreviated(lang, Words(previous))
      || (piece != "" && lang.isLower(piece[0]))
  {
    LastWordAbbreviated(lang, previous);
  }

  lemma LastWordAbbreviated(lang: Language, previous: string)
    ensures LastWord(lang, previous) in ABBREVIATIONS <==> EndsAbbreviated(lang, Words(previous))
  {
    RightStripKeepsWords(previous);
    var words := Words(previous);
    if words == [] { NoEmptyAbbreviation(); } else { AbbreviatedIff(lang.lower(words[|words| - 1])); }
  }

  /** The last word is an abbreviation, whatever its case and its full stops at the end. */
  ghost predicate EndsAbbreviated(lang: Language, words: seq<string>) {
    words != [] && IsAbbreviation(lang.lower(words[|words| - 1]))
  }

  ghost predicate IsAbbreviation(word: string) {
    exists w :: w in ABBREVIATIONS && IsWithoutDots(w, word)
  }

  lemma AbbreviatedIff(word: string)
    ensures IsAbbreviation(word) <==> StripDots(word) in ABBREVIATIONS
  {
    StripDotsIs(word);
    assert IsWithoutDots(StripDots(word), word);
    if IsAbbreviation(word) {
      var w :| w in ABBREVIATIONS && IsWithoutDots(w, word);
      OneWithoutDots(w, StripDots(word), word);
    }
  }

  /** `s` is `w` and then full stops only, as many as there are. */
  predicate IsWithoutDots(w: string, s: string) {
    && w <= s && (forall i :: |w| <= i < |s| ==> s[i] == '.')
    && (w != "" ==> w[|w| - 1] != '.')
  }

  lemma OneWithoutDots(v: string, w: string, s: string)
    requires IsWithoutDots(v, s) && IsWithoutDots(w, s)
    ensures v == w
  {
    var endOfV := if v == "" then '.' else s[|v| - 1];
    var endOfW := if w == "" then '.' else s[|w| - 1];
    assert v == s[..|v|] && w == s[..|w|];
  }

  /** Each piece of a group continues the text of the group so far. */
  predicate IsRun(lang: Language, group: seq<string>) {
    group != [] && forall i :: 0 < i < |group| ==> Continues(lang, Join(group[..i], " "), group[i])
  }

  /** Groups of pieces, each as long as the next piece continues it. */
  predicate AreRuns(lang: Language, groups: seq<seq<string>>) {
    && (forall k :: 0 <= k < |groups| ==> IsRun(lang, groups[k]))
    && (forall k :: 0 < k < |groups| ==> Ends(lang, groups[k - 1], groups[k]))
  }

  predicate Ends(lang: Language, group: seq<string>, next: seq<string>) {
    next != [] && !Continues(lang, Join(group, " "), next[0])
  }

  lemma RunLonger(lang: Language, group: seq<string>, piece: string)
    requires IsRun(lang, group) && Continues(lang, Join(group, " "), piece)
    ensures IsRun(lang, group + [piece])
  {
    var longer := group + [piece];
    forall i | 0 < i < |longer| ensures Continues(lang, Join(longer[..i], " "), longer[i]) {
      if i < |group| { assert longer[..i] == group[..i]; } else { assert longer[..i] == group; }
    }
  }

  lemma RunsLonger(lang: Language, front: seq<seq<string>>, group: seq<string>, piece: string)
    requires AreRuns(lang, front + [group]) && Continues(lang, Join(group, " "), piece)
    ensures AreRuns(lang, front + [group + [piece]])
    ensures Concat(front + [group + [piece]]) == Concat(front + [group]) + [piece]
  {
    var was, now := front + [group], front + [group + [piece]];
    assert was[|front|] == group;
    RunLonger(lang, group, piece);
    forall k | 0 <= k < |now| ensures IsRun(lang, now[k]) {
      if k < |front| { assert now[k] == was[k]; }
    }
    forall k | 0 < k < |now| ensures Ends(lang, now[k - 1], now[k]) {
      assert Ends(lang, was[k - 1], was[k]) && now[k - 1] == was[k - 1];
    }
    ConcatSnoc(front, group);
    ConcatSnoc(front, group + [piece]);
    Assoc(Concat(front), group, [piece]);
  }

  lemma RunsMore(lang: Language, groups: seq<seq<string>>, piece: string)
    requires AreRuns(lang, groups)
    requires groups != [] ==> !Continues(lang, Join(groups[|groups| - 1], " "), piece)
    ensures AreRuns(lang, groups + [[piece]])
    ensures Concat(groups + [[piece]]) == Concat(groups) + [piece]
  {
    var now := groups + [[piece]];
    forall k | 0 <= k < |now| ensures IsRun(lang, now[k]) {
      if k < |groups| { assert now[k] == groups[k]; }
    }
    forall k | 0 < k < |now| ensures Ends(lang, now[k - 1], now[k]) {
      if k < |groups| { assert Ends(lang, groups[k - 1], groups[k]) && now[k] == groups[k]; }
    }
    ConcatSnoc(groups, [piece]);
  }

  lemma {:induction false} MergeJoinsRuns(lang: Language, groups: seq<seq<string>>, pieces: seq<string>)
      returns (all: seq<seq<string>>)
    requires AreRuns(lang, groups)
    ensures AreRuns(lang, all) && Concat(all) == Concat(groups) + pieces
    ensures Merge(lang, Glued(groups), pieces) == Glued(all)
    decreases |pieces|
  {
    if pieces == [] {
      all := groups;
    } else {
      var next := OnePieceMore(lang, groups, pieces[0]);
      all := MergeJoinsRuns(lang, next, pieces[1..]);
      Assoc(Concat(groups), [pieces[0]], pieces[1..]);
      assert [pieces[0]] + pieces[1..] == pieces;
    }
  }

  lemma GluedLonger(front: seq<seq<string>>, group: seq<string>, piece: string)
    requires group != []
    ensures Glued(front + [group + [piece]])
         == Glued(front + [group])[|front| := Join(group, " ") + " " + piece]
  {
    JoinSnoc(group, piece, " ");
  }

  lemma GluedMore(groups: seq<seq<string>>, piece: string)
    ensures Glued(groups + [[piece]]) == Glued(groups) + [piece]
  {
  }

  lemma OnePieceMore(lang: Language, groups: seq<seq<string>>, piece: string) returns (next: seq<seq<string>>)
    requires AreRuns(lang, groups)
    ensures AreRuns(lang, next) && Concat(next) == Concat(groups) + [piece]
    ensures var merged, last := Glued(groups), |groups| - 1;
      Glued(next) == if merged != [] && Continues(lang, merged[last], piece)
                     then merged[last := merged[last] + " " + piece] else merged + [piece]
  {
    var last := |groups| - 1;
    if groups != [] && Continues(lang, Glued(groups)[last], piece) {
      next := LastRunLonger(lang, groups, piece);
    } else {
      RunsMore(lang, groups, piece);
      GluedMore(groups, piece);
      next := groups + [[piece]];
    }
  }

  lemma LastRunLonger(lang: Language, groups: seq<seq<string>>, piece: string) returns (next: seq<seq<string>>)
    requires groups != [] && AreRuns(lang, groups) && Continues(lang, Join(groups[|groups| - 1], " "), piece)
    ensures AreRuns(lang, next) && Concat(next) == Concat(groups) + [piece]
    ensures var last := |groups| - 1;
      Glued(next) == Glued(groups)[last := Join(groups[last], " ") + " " + piece]
  {
    var last := |groups| - 1;
    var front, group := groups[..last], groups[last];
    assert groups == front + [group];
    assert IsRun(lang, groups[last]);
    RunsLonger(lang, front, group, piece);
    GluedLonger(front, group, piece);
    next := front + [group + [piece]];
  }

  // ----- sentences

  function TrimmedOne(part: string): seq<string> { if Strip(part) == "" then [] else [Strip(part)] }

  lemma {:induction false} TrimmedAreEachOnes(parts: seq<string>)
    ensures Trimmed(parts) == Concat(EachTrimmed(parts))
  {
    if parts != [] {
      TrimmedAreEachOnes(parts[1..]);
      assert EachTrimmed(parts)[1..] == EachTrimmed(parts[1..]);
    }
  }

  function EachTrimmed(parts: seq<string>): seq<seq<string>> {
    seq(|parts|, k requires 0 <= k < |parts| => TrimmedOne(parts[k]))
  }

  /** The sentences of a paragraph: it is cut at its sentence breaks, the pieces that continue
      what is before them are joined to it again with a space, and the rest is stripped. */
  lemma SentencesAre(lang: Language, paragraph: string)
      returns (gaps: seq<string>, groups: seq<seq<string>>)
    ensures AreBreaks(Concat(groups), gaps) && Woven(Concat(groups), gaps) == paragraph
    ensures AreRuns(lang, groups)
    ensures SentencesOf(lang, paragraph) == Concat(EachTrimmed(Glued(groups)))
  {
    var pieces;
    pieces, gaps := PiecesLieBetweenBreaks(paragraph);
    var none: seq<seq<string>> := [];
    groups := MergeJoinsRuns(lang, none, pieces);
    assert Glued(none) == [] && Concat(none) + pieces == pieces;
    TrimmedAreEachOnes(Glued(groups));
  }

  // ----- units

  /** A list cut into pieces of `limit`, but for a shorter last one. */
  predicate AreCuts(cuts: seq<seq<nat>>, ids: seq<nat>, limit: nat) {
    && Concat(cuts) == ids
    && (forall k :: 0 <= k < |cuts| ==> 0 < |cuts[k]| <= limit && (k < |cuts| - 1 ==> |cuts[k]| == limit))
  }

  function CutUnits(lang: Language, cuts: seq<seq<nat>>, index: nat): seq<Unit> {
    seq(|cuts|, k requires 0 <= k < |cuts| => Unit(lang.decode(cuts[k]), lang.Count(lang.decode(cuts[k])), index, true))
  }

  lemma CutsMore(cut: seq<nat>, cuts: seq<seq<nat>>, ids: seq<nat>, limit: nat)
    requires AreCuts(cuts, ids, limit) && 0 < |cut| <= limit && (cuts != [] ==> |cut| == limit)
    ensures AreCuts([cut] + cuts, cut + ids, limit)
  {
    assert ([cut] + cuts)[1..] == cuts;
  }

  lemma {:induction false} FragmentsAre(lang: Language, ids: seq<nat>, index: nat, limit: nat)
      returns (cuts: seq<seq<nat>>)
    requires limit > 0
    ensures AreCuts(cuts, ids, limit) && FragmentUnits(lang, ids, index, limit) == CutUnits(lang, cuts, index)
    ensures ids == [] ==> cuts == []
    decreases |ids|
  {
    if ids == [] {
      cuts := [];
    } else {
      var n := if |ids| <= limit then |ids| else limit;
      var rest := FragmentsAre(lang, ids[n..], index, limit);
      assert ids == ids[..n] + ids[n..];
      CutsMore(ids[..n], rest, ids[n..], limit);
      cuts := [ids[..n]] + rest;
      assert CutUnits(lang, cuts, index) == CutUnits(lang, [ids[..n]], index) + CutUnits(lang, rest, index);
    }
  }

  /** The units of one sentence: itself if it fits, else its tokens decoded a target at a time. */
  ghost predicate SentenceHolds(lang: Language, s: string, index: nat, target: nat, units: seq<Unit>) {
    if lang.Count(s) <= target then units == [Unit(s, lang.Count(s), index, false)]
    else exists cuts :: AreCuts(cuts, lang.encode(s), target) && units == CutUnits(lang, cuts, index)
  }

  /** The units of one paragraph: itself if it fits, else those of its sentences. */
  ghost predicate ParagraphHolds(lang: Language, paragraph: string, index: nat, target: nat, units: seq<Unit>) {
    var p := Strip(paragraph);
    if p == "" then units == []
    else if lang.Count(p) <= target then units == [Unit(p, lang.Count(p), index, false)]
    else exists parts :: SentencesHold(lang, SentencesOf(lang, p), index, target, parts) && units == Concat(parts)
  }

  ghost predicate SentencesHold(lang: Language, sentences: seq<string>, index: nat, target: nat,
                                parts: seq<seq<Unit>>) {
    && |parts| == |sentences|
    && forall m :: 0 <= m < |parts| ==> SentenceHolds(lang, sentences[m], index, target, parts[m])
  }

  lemma OneSentence(lang: Language, s: string, index: nat, target: nat) returns (units: seq<Unit>)
    requires target > 0
    ensures SentenceHolds(lang, s, index, target, units)
    ensures forall rest :: SentenceUnits(lang, [s] + rest, index, target)
                        == units + SentenceUnits(lang, rest, index, target)
  {
    var cuts := FragmentsAre(lang, lang.encode(s), index, target);
    units := if lang.Count(s) <= target then [Unit(s, lang.Count(s), index, false)]
             else FragmentUnits(lang, lang.encode(s), index, target);
    forall rest: seq<string>
      ensures SentenceUnits(lang, [s] + rest, index, target) == units + SentenceUnits(lang, rest, index, target)
    {
      assert ([s] + rest)[1..] == rest;
    }
  }

  lemma {:induction false} SentenceUnitsAre(lang: Language, sentences: seq<string>, index: nat, target: nat)
      returns (parts: seq<seq<Unit>>)
    requires target > 0
    ensures SentencesHold(lang, sentences, index, target, parts)
    ensures SentenceUnits(lang, sentences, index, target) == Concat(parts)
  {
    if sentences == [] {
      parts := [];
    } else {
      var first := OneSentence(lang, sentences[0], index, target);
      var rest := SentenceUnitsAre(lang, sentences[1..], index, target);
      assert sentences == [sentences[0]] + sentences[1..];
      parts := [first] + rest;
      assert parts[1..] == rest;
    }
  }

  lemma OneParagraph(lang: Language, paragraph: string, index: nat, target: nat)
    requires target > 0
    ensures ParagraphHolds(lang, paragraph, index, target, UnitsOfOne(lang, Strip(paragraph), index, target))
  {
    var p := Strip(paragraph);
    if p != "" && lang.Count(p) > target {
      var parts := SentenceUnitsAre(lang, SentencesOf(lang, p), index, target);
    }
  }

  ghost predicate ParagraphsHold(lang: Language, paragraphs: seq<string>, index: nat, target: nat,
                                 parts: seq<seq<Unit>>) {
    && |parts| == |paragraphs|
    && forall i :: 0 <= i < |parts| ==> ParagraphHolds(lang, paragraphs[i], index + i, target, parts[i])
  }

  lemma ParagraphsMore(lang: Language, paragraphs: seq<string>, index: nat, target: nat, first: seq<Unit>,
                       rest: seq<seq<Unit>>)
    requires paragraphs != [] && ParagraphHolds(lang, paragraphs[0], index, target, first)
    requires ParagraphsHold(lang, paragraphs[1..], index + 1, target, rest)
    ensures ParagraphsHold(lang, paragraphs, index, target, [first] + rest)
  {
    var parts := [first] + rest;
    forall i | 0 <= i < |parts| ensures ParagraphHolds(lang, paragraphs[i], index + i, target, parts[i]) {
      if i > 0 {
        assert ParagraphHolds(lang, paragraphs[1..][i - 1], index + 1 + (i - 1), target, rest[i - 1]);
      }
    }
  }

  lemma {:induction false} ParagraphUnitsAre(lang: Language, paragraphs: seq<string>, index: nat, target: nat)
      returns (parts: seq<seq<Unit>>)
    requires target > 0
    ensures ParagraphsHold(lang, paragraphs, index, target, parts)
    ensures ParagraphUnits(lang, paragraphs, index, target) == Concat(parts)
  {
    if paragraphs == [] {
      parts := [];
    } else {
      var first := UnitsOfOne(lang, Strip(paragraphs[0]), index, target);
      var rest := ParagraphUnitsAre(lang, paragraphs[1..], index + 1, target);
      OneParagraph(lang, paragraphs[0], index, target);
      ParagraphsMore(lang, paragraphs, index, target, first, rest);
      parts := [first] + rest;
      assert parts[1..] == rest;
    }
  }

  /** The units of a text are those of its paragraphs, in order and numbered; a paragraph that
      fits is one unit, one that does not is cut at its sentences, and only a sentence that
      does not fit is cut at tokens. */
  lemma UnitsAreCutNoFurther(lang: Language, text: string, target: nat) returns (parts: seq<seq<Unit>>)
    requires target > 0
    ensures ParagraphsHold(lang, Split(text, "\n\n"), 0, target, parts)
    ensures UnitsOf(lang, text, target) == Concat(parts)
  {
    parts := ParagraphUnitsAre(lang, Split(text, "\n\n"), 0, target);
  }
}
