/** ingestion/parser.py: cutting a filing's blocks into sections and mending the sentences
    that a page break tore apart.  A block is its normalised text. */
module Parser {
  import opened Seqs
  import opened Text

  datatype Section = Section(item: string, text: string)

  /** A paragraph ending in one of these is a finished sentence. */
  const TERMINAL: string := ".!?:;\U{201d}\"')]"

  predicate EndsWithTerminal(s: string) {
    s != "" && s[|s| - 1] in TERMINAL
  }

  /** Two neighbouring paragraphs that are halves of one sentence. */
  predicate Torn(isLower: char -> bool, previous: string, para: string) {
    !EndsWithTerminal(previous) && para != "" && isLower(para[0])
  }

  /** `stitched` extended by `paragraphs`, one at a time. */
  function StitchOnto(isLower: char -> bool, stitched: seq<string>, paragraphs: seq<string>): seq<string>
    requires stitched != []
    decreases |paragraphs|
  {
    if paragraphs == [] then stitched
    else
      var last := |stitched| - 1;
      var next := if Torn(isLower, stitched[last], paragraphs[0])
                  then stitched[last := stitched[last] + " " + paragraphs[0]]
                  else stitched + [paragraphs[0]];
      StitchOnto(isLower, next, paragraphs[1..])
  }

  function Stitched(isLower: char -> bool, paragraphs: seq<string>): seq<string> {
    if paragraphs == [] then [] else StitchOnto(isLower, [paragraphs[0]], paragraphs[1..])
  }

  /** Stitching moves paragraph boundaries and nothing else. */
  method StitchFragments(isLower: char -> bool, paragraphs: seq<string>) returns (stitched: seq<string>)
    ensures stitched == Stitched(isLower, paragraphs)
    ensures AllWords(stitched) == AllWords(paragraphs)
  {
    if paragraphs == [] { return []; }
    stitched := [paragraphs[0]];
    assert stitched == paragraphs[..1];
    for i := 1 to |paragraphs|
      invariant stitched != []
      invariant StitchOnto(isLower, stitched, paragraphs[i..]) == Stitched(isLower, paragraphs)
    {
      assert paragraphs[i..][1..] == paragraphs[i + 1..];
      var previous := stitched[|stitched| - 1];
      if Torn(isLower, previous, paragraphs[i]) {
        stitched := stitched[|stitched| - 1 := previous + " " + paragraphs[i]];
      } else {
        stitched := stitched + [paragraphs[i]];
      }
    }
    assert paragraphs[|paragraphs|..] == [];
    StitchingKeepsWords(isLower, paragraphs);
  }

  lemma {:induction false} StitchOntoKeepsWords(isLower: char -> bool, stitched: seq<string>, paragraphs: seq<string>)
    requires stitched != []
    ensures AllWords(StitchOnto(isLower, stitched, paragraphs)) == AllWords(stitched) + AllWords(paragraphs)
    decreases |paragraphs|
  {
    if paragraphs != [] {
      var last := |stitched| - 1;
      var para, rest := paragraphs[0], paragraphs[1..];
      if Torn(isLower, stitched[last], para) {
        GlueToLast(stitched, para);
        StitchOntoKeepsWords(isLower, stitched[last := stitched[last] + " " + para], rest);
      } else {
        AllWordsSnoc(stitched, para);
        StitchOntoKeepsWords(isLower, stitched + [para], rest);
      }
      Assoc(AllWords(stitched), Words(para), AllWords(rest));
    }
  }

  lemma StitchingKeepsWords(isLower: char -> bool, paragraphs: seq<string>)
    ensures AllWords(Stitched(isLower, paragraphs)) == AllWords(paragraphs)
  {
    if paragraphs != [] {
      StitchOntoKeepsWords(isLower, [paragraphs[0]], paragraphs[1..]);
      AllWordsOfOne(paragraphs[0]);
    }
  }

  // ----- sections

  /** Where the section that starts at marker `item` stops: the next heading that really
      comes later, whatever its item, or else the end of the filing. */
  function SectionEnd(markers: map<string, nat>, item: string, count: nat): nat
    requires item in markers
  {
    var later := set other | other in markers && markers[other] > markers[item] :: markers[other];
    if later == {} then count else Least(later)
  }

  /** Every marker points at a block. */
  predicate MarkersInRange(markers: map<string, nat>, count: nat) {
    forall item :: item in markers ==> markers[item] < count
  }

  /** A section ends after it starts and inside the filing. */
  lemma SectionEndInRange(markers: map<string, nat>, item: string, count: nat)
    requires item in markers && MarkersInRange(markers, count)
    ensures markers[item] < SectionEnd(markers, item, count) <= count
  {
  }

  /** No block belongs to two sections: of two sections with different headings, the earlier
      one is over when the later one's heading comes. */
  lemma SectionsDoNotOverlap(markers: map<string, nat>, a: string, b: string, count: nat)
    requires a in markers && b in markers && MarkersInRange(markers, count)
    requires markers[a] != markers[b]
    ensures SectionEnd(markers, a, count) <= markers[b] || SectionEnd(markers, b, count) <= markers[a]
  {
    var (x, y) := if markers[a] < markers[b] then (a, b) else (b, a);
    var later := set other | other in markers && markers[other] > markers[x] :: markers[other];
    assert markers[y] in later;
  }

  /** The blocks of prose: neither blank nor page furniture. */
  function Kept(boilerplate: string -> bool, blocks: seq<string>): seq<string> {
    if blocks == [] then []
    else (if blocks[0] == "" || boilerplate(blocks[0]) then [] else [blocks[0]]) + Kept(boilerplate, blocks[1..])
  }

  lemma {:induction false} KeptOfAppend(boilerplate: string -> bool, blocks: seq<string>, block: string)
    ensures Kept(boilerplate, blocks + [block])
         == Kept(boilerplate, blocks) + Kept(boilerplate, [block])
  {
    if blocks == [] {
      assert blocks + [block] == [block];
    } else {
      assert (blocks + [block])[1..] == blocks[1..] + [block];
      KeptOfAppend(boilerplate, blocks[1..], block);
    }
  }

  /** The loop over the blocks of a section. */
  method KeptBlocks(boilerplate: string -> bool, blocks: seq<string>, start: nat, end: nat)
    returns (paragraphs: seq<string>)
    requires start <= end <= |blocks|
    ensures paragraphs == Kept(boilerplate, blocks[start..end])
  {
    paragraphs := [];
    for i := start to end
      invariant paragraphs == Kept(boilerplate, blocks[start..i])
    {
      assert blocks[start..i + 1] == blocks[start..i] + [blocks[i]];
      KeptOfAppend(boilerplate, blocks[start..i], blocks[i]);
      if blocks[i] != "" && !boilerplate(blocks[i]) {
        paragraphs := paragraphs + [blocks[i]];
      }
    }
  }

  // ----- what a section is, by the positions of blocks

  /** A section that begins at block `start` ends at the next marker behind it, or with the
      filing if there is none. */
  predicate EndsAt(markers: map<string, nat>, start: nat, count: nat, end: nat) {
    && start < end <= count
    && (end == count || exists other :: other in markers && markers[other] == end)
    && forall other :: other in markers ==> !(start < markers[other] < end)
  }

  lemma SectionEndIs(markers: map<string, nat>, item: string, count: nat)
    requires item in markers && MarkersInRange(markers, count)
    ensures EndsAt(markers, markers[item], count, SectionEnd(markers, item, count))
  {
    var later := set other | other in markers && markers[other] > markers[item] :: markers[other];
    forall other | other in markers && markers[item] < markers[other]
      ensures later != {} && Least(later) <= markers[other]
    {
      assert markers[other] in later;
    }
  }

  predicate Ascending(at: seq<nat>) {
    forall m, n :: 0 <= m < n < |at| ==> at[m] < at[n]
  }

  /** The positions, in order, of the blocks between two others that are neither blank nor
      page furniture. */
  predicate ArePositions(boilerplate: string -> bool, blocks: seq<string>, start: nat, end: nat, at: seq<nat>)
    requires start <= end <= |blocks|
  {
    && Ascending(at)
    && (forall k :: 0 <= k < |at| ==> start <= at[k] < end)
    && forall i :: start <= i < end ==> (i in at <==> blocks[i] != "" && !boilerplate(blocks[i]))
  }

  function BlocksAt(blocks: seq<string>, at: seq<nat>): seq<string>
    requires forall k :: 0 <= k < |at| ==> at[k] < |blocks|
  {
    seq(|at|, k requires 0 <= k < |at| => blocks[at[k]])
  }

  lemma PositionsMore(boilerplate: string -> bool, blocks: seq<string>, start: nat, end: nat, at: seq<nat>)
    requires start <= end < |blocks| && ArePositions(boilerplate, blocks, start, end, at)
    ensures var more := if blocks[end] != "" && !boilerplate(blocks[end]) then at + [end] else at;
      ArePositions(boilerplate, blocks, start, end + 1, more)
  {
    if blocks[end] != "" && !boilerplate(blocks[end]) {
      assert (at + [end])[|at|] == end;
      forall i | start <= i < end ensures i in at + [end] <==> i in at { }
    }
  }

  /** What is kept of the blocks of a section are those at these positions. */
  lemma {:induction false} KeptPositions(boilerplate: string -> bool, blocks: seq<string>, start: nat, end: nat)
      returns (at: seq<nat>)
    requires start <= end <= |blocks|
    ensures KeptAre(boilerplate, blocks, start, end, at)
    decreases end - start
  {
    if start == end {
      at := [];
    } else {
      var before := KeptPositions(boilerplate, blocks, start, end - 1);
      at := KeptPositionsMore(boilerplate, blocks, start, end - 1, before);
    }
  }

  predicate KeptAre(boilerplate: string -> bool, blocks: seq<string>, start: nat, end: nat, at: seq<nat>)
    requires start <= end <= |blocks|
  {
    && ArePositions(boilerplate, blocks, start, end, at)
    && Kept(boilerplate, blocks[start..end]) == BlocksAt(blocks, at)
  }

  lemma KeptPositionsMore(boilerplate: string -> bool, blocks: seq<string>, start: nat, end: nat, at: seq<nat>)
      returns (more: seq<nat>)
    requires start <= end < |blocks| && KeptAre(boilerplate, blocks, start, end, at)
    ensures KeptAre(boilerplate, blocks, start, end + 1, more)
  {
    var block := blocks[end];
    more := if block != "" && !boilerplate(block) then at + [end] else at;
    PositionsMore(boilerplate, blocks, start, end, at);
    KeptMore(boilerplate, blocks, start, end);
    BlocksAtMore(blocks, at, end);
  }

  lemma KeptMore(boilerplate: string -> bool, blocks: seq<string>, start: nat, end: nat)
    requires start <= end < |blocks|
    ensures var block := blocks[end];
      Kept(boilerplate, blocks[start..end + 1])
        == if block != "" && !boilerplate(block) then Kept(boilerplate, blocks[start..end]) + [block]
           else Kept(boilerplate, blocks[start..end])
  {
    var front := blocks[start..end];
    assert blocks[start..end + 1] == front + [blocks[end]];
    KeptOfAppend(boilerplate, front, blocks[end]);
    KeptOfOne(boilerplate, blocks[end]);
    assert Kept(boilerplate, front) + [] == Kept(boilerplate, front);
  }

  lemma BlocksAtMore(blocks: seq<string>, at: seq<nat>, i: nat)
    requires (forall k :: 0 <= k < |at| ==> at[k] < |blocks|) && i < |blocks|
    ensures BlocksAt(blocks, at + [i]) == BlocksAt(blocks, at) + [blocks[i]]
  {
  }

  lemma KeptOfOne(boilerplate: string -> bool, block: string)
    ensures Kept(boilerplate, [block]) == if block != "" && !boilerplate(block) then [block] else []
  {
    assert [block][1..] == [];
  }

  /** The words of the blocks behind the heading of `item`, up to the next heading, that are
      neither blank nor page furniture. */
  ghost predicate SectionHolds(boilerplate: string -> bool, blocks: seq<string>, markers: map<string, nat>,
                               item: string, words: seq<string>)
    requires item in markers
  {
    exists end, at ::
      && EndsAt(markers, markers[item], |blocks|, end)
      && ArePositions(boilerplate, blocks, markers[item] + 1, end, at)
      && words == AllWords(BlocksAt(blocks, at))
  }

  lemma KeptWordsHold(boilerplate: string -> bool, blocks: seq<string>, markers: map<string, nat>, item: string)
    requires item in markers && MarkersInRange(markers, |blocks|)
    ensures markers[item] < SectionEnd(markers, item, |blocks|) <= |blocks|
    ensures var body := blocks[markers[item] + 1..SectionEnd(markers, item, |blocks|)];
      SectionHolds(boilerplate, blocks, markers, item, AllWords(Kept(boilerplate, body)))
  {
    SectionEndIs(markers, item, |blocks|);
    var at := KeptPositions(boilerplate, blocks, markers[item] + 1, SectionEnd(markers, item, |blocks|));
  }

  // ----- what stitching joins

  /** Two neighbours that are halves of a sentence: no full stop or the like, nor a closing
      quote or bracket, ends the first, and a small letter opens the second. */
  predicate Halves(isLower: char -> bool, p: string, q: string) {
    && (p == "" || p[|p| - 1] !in {'.', '!', '?', ':', ';', '\U{201d}', '"', '\'', ')', ']'})
    && q != "" && isLower(q[0])
  }

  /** Each group is as long as its neighbours are halves of a sentence, and no longer. */
  predicate GroupedByHalves(isLower: char -> bool, groups: seq<seq<string>>) {
    && (forall k :: 0 <= k < |groups| ==> groups[k] != [] && AllHalves(isLower, groups[k]))
    && forall k :: 0 < k < |groups| && groups[k - 1] != [] && groups[k] != [] ==>
         !Halves(isLower, groups[k - 1][|groups[k - 1]| - 1], groups[k][0])
  }

  predicate AllHalves(isLower: char -> bool, group: seq<string>) {
    forall i :: 0 < i < |group| ==> Halves(isLower, group[i - 1], group[i])
  }

  /** The end of a glued group is that of its last member. */
  lemma EndOfGroup(isLower: char -> bool, group: seq<string>, q: string)
    requires group != [] && AllHalves(isLower, group)
    ensures Torn(isLower, Join(group, " "), q) <==> Halves(isLower, group[|group| - 1], q)
  {
    var last := |group| - 1;
    if last > 0 {
      assert Halves(isLower, group[last - 1], group[last]);
      assert group == group[..last] + [group[last]];
      JoinSnoc(group[..last], group[last], " ");
    }
  }

  lemma GroupLonger(isLower: char -> bool, groups: seq<seq<string>>, q: string)
    requires groups != [] && GroupedByHalves(isLower, groups)
    requires Halves(isLower, groups[|groups| - 1][|groups[|groups| - 1]| - 1], q)
    ensures var last := |groups| - 1;
      var longer := groups[last := groups[last] + [q]];
      && GroupedByHalves(isLower, longer)
      && Glued(longer) == Glued(groups)[last := Join(groups[last], " ") + " " + q]
      && Concat(longer) == Concat(groups) + [q]
  {
    var last := |groups| - 1;
    var front, group := groups[..last], groups[last];
    JoinSnoc(group, q, " ");
    assert groups == front + [group] && groups[last := group + [q]] == front + [group + [q]];
    ConcatSnoc(front, group);
    ConcatSnoc(front, group + [q]);
    Assoc(Concat(front), group, [q]);
    HalvesMore(isLower, group, q);
  }

  lemma HalvesMore(isLower: char -> bool, group: seq<string>, q: string)
    requires group != [] && AllHalves(isLower, group) && Halves(isLower, group[|group| - 1], q)
    ensures AllHalves(isLower, group + [q])
  {
  }

  lemma GroupMore(isLower: char -> bool, groups: seq<seq<string>>, q: string)
    requires groups != [] && GroupedByHalves(isLower, groups)
    requires !Halves(isLower, groups[|groups| - 1][|groups[|groups| - 1]| - 1], q)
    ensures GroupedByHalves(isLower, groups + [[q]])
    ensures Glued(groups + [[q]]) == Glued(groups) + [q]
    ensures Concat(groups + [[q]]) == Concat(groups) + [q]
  {
    ConcatSnoc(groups, [q]);
  }

  lemma {:induction false} StitchOntoGroups(isLower: char -> bool, groups: seq<seq<string>>, paragraphs: seq<string>)
      returns (all: seq<seq<string>>)
    requires groups != [] && GroupedByHalves(isLower, groups)
    ensures GroupedByHalves(isLower, all) && Concat(all) == Concat(groups) + paragraphs
    ensures StitchOnto(isLower, Glued(groups), paragraphs) == Glued(all)
    decreases |paragraphs|
  {
    if paragraphs == [] {
      all := groups;
    } else {
      var last, q := |groups| - 1, paragraphs[0];
      EndOfGroup(isLower, groups[last], q);
      var next;
      if Torn(isLower, Glued(groups)[last], q) {
        GroupLonger(isLower, groups, q);
        next := groups[last := groups[last] + [q]];
      } else {
        GroupMore(isLower, groups, q);
        next := groups + [[q]];
      }
      all := StitchOntoGroups(isLower, next, paragraphs[1..]);
      Assoc(Concat(groups), [q], paragraphs[1..]);
      assert [q] + paragraphs[1..] == paragraphs;
    }
  }

  /** Stitching joins with a space exactly those neighbours that are halves of a sentence. */
  lemma StitchingJoinsHalves(isLower: char -> bool, paragraphs: seq<string>) returns (groups: seq<seq<string>>)
    ensures GroupedByHalves(isLower, groups) && Concat(groups) == paragraphs
    ensures Stitched(isLower, paragraphs) == Glued(groups)
  {
    if paragraphs == [] {
      groups := [];
    } else {
      ConcatOfOne([paragraphs[0]]);
      assert Glued([[paragraphs[0]]]) == [paragraphs[0]];
      groups := StitchOntoGroups(isLower, [[paragraphs[0]]], paragraphs[1..]);
    }
  }

  /** The text of a section has exactly the words of its kept blocks, in order. */
  method ExtractSection(isLower: char -> bool, boilerplate: string -> bool, blocks: seq<string>,
                        markers: map<string, nat>, item: string) returns (section: Option<Section>)
    requires MarkersInRange(markers, |blocks|)
    ensures section.Some? <==> item in markers
    ensures item in markers ==>
      var body := blocks[markers[item] + 1..SectionEnd(markers, item, |blocks|)];
      && section.value == Section(item, Join(Stitched(isLower, Kept(boilerplate, body)), "\n\n"))
      && Words(section.value.text) == AllWords(Kept(boilerplate, body))
    ensures item in markers ==> SectionHolds(boilerplate, blocks, markers, item, Words(section.value.text))
  {
    if item !in markers { return None; }
    SectionEndInRange(markers, item, |blocks|);
    KeptWordsHold(boilerplate, blocks, markers, item);
    var paragraphs := KeptBlocks(boilerplate, blocks, markers[item] + 1, SectionEnd(markers, item, |blocks|));
    var stitched := StitchFragments(isLower, paragraphs);
    WordsOfJoin(stitched, "\n\n");
    section := Some(Section(item, Join(stitched, "\n\n")));
  }
}
