/** What the filing pipeline promises, from kept blocks to finished chunks: no word is lost,
    repeated or moved, chunks stay within their size, headings are not stranded, and indices
    run through the document. */
module Filing {
  import opened Seqs
  import opened Text
  import opened Sentences
  import opened Chunker
  import Parser

  // ----- the greedy rules leave no choice

  lemma {:induction false} AddedAfterFirst(loads: seq<Load>, i: nat)
    requires |loads| > 1 && loads[1].added != [] && i == |loads[0].added|
    ensures i < |Added(loads)| && Added(loads)[i] == loads[1].added[0]
  {
    var rest := Added(loads[1..]);
    assert loads[1..][0] == loads[1];
    assert rest[0] == loads[1].added[0];
  }

  lemma CostOfLonger(base: seq<Unit>, added: seq<Unit>, n: nat)
    requires n < |added|
    ensures Cost(base + added[..n]) + added[n].tokens <= Cost(base + added)
  {
    var back := added[n + 1..];
    assert added == added[..n] + ([added[n]] + back);
    Assoc(base, added[..n], [added[n]] + back);
    CostOfConcat(base + added[..n], [added[n]] + back);
    CostOfConcat([added[n]], back);
    CostOfOne(added[n]);
  }

  /** If the first load of `p` stopped earlier than that of `q`, the unit that did not fit
      into the one fitted into the other. */
  lemma StopsNoEarlier(lang: Language, target: nat, overlap: nat, p: seq<Load>, q: seq<Load>)
    requires Chained(lang, target, overlap, p) && Chained(lang, target, overlap, q)
    requires p != [] && q != [] && Added(p) == Added(q)
    requires p[0].carry == q[0].carry && p[0].held == q[0].held
    ensures |p[0].added| >= |q[0].added|
  {
    var n := |p[0].added|;
    if n < |q[0].added| {
      assert Fits(target, q[0]) && Fits(target, p[0]);
      FirstAddedIsPrefix(p);
      FirstAddedIsPrefix(q);
      assert |p| > 1;
      assert Fits(target, p[1]) && Follows(lang, target, overlap, p[0], p[1]);
      AddedAfterFirst(p, n);
      assert q[0].added[..n] == p[0].added && q[0].added[n] == p[1].added[0];
      CostOfLonger(q[0].carry + q[0].held, q[0].added, n);
    }
  }

  lemma FirstAddedIsPrefix(p: seq<Load>)
    requires p != []
    ensures p[0].added <= Added(p)
    ensures |p| == 1 ==> Added(p) == p[0].added
  {
  }

  lemma {:induction false} ChainIsUnique(lang: Language, target: nat, overlap: nat, p: seq<Load>, q: seq<Load>)
    requires Chained(lang, target, overlap, p) && Chained(lang, target, overlap, q)
    requires Added(p) == Added(q)
    requires p != [] && q != [] ==> p[0].carry == q[0].carry && p[0].held == q[0].held
    ensures p == q
    decreases |p|
  {
    assert p != [] ==> Fits(target, p[0]);
    assert q != [] ==> Fits(target, q[0]);
    if p != [] && q != [] {
      StopsNoEarlier(lang, target, overlap, p, q);
      StopsNoEarlier(lang, target, overlap, q, p);
      var n := |p[0].added|;
      assert p[0].added == Added(p)[..n] == q[0].added;
      assert Added(p[1..]) == Added(p)[n..] == Added(q[1..]);
      TailIsChained(lang, target, overlap, p);
      TailIsChained(lang, target, overlap, q);
      if |p| > 1 && |q| > 1 {
        assert Follows(lang, target, overlap, p[0], p[1]) && Follows(lang, target, overlap, q[0], q[1]);
      }
      ChainIsUnique(lang, target, overlap, p[1..], q[1..]);
    }
  }

  lemma TailIsChained(lang: Language, target: nat, overlap: nat, p: seq<Load>)
    requires p != [] && Chained(lang, target, overlap, p)
    ensures Chained(lang, target, overlap, p[1..])
  {
    var rest := p[1..];
    forall k | 0 <= k < |rest| ensures Fits(target, rest[k]) { assert Fits(target, p[k + 1]); }
    forall k | 0 < k < |rest| ensures Follows(lang, target, overlap, rest[k - 1], rest[k]) {
      assert Follows(lang, target, overlap, p[k], p[k + 1]);
    }
  }

  /** A section has one greedy packing, so `ChunkSection`'s contract fixes its result. */
  lemma PackingIsUnique(lang: Language, target: nat, overlap: nat, units: seq<Unit>, p: seq<Load>, q: seq<Load>)
    requires Packing(lang, target, overlap, units, p) && Packing(lang, target, overlap, units, q)
    ensures p == q
  {
    ChainIsUnique(lang, target, overlap, p, q);
  }

  // ----- no unit is lost or repeated

  /** The units each chunk brings in, one chunk after another. */
  function FreshUnits(loads: seq<Load>): seq<Unit>
    requires forall k :: 0 <= k < |loads| ==> loads[k].added != []
  {
    if loads == [] then [] else loads[0].Fresh(|loads| > 1) + FreshUnits(loads[1..])
  }

  lemma MoveAcross<T>(a: seq<T>, b: seq<T>, c: seq<T>, d: seq<T>)
    ensures a + b + (c + d) == a + (b + c + d)
  {
    Assoc(b, c, d);
    Assoc(a, b, c + d);
  }

  /** What a load does not keep the next one holds. */
  lemma KeptOrHeld(lang: Language, target: nat, overlap: nat, l: Load, next: Load)
    requires l.added != [] && next.added != [] && Follows(lang, target, overlap, l, next)
    ensures l.Kept(true) + next.held == l.added
  {
    var last := |l.added| - 1;
    if l.HoldsBack() {
      assert l.added == l.added[..last] + [l.added[last]];
    } else {
      assert l.added == l.added + [];
    }
  }

  /** Whatever is held back, popped or carried over, the fresh units are the units. */
  lemma {:induction false} FreshUnitsAreTheUnits(lang: Language, target: nat, overlap: nat, loads: seq<Load>)
    requires Chained(lang, target, overlap, loads) && loads != []
    requires forall k :: 0 <= k < |loads| ==> loads[k].added != []
    ensures FreshUnits(loads) == loads[0].held + Added(loads)
    decreases |loads|
  {
    var l, rest := loads[0], loads[1..];
    if rest == [] {
      assert Added(rest) == [] && FreshUnits(rest) == [];
    } else {
      TailIsChained(lang, target, overlap, loads);
      assert rest[0] == loads[1];
      FreshUnitsAreTheUnits(lang, target, overlap, rest);
      KeptOrHeld(lang, target, overlap, l, loads[1]);
      MoveAcross(l.held, l.Kept(true), rest[0].held, Added(rest));
    }
  }

  // ----- no word is lost or repeated

  /** `carried[k]` words at the head of chunk `k` repeat the end of chunk `k - 1`. */
  ghost predicate CarriedAt(chunks: seq<Chunk>, carried: seq<nat>, k: nat)
    requires |carried| == |chunks| && k < |chunks|
  {
    && carried[k] <= |Words(chunks[k].content)|
    && if k == 0 then carried[k] == 0
       else IsSuffix(Words(chunks[k].content)[..carried[k]], Words(chunks[k - 1].content))
  }

  ghost predicate CarriesOver(chunks: seq<Chunk>, carried: seq<nat>) {
    |carried| == |chunks| && forall k :: 0 <= k < |chunks| ==> CarriedAt(chunks, carried, k)
  }

  predicate Within(chunks: seq<Chunk>, carried: seq<nat>) {
    |carried| == |chunks| && forall i :: 0 <= i < |chunks| ==> carried[i] <= |Words(chunks[i].content)|
  }

  /** What is left of the chunks from `k` on without the repeated words. */
  function FreshWords(chunks: seq<Chunk>, carried: seq<nat>, k: nat): seq<string>
    requires Within(chunks, carried) && k <= |chunks|
    decreases |chunks| - k
  {
    if k == |chunks| then []
    else Words(chunks[k].content)[carried[k]..] + FreshWords(chunks, carried, k + 1)
  }

  /** The chunks hold `source`, word for word and in order, apart from what each one repeats
      of the one before. */
  ghost predicate Conserves(chunks: seq<Chunk>, source: seq<string>) {
    exists carried ::
      CarriesOver(chunks, carried) && Within(chunks, carried) && FreshWords(chunks, carried, 0) == source
  }

  function Carried(loads: seq<Load>): seq<nat> {
    seq(|loads|, k requires 0 <= k < |loads| => |UnitWords(loads[k].carry)|)
  }

  lemma WordsOfChunk(lang: Language, section: string, index: nat, l: Load, closing: bool)
    requires l.added != []
    ensures Words(Render(lang, section, index, l.Flushed(closing)).content)
         == UnitWords(l.carry) + UnitWords(l.Fresh(closing))
  {
    JoinedKeepsWords(l.Flushed(closing));
    UnitWordsOfConcat(l.carry, l.Fresh(closing));
  }

  lemma {:induction false} FreshWordsAreUnitWords(lang: Language, section: string, start: nat, loads: seq<Load>,
                                                  chunks: seq<Chunk>, k: nat)
    requires forall i :: 0 <= i < |loads| ==> loads[i].added != []
    requires Rendered(lang, section, start, loads, chunks) && k <= |loads|
    requires Within(chunks, Carried(loads))
    ensures FreshWords(chunks, Carried(loads), k) == UnitWords(FreshUnits(loads[k..]))
    decreases |loads| - k
  {
    if k < |loads| {
      var l, rest := loads[k], loads[k + 1..];
      assert loads[k..][1..] == rest;
      FreshWordsAreUnitWords(lang, section, start, loads, chunks, k + 1);
      WordsOfChunk(lang, section, start + k, l, k < |loads| - 1);
      assert Words(chunks[k].content)[Carried(loads)[k]..] == UnitWords(l.Fresh(k < |loads| - 1));
      UnitWordsOfConcat(l.Fresh(k < |loads| - 1), FreshUnits(rest));
    }
  }

  /** Word conservation: packing, overlap and heading hold-back keep every word of the
      units exactly once. */
  lemma PackingConservesWords(lang: Language, target: nat, overlap: nat, units: seq<Unit>, section: string, start: nat,
                              loads: seq<Load>, chunks: seq<Chunk>)
    requires Packing(lang, target, overlap, units, loads)
    requires Rendered(lang, section, start, loads, chunks)
    ensures Conserves(chunks, UnitWords(units))
  {
    var carried := Carried(loads);
    forall k | 0 <= k < |chunks| ensures CarriedAt(chunks, carried, k) {
      WordsOfChunk(lang, section, start + k, loads[k], k < |loads| - 1);
      assert Words(chunks[k].content)[..carried[k]] == UnitWords(loads[k].carry);
      if k > 0 {
        assert Follows(lang, target, overlap, loads[k - 1], loads[k]);
        OverlapFitsAndIsSuffix(lang, loads[k - 1].Flushed(true), overlap);
        JoinedKeepsWords(loads[k - 1].Flushed(true));
      }
    }
    CarriesWithin(chunks, carried);
    FreshWordsAreUnitWords(lang, section, start, loads, chunks, 0);
    assert loads[0..] == loads;
    if loads != [] {
      FreshUnitsAreTheUnits(lang, target, overlap, loads);
      assert loads[0].held + Added(loads) == Added(loads);
    }
  }

  // ----- size

  lemma {:induction false} AddedNotShorter(loads: seq<Load>)
    requires forall k :: 0 <= k < |loads| ==> loads[k].added != []
    ensures |loads| <= |Added(loads)|
  {
    if loads != [] { AddedNotShorter(loads[1..]); }
  }

  /** The units of load `k` within the section's units. */
  lemma {:induction false} AddedAt(loads: seq<Load>, k: nat)
    requires k < |loads|
    ensures Added(loads) == Added(loads[..k]) + loads[k].added + Added(loads[k + 1..])
  {
    if k == 0 {
      assert loads[..0] == [];
    } else {
      AddedAt(loads[1..], k - 1);
      assert loads[..k][1..] == loads[1..][..k - 1];
      Assoc(loads[0].added, Added(loads[1..][..k - 1]), loads[k].added);
      Assoc(loads[0].added, Added(loads[1..][..k - 1]) + loads[k].added, Added(loads[k + 1..]));
    }
  }

  lemma AddedUnitIsAUnit(loads: seq<Load>, k: nat, j: nat)
    requires k < |loads| && j < |loads[k].added|
    ensures loads[k].added[j] in Added(loads)
  {
    AddedAt(loads, k);
    var i := |Added(loads[..k])| + j;
    assert Added(loads)[i] == loads[k].added[j];
  }

  /** If every unit fits the target, a chunk's units cost at most the target, or the chunk
      is its carry-over, at most one short heading and one unit; so never more than
      target + overlap + 15.  Carry-over is within its budget, and there are no more chunks
      than units. */
  lemma ChunkSize(lang: Language, target: nat, overlap: nat, units: seq<Unit>, loads: seq<Load>, k: nat)
    requires Packing(lang, target, overlap, units, loads) && k < |loads|
    requires forall u :: u in units ==> u.tokens <= target
    ensures |loads| <= |units|
    ensures loads[k].added != []
    ensures Cost(loads[k].carry) <= overlap
    ensures |loads[k].held| <= 1 && Cost(loads[k].held) <= HEADING_MAX_TOKENS
    ensures var chunk := loads[k].Flushed(k < |loads| - 1);
      || Cost(chunk) <= target
      || (|loads[k].added| == 1 && Cost(chunk) <= target + overlap + HEADING_MAX_TOKENS)
  {
    AllFit(lang, target, overlap, loads);
    AddedNotShorter(loads);
    HeldIsShortHeading(lang, target, overlap, units, loads, k);
    FlushedCost(loads[k], k < |loads| - 1);
    if |loads[k].added| == 1 {
      AddedUnitIsAUnit(loads, k, 0);
      CostOfSingle(loads[k].added);
    }
  }

  lemma AllFit(lang: Language, target: nat, overlap: nat, loads: seq<Load>)
    requires Chained(lang, target, overlap, loads)
    ensures forall i :: 0 <= i < |loads| ==> loads[i].added != []
    ensures forall i :: 0 <= i < |loads| && |loads[i].added| > 1 ==> Cost(loads[i].All()) <= target
  {
    forall i | 0 <= i < |loads|
      ensures loads[i].added != [] && (|loads[i].added| > 1 ==> Cost(loads[i].All()) <= target)
    {
      assert Fits(target, loads[i]);
    }
  }

  lemma CostOfSingle(units: seq<Unit>)
    requires |units| == 1
    ensures Cost(units) == units[0].tokens
  {
    assert units == [units[0]];
    CostOfOne(units[0]);
  }

  lemma FlushedCost(l: Load, closing: bool)
    requires l.added != []
    ensures Cost(l.Flushed(closing)) <= Cost(l.All()) == Cost(l.carry) + Cost(l.held) + Cost(l.added)
  {
    CostOfConcat(l.carry + l.held, l.added);
    CostOfConcat(l.carry, l.held);
    CostOfConcat(l.carry, l.Fresh(closing));
    CostOfConcat(l.held, l.Kept(closing));
    KeptCost(l, closing);
  }

  lemma KeptCost(l: Load, closing: bool)
    requires l.added != []
    ensures Cost(l.Kept(closing)) <= Cost(l.added)
  {
    var last := |l.added| - 1;
    assert l.added == l.added[..last] + [l.added[last]];
    CostOfConcat(l.added[..last], [l.added[last]]);
  }

  lemma HeldIsShortHeading(lang: Language, target: nat, overlap: nat, units: seq<Unit>, loads: seq<Load>, k: nat)
    requires Packing(lang, target, overlap, units, loads) && k < |loads|
    ensures Cost(loads[k].carry) <= overlap
    ensures |loads[k].held| <= 1 && Cost(loads[k].held) <= HEADING_MAX_TOKENS
    ensures loads[k].held != [] ==> k > 0 && IsHeading(loads[k].held[0])
  {
    if k > 0 {
      assert Fits(target, loads[k - 1]) && Fits(target, loads[k]);
      assert Follows(lang, target, overlap, loads[k - 1], loads[k]);
      OverlapFitsAndIsSuffix(lang, loads[k - 1].Flushed(true), overlap);
      if loads[k].held != [] { CostOfOne(loads[k].held[0]); }
    }
  }

  // ----- from blocks to chunks

  lemma {:induction false} UnflaggedFreshUnits(loads: seq<Load>)
    requires forall k :: 0 <= k < |loads| ==> loads[k].added != []
    requires forall k :: 0 <= k < |loads| ==> NoHardSplit(loads[k].Flushed(k < |loads| - 1))
    ensures NoHardSplit(FreshUnits(loads))
  {
    if loads != [] {
      forall k | 0 <= k < |loads[1..]| ensures NoHardSplit(loads[1..][k].Flushed(k < |loads[1..]| - 1)) {
        assert NoHardSplit(loads[k + 1].Flushed(k + 1 < |loads| - 1));
      }
      UnflaggedFreshUnits(loads[1..]);
      NoHardSplitParts(loads[0].carry, loads[0].Fresh(|loads| > 1));
    }
  }

  /** The flag is honest: a document none of whose chunks is flagged had no sentence cut. */
  lemma UnflaggedChunksMeanNoHardSplit(lang: Language, target: nat, overlap: nat, units: seq<Unit>, section: string,
                                       start: nat, loads: seq<Load>, chunks: seq<Chunk>)
    requires Packing(lang, target, overlap, units, loads)
    requires Rendered(lang, section, start, loads, chunks)
    requires forall k :: 0 <= k < |chunks| ==> !chunks[k].hardSplit
    ensures NoHardSplit(units)
  {
    forall k | 0 <= k < |loads| ensures NoHardSplit(loads[k].Flushed(k < |loads| - 1)) {
      assert !chunks[k].hardSplit;
    }
    UnflaggedFreshUnits(loads);
    if loads != [] {
      FreshUnitsAreTheUnits(lang, target, overlap, loads);
      assert loads[0].held + Added(loads) == Added(loads);
    }
  }

  // ----- the whole document

  /** What one optional section contributes to the document. */
  ghost predicate SectionChunks(lang: Language, target: nat, overlap: nat, section: Option<Parser.Section>, start: nat,
                                chunks: seq<Chunk>)
    requires target > 0
  {
    if section.None? then chunks == []
    else IsChunking(lang, target, overlap, UnitsOf(lang, section.value.text, target), section.value.item, start, chunks)
  }

  predicate Unflagged(chunks: seq<Chunk>) {
    forall k :: 0 <= k < |chunks| ==> !chunks[k].hardSplit
  }

  function SectionWords(section: Option<Parser.Section>): seq<string> {
    if section.None? then [] else Words(section.value.text)
  }

  function TableWords(table: Option<string>): seq<string> {
    if table.None? then [] else Words(table.value)
  }

  lemma SectionConserves(lang: Language, target: nat, overlap: nat, section: Option<Parser.Section>, start: nat,
                         chunks: seq<Chunk>)
    requires target > 0 && SectionChunks(lang, target, overlap, section, start, chunks) && Unflagged(chunks)
    ensures Conserves(chunks, SectionWords(section))
  {
    if section.None? {
      assert CarriesOver(chunks, []) && Within(chunks, []) && FreshWords(chunks, [], 0) == [];
    } else {
      var units := UnitsOf(lang, section.value.text, target);
      var loads :| Packing(lang, target, overlap, units, loads)
        && Rendered(lang, section.value.item, start, loads, chunks);
      PackingConservesWords(lang, target, overlap, units, section.value.item, start, loads, chunks);
      UnflaggedChunksMeanNoHardSplit(lang, target, overlap, units, section.value.item, start, loads, chunks);
      UnitsKeepWords(lang, section.value.text, target);
    }
  }

  lemma TableConserves(lang: Language, table: Option<string>, index: nat)
    ensures Conserves(TableChunk(lang, table, index), TableWords(table))
  {
    var chunks := TableChunk(lang, table, index);
    if table.None? {
      assert CarriesOver(chunks, []) && Within(chunks, []) && FreshWords(chunks, [], 0) == [];
    } else {
      assert CarriedAt(chunks, [0], 0);
      assert CarriesOver(chunks, [0]) && Within(chunks, [0]);
      assert FreshWords(chunks, [0], 0) == Words(table.value) + FreshWords(chunks, [0], 1);
    }
  }

  /** From position `n` on the chunks are `b`, with what they carry. */
  predicate GoOnWith(chunks: seq<Chunk>, carried: seq<nat>, n: nat, b: seq<Chunk>, q: seq<nat>) {
    && |chunks| == |carried| == n + |b| && |b| == |q|
    && forall i :: n <= i < |chunks| ==> chunks[i] == b[i - n] && carried[i] == q[i - n]
  }

  lemma {:induction false} FreshWordsBehind(chunks: seq<Chunk>, carried: seq<nat>, n: nat, b: seq<Chunk>, q: seq<nat>,
                                            k: nat)
    requires Within(chunks, carried) && Within(b, q) && k <= |b| && GoOnWith(chunks, carried, n, b, q)
    ensures FreshWords(chunks, carried, n + k) == FreshWords(b, q, k)
    decreases |b| - k
  {
    if k < |b| {
      FreshWordsNext(chunks, carried, n + k, b[k], q[k]);
      FreshWordsNext(b, q, k, b[k], q[k]);
      FreshWordsBehind(chunks, carried, n, b, q, k + 1);
    }
  }

  /** Up to the end of `a` the chunks are `a`, with what they carry. */
  predicate BeginWith(chunks: seq<Chunk>, carried: seq<nat>, a: seq<Chunk>, p: seq<nat>) {
    && |chunks| == |carried| >= |a| == |p|
    && forall i :: 0 <= i < |a| ==> chunks[i] == a[i] && carried[i] == p[i]
  }

  lemma BothInOne(a: seq<Chunk>, b: seq<Chunk>, p: seq<nat>, q: seq<nat>)
    requires |a| == |p| && |b| == |q|
    ensures BeginWith(a + b, p + q, a, p) && GoOnWith(a + b, p + q, |a|, b, q)
  {
  }

  lemma {:induction false} FreshWordsOfBoth(chunks: seq<Chunk>, carried: seq<nat>, a: seq<Chunk>, p: seq<nat>,
                                            b: seq<Chunk>, q: seq<nat>, k: nat)
    requires Within(chunks, carried) && Within(a, p) && Within(b, q) && k <= |a|
    requires BeginWith(chunks, carried, a, p) && GoOnWith(chunks, carried, |a|, b, q)
    ensures FreshWords(chunks, carried, k) == FreshWords(a, p, k) + FreshWords(b, q, 0)
    decreases |a| - k
  {
    if k == |a| {
      FreshWordsBehind(chunks, carried, |a|, b, q, 0);
    } else {
      FreshWordsNext(chunks, carried, k, a[k], p[k]);
      FreshWordsNext(a, p, k, a[k], p[k]);
      FreshWordsOfBoth(chunks, carried, a, p, b, q, k + 1);
      Assoc(Words(a[k].content)[p[k]..], FreshWords(a, p, k + 1), FreshWords(b, q, 0));
    }
  }

  lemma FreshWordsNext(chunks: seq<Chunk>, carried: seq<nat>, k: nat, chunk: Chunk, n: nat)
    requires Within(chunks, carried) && k < |chunks| && chunks[k] == chunk && carried[k] == n
    ensures n <= |Words(chunk.content)|
    ensures FreshWords(chunks, carried, k) == Words(chunk.content)[n..] + FreshWords(chunks, carried, k + 1)
  {
  }

  lemma CarriedAtBoth(a: seq<Chunk>, b: seq<Chunk>, p: seq<nat>, q: seq<nat>, k: nat)
    requires CarriesOver(a, p) && CarriesOver(b, q) && k < |a| + |b|
    ensures CarriedAt(a + b, p + q, k)
  {
    if k < |a| {
      assert CarriedAt(a, p, k);
    } else {
      assert CarriedAt(b, q, k - |a|);
    }
  }

  lemma CarriesOverBoth(a: seq<Chunk>, b: seq<Chunk>, p: seq<nat>, q: seq<nat>)
    requires CarriesOver(a, p) && CarriesOver(b, q)
    ensures CarriesOver(a + b, p + q)
  {
    forall k | 0 <= k < |a| + |b| ensures CarriedAt(a + b, p + q, k) { CarriedAtBoth(a, b, p, q, k); }
  }

  lemma CarriesWithin(chunks: seq<Chunk>, carried: seq<nat>)
    requires CarriesOver(chunks, carried)
    ensures Within(chunks, carried)
  {
    forall k | 0 <= k < |chunks| ensures carried[k] <= |Words(chunks[k].content)| {
      assert CarriedAt(chunks, carried, k);
    }
  }

  /** Putting conserving chunks behind conserving chunks conserves both sources. */
  lemma ConservesBoth(a: seq<Chunk>, b: seq<Chunk>, v: seq<string>, w: seq<string>)
    requires Conserves(a, v) && Conserves(b, w)
    ensures Conserves(a + b, v + w)
  {
    var p :| CarriesOver(a, p) && Within(a, p) && FreshWords(a, p, 0) == v;
    var q :| CarriesOver(b, q) && Within(b, q) && FreshWords(b, q, 0) == w;
    CarriesOverBoth(a, b, p, q);
    CarriesWithin(a + b, p + q);
    BothInOne(a, b, p, q);
    FreshWordsOfBoth(a + b, p + q, a, p, b, q, 0);
  }

  /** One section of a filing, from its blocks to its chunks.  Unless a sentence had to be
      cut by tokens, and then the chunk says so, every word of every kept block is in the
      chunks, in order, once. */
  method IngestSection(lang: Language, boilerplate: string -> bool, blocks: seq<string>, markers: map<string, nat>,
                       item: string, start: nat, target: nat, overlap: nat)
    returns (chunks: seq<Chunk>)
    requires target > 0 && Parser.MarkersInRange(markers, |blocks|)
    ensures item !in markers ==> chunks == []
    ensures forall k :: 0 <= k < |chunks| ==> chunks[k].index == start + k
    ensures Unflagged(chunks) ==> Conserves(chunks, ItemWords(boilerplate, blocks, markers, item))
    ensures ItemHolds(boilerplate, blocks, markers, item, ItemWords(boilerplate, blocks, markers, item))
  {
    var section := ExtractItem(lang, boilerplate, blocks, markers, item);
    chunks := ChunkOptional(lang, section, start, target, overlap);
    if Unflagged(chunks) { SectionConserves(lang, target, overlap, section, start, chunks); }
  }

  /** What the parser hands over of a filing: the sections that have a marker, and the text
      of the table. */
  method IngestFiling(lang: Language, boilerplate: string -> bool, blocks: seq<string>, markers: map<string, nat>,
                      table: Option<string>, target: nat, overlap: nat)
    returns (chunks: seq<Chunk>)
    requires target > 0 && Parser.MarkersInRange(markers, |blocks|)
    ensures forall k :: 0 <= k < |chunks| ==> chunks[k].index == k
    ensures Unflagged(chunks) ==>
      Conserves(chunks, ItemWords(boilerplate, blocks, markers, "1A") + ItemWords(boilerplate, blocks, markers, "7")
                        + TableWords(table))
    ensures ItemHolds(boilerplate, blocks, markers, "1A", ItemWords(boilerplate, blocks, markers, "1A"))
    ensures ItemHolds(boilerplate, blocks, markers, "7", ItemWords(boilerplate, blocks, markers, "7"))
  {
    var riskFactors := ExtractItem(lang, boilerplate, blocks, markers, "1A");
    var mdna := ExtractItem(lang, boilerplate, blocks, markers, "7");
    ghost var risk, discussion;
    chunks, risk, discussion := ChunkFiling(lang, riskFactors, mdna, table, target, overlap);
  }

  /** The words of the kept blocks of an item, if the filing has it. */
  function ItemWords(boilerplate: string -> bool, blocks: seq<string>, markers: map<string, nat>, item: string)
    : seq<string>
    requires Parser.MarkersInRange(markers, |blocks|)
  {
    if item !in markers then []
    else
      Parser.SectionEndInRange(markers, item, |blocks|);
      AllWords(Parser.Kept(boilerplate, blocks[markers[item] + 1..Parser.SectionEnd(markers, item, |blocks|)]))
  }

  /** The words are those of the item's blocks, by their positions; none if there is no item. */
  ghost predicate ItemHolds(boilerplate: string -> bool, blocks: seq<string>, markers: map<string, nat>, item: string,
                            words: seq<string>) {
    if item in markers then Parser.SectionHolds(boilerplate, blocks, markers, item, words) else words == []
  }

  method ExtractItem(lang: Language, boilerplate: string -> bool, blocks: seq<string>, markers: map<string, nat>,
                     item: string) returns (section: Option<Parser.Section>)
    requires Parser.MarkersInRange(markers, |blocks|)
    ensures section.Some? <==> item in markers
    ensures SectionWords(section) == ItemWords(boilerplate, blocks, markers, item)
    ensures ItemHolds(boilerplate, blocks, markers, item, ItemWords(boilerplate, blocks, markers, item))
  {
    section := Parser.ExtractSection(lang.isLower, boilerplate, blocks, markers, item);
  }

  lemma IndicesRun(a: seq<Chunk>, b: seq<Chunk>)
    requires forall k :: 0 <= k < |a| ==> a[k].index == k
    requires forall k :: 0 <= k < |b| ==> b[k].index == |a| + k
    ensures forall k :: 0 <= k < |a + b| ==> (a + b)[k].index == k
  {
  }

  /** A filing: the prose sections one after the other, then the table in one piece.  The
      index of a chunk is its place in the document, no chunk mixes two sections, and unless
      a chunk is flagged the document has every word of its parts, in order, once. */
  method ChunkFiling(lang: Language, riskFactors: Option<Parser.Section>, mdna: Option<Parser.Section>,
                     table: Option<string>, target: nat, overlap: nat)
    returns (chunks: seq<Chunk>, ghost risk: seq<Chunk>, ghost discussion: seq<Chunk>)
    requires target > 0
    ensures forall k :: 0 <= k < |chunks| ==> chunks[k].index == k
    ensures SectionChunks(lang, target, overlap, riskFactors, 0, risk)
    ensures SectionChunks(lang, target, overlap, mdna, |risk|, discussion)
    ensures chunks == risk + discussion + TableChunk(lang, table, |risk + discussion|)
    ensures Unflagged(chunks) ==>
      Conserves(chunks, SectionWords(riskFactors) + SectionWords(mdna) + TableWords(table))
  {
    chunks := ChunkOptional(lang, riskFactors, 0, target, overlap);
    risk := chunks;
    var later := ChunkOptional(lang, mdna, |chunks|, target, overlap);
    discussion := later;
    IndicesRun(risk, discussion);
    chunks := chunks + later;
    IndicesRun(chunks, TableChunk(lang, table, |chunks|));
    chunks := chunks + TableChunk(lang, table, |chunks|);
    FilingConserves(lang, target, overlap, riskFactors, mdna, table, risk, discussion);
  }

  lemma UnflaggedParts(a: seq<Chunk>, b: seq<Chunk>)
    requires Unflagged(a + b)
    ensures Unflagged(a) && Unflagged(b)
  {
    forall k | 0 <= k < |a| ensures !a[k].hardSplit { assert (a + b)[k] == a[k]; }
    forall k | 0 <= k < |b| ensures !b[k].hardSplit { assert (a + b)[|a| + k] == b[k]; }
  }

  lemma FilingConserves(lang: Language, target: nat, overlap: nat, riskFactors: Option<Parser.Section>,
                        mdna: Option<Parser.Section>, table: Option<string>, risk: seq<Chunk>, discussion: seq<Chunk>)
    requires target > 0
    requires SectionChunks(lang, target, overlap, riskFactors, 0, risk)
    requires SectionChunks(lang, target, overlap, mdna, |risk|, discussion)
    ensures var chunks := risk + discussion + TableChunk(lang, table, |risk + discussion|);
      Unflagged(chunks) ==> Conserves(chunks, SectionWords(riskFactors) + SectionWords(mdna) + TableWords(table))
  {
    var last := TableChunk(lang, table, |risk + discussion|);
    var chunks := risk + discussion + last;
    if Unflagged(chunks) {
      UnflaggedParts(risk + discussion, last);
      UnflaggedParts(risk, discussion);
      SectionConserves(lang, target, overlap, riskFactors, 0, risk);
      SectionConserves(lang, target, overlap, mdna, |risk|, discussion);
      TableConserves(lang, table, |risk + discussion|);
      ConservesBoth(risk, discussion, SectionWords(riskFactors), SectionWords(mdna));
      ConservesBoth(risk + discussion, last, SectionWords(riskFactors) + SectionWords(mdna), TableWords(table));
    }
  }

  /** A table is one chunk, never split. */
  function TableChunk(lang: Language, table: Option<string>, index: nat): seq<Chunk> {
    match table
    case None => []
    case Some(text) => [Chunk("Income Statement", index, text, lang.Count(text), false)]
  }

  /** The table's chunk is its very text, under its own name, at the place it is given. */
  lemma TableIsOneChunk(lang: Language, text: string, index: nat)
    ensures TableChunk(lang, None, index) == []
    ensures var chunks := TableChunk(lang, Some(text), index);
      && |chunks| == 1 && chunks[0].content == text && chunks[0].index == index && !chunks[0].hardSplit
      && chunks[0].section == "Income Statement" && chunks[0].tokenCount == |lang.encode(text)|
  {
  }

  method ChunkOptional(lang: Language, section: Option<Parser.Section>, start: nat, target: nat, overlap: nat)
    returns (chunks: seq<Chunk>)
    requires target > 0
    ensures SectionChunks(lang, target, overlap, section, start, chunks)
    ensures forall k :: 0 <= k < |chunks| ==> chunks[k].index == start + k
  {
    if section.None? { return []; }
    ghost var loads;
    chunks, loads := ChunkSection(lang, section.value, start, target, overlap);
  }
}
