/** rag/retriever.py: re-ranking vector hits, and when an over-fetched pool is enough. */
module Retriever {
  import opened Seqs
  import Text

  const LEXICAL_WEIGHT := 0.06
  const TABLE_BOOST := 0.09
  const OVERFETCH: nat := 6
  const MIN_CANDIDATES: nat := 30

  datatype SearchHit = SearchHit(
    chunkId: string, content: string, contentType: string,
    score: real, vectorScore: real, lexicalScore: real, boost: real)

  datatype QueryIntent = QueryIntent(terms: seq<string>, valueSeeking: bool, explanatory: bool)

  predicate WantsAFigure(intent: QueryIntent) {
    intent.terms != [] && intent.valueSeeking && !intent.explanatory
  }

  predicate Nonempty(terms: seq<string>) {
    forall i :: 0 <= i < |terms| ==> terms[i] != ""
  }

  // ----- scores

  /** How many of the terms occur in a text. */
  function Matches(lowered: string, terms: seq<string>): (n: nat)
    requires Nonempty(terms)
    ensures n <= |terms|
    ensures n == |terms| <==> forall i :: 0 <= i < |terms| ==> Text.IndexOf(lowered, terms[i]) >= 0
  {
    if terms == [] then 0
    else
      assert forall i :: 0 < i < |terms| ==> terms[i] == terms[1..][i - 1];
      (if Text.IndexOf(lowered, terms[0]) >= 0 then 1 else 0) + Matches(lowered, terms[1..])
  }

  lemma ShareIsBounded(n: nat, whole: nat)
    requires n <= whole && 0 < whole
    ensures 0.0 <= n as real / whole as real <= 1.0
    ensures n as real / whole as real == 1.0 <==> n == whole
  {
    var share := n as real / whole as real;
    assert share * whole as real == n as real;
    BoundedFactor(share, n as real, whole as real);
  }

  lemma BoundedFactor(share: real, n: real, whole: real)
    requires 0.0 <= n <= whole && 0.0 < whole && share * whole == n
    ensures 0.0 <= share <= 1.0
    ensures share == 1.0 <==> n == whole
  {
    var below, above := -share, share - 1.0;
    Product(below, whole);
    Product(above, whole);
    Product(-above, whole);
    assert below * whole == -n && above * whole == n - whole && -above * whole == whole - n;
  }

  /** A share of the query's terms: from none to all of them. */
  function LexicalScore(lower: string -> string, content: string, terms: seq<string>): (share: real)
    requires Nonempty(terms)
    ensures 0.0 <= share <= 1.0
    ensures share == 1.0 <==>
      terms != [] && forall i :: 0 <= i < |terms| ==> Text.IndexOf(lower(content), terms[i]) >= 0
  {
    if terms == [] then 0.0
    else
      var matches := Matches(lower(content), terms);
      ShareIsBounded(matches, |terms|);
      matches as real / |terms| as real
  }

  /** The terms that occur in a text, by their places in the list. */
  function Occurring(lowered: string, terms: seq<string>): set<nat>
    requires Nonempty(terms)
  {
    set i | 0 <= i < |terms| && Text.IndexOf(lowered, terms[i]) >= 0
  }

  lemma {:induction false} MatchesCounts(lowered: string, terms: seq<string>)
    requires Nonempty(terms)
    ensures Matches(lowered, terms) == |Occurring(lowered, terms)|
  {
    if terms != [] {
      var rest := terms[1..];
      forall i | 0 < i < |terms| ensures terms[i] == rest[i - 1] { }
      MatchesCounts(lowered, rest);
      OccurringNext(lowered, terms);
      Shifted(Occurring(lowered, rest));
    }
  }

  function Shift(s: set<nat>): set<nat> { set i | i in s :: i + 1 }

  lemma {:induction false} Shifted(s: set<nat>)
    ensures |Shift(s)| == |s|
    decreases s
  {
    if s != {} {
      var i :| i in s;
      var rest := s - {i};
      Shifted(rest);
      assert s == rest + {i};
      forall x | x in Shift(s) ensures x in Shift(rest) + {i + 1} { assert x - 1 in s; }
      forall x | x in Shift(rest) + {i + 1} ensures x in Shift(s) {
        if x != i + 1 { assert x - 1 in rest; }
      }
      assert Shift(s) == Shift(rest) + {i + 1};
    }
  }

  lemma OccurringNext(lowered: string, terms: seq<string>)
    requires terms != [] && Nonempty(terms) && Nonempty(terms[1..])
    ensures Occurring(lowered, terms)
         == (if Text.IndexOf(lowered, terms[0]) >= 0 then {0} else {}) + Shift(Occurring(lowered, terms[1..]))
  {
    var rest := Occurring(lowered, terms[1..]);
    forall i | 0 < i < |terms| ensures i in Occurring(lowered, terms) <==> i in Shift(rest) {
      assert terms[i] == terms[1..][i - 1];
      if i in Occurring(lowered, terms) { assert i - 1 in rest; }
    }
  }

  /** The share is the number of terms that occur, over the number of terms. */
  lemma LexicalScoreIs(lower: string -> string, content: string, terms: seq<string>)
    requires Nonempty(terms)
    ensures LexicalScore(lower, content, terms)
         == if terms == [] then 0.0 else |Occurring(lower(content), terms)| as real / |terms| as real
  {
    MatchesCounts(lower(content), terms);
  }

  /** The breakdown adds up: the score is the vector score, 0.06 times the share of terms, and
      0.09 for a table if the query wants a figure; and the hit is otherwise as it was. */
  lemma ScoreAddsUp(lower: string -> string, hit: SearchHit, intent: QueryIntent)
    requires Nonempty(intent.terms)
    ensures var now := Rescored(lower, hit, intent);
      && now.score == now.vectorScore + 0.06 * now.lexicalScore + now.boost
      && now.lexicalScore == LexicalScore(lower, hit.content, intent.terms)
      && now.boost == (if intent.terms != [] && intent.valueSeeking && !intent.explanatory && hit.contentType == "table"
                       then 0.09 else 0.0)
      && now.chunkId == hit.chunkId && now.content == hit.content && now.contentType == hit.contentType
      && now.vectorScore == hit.vectorScore
  {
  }

  function Rescored(lower: string -> string, hit: SearchHit, intent: QueryIntent): SearchHit
    requires Nonempty(intent.terms)
  {
    var lexical := LexicalScore(lower, hit.content, intent.terms);
    var boost := if WantsAFigure(intent) && hit.contentType == "table" then TABLE_BOOST else 0.0;
    hit.(score := hit.vectorScore + LEXICAL_WEIGHT * lexical + boost, lexicalScore := lexical, boost := boost)
  }

  function AllRescored(lower: string -> string, hits: seq<SearchHit>, intent: QueryIntent): seq<SearchHit>
    requires Nonempty(intent.terms)
  {
    seq(|hits|, i requires 0 <= i < |hits| => Rescored(lower, hits[i], intent))
  }

  /** The most a hit can gain on its vector score. */
  function MaxBonus(intent: QueryIntent): (bonus: real)
    ensures 0.0 <= bonus <= 0.15
  {
    (if intent.terms != [] then LEXICAL_WEIGHT else 0.0) + if WantsAFigure(intent) then TABLE_BOOST else 0.0
  }

  lemma BonusIsBounded(lower: string -> string, hit: SearchHit, intent: QueryIntent)
    requires Nonempty(intent.terms)
    ensures hit.vectorScore <= Rescored(lower, hit, intent).score <= hit.vectorScore + MaxBonus(intent)
  {
  }

  // ----- a stable sort, highest score first

  predicate Descending(hits: seq<SearchHit>) {
    forall i, j :: 0 <= i < j < |hits| ==> hits[i].score >= hits[j].score
  }

  function Insert(ranked: seq<SearchHit>, hit: SearchHit): seq<SearchHit> {
    if ranked == [] || ranked[|ranked| - 1].score >= hit.score then ranked + [hit]
    else Insert(ranked[..|ranked| - 1], hit) + [ranked[|ranked| - 1]]
  }

  /** `sort(key=score, reverse=True)`, which keeps the order of equal scores. */
  function Ranked(hits: seq<SearchHit>): seq<SearchHit> {
    if hits == [] then [] else Insert(Ranked(hits[..|hits| - 1]), hits[|hits| - 1])
  }

  lemma RankedSnoc(hits: seq<SearchHit>, last: SearchHit)
    ensures Ranked(hits + [last]) == Insert(Ranked(hits), last)
  {
    assert (hits + [last])[..|hits|] == hits;
  }

  function Scoring(hits: seq<SearchHit>, score: real): seq<SearchHit> {
    if hits == [] then []
    else Scoring(hits[..|hits| - 1], score) + if hits[|hits| - 1].score == score then [hits[|hits| - 1]] else []
  }

  lemma ScoringSnoc(hits: seq<SearchHit>, hit: SearchHit, score: real)
    ensures Scoring(hits + [hit], score) == Scoring(hits, score) + if hit.score == score then [hit] else []
  {
    assert (hits + [hit])[..|hits|] == hits;
  }

  lemma DescendingSnoc(front: seq<SearchHit>, last: SearchHit)
    requires Descending(front) && forall i :: 0 <= i < |front| ==> front[i].score >= last.score
    ensures Descending(front + [last])
  {
  }

  lemma AllAtLeast(hits: seq<SearchHit>, front: seq<SearchHit>, hit: SearchHit, score: real)
    requires multiset(hits) == multiset(front) + multiset{hit}
    requires hit.score >= score && forall i :: 0 <= i < |front| ==> front[i].score >= score
    ensures forall i :: 0 <= i < |hits| ==> hits[i].score >= score
  {
    forall i | 0 <= i < |hits| ensures hits[i].score >= score {
      assert hits[i] in multiset(hits);
      assert hits[i] == hit || hits[i] in multiset(front);
    }
  }

  lemma {:induction false} InsertKeeps(ranked: seq<SearchHit>, hit: SearchHit)
    requires Descending(ranked)
    ensures Descending(Insert(ranked, hit))
    ensures multiset(Insert(ranked, hit)) == multiset(ranked) + multiset{hit}
  {
    if ranked == [] || ranked[|ranked| - 1].score >= hit.score {
      DescendingSnoc(ranked, hit);
    } else {
      var front, last := ranked[..|ranked| - 1], ranked[|ranked| - 1];
      InsertKeeps(front, hit);
      assert ranked == front + [last];
      AllAtLeast(Insert(front, hit), front, hit, last.score);
      DescendingSnoc(Insert(front, hit), last);
    }
  }

  lemma {:induction false} InsertIsStable(ranked: seq<SearchHit>, hit: SearchHit, score: real)
    requires Descending(ranked)
    ensures Scoring(Insert(ranked, hit), score) == Scoring(ranked, score) + if hit.score == score then [hit] else []
  {
    if ranked == [] || ranked[|ranked| - 1].score >= hit.score {
      ScoringSnoc(ranked, hit, score);
    } else {
      var front, last := ranked[..|ranked| - 1], ranked[|ranked| - 1];
      InsertIsStable(front, hit, score);
      ScoringSnoc(Insert(front, hit), last, score);
      assert last.score != hit.score;
    }
  }

  /** The ranking is a permutation of the hits, highest score first, ties in the order given:
      together these leave one possible result. */
  lemma {:induction false} RankedIsAStableSort(hits: seq<SearchHit>)
    ensures multiset(Ranked(hits)) == multiset(hits) && Descending(Ranked(hits))
    ensures |Ranked(hits)| == |hits|
    ensures forall score :: Scoring(Ranked(hits), score) == Scoring(hits, score)
  {
    RankedIsSorted(hits);
    forall score ensures Scoring(Ranked(hits), score) == Scoring(hits, score) { RankedIsStable(hits, score); }
  }

  predicate Sorts(ranked: seq<SearchHit>, hits: seq<SearchHit>) {
    multiset(ranked) == multiset(hits) && Descending(ranked)
  }

  lemma SortsMore(front: seq<SearchHit>, last: SearchHit)
    requires Sorts(Ranked(front), front)
    ensures Sorts(Ranked(front + [last]), front + [last])
  {
    RankedSnoc(front, last);
    InsertKeeps(Ranked(front), last);
  }

  lemma {:induction false} RankedSorts(hits: seq<SearchHit>)
    ensures Sorts(Ranked(hits), hits)
  {
    if hits != [] {
      var front, last := hits[..|hits| - 1], hits[|hits| - 1];
      RankedSorts(front);
      SortsMore(front, last);
      assert hits == front + [last];
    }
  }

  lemma RankedIsSorted(hits: seq<SearchHit>)
    ensures multiset(Ranked(hits)) == multiset(hits) && Descending(Ranked(hits))
    ensures |Ranked(hits)| == |hits|
  {
    RankedSorts(hits);
    assert |multiset(Ranked(hits))| == |multiset(hits)|;
  }

  lemma {:induction false} RankedIsStable(hits: seq<SearchHit>, score: real)
    ensures Scoring(Ranked(hits), score) == Scoring(hits, score)
  {
    if hits != [] {
      var front, last := hits[..|hits| - 1], hits[|hits| - 1];
      RankedIsStable(front, score);
      RankedIsSorted(front);
      InsertIsStable(Ranked(front), last, score);
    }
  }

  lemma RankedStays(front: seq<SearchHit>, last: SearchHit)
    requires Ranked(front) == front && (front == [] || front[|front| - 1].score >= last.score)
    ensures Ranked(front + [last]) == front + [last]
  {
    RankedSnoc(front, last);
  }

  /** Hits already in order stay as they are. */
  lemma {:induction false} RankedOfDescending(hits: seq<SearchHit>)
    requires Descending(hits)
    ensures Ranked(hits) == hits
  {
    if hits != [] {
      var front, last := hits[..|hits| - 1], hits[|hits| - 1];
      DescendingFront(hits);
      RankedOfDescending(front);
      assert hits == front + [last];
      RankedStays(front, last);
    }
  }

  lemma DescendingFront(hits: seq<SearchHit>)
    requires hits != [] && Descending(hits)
    ensures Descending(hits[..|hits| - 1])
    ensures |hits| > 1 ==> hits[..|hits| - 1][|hits| - 2].score >= hits[|hits| - 1].score
  {
  }

  // ----- re-ranking

  function Top(hits: seq<SearchHit>, k: nat): seq<SearchHit> {
    if k <= |hits| then hits[..k] else hits
  }

  function Reranked(lower: string -> string, hits: seq<SearchHit>, intent: QueryIntent, k: nat): seq<SearchHit>
    requires Nonempty(intent.terms)
  {
    Top(Ranked(AllRescored(lower, hits, intent)), k)
  }

  /** `rerank` */
  method Rerank(lower: string -> string, hits: seq<SearchHit>, intent: QueryIntent, k: nat)
    returns (top: seq<SearchHit>)
    requires Nonempty(intent.terms)
    ensures top == Reranked(lower, hits, intent, k)
  {
    var preferTables := WantsAFigure(intent);
    var rescored: seq<SearchHit> := [];
    for n := 0 to |hits|
      invariant |rescored| == n
      invariant forall i :: 0 <= i < n ==> rescored[i] == Rescored(lower, hits[i], intent)
    {
      var hit := hits[n];
      var lexical := LexicalScore(lower, hit.content, intent.terms);
      var boost := if preferTables && hit.contentType == "table" then TABLE_BOOST else 0.0;
      rescored := rescored
        + [hit.(score := hit.vectorScore + LEXICAL_WEIGHT * lexical + boost, lexicalScore := lexical, boost := boost)];
    }
    assert rescored == AllRescored(lower, hits, intent);
    top := Top(Ranked(rescored), k);
  }

  /** The weights reorder near-ties only: no hit is ranked above one whose vector score is
      higher by more than the bonus the query allows, at most 0.15. */
  lemma NeverOverrulesTheEncoder(lower: string -> string, hits: seq<SearchHit>, intent: QueryIntent, k: nat)
    requires Nonempty(intent.terms)
    ensures var top := Reranked(lower, hits, intent, k);
      forall i, j :: 0 <= i < j < |top| ==> top[j].vectorScore <= top[i].vectorScore + MaxBonus(intent)
  {
    var rescored := AllRescored(lower, hits, intent);
    var ranked := Ranked(rescored);
    RankedIsAStableSort(rescored);
    forall i | 0 <= i < |ranked|
      ensures ranked[i].vectorScore <= ranked[i].score <= ranked[i].vectorScore + MaxBonus(intent)
    {
      assert ranked[i] in multiset(rescored);
      var n :| 0 <= n < |rescored| && rescored[n] == ranked[i];
      BonusIsBounded(lower, hits[n], intent);
    }
  }

  /** The bound is met: a table with all the terms passes a passage with none exactly when
      it is less than 0.15 behind. */
  lemma ATableClosesAGapOf(lower: string -> string, passage: SearchHit, table: SearchHit, intent: QueryIntent)
    requires Nonempty(intent.terms) && WantsAFigure(intent)
    requires passage.contentType != "table" && LexicalScore(lower, passage.content, intent.terms) == 0.0
    requires table.contentType == "table" && LexicalScore(lower, table.content, intent.terms) == 1.0
    ensures var first, second := Rescored(lower, passage, intent), Rescored(lower, table, intent);
      Reranked(lower, [passage, table], intent, 2)
        == if passage.vectorScore < table.vectorScore + 0.15 then [second, first] else [first, second]
  {
    var first, second := Rescored(lower, passage, intent), Rescored(lower, table, intent);
    var rescored := AllRescored(lower, [passage, table], intent);
    assert rescored == [first] + [second];
    RankedSnoc([], first);
    RankedSnoc([first], second);
    assert [] + [first] == [first];
    assert [first][..0] == [];
  }

  predicate VectorOrder(hits: seq<SearchHit>) {
    forall i, j :: 0 <= i < j < |hits| ==> hits[i].vectorScore >= hits[j].vectorScore
  }

  /** A query that names no statement term leaves the encoder's order alone. */
  lemma NoTermsNoReordering(lower: string -> string, hits: seq<SearchHit>, intent: QueryIntent, k: nat)
    requires intent.terms == [] && VectorOrder(hits)
    ensures Reranked(lower, hits, intent, k) == Top(AllRescored(lower, hits, intent), k)
    ensures forall i :: 0 <= i < |hits| ==> AllRescored(lower, hits, intent)[i].score == hits[i].vectorScore
  {
    var rescored := AllRescored(lower, hits, intent);
    forall i | 0 <= i < |hits| ensures rescored[i].score == hits[i].vectorScore {
      BonusIsBounded(lower, hits[i], intent);
    }
    RankedOfDescending(rescored);
  }

  // ----- the pool

  lemma {:induction false} InsertBelow(ranked: seq<SearchHit>, hit: SearchHit, k: nat)
    requires 0 < k <= |ranked| && Descending(ranked) && hit.score <= ranked[k - 1].score
    ensures |Insert(ranked, hit)| == |ranked| + 1
    ensures Insert(ranked, hit)[..k] == ranked[..k]
    decreases |ranked|
  {
    var front, last := ranked[..|ranked| - 1], ranked[|ranked| - 1];
    if last.score < hit.score {
      assert k <= |front| && front[k - 1] == ranked[k - 1];
      InsertBelow(front, hit, k);
      assert Insert(ranked, hit) == Insert(front, hit) + [last];
      assert (Insert(front, hit) + [last])[..k] == Insert(front, hit)[..k] && front[..k] == ranked[..k];
    } else {
      assert Insert(ranked, hit) == ranked + [hit];
    }
  }

  lemma OneMoreBelow(hits: seq<SearchHit>, last: SearchHit, k: nat)
    requires 0 < k <= |Ranked(hits)| && last.score <= Ranked(hits)[k - 1].score
    ensures |Ranked(hits + [last])| == |Ranked(hits)| + 1
    ensures Ranked(hits + [last])[..k] == Ranked(hits)[..k]
  {
    RankedIsAStableSort(hits);
    InsertBelow(Ranked(hits), last, k);
    RankedSnoc(hits, last);
  }

  lemma SameAt<T>(a: seq<T>, b: seq<T>, k: nat)
    requires 0 < k <= |a| && k <= |b| && a[..k] == b[..k]
    ensures a[k - 1] == b[k - 1]
  {
    assert a[k - 1] == a[..k][k - 1];
  }

  /** `ranked` has the same first `k` hits as `top`, and `more` behind them. */
  predicate SameTop(ranked: seq<SearchHit>, top: seq<SearchHit>, k: nat, more: nat) {
    k <= |top| && |ranked| == |top| + more && ranked[..k] == top[..k]
  }

  lemma LaterHitBelow(hits: seq<SearchHit>, last: SearchHit, top: seq<SearchHit>, k: nat, more: nat)
    requires 0 < k && SameTop(Ranked(hits), top, k, more) && last.score <= top[k - 1].score
    ensures SameTop(Ranked(hits + [last]), top, k, more + 1)
  {
    SameAt(Ranked(hits), top, k);
    OneMoreBelow(hits, last, k);
  }

  lemma {:induction false} LaterHitsBelow(pool: seq<SearchHit>, rest: seq<SearchHit>, k: nat)
    requires 0 < k <= |pool| && |Ranked(pool)| == |pool|
    requires forall i :: 0 <= i < |rest| ==> rest[i].score <= Ranked(pool)[k - 1].score
    ensures SameTop(Ranked(pool + rest), Ranked(pool), k, |rest|)
  {
    if rest == [] {
      assert pool + rest == pool;
    } else {
      var front, last := rest[..|rest| - 1], rest[|rest| - 1];
      LaterHitsBelow(pool, front, k);
      LaterHitBelow(pool + front, last, Ranked(pool), k, |front|);
      assert pool + rest == pool + front + [last];
    }
  }

  lemma TailIn(hits: seq<SearchHit>, k: nat, hit: SearchHit)
    requires k <= |hits| && hit in multiset(hits[k..])
    ensures exists n :: k <= n < |hits| && hits[n] == hit
  {
    var n :| 0 <= n < |hits[k..]| && hits[k..][n] == hit;
    assert hits[k + n] == hit;
  }

  lemma SplitBag(hits: seq<SearchHit>, k: nat)
    requires k <= |hits|
    ensures multiset(hits) == multiset(hits[..k]) + multiset(hits[k..])
  {
    assert hits == hits[..k] + hits[k..];
  }

  lemma Cancel<T>(a: multiset<T>, b: multiset<T>, c: multiset<T>)
    requires a + b == a + c
    ensures b == c
  {
    forall x ensures b[x] == c[x] {
      assert (a + b)[x] == (a + c)[x];
    }
  }

  lemma CommonTop(all: seq<SearchHit>, some: seq<SearchHit>, rest: seq<SearchHit>, k: nat)
    requires 0 < k <= |some| && k <= |all| && all[..k] == some[..k]
    requires multiset(all) == multiset(some) + multiset(rest) && Descending(all)
    ensures forall i :: 0 <= i < |rest| ==> rest[i].score <= some[k - 1].score
  {
    SplitBag(all, k);
    SplitBag(some, k);
    Cancel(multiset(all[..k]), multiset(all[k..]), multiset(some[k..]) + multiset(rest));
    assert all[k - 1] == all[..k][k - 1] && some[k - 1] == some[..k][k - 1];
    forall i | 0 <= i < |rest| ensures rest[i].score <= some[k - 1].score {
      assert rest[i] in multiset(rest);
      TailIn(all, k, rest[i]);
    }
  }

  /** The top k of a pool is the top k of everything exactly when no hit outside the pool
      scores above the pool's k-th. */
  lemma PoolSufficesIff(pool: seq<SearchHit>, rest: seq<SearchHit>, k: nat)
    requires 0 < k <= |pool|
    ensures |Ranked(pool)| == |pool|
    ensures Top(Ranked(pool + rest), k) == Top(Ranked(pool), k)
       <==> forall i :: 0 <= i < |rest| ==> rest[i].score <= Ranked(pool)[k - 1].score
  {
    var some, all := Ranked(pool), Ranked(pool + rest);
    RankedIsAStableSort(pool);
    RankedIsAStableSort(pool + rest);
    if all[..k] == some[..k] {
      assert multiset(pool + rest) == multiset(pool) + multiset(rest);
      CommonTop(all, some, rest, k);
    } else if forall i :: 0 <= i < |rest| ==> rest[i].score <= some[k - 1].score {
      LaterHitsBelow(pool, rest, k);
      assert false;
    }
  }

  /** If the k-th score beats the last vector score fetched by what re-ranking can add, nothing
      left in the corpus could have come into the top k. */
  lemma OverfetchSuffices(lower: string -> string, corpus: seq<SearchHit>, intent: QueryIntent, k: nat, fetched: nat)
    requires Nonempty(intent.terms) && VectorOrder(corpus) && 0 < k <= fetched <= |corpus|
    ensures |Reranked(lower, corpus[..fetched], intent, k)| == k
    ensures Reranked(lower, corpus[..fetched], intent, k)[k - 1].score
              >= corpus[fetched - 1].vectorScore + MaxBonus(intent)
        ==> Reranked(lower, corpus[..fetched], intent, k) == Reranked(lower, corpus, intent, k)
  {
    var pool := AllRescored(lower, corpus[..fetched], intent);
    var rest := AllRescored(lower, corpus[fetched..], intent);
    assert pool + rest == AllRescored(lower, corpus, intent);
    PoolSufficesIff(pool, rest, k);
    forall i | 0 <= i < |rest| ensures rest[i].score <= corpus[fetched - 1].vectorScore + MaxBonus(intent) {
      BonusIsBounded(lower, corpus[fetched + i], intent);
    }
  }

  // ----- the search

  function PoolSize(k: nat, rerankResults: bool): nat {
    if !rerankResults then k
    else if k * OVERFETCH >= MIN_CANDIDATES then k * OVERFETCH
    else MIN_CANDIDATES
  }

  function AtLeast(hits: seq<SearchHit>, minScore: real): seq<SearchHit> {
    if hits == [] then []
    else (if hits[0].score >= minScore then [hits[0]] else []) + AtLeast(hits[1..], minScore)
  }

  lemma {:induction false} NoneAtLeast(hits: seq<SearchHit>, minScore: real)
    requires forall i :: 0 <= i < |hits| ==> hits[i].score < minScore
    ensures AtLeast(hits, minScore) == []
  {
    if hits != [] { NoneAtLeast(hits[1..], minScore); }
  }

  /** On ranked hits a threshold only shortens the list: what it keeps is a prefix, all of it
      at or above the threshold and everything after it below. */
  lemma {:induction false} ThresholdCutsTheTail(hits: seq<SearchHit>, minScore: real)
    requires Descending(hits)
    ensures AtLeast(hits, minScore) <= hits
    ensures forall i :: 0 <= i < |hits| ==> (hits[i].score >= minScore <==> i < |AtLeast(hits, minScore)|)
  {
    if hits != [] {
      if hits[0].score >= minScore {
        ThresholdCutsTheTail(hits[1..], minScore);
        var kept := AtLeast(hits[1..], minScore);
        assert hits == [hits[0]] + hits[1..];
        forall i | 0 < i < |hits| ensures hits[i].score >= minScore <==> i < 1 + |kept| {
          assert hits[i] == hits[1..][i - 1];
        }
      } else {
        NoneAtLeast(hits, minScore);
      }
    }
  }

  /** What the search answers from the filtered corpus in vector order. */
  function Found(lower: string -> string, corpus: seq<SearchHit>, intent: QueryIntent, k: nat, rerankResults: bool)
    : seq<SearchHit>
    requires Nonempty(intent.terms)
  {
    if rerankResults then Reranked(lower, Top(corpus, PoolSize(k, true)), intent, k) else Top(corpus, k)
  }

  /** `search_filings`, with the filtered corpus in the order of its vector scores in place of
      the database; None where the program raises ValueError. */
  method SearchFilings(lower: string -> string, intentOf: string -> QueryIntent, query: string, corpus: seq<SearchHit>,
                       k: nat, minScore: Option<real>, rerankResults: bool)
    returns (hits: Option<seq<SearchHit>>)
    requires Nonempty(intentOf(query).terms)
    ensures hits == if Text.Strip(query) == "" then None
                    else
                      var found := Found(lower, corpus, intentOf(query), k, rerankResults);
                      Some(if minScore.Some? then AtLeast(found, minScore.value) else found)
  {
    assert Text.Strip("") == "";
    if query == "" || Text.Strip(query) == "" { return None; }
    var intent := intentOf(query);
    var candidates := Top(corpus, PoolSize(k, rerankResults));
    var found;
    if rerankResults {
      found := Rerank(lower, candidates, intent, k);
    } else {
      found := Top(candidates, k);
    }
    assert found == Found(lower, corpus, intent, k, rerankResults);
    if minScore.Some? { found := AtLeast(found, minScore.value); }
    hits := Some(found);
  }

  /** Searching answers as if the whole corpus had been re-ranked whenever it was all fetched,
      or the k-th score beats the last one fetched by 0.15. */
  lemma SearchReadsTheWholeCorpus(lower: string -> string, corpus: seq<SearchHit>, intent: QueryIntent, k: nat)
    requires Nonempty(intent.terms) && VectorOrder(corpus) && k > 0
    ensures |corpus| <= 30 || |corpus| <= 6 * k ==>
      Found(lower, corpus, intent, k, true) == Reranked(lower, corpus, intent, k)
    ensures |corpus| > 30 && |corpus| > 6 * k ==>
      var found, last := Found(lower, corpus, intent, k, true), corpus[if 6 * k >= 30 then 6 * k - 1 else 29];
      |found| == k && (found[k - 1].score >= last.vectorScore + 0.15 ==> found == Reranked(lower, corpus, intent, k))
  {
    var fetched := PoolSize(k, true);
    if |corpus| > fetched {
      assert Top(corpus, fetched) == corpus[..fetched];
      OverfetchSuffices(lower, corpus, intent, k, fetched);
    } else {
      assert Top(corpus, fetched) == corpus;
    }
  }
}
