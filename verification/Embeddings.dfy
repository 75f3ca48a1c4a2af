/** rag/embeddings.py: overlapping windows over a long text, and pooled encoding. */
module Embeddings {
  import opened Seqs

  const MAX_SEQUENCE_TOKENS: nat := 512
  const LONG_INPUT_OVERLAP: nat := 64
  const BODY: nat := MAX_SEQUENCE_TOKENS - 2

  // ----- windows

  /** Up to `length` tokens from position `start`. */
  function Cut<T>(ids: seq<T>, start: nat, length: nat): seq<T>
    requires start <= |ids|
  {
    ids[start..if start + length <= |ids| then start + length else |ids|]
  }

  ghost predicate Sizes(n: nat, body: nat, overlap: nat) {
    0 < body < n && 2 * overlap <= body
  }

  /** ceil((n - overlap) / (body - overlap)) */
  function WindowCount(n: nat, body: nat, overlap: nat): (count: nat)
    requires 0 < body < n && 2 * overlap <= body
  {
    (n - overlap + (body - overlap) - 1) / (body - overlap)
  }

  /** `count` is the number of strides that take the first `overlap` tokens to the end. */
  lemma CountIs(n: nat, body: nat, overlap: nat, count: nat)
    requires Sizes(n, body, overlap)
    requires (count - 1) * (body - overlap) < n - overlap <= count * (body - overlap)
    ensures WindowCount(n, body, overlap) == count
  {
    var stride, total := body - overlap, n - overlap + (body - overlap) - 1;
    var q, r := total / stride, total % stride;
    assert total == q * stride + r;
    OneMore(q, stride);
    OneMore(count - 1, stride);
    OneMore(count, stride);
    TimesOrdered(q + 1, count, stride);
    TimesOrdered(count + 1, q, stride);
  }

  lemma CountBounds(n: nat, body: nat, overlap: nat)
    requires Sizes(n, body, overlap)
    ensures var count, stride := WindowCount(n, body, overlap), body - overlap;
      count >= 2 && (count - 1) * stride < n - overlap <= count * stride
  {
    var stride, total := body - overlap, n - overlap + (body - overlap) - 1;
    var q, r := total / stride, total % stride;
    assert total == q * stride + r;
    OneMore(q - 1, stride);
    TimesOrdered(q, 1, stride);
  }

  /** Windows of `body` tokens, each `body - overlap` after the one before, and as many of
      them as it takes to reach the end. */
  ghost predicate Windowed<T>(ids: seq<T>, body: nat, overlap: nat, pieces: seq<seq<T>>) {
    && Sizes(|ids|, body, overlap)
    && |pieces| == WindowCount(|ids|, body, overlap)
    && forall k :: 0 <= k < |pieces| ==> IsWindow(ids, body, overlap, k, pieces[k])
  }

  ghost predicate IsWindow<T>(ids: seq<T>, body: nat, overlap: nat, k: nat, piece: seq<T>)
    requires overlap <= body
  {
    var start := k * (body - overlap);
    start < |ids| && piece == Cut(ids, start, body)
  }

  /** The comprehension and the pop in `_windows`: a last piece no longer than the overlap
      goes, and what is left is the windows, as many as the formula says. */
  method Pieces<T>(ids: seq<T>, body: nat, overlap: nat) returns (pieces: seq<seq<T>>)
    requires Sizes(|ids|, body, overlap)
    ensures Windowed(ids, body, overlap, pieces)
  {
    pieces := [];
    var stride, i := body - overlap, 0;
    while i < |ids|
      invariant i == |pieces| * stride
      invariant |pieces| > 0 ==> (|pieces| - 1) * stride < |ids|
      invariant forall k :: 0 <= k < |pieces| ==> IsWindow(ids, body, overlap, k, pieces[k])
    {
      OneMore(|pieces|, stride);
      pieces := pieces + [Cut(ids, i, body)];
      i := i + stride;
    }
    ghost var count := |pieces|;
    assert IsWindow(ids, body, overlap, count - 1, pieces[count - 1]);
    LastPiece(|ids|, body, overlap, count);
    if |pieces| > 1 && |pieces[|pieces| - 1]| <= overlap {
      pieces := pieces[..|pieces| - 1];
    }
  }

  /** A last piece longer than the overlap is a window; a shorter one reaches only tokens
      that the window before it has already reached. */
  lemma LastPiece(n: nat, body: nat, overlap: nat, count: nat)
    requires Sizes(n, body, overlap) && count > 0
    requires (count - 1) * (body - overlap) < n <= count * (body - overlap)
    ensures count > 1
    ensures n - (count - 1) * (body - overlap) > overlap ==> WindowCount(n, body, overlap) == count
    ensures n - (count - 1) * (body - overlap) <= overlap ==>
      WindowCount(n, body, overlap) == count - 1 && n <= (count - 2) * (body - overlap) + body
  {
    var stride := body - overlap;
    OneMore(count - 2, stride);
    OneMore(count - 1, stride);
    TimesOrdered(count, 1, stride);
    if n - (count - 1) * stride > overlap {
      CountIs(n, body, overlap, count);
    } else {
      CountIs(n, body, overlap, count - 1);
    }
  }

  lemma TailOfTail<T>(ids: seq<T>, start: nat, later: nat)
    requires start <= later <= |ids|
    ensures IsSuffix(ids[later..], ids[start..])
  {
  }

  /** The piece that is popped was wholly inside its predecessor. */
  lemma PoppedPieceWasCovered<T>(ids: seq<T>, body: nat, overlap: nat, start: nat)
    requires overlap < body && start + (body - overlap) <= |ids|
    requires |Cut(ids, start + (body - overlap), body)| <= overlap
    ensures IsSuffix(Cut(ids, start + (body - overlap), body), Cut(ids, start, body))
  {
    TailOfTail(ids, start, start + (body - overlap));
  }

  function Start(body: nat, overlap: nat, k: nat): nat
    requires overlap <= body
  {
    k * (body - overlap)
  }

  function End(n: nat, body: nat, overlap: nat, k: nat): nat
    requires overlap <= body
  {
    if Start(body, overlap, k) + body <= n then Start(body, overlap, k) + body else n
  }

  lemma StrideOn(body: nat, overlap: nat, j: nat, k: nat)
    requires overlap <= body && j < k
    ensures Start(body, overlap, j) + (body - overlap) <= Start(body, overlap, k)
    ensures k == j + 1 ==> Start(body, overlap, j) + (body - overlap) == Start(body, overlap, k)
  {
    OneMore(j, body - overlap);
    TimesOrdered(j + 1, k, body - overlap);
  }

  lemma WhereItEnds(n: nat, body: nat, overlap: nat, k: nat)
    requires Sizes(n, body, overlap) && k < WindowCount(n, body, overlap)
    ensures Start(body, overlap, k) + overlap < End(n, body, overlap, k)
    ensures k < WindowCount(n, body, overlap) - 1 ==> End(n, body, overlap, k) == Start(body, overlap, k) + body < n
    ensures k == WindowCount(n, body, overlap) - 1 ==> End(n, body, overlap, k) == n
  {
    CountBounds(n, body, overlap);
    if k < WindowCount(n, body, overlap) - 1 {
      StrideOn(body, overlap, k, WindowCount(n, body, overlap) - 1);
    } else {
      StrideOn(body, overlap, k, k + 1);
    }
  }

  lemma WhatItHolds<T>(ids: seq<T>, body: nat, overlap: nat, pieces: seq<seq<T>>, k: nat)
    requires Windowed(ids, body, overlap, pieces) && k < |pieces|
    ensures Start(body, overlap, k) + overlap < End(|ids|, body, overlap, k) <= |ids|
    ensures pieces[k] == ids[Start(body, overlap, k)..End(|ids|, body, overlap, k)]
  {
    WhereItEnds(|ids|, body, overlap, k);
    assert IsWindow(ids, body, overlap, k, pieces[k]);
  }

  /** Every window fits the encoder and none adds less than it repeats. */
  lemma WindowsFit<T>(ids: seq<T>, body: nat, overlap: nat, pieces: seq<seq<T>>)
    requires Windowed(ids, body, overlap, pieces)
    ensures |pieces| >= 2
    ensures forall k :: 0 <= k < |pieces| ==> overlap < |pieces[k]| <= body
    ensures forall k :: 0 <= k < |pieces| - 1 ==> |pieces[k]| == body
  {
    CountBounds(|ids|, body, overlap);
    forall k | 0 <= k < |pieces|
      ensures overlap < |pieces[k]| <= body && (k < |pieces| - 1 ==> |pieces[k]| == body)
    {
      WhereItEnds(|ids|, body, overlap, k);
      WhatItHolds(ids, body, overlap, pieces, k);
    }
  }

  /** Neighbours share exactly `overlap` positions, others share none, and no window lies
      inside another: both ends move strictly forward. */
  lemma WindowsSlide(n: nat, body: nat, overlap: nat, j: nat, k: nat)
    requires Sizes(n, body, overlap) && j < k < WindowCount(n, body, overlap)
    ensures Start(body, overlap, j) < Start(body, overlap, k)
    ensures End(n, body, overlap, j) < End(n, body, overlap, k)
    ensures k == j + 1 ==> End(n, body, overlap, j) - Start(body, overlap, k) == overlap
    ensures k > j + 1 ==> End(n, body, overlap, j) <= Start(body, overlap, k)
  {
    WhereItEnds(n, body, overlap, j);
    WhereItEnds(n, body, overlap, k);
    StrideOn(body, overlap, j, k);
    if k > j + 1 {
      StrideOn(body, overlap, j, j + 1);
      StrideOn(body, overlap, j + 1, k);
    }
  }

  lemma TailIsHead<T>(ids: seq<T>, start: nat, middle: nat, end: nat, to: nat)
    requires start <= middle <= end <= to <= |ids|
    ensures ids[start..end][middle - start..] == ids[middle..to][..end - middle]
  {
  }

  /** A sentence across a boundary is whole in one of two windows if it fits the overlap: the
      last `overlap` tokens of a window are the first of the next. */
  lemma NeighboursRepeat<T>(ids: seq<T>, body: nat, overlap: nat, pieces: seq<seq<T>>, k: nat)
    requires Windowed(ids, body, overlap, pieces) && k + 1 < |pieces|
    ensures |pieces[k]| >= overlap && |pieces[k + 1]| >= overlap
    ensures pieces[k][|pieces[k]| - overlap..] == pieces[k + 1][..overlap]
  {
    WhatItHolds(ids, body, overlap, pieces, k);
    WhatItHolds(ids, body, overlap, pieces, k + 1);
    WindowsSlide(|ids|, body, overlap, k, k + 1);
    TailIsHead(ids, Start(body, overlap, k), Start(body, overlap, k + 1),
               End(|ids|, body, overlap, k), End(|ids|, body, overlap, k + 1));
  }

  /** What the windows read without reading the shared tokens twice. */
  function Unwindowed<T>(pieces: seq<seq<T>>, overlap: nat): seq<T>
    requires forall k :: 0 <= k < |pieces| ==> overlap <= |pieces[k]|
  {
    if pieces == [] then []
    else if |pieces| == 1 then pieces[0]
    else Unwindowed(pieces[..|pieces| - 1], overlap) + pieces[|pieces| - 1][overlap..]
  }

  lemma ReadOn<T>(ids: seq<T>, start: nat, middle: nat, end: nat)
    requires start <= middle <= end <= |ids|
    ensures ids[..middle] + ids[start..end][middle - start..] == ids[..end]
  {
  }

  lemma {:induction false} UnwindowedTo<T>(ids: seq<T>, body: nat, overlap: nat, pieces: seq<seq<T>>, m: nat)
    requires Windowed(ids, body, overlap, pieces) && m < |pieces|
    requires forall k :: 0 <= k < |pieces| ==> overlap <= |pieces[k]|
    ensures Unwindowed(pieces[..m + 1], overlap) == ids[..End(|ids|, body, overlap, m)]
  {
    WhatItHolds(ids, body, overlap, pieces, m);
    var upTo := pieces[..m + 1];
    if m > 0 {
      UnwindowedTo(ids, body, overlap, pieces, m - 1);
      WindowsSlide(|ids|, body, overlap, m - 1, m);
      ReadOn(ids, Start(body, overlap, m), End(|ids|, body, overlap, m - 1), End(|ids|, body, overlap, m));
      assert upTo[..m] == pieces[..m];
    }
  }

  /** The windows hold the whole text: dropping from each the tokens its predecessor has read
      gives back every token, once and in order. */
  lemma WindowsCoverTheText<T>(ids: seq<T>, body: nat, overlap: nat, pieces: seq<seq<T>>)
    requires Windowed(ids, body, overlap, pieces)
    ensures forall k :: 0 <= k < |pieces| ==> overlap <= |pieces[k]|
    ensures Unwindowed(pieces, overlap) == ids
  {
    WindowsFit(ids, body, overlap, pieces);
    UnwindowedTo(ids, body, overlap, pieces, |pieces| - 1);
    WhereItEnds(|ids|, body, overlap, |pieces| - 1);
    assert pieces[..|pieces|] == pieces;
  }

  // ----- vectors

  const EMBEDDING_DIM: nat := 384

  type Vector = v: seq<real> | |v| == EMBEDDING_DIM witness Zeros()

  function Zeros(): seq<real> { seq(EMBEDDING_DIM, _ => 0.0) }

  function Plus(a: Vector, b: Vector): Vector { seq(EMBEDDING_DIM, i requires 0 <= i < EMBEDDING_DIM => a[i] + b[i]) }

  function Over(a: Vector, d: real): Vector
    requires d != 0.0
  {
    seq(EMBEDDING_DIM, i requires 0 <= i < EMBEDDING_DIM => a[i] / d)
  }

  function SquaresTo(a: seq<real>, n: nat): real
    requires n <= |a|
  {
    if n == 0 then 0.0 else SquaresTo(a, n - 1) + a[n - 1] * a[n - 1]
  }

  function Squares(a: Vector): real { SquaresTo(a, |a|) }

  function Sum(vectors: seq<Vector>): Vector {
    if vectors == [] then Zeros() else Plus(Sum(vectors[..|vectors| - 1]), vectors[|vectors| - 1])
  }

  /** The tokenizer, the encoder over one batch, and the length of a vector. */
  datatype Encoder<!T> = Encoder(
    tokens: string -> seq<T>,
    decode: seq<T> -> string,
    batch: seq<seq<T>> -> seq<Vector>,
    norm: Vector -> real)

  /** In a batch each input has its own vector, of length one, whatever the other inputs. */
  ghost predicate IsEncoder<T(!new)>(e: Encoder<T>) {
    && (forall inputs :: |e.batch(inputs)| == |inputs|)
    && (forall inputs, i :: 0 <= i < |inputs| ==> e.batch(inputs)[i] == e.batch([inputs[i]])[0])
    && (forall input :: Squares(e.batch([input])[0]) == 1.0)
    && (forall v :: e.norm(v) >= 0.0 && e.norm(v) * e.norm(v) == Squares(v))
  }

  /** The tokens of a text that the encoder is given, its two special ones apart: with
      `truncation=True` those beyond its limit are dropped. */
  function Truncated<T>(e: Encoder<T>, text: string): (input: seq<T>)
    ensures |input| <= BODY && input <= e.tokens(text)
    ensures input == e.tokens(text) <==> |e.tokens(text)| <= BODY
  {
    Cut(e.tokens(text), 0, BODY)
  }

  ghost function VectorOf<T(!new)>(e: Encoder<T>, text: string): Vector
    requires IsEncoder(e)
  {
    e.batch([Truncated(e, text)])[0]
  }

  ghost function VectorsOf<T(!new)>(e: Encoder<T>, texts: seq<string>): (vectors: seq<Vector>)
    requires IsEncoder(e)
  {
    seq(|texts|, i requires 0 <= i < |texts| => VectorOf(e, texts[i]))
  }

  function Normalised<T>(e: Encoder<T>, v: Vector): Vector {
    Over(v, if e.norm(v) >= 0.000000000001 then e.norm(v) else 0.000000000001)
  }

  function WindowsOf<T>(e: Encoder<T>, text: string): (windows: seq<string>)
    ensures |windows| == 1 <==> |e.tokens(text)| <= BODY
    ensures |windows| >= 1
  {
    var ids := e.tokens(text);
    if |ids| <= BODY then [text]
    else
      CountBounds(|ids|, BODY, LONG_INPUT_OVERLAP);
      var count := WindowCount(|ids|, BODY, LONG_INPUT_OVERLAP);
      seq(count, k requires 0 <= k < count =>
        WhereItEnds(|ids|, BODY, LONG_INPUT_OVERLAP, k);
        e.decode(Cut(ids, Start(BODY, LONG_INPUT_OVERLAP, k), BODY)))
  }

  /** What a text's vector is, of itself alone: the normalised sum over its own windows. */
  ghost function Pooled<T(!new)>(e: Encoder<T>, text: string): Vector
    requires IsEncoder(e)
  {
    Normalised(e, Sum(VectorsOf(e, WindowsOf(e, text))))
  }

  /** `_windows` */
  method Windows<T>(e: Encoder<T>, text: string) returns (windows: seq<string>)
    ensures windows == WindowsOf(e, text)
  {
    var ids := e.tokens(text);
    if |ids| <= BODY { return [text]; }
    var pieces := Pieces(ids, BODY, LONG_INPUT_OVERLAP);
    windows := seq(|pieces|, k requires 0 <= k < |pieces| => e.decode(pieces[k]));
    forall k | 0 <= k < |pieces| ensures windows[k] == WindowsOf(e, text)[k] {
      assert IsWindow(ids, BODY, LONG_INPUT_OVERLAP, k, pieces[k]);
      assert pieces[k] == Cut(ids, Start(BODY, LONG_INPUT_OVERLAP, k), BODY);
    }
  }

  /** `_forward`: batch after batch, one vector per text. */
  method Forward<T(!new)>(e: Encoder<T>, texts: seq<string>, batchSize: nat) returns (vectors: seq<Vector>)
    requires IsEncoder(e) && batchSize > 0
    ensures vectors == VectorsOf(e, texts)
  {
    vectors := [];
    var start := 0;
    while start < |texts|
      invariant |vectors| == (if start <= |texts| then start else |texts|)
      invariant forall i :: 0 <= i < |vectors| ==> vectors[i] == VectorOf(e, texts[i])
    {
      var batch := Cut(texts, start, batchSize);
      var encoded := seq(|batch|, i requires 0 <= i < |batch| => Truncated(e, batch[i]));
      var out := e.batch(encoded);
      forall i | 0 <= i < |out| ensures out[i] == VectorOf(e, texts[start + i]) {
        assert encoded[i] == Truncated(e, texts[start + i]);
      }
      vectors := vectors + out;
      start := start + batchSize;
    }
  }

  // ----- flattening and scattering

  /** Those of the items that belong to text `index`, in order. */
  function Owned<V>(items: seq<V>, owners: seq<nat>, index: nat): seq<V>
    requires |items| == |owners|
  {
    if items == [] then []
    else
      var last := |items| - 1;
      Owned(items[..last], owners[..last], index) + if owners[last] == index then [items[last]] else []
  }

  lemma OwnedSnoc<V>(items: seq<V>, owners: seq<nat>, item: V, owner: nat, index: nat)
    requires |items| == |owners|
    ensures Owned(items + [item], owners + [owner], index)
         == if owner == index then Owned(items, owners, index) + [item] else Owned(items, owners, index)
  {
    assert (items + [item])[..|items|] == items && (owners + [owner])[..|items|] == owners;
    assert Owned(items, owners, index) + [] == Owned(items, owners, index);
  }

  predicate Ascending(s: seq<nat>) {
    forall m, n :: 0 <= m < n < |s| ==> s[m] <= s[n]
  }

  /** The texts' windows in one list, with the index of the text each came from. */
  ghost predicate Flattened<T>(e: Encoder<T>, texts: seq<string>, segments: seq<string>, owners: seq<nat>) {
    && |segments| == |owners|
    && Ascending(owners)
    && (forall m :: 0 <= m < |owners| ==> owners[m] < |texts|)
    && forall i :: 0 <= i < |texts| ==> Owned(segments, owners, i) == WindowsOf(e, texts[i])
  }

  /** So far: all windows of the texts before `index`, and `w` of those of text `index`. */
  ghost predicate FlattenedTo<T>(e: Encoder<T>, texts: seq<string>, segments: seq<string>, owners: seq<nat>,
                                 index: nat, w: nat) {
    && |segments| == |owners|
    && Ascending(owners)
    && (forall m :: 0 <= m < |owners| ==> owners[m] < |texts| && owners[m] <= index)
    && forall i :: 0 <= i < |texts| ==> Owned(segments, owners, i) == Share(e, texts[i], i, index, w)
  }

  function Share<T>(e: Encoder<T>, text: string, i: nat, index: nat, w: nat): seq<string> {
    var windows := WindowsOf(e, text);
    if i < index then windows
    else if i == index && w <= |windows| then windows[..w]
    else []
  }

  lemma OneMoreWindow<T>(e: Encoder<T>, texts: seq<string>, segments: seq<string>, owners: seq<nat>, index: nat, w: nat)
    requires FlattenedTo(e, texts, segments, owners, index, w)
    requires index < |texts| && w < |WindowsOf(e, texts[index])|
    ensures FlattenedTo(e, texts, segments + [WindowsOf(e, texts[index])[w]], owners + [index], index, w + 1)
  {
    var window := WindowsOf(e, texts[index])[w];
    forall i | 0 <= i < |texts|
      ensures Owned(segments + [window], owners + [index], i) == Share(e, texts[i], i, index, w + 1)
    {
      OwnedSnoc(segments, owners, window, index, i);
    }
  }

  lemma OneMoreText<T>(e: Encoder<T>, texts: seq<string>, segments: seq<string>, owners: seq<nat>, index: nat)
    requires index < |texts| && FlattenedTo(e, texts, segments, owners, index, |WindowsOf(e, texts[index])|)
    ensures FlattenedTo(e, texts, segments, owners, index + 1, 0)
  {
  }

  lemma NoTextYet<T>(e: Encoder<T>, texts: seq<string>)
    ensures FlattenedTo(e, texts, [], [], 0, 0)
  {
  }

  lemma AllTexts<T>(e: Encoder<T>, texts: seq<string>, segments: seq<string>, owners: seq<nat>)
    ensures FlattenedTo(e, texts, segments, owners, |texts|, 0) ==> Flattened(e, texts, segments, owners)
  {
  }

  method Flatten<T>(e: Encoder<T>, texts: seq<string>) returns (segments: seq<string>, owners: seq<nat>)
    ensures Flattened(e, texts, segments, owners)
  {
    segments, owners := [], [];
    NoTextYet(e, texts);
    for index := 0 to |texts|
      invariant FlattenedTo(e, texts, segments, owners, index, 0)
    {
      var windows := Windows(e, texts[index]);
      for w := 0 to |windows|
        invariant FlattenedTo(e, texts, segments, owners, index, w)
      {
        OneMoreWindow(e, texts, segments, owners, index, w);
        segments := segments + [windows[w]];
        owners := owners + [index];
      }
      OneMoreText(e, texts, segments, owners, index);
    }
    AllTexts(e, texts, segments, owners);
  }

  function Total(counts: seq<nat>): nat {
    if counts == [] then 0 else Total(counts[..|counts| - 1]) + counts[|counts| - 1]
  }

  /** How many segments each text has. */
  ghost function Counts<T>(e: Encoder<T>, texts: seq<string>): (counts: seq<nat>)
  {
    seq(|texts|, i requires 0 <= i < |texts| => |WindowsOf(e, texts[i])|)
  }

  lemma {:induction false} OwnedAreAll<V>(items: seq<V>, owners: seq<nat>, n: nat)
    requires |items| == |owners| && forall m :: 0 <= m < |owners| ==> owners[m] < n
    ensures Total(seq(n, i requires 0 <= i < n => |Owned(items, owners, i)|)) == |items|
  {
    if items == [] {
      TotalOfZeros(n, seq(n, i requires 0 <= i < n => |Owned(items, owners, i)|));
    } else {
      var last := |items| - 1;
      OwnedAreAll(items[..last], owners[..last], n);
      TotalPlusOne(seq(n, i requires 0 <= i < n => |Owned(items[..last], owners[..last], i)|),
                   seq(n, i requires 0 <= i < n => |Owned(items, owners, i)|), owners[last]);
    }
  }

  lemma {:induction false} TotalOfZeros(n: nat, counts: seq<nat>)
    requires |counts| == n && forall i :: 0 <= i < n ==> counts[i] == 0
    ensures Total(counts) == 0
  {
    if n > 0 { TotalOfZeros(n - 1, counts[..n - 1]); }
  }

  lemma {:induction false} TotalPlusOne(was: seq<nat>, counts: seq<nat>, at: nat)
    requires |was| == |counts| && at < |was|
    requires forall i :: 0 <= i < |was| ==> counts[i] == if i == at then was[i] + 1 else was[i]
    ensures Total(counts) == Total(was) + 1
  {
    var last := |was| - 1;
    if at == last {
      assert was[..last] == counts[..last];
    } else {
      TotalPlusOne(was[..last], counts[..last], at);
    }
  }

  lemma {:induction false} TotalOfOnes(counts: seq<nat>)
    requires forall i :: 0 <= i < |counts| ==> counts[i] >= 1
    ensures Total(counts) >= |counts|
    ensures Total(counts) == |counts| <==> forall i :: 0 <= i < |counts| ==> counts[i] == 1
  {
    if counts != [] {
      var last := |counts| - 1;
      TotalOfOnes(counts[..last]);
      assert (forall i :: 0 <= i < |counts| ==> counts[i] == 1)
        <==> counts[last] == 1 && forall i :: 0 <= i < last ==> counts[..last][i] == 1 by {
        assert forall i :: 0 <= i < last ==> counts[..last][i] == counts[i];
      }
    }
  }

  /** There are as many segments as texts exactly when no text was cut: each fits the encoder
      with its two special tokens. */
  lemma NoneCutIff<T>(e: Encoder<T>, texts: seq<string>, segments: seq<string>, owners: seq<nat>)
    requires Flattened(e, texts, segments, owners)
    ensures |segments| == |texts| <==> forall i :: 0 <= i < |texts| ==> |e.tokens(texts[i])| <= BODY
  {
    var counts := Counts(e, texts);
    OwnedAreAll(segments, owners, |texts|);
    assert counts == seq(|texts|, i requires 0 <= i < |texts| => |Owned(segments, owners, i)|);
    TotalOfOnes(counts);
    forall i | 0 <= i < |texts| ensures counts[i] == 1 <==> |e.tokens(texts[i])| <= BODY { }
  }

  lemma {:induction false} OwnedIfAny<V>(items: seq<V>, owners: seq<nat>, index: nat)
    requires |items| == |owners|
    ensures Owned(items, owners, index) != [] <==> index in owners
  {
    if items != [] {
      var last := |items| - 1;
      OwnedIfAny(items[..last], owners[..last], index);
      assert owners == owners[..last] + [owners[last]];
    }
  }

  /** With one segment a text, in the order of the texts, segment i is text i's. */
  lemma {:induction false} OneEachInOrder<V>(items: seq<V>, owners: seq<nat>, n: nat)
    requires |items| == |owners| && Ascending(owners)
    requires forall m :: 0 <= m < |owners| ==> owners[m] < n
    requires forall i :: 0 <= i < n ==> |Owned(items, owners, i)| == 1
    ensures |items| == n
    ensures forall i :: 0 <= i < n ==> Owned(items, owners, i) == [items[i]]
  {
    assert |owners| > 0 ==> owners[0] < n;
    if n > 0 {
      OwnedIfAny(items, owners, n - 1);
      var last := |items| - 1;
      assert owners[last] == n - 1;
      OwnedIfAny(items[..last], owners[..last], n - 1);
      forall i | 0 <= i < n - 1 ensures Owned(items, owners, i) == Owned(items[..last], owners[..last], i) { }
      OneEachInOrder(items[..last], owners[..last], n - 1);
    }
  }

  lemma {:induction false} OwnedVectors<T(!new)>(e: Encoder<T>, texts: seq<string>, owners: seq<nat>, index: nat)
    requires IsEncoder(e) && |texts| == |owners|
    ensures Owned(VectorsOf(e, texts), owners, index) == VectorsOf(e, Owned(texts, owners, index))
  {
    if texts != [] {
      var last := |texts| - 1;
      OwnedVectors(e, texts[..last], owners[..last], index);
      assert VectorsOf(e, texts)[..last] == VectorsOf(e, texts[..last]);
    }
  }

  /** The loop that adds each vector into its text's row. */
  method Scatter(vectors: seq<Vector>, owners: seq<nat>, n: nat) returns (pooled: seq<Vector>)
    requires |vectors| == |owners| && forall m :: 0 <= m < |owners| ==> owners[m] < n
    ensures |pooled| == n && forall i :: 0 <= i < n ==> pooled[i] == Sum(Owned(vectors, owners, i))
  {
    var rows := new Vector[n](_ => Zeros());
    for m := 0 to |vectors|
      invariant forall i :: 0 <= i < n ==> rows[i] == Sum(Owned(vectors[..m], owners[..m], i))
    {
      forall i | 0 <= i < n
        ensures Owned(vectors[..m + 1], owners[..m + 1], i)
             == if owners[m] == i then Owned(vectors[..m], owners[..m], i) + [vectors[m]]
                else Owned(vectors[..m], owners[..m], i)
      {
        OneMoreOwned(vectors, owners, m, i);
      }
      SumSnoc(Owned(vectors[..m], owners[..m], owners[m]), vectors[m]);
      rows[owners[m]] := Plus(rows[owners[m]], vectors[m]);
    }
    assert vectors[..|vectors|] == vectors && owners[..|vectors|] == owners;
    pooled := rows[..];
  }

  lemma OneMoreOwned<V>(items: seq<V>, owners: seq<nat>, m: nat, index: nat)
    requires |items| == |owners| && m < |items|
    ensures Owned(items[..m + 1], owners[..m + 1], index)
         == if owners[m] == index then Owned(items[..m], owners[..m], index) + [items[m]]
            else Owned(items[..m], owners[..m], index)
  {
    assert items[..m + 1] == items[..m] + [items[m]] && owners[..m + 1] == owners[..m] + [owners[m]];
    OwnedSnoc(items[..m], owners[..m], items[m], owners[m], index);
  }

  lemma SumSnoc(vectors: seq<Vector>, v: Vector)
    ensures Sum(vectors + [v]) == Plus(Sum(vectors), v)
  {
    assert (vectors + [v])[..|vectors|] == vectors;
  }

  ghost function PooledOf<T(!new)>(e: Encoder<T>, texts: seq<string>): (vectors: seq<Vector>)
    requires IsEncoder(e)
  {
    seq(|texts|, i requires 0 <= i < |texts| => Pooled(e, texts[i]))
  }

  lemma SquaresInOrder(a: real, b: real)
    requires 0.0 <= a && 0.0 <= b
    ensures a < b <==> a * a < b * b
    ensures a == b <==> a * a == b * b
  {
    if a < b {
      Product(b - a, b + a);
      assert (b - a) * (b + a) == b * b - a * a;
    } else if b < a {
      Product(a - b, a + b);
      assert (a - b) * (a + b) == a * a - b * b;
    }
  }

  /** A text that fits the encoder pools to its own vector. */
  lemma PooledOfOne<T(!new)>(e: Encoder<T>, text: string, window: string)
    requires IsEncoder(e) && WindowsOf(e, text) == [window]
    ensures Pooled(e, text) == VectorOf(e, window)
  {
    var v := VectorOf(e, window);
    var one := VectorsOf(e, [window]);
    assert one == [] + [v];
    SumSnoc([], v);
    assert Plus(Zeros(), v) == v;
    SquaresInOrder(e.norm(v), 1.0);
    assert Over(v, 1.0) == v;
  }

  /** The early return of `_encode` gives what pooling would have given. */
  lemma NothingToPool<T(!new)>(e: Encoder<T>, texts: seq<string>, segments: seq<string>, owners: seq<nat>)
    requires IsEncoder(e) && Flattened(e, texts, segments, owners) && |segments| == |texts|
    ensures VectorsOf(e, segments) == PooledOf(e, texts)
  {
    NoneCutIff(e, texts, segments, owners);
    forall i | 0 <= i < |texts| ensures |Owned(segments, owners, i)| == 1 {
      assert Owned(segments, owners, i) == WindowsOf(e, texts[i]);
    }
    OneEachInOrder(segments, owners, |texts|);
    forall i | 0 <= i < |texts| ensures VectorsOf(e, segments)[i] == PooledOf(e, texts)[i] {
      assert Owned(segments, owners, i) == WindowsOf(e, texts[i]);
      PooledOfOne(e, texts[i], segments[i]);
    }
  }

  lemma PooledRow<T(!new)>(e: Encoder<T>, texts: seq<string>, segments: seq<string>, owners: seq<nat>, i: nat)
    requires IsEncoder(e) && Flattened(e, texts, segments, owners) && i < |texts|
    ensures Normalised(e, Sum(Owned(VectorsOf(e, segments), owners, i))) == Pooled(e, texts[i])
  {
    OwnedVectors(e, segments, owners, i);
    assert Owned(segments, owners, i) == WindowsOf(e, texts[i]);
  }

  /** `_encode`: each text's vector is its own pooled one, whatever the other texts, the
      batches its windows rode in, and the branch taken. */
  method Encode<T(!new)>(e: Encoder<T>, texts: seq<string>, batchSize: nat) returns (vectors: seq<Vector>)
    requires IsEncoder(e) && batchSize > 0
    ensures vectors == PooledOf(e, texts)
  {
    if texts == [] { return []; }
    var segments, owners := Flatten(e, texts);
    var out := Forward(e, segments, batchSize);
    if |segments| == |texts| {
      NothingToPool(e, texts, segments, owners);
      return out;
    }
    var pooled := Scatter(out, owners, |texts|);
    vectors := seq(|texts|, i requires 0 <= i < |pooled| => Normalised(e, pooled[i]));
    forall i | 0 <= i < |texts| ensures vectors[i] == PooledOf(e, texts)[i] {
      PooledRow(e, texts, segments, owners, i);
    }
  }

  lemma PooledOfConcat<T(!new)>(e: Encoder<T>, a: seq<string>, b: seq<string>)
    requires IsEncoder(e)
    ensures PooledOf(e, a + b) == PooledOf(e, a) + PooledOf(e, b)
  {
    var both := PooledOf(e, a) + PooledOf(e, b);
    forall i | 0 <= i < |a + b| ensures PooledOf(e, a + b)[i] == both[i] {
      assert (a + b)[i] == if i < |a| then a[i] else b[i - |a|];
    }
  }

  lemma PooledOfAppend<T(!new)>(e: Encoder<T>, texts: seq<string>, start: nat, batch: nat)
    requires IsEncoder(e) && start <= |texts|
    ensures PooledOf(e, texts[..start]) + PooledOf(e, Cut(texts, start, batch))
         == PooledOf(e, texts[..start + |Cut(texts, start, batch)|])
  {
    PooledOfConcat(e, texts[..start], Cut(texts, start, batch));
    assert texts[..start] + Cut(texts, start, batch) == texts[..start + |Cut(texts, start, batch)|];
  }

  /** Reports count up, by a batch at most. */
  predicate Counting(reports: seq<(nat, nat)>, batchSize: nat) {
    forall k :: 0 < k < |reports| ==> CountsUp(reports[k - 1], reports[k], batchSize)
  }

  predicate CountsUp(before: (nat, nat), report: (nat, nat), batchSize: nat) {
    before.0 < report.0 <= before.0 + batchSize
  }

  lemma CountsOn(reports: seq<(nat, nat)>, batchSize: nat, report: (nat, nat))
    requires Counting(reports, batchSize)
    requires reports != [] ==> CountsUp(reports[|reports| - 1], report, batchSize)
    ensures Counting(reports + [report], batchSize)
  {
    var longer := reports + [report];
    forall k | 0 < k < |longer| ensures CountsUp(longer[k - 1], longer[k], batchSize) {
      if k < |reports| { assert longer[k] == reports[k] && longer[k - 1] == reports[k - 1]; }
    }
  }

  /** `embed_passages`: reporting progress changes nothing but the reports, which count up to
      all the texts. */
  method EmbedPassages<T(!new)>(e: Encoder<T>, texts: seq<string>, batchSize: nat, progress: bool)
    returns (vectors: seq<Vector>, reports: seq<(nat, nat)>)
    requires IsEncoder(e) && batchSize > 0
    ensures vectors == PooledOf(e, texts)
    ensures !progress || texts == [] ==> reports == []
    ensures progress && texts != [] ==> reports != [] && reports[|reports| - 1] == (|texts|, |texts|)
    ensures Counting(reports, batchSize)
  {
    reports := [];
    if texts == [] { return [], []; }
    if !progress {
      vectors := Encode(e, texts, batchSize);
      return;
    }
    vectors := [];
    var done, start := 0, 0;
    assert PooledOf(e, texts[..0]) == [];
    while start < |texts|
      invariant done == if start <= |texts| then start else |texts|
      invariant vectors == PooledOf(e, texts[..done])
      invariant done > 0 ==> reports != [] && reports[|reports| - 1] == (done, |texts|)
      invariant done == 0 ==> reports == []
      invariant Counting(reports, batchSize)
    {
      var batch := Cut(texts, start, batchSize);
      var encoded := Encode(e, batch, batchSize);
      PooledOfAppend(e, texts, start, batchSize);
      vectors := vectors + encoded;
      done := done + |batch|;
      CountsOn(reports, batchSize, (done, |texts|));
      reports := reports + [(done, |texts|)];
      start := start + batchSize;
    }
    assert done == |texts| && texts[..done] == texts;
  }

  function RealSum(numbers: seq<real>): real {
    if numbers == [] then 0.0 else RealSum(numbers[..|numbers| - 1]) + numbers[|numbers| - 1]
  }

  function Coordinates(vectors: seq<Vector>, c: nat): seq<real>
    requires c < EMBEDDING_DIM
  {
    seq(|vectors|, i requires 0 <= i < |vectors| => vectors[i][c])
  }

  /** Adding vectors adds them coordinate by coordinate. */
  lemma {:induction false} SumAt(vectors: seq<Vector>, c: nat)
    requires c < EMBEDDING_DIM
    ensures Sum(vectors)[c] == RealSum(Coordinates(vectors, c))
  {
    if vectors != [] {
      var front := vectors[..|vectors| - 1];
      SumAt(front, c);
      assert Coordinates(vectors, c)[..|vectors| - 1] == Coordinates(front, c);
    }
  }

  /** The square of a vector's length is the sum of the squares of its coordinates. */
  lemma {:induction false} SquaresAre(v: seq<real>, n: nat)
    requires n <= |v|
    ensures SquaresTo(v, n) == RealSum(seq(n, i requires 0 <= i < n => v[i] * v[i]))
  {
    if n > 0 {
      SquaresAre(v, n - 1);
      var squares := seq(n, i requires 0 <= i < n => v[i] * v[i]);
      assert squares[..n - 1] == seq(n - 1, i requires 0 <= i < n - 1 => v[i] * v[i]);
    }
  }

  /** Written out: a text's vector is, coordinate by coordinate, the sum over its windows, divided
      by the length of that sum, or by 1e-12 if it is shorter. */
  lemma PooledAt<T(!new)>(e: Encoder<T>, text: string, c: nat)
    requires IsEncoder(e) && c < EMBEDDING_DIM
    ensures var vectors := VectorsOf(e, WindowsOf(e, text)); var length := e.norm(Sum(vectors));
      Pooled(e, text)[c]
        == RealSum(Coordinates(vectors, c)) / if length >= 0.000000000001 then length else 0.000000000001
  {
    SumAt(VectorsOf(e, WindowsOf(e, text)), c);
  }

  lemma ProductSquares(y: real, d: real, x: real, dd: real)
    requires d * d == dd && y * d == x
    ensures (y * y) * dd == x * x
  {
    assert (y * y) * (d * d) == (y * d) * (y * d);
  }

  lemma Accumulates(s: real, y: real, x: real, dd: real, t: real)
    requires s * dd == t && (y * y) * dd == x * x
    ensures (s + y * y) * dd == t + x * x
  {
    Distributes(s, y * y, dd);
  }

  lemma Distributes(a: real, b: real, c: real)
    ensures (a + b) * c == a * c + b * c
  {
  }

  lemma {:induction false} SquaresScale(v: Vector, d: real, dd: real, n: nat)
    requires d != 0.0 && d * d == dd && n <= EMBEDDING_DIM
    ensures SquaresTo(Over(v, d), n) * dd == SquaresTo(v, n)
  {
    if n > 0 {
      SquaresScale(v, d, dd, n - 1);
      var x := v[n - 1];
      var y := x / d;
      assert Over(v, d)[n - 1] == y && y * d == x;
      ProductSquares(y, d, x, dd);
      Accumulates(SquaresTo(Over(v, d), n - 1), y, x, dd, SquaresTo(v, n - 1));
    }
  }

  lemma OneIff(q: real, square: real)
    requires square > 0.0
    ensures q == 1.0 <==> q * square == square
  {
    assert q * square - square == (q - 1.0) * square;
    Product(q - 1.0, square);
    Product(1.0 - q, square);
    assert (1.0 - q) * square == -((q - 1.0) * square);
  }

  lemma UnitIff(q: real, n: real, d: real, square: real, dd: real)
    requires 0.0 <= n <= d && 0.0 < d && n * n == square && d * d == dd && q * dd == square
    ensures q == 1.0 <==> n == d
  {
    SquaresInOrder(0.0, d);
    SquaresInOrder(n, d);
    OneIff(q, dd);
    assert square == dd <==> n == d;
  }

  /** Every vector has length one, unless its windows cancel out. */
  lemma PooledIsAUnitVector<T(!new)>(e: Encoder<T>, text: string)
    requires IsEncoder(e)
    ensures var sum := Sum(VectorsOf(e, WindowsOf(e, text)));
      Squares(Pooled(e, text)) == 1.0 <==> e.norm(sum) >= 0.000000000001
  {
    var sum := Sum(VectorsOf(e, WindowsOf(e, text)));
    var n := e.norm(sum);
    var d := if n >= 0.000000000001 then n else 0.000000000001;
    SquaresScale(sum, d, d * d, |sum|);
    assert Pooled(e, text) == Over(sum, d) && |Pooled(e, text)| == |sum|;
    UnitIff(Squares(Pooled(e, text)), n, d, Squares(sum), d * d);
  }

  /** The windows of a text as the encoder reads them. */
  function ReadByEncoder<T>(e: Encoder<T>, text: string): (inputs: seq<seq<T>>) {
    var windows := WindowsOf(e, text);
    seq(|windows|, k requires 0 <= k < |windows| => Truncated(e, windows[k]))
  }

  /** The tokenizer finds the tokens of each window again in its decoded text. */
  predicate Redecodes<T(==)>(e: Encoder<T>, text: string) {
    var ids := e.tokens(text);
    |ids| > BODY ==>
      forall k :: 0 <= k < WindowCount(|ids|, BODY, LONG_INPUT_OVERLAP) ==> WindowRedecodes(e, ids, k)
  }

  predicate WindowRedecodes<T(==)>(e: Encoder<T>, ids: seq<T>, k: nat)
    requires |ids| > BODY && k < WindowCount(|ids|, BODY, LONG_INPUT_OVERLAP)
  {
    WhereItEnds(|ids|, BODY, LONG_INPUT_OVERLAP, k);
    var piece := Cut(ids, Start(BODY, LONG_INPUT_OVERLAP, k), BODY);
    e.tokens(e.decode(piece)) == piece
  }

  /** The encoder reads the whole passage: what reaches it, without what neighbouring windows
      repeat, is every token of the text, if the windows are found again when tokenized. */
  lemma NothingIsTruncated<T>(e: Encoder<T>, text: string)
    requires Redecodes(e, text)
    ensures var inputs := ReadByEncoder(e, text);
      && (|inputs| != 1 ==> forall k :: 0 <= k < |inputs| ==> LONG_INPUT_OVERLAP <= |inputs[k]|)
      && (if |inputs| == 1 then inputs[0] else Unwindowed(inputs, LONG_INPUT_OVERLAP)) == e.tokens(text)
  {
    var ids, inputs := e.tokens(text), ReadByEncoder(e, text);
    if |ids| > BODY {
      forall k | 0 <= k < |inputs| ensures IsWindow(ids, BODY, LONG_INPUT_OVERLAP, k, inputs[k]) {
        assert WindowRedecodes(e, ids, k);
        WhereItEnds(|ids|, BODY, LONG_INPUT_OVERLAP, k);
      }
      WindowsFit(ids, BODY, LONG_INPUT_OVERLAP, inputs);
      WindowsCoverTheText(ids, BODY, LONG_INPUT_OVERLAP, inputs);
    }
  }

  /** The encoder reads every window to its end exactly when none has more tokens, once it is
      decoded and tokenized again, than the body allows. */
  lemma NoWindowIsTruncatedIff<T>(e: Encoder<T>, text: string)
    ensures var windows := WindowsOf(e, text);
      (ReadByEncoder(e, text) == seq(|windows|, k requires 0 <= k < |windows| => e.tokens(windows[k])))
      <==> (forall k :: 0 <= k < |windows| ==> |e.tokens(windows[k])| <= BODY)
  {
    var windows, inputs := WindowsOf(e, text), ReadByEncoder(e, text);
    var whole := seq(|windows|, k requires 0 <= k < |windows| => e.tokens(windows[k]));
    forall k | 0 <= k < |windows| ensures inputs[k] == whole[k] <==> |e.tokens(windows[k])| <= BODY { }
  }
}
