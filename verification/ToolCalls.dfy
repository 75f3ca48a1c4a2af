/** agent/orchestrator.py: putting streamed tool calls back together.

    A fragment carries the index of its call and, each only if the sender put it there, an
    id, a function name and a piece of the arguments; "" is a field left out. */
module ToolCalls {
  import opened Seqs
  import opened Orchestrator

  datatype Fragment = Fragment(index: nat, id: string, name: string, arguments: string)

  const EMPTY_CALL: Call := Call("", "", "")

  function Merged(call: Call, f: Fragment): Call {
    Call(if f.id != "" then f.id else call.id, if f.name != "" then f.name else call.name, call.arguments + f.arguments)
  }

  function MergedInto(acc: map<nat, Call>, f: Fragment): map<nat, Call> {
    acc[f.index := Merged(if f.index in acc then acc[f.index] else EMPTY_CALL, f)]
  }

  /** The accumulator after some fragments, in their order of arrival. */
  function Accumulated(fragments: seq<Fragment>): map<nat, Call> {
    if fragments == [] then map[]
    else MergedInto(Accumulated(fragments[..|fragments| - 1]), fragments[|fragments| - 1])
  }

  /** The fragments of one call. */
  function Of(fragments: seq<Fragment>, index: nat): seq<Fragment> {
    if fragments == [] then []
    else
      var last := fragments[|fragments| - 1];
      Of(fragments[..|fragments| - 1], index) + (if last.index == index then [last] else [])
  }

  /** One call put together from its own fragments. */
  function Assembled(fragments: seq<Fragment>): Call {
    if fragments == [] then EMPTY_CALL
    else Merged(Assembled(fragments[..|fragments| - 1]), fragments[|fragments| - 1])
  }

  /** The calls in the order of their indices. */
  function InOrder(acc: map<nat, Call>): seq<Call>
    decreases |acc|
  {
    if acc == map[] then []
    else
      var k := Least(acc.Keys);
      assert (acc - {k}).Keys == acc.Keys - {k};
      [acc[k]] + InOrder(acc - {k})
  }

  class Accumulator {
    var slots: map<nat, Call>

    constructor ()
      ensures slots == map[]
    {
      slots := map[];
    }

    method Merge(f: Fragment)
      modifies this
      ensures slots == MergedInto(old(slots), f)
    {
      var slot := if f.index in slots then slots[f.index] else EMPTY_CALL;
      if f.id != "" { slot := slot.(id := f.id); }
      if f.name != "" { slot := slot.(name := f.name); }
      if f.arguments != "" { slot := slot.(arguments := slot.arguments + f.arguments); }
      assert slot.arguments == (if f.index in slots then slots[f.index] else EMPTY_CALL).arguments + f.arguments;
      slots := slots[f.index := slot];
    }
  }

  // ----- interleaving does not matter

  /** What is at an index depends only on the fragments with that index. */
  lemma {:induction false} EachCallIsItsOwn(fragments: seq<Fragment>, index: nat)
    ensures index in Accumulated(fragments) <==> Of(fragments, index) != []
    ensures index in Accumulated(fragments) ==> Accumulated(fragments)[index] == Assembled(Of(fragments, index))
  {
    if fragments != [] {
      var front, last := fragments[..|fragments| - 1], fragments[|fragments| - 1];
      EachCallIsItsOwn(front, index);
      if last.index == index {
        AssembledSnoc(Of(front, index), last);
      } else {
        assert Of(front, index) + [] == Of(front, index);
      }
    }
  }

  lemma AssembledSnoc(fragments: seq<Fragment>, f: Fragment)
    ensures Assembled(fragments + [f]) == Merged(Assembled(fragments), f)
  {
    assert (fragments + [f])[..|fragments|] == fragments;
  }

  /** Two arrivals with the same fragments for each index, in the same order, accumulate to
      the same message however the indices interleave. */
  lemma InterleavingIsInvisible(a: seq<Fragment>, b: seq<Fragment>)
    requires forall k: nat :: Of(a, k) == Of(b, k)
    ensures Accumulated(a) == Accumulated(b)
  {
    forall k: nat
      ensures k in Accumulated(a) <==> k in Accumulated(b)
      ensures k in Accumulated(a) ==> Accumulated(a)[k] == Accumulated(b)[k]
    {
      EachCallIsItsOwn(a, k);
      EachCallIsItsOwn(b, k);
    }
  }

  // ----- splitting and reassembling

  function Arguments(fragments: seq<Fragment>): string {
    if fragments == [] then ""
    else Arguments(fragments[..|fragments| - 1]) + fragments[|fragments| - 1].arguments
  }

  /** A call cut into fragments: the arguments in pieces, id and name in at least one of
      them, and in no other form. */
  predicate IsSplit(call: Call, fragments: seq<Fragment>) {
    && fragments != []
    && Arguments(fragments) == call.arguments
    && (forall i :: 0 <= i < |fragments| ==> fragments[i].id in {"", call.id} && fragments[i].name in {"", call.name})
    && (call.id != "" ==> exists i :: 0 <= i < |fragments| && fragments[i].id == call.id)
    && (call.name != "" ==> exists i :: 0 <= i < |fragments| && fragments[i].name == call.name)
  }

  lemma {:induction false} AssembledSoFar(call: Call, fragments: seq<Fragment>)
    requires forall i :: 0 <= i < |fragments| ==>
      fragments[i].id in {"", call.id} && fragments[i].name in {"", call.name}
    ensures var made := Assembled(fragments);
      && made.arguments == Arguments(fragments)
      && made.id == (if exists i :: 0 <= i < |fragments| && fragments[i].id != "" then call.id else "")
      && made.name == (if exists i :: 0 <= i < |fragments| && fragments[i].name != "" then call.name else "")
  {
    if fragments != [] {
      var front, last := fragments[..|fragments| - 1], fragments[|fragments| - 1];
      AssembledSoFar(call, front);
      assert last == fragments[|fragments| - 1];
      forall i | 0 <= i < |front| ensures front[i] == fragments[i] {}
    }
  }

  lemma SplitAssembles(call: Call, fragments: seq<Fragment>)
    requires IsSplit(call, fragments)
    ensures Assembled(fragments) == call
  {
    AssembledSoFar(call, fragments);
  }

  lemma {:induction false} InOrderFrom(acc: map<nat, Call>, base: nat, calls: seq<Call>)
    requires forall k :: k in acc <==> base <= k < base + |calls|
    requires forall k :: base <= k < base + |calls| ==> acc[k] == calls[k - base]
    ensures InOrder(acc) == calls
    decreases |calls|
  {
    if calls == [] {
      assert acc == map[];
    } else {
      assert base in acc;
      assert Least(acc.Keys) == base;
      InOrderFrom(acc - {base}, base + 1, calls[1..]);
    }
  }

  /** The fragments are those of the calls, interleaved in any way. */
  predicate IsInterleaving(calls: seq<Call>, fragments: seq<Fragment>) {
    && (forall i :: 0 <= i < |fragments| ==> fragments[i].index < |calls|)
    && (forall k :: 0 <= k < |calls| ==> IsSplit(calls[k], Of(fragments, k)))
  }

  lemma {:induction false} NoFragmentsOf(fragments: seq<Fragment>, index: nat)
    requires forall i :: 0 <= i < |fragments| ==> fragments[i].index != index
    ensures Of(fragments, index) == []
  {
    if fragments != [] { NoFragmentsOf(fragments[..|fragments| - 1], index); }
  }

  ghost predicate IsTableOf(acc: map<nat, Call>, calls: seq<Call>) {
    && (forall k :: k in acc <==> 0 <= k < |calls|)
    && (forall k :: 0 <= k < |calls| ==> acc[k] == calls[k])
  }

  lemma TableInOrder(acc: map<nat, Call>, calls: seq<Call>)
    ensures IsTableOf(acc, calls) ==> InOrder(acc) == calls
  {
    if IsTableOf(acc, calls) { InOrderFrom(acc, 0, calls); }
  }

  lemma InterleavingIsTable(calls: seq<Call>, fragments: seq<Fragment>)
    requires IsInterleaving(calls, fragments)
    ensures IsTableOf(Accumulated(fragments), calls)
  {
    forall k: nat
      ensures k in Accumulated(fragments) <==> k < |calls|
      ensures k < |calls| ==> Accumulated(fragments)[k] == calls[k]
    {
      EachCallIsItsOwn(fragments, k);
      if k < |calls| { SplitAssembles(calls[k], Of(fragments, k)); } else { NoFragmentsOf(fragments, k); }
    }
  }

  /** Any list of calls, cut into fragments and interleaved in any way, comes back as it
      was. */
  lemma Reassembly(calls: seq<Call>, fragments: seq<Fragment>)
    requires IsInterleaving(calls, fragments)
    ensures InOrder(Accumulated(fragments)) == calls
  {
    InterleavingIsTable(calls, fragments);
    TableInOrder(Accumulated(fragments), calls);
  }

  // ----- the two readers of a stream

  /** One parsed chunk: a piece of content, "" if there is none, and call fragments. */
  datatype Chunk = Chunk(content: string, fragments: seq<Fragment>)

  function Content(chunks: seq<Chunk>): string {
    if chunks == [] then "" else Content(chunks[..|chunks| - 1]) + chunks[|chunks| - 1].content
  }

  function Fragments(chunks: seq<Chunk>): seq<Fragment> {
    if chunks == [] then [] else Fragments(chunks[..|chunks| - 1]) + chunks[|chunks| - 1].fragments
  }

  /** The assembled message of a whole stream. */
  function MessageOf(chunks: seq<Chunk>): Reply {
    Reply(Content(chunks), InOrder(Accumulated(Fragments(chunks))))
  }

  lemma AccumulatedSnoc(before: seq<Fragment>, f: Fragment)
    ensures Accumulated(before + [f]) == MergedInto(Accumulated(before), f)
  {
    assert (before + [f])[..|before|] == before;
  }

  lemma PrefixSnoc(before: seq<Fragment>, fragments: seq<Fragment>, n: nat)
    requires n < |fragments|
    ensures before + fragments[..n] + [fragments[n]] == before + fragments[..n + 1]
  {
  }

  method MergeAll(acc: Accumulator, ghost before: seq<Fragment>, fragments: seq<Fragment>)
    requires acc.slots == Accumulated(before)
    modifies acc
    ensures acc.slots == Accumulated(before + fragments)
  {
    assert before + fragments[..0] == before;
    for n := 0 to |fragments|
      invariant acc.slots == Accumulated(before + fragments[..n])
    {
      AccumulatedSnoc(before + fragments[..n], fragments[n]);
      PrefixSnoc(before, fragments, n);
      acc.Merge(fragments[n]);
    }
    assert fragments[..|fragments|] == fragments;
  }

  method StreamMessage(chunks: seq<Chunk>) returns (message: Reply)
    ensures message == MessageOf(chunks)
  {
    var acc := new Accumulator();
    var content := "";
    for n := 0 to |chunks|
      invariant content == Content(chunks[..n])
      invariant acc.slots == Accumulated(Fragments(chunks[..n]))
    {
      assert chunks[..n + 1][..n] == chunks[..n];
      content := content + chunks[n].content;
      MergeAll(acc, Fragments(chunks[..n]), chunks[n].fragments);
    }
    assert chunks[..|chunks|] == chunks;
    message := Reply(content, InOrder(acc.slots));
  }

  /** The router's reader gives up at the first piece of prose.  It returns exactly what
      reading the whole stream would have: the tool calls, if there is no content and there
      are any. */
  method RouterMessage(chunks: seq<Chunk>) returns (routing: Routing)
    ensures var message := MessageOf(chunks);
      routing == if message.content == "" && message.calls != [] then Routed(message.calls) else NoToolCall
  {
    var acc := new Accumulator();
    var prose := false;
    var n := 0;
    while n < |chunks| && !prose
      invariant n <= |chunks|
      invariant acc.slots == Accumulated(Fragments(chunks[..n]))
      invariant prose <==> Content(chunks[..n]) != ""
    {
      assert chunks[..n + 1][..n] == chunks[..n];
      MergeAll(acc, Fragments(chunks[..n]), chunks[n].fragments);
      if chunks[n].content != "" { prose := true; }
      n := n + 1;
    }
    ContentGrows(chunks, n);
    if prose || acc.slots == map[] {
      routing := NoToolCall;
    } else {
      routing := Routed(InOrder(acc.slots));
    }
  }

  lemma {:induction false} ContentGrows(chunks: seq<Chunk>, n: nat)
    requires n <= |chunks|
    ensures n == |chunks| ==> chunks[..n] == chunks
    ensures Content(chunks[..n]) != "" ==> Content(chunks) != ""
    decreases |chunks|
  {
    if n < |chunks| {
      var front := chunks[..|chunks| - 1];
      assert front[..n] == chunks[..n];
      ContentGrows(front, n);
    }
  }

  // ----- what a message is, piece by piece

  function Contents(chunks: seq<Chunk>): seq<string> {
    seq(|chunks|, n requires 0 <= n < |chunks| => chunks[n].content)
  }

  function FragmentLists(chunks: seq<Chunk>): seq<seq<Fragment>> {
    seq(|chunks|, n requires 0 <= n < |chunks| => chunks[n].fragments)
  }

  /** The content of a message is the pieces of content in the order they came, and its calls
      are made of the fragments in the order they came. */
  lemma {:induction false} MessageIsItsPieces(chunks: seq<Chunk>)
    ensures Content(chunks) == Concat(Contents(chunks))
    ensures Fragments(chunks) == Concat(FragmentLists(chunks))
  {
    if chunks != [] {
      var front, last := chunks[..|chunks| - 1], chunks[|chunks| - 1];
      MessageIsItsPieces(front);
      assert Contents(chunks) == Contents(front) + [last.content];
      assert FragmentLists(chunks) == FragmentLists(front) + [last.fragments];
      ConcatSnoc(Contents(front), last.content);
      ConcatSnoc(FragmentLists(front), last.fragments);
    }
  }

  /** A message comes back as it was: its text cut into pieces, and its calls cut into fragments
      and interleaved, in whatever chunks. */
  lemma MessageComesBack(chunks: seq<Chunk>, text: string, calls: seq<Call>)
    requires Concat(Contents(chunks)) == text && IsInterleaving(calls, Concat(FragmentLists(chunks)))
    ensures MessageOf(chunks) == Reply(text, calls)
  {
    MessageIsItsPieces(chunks);
    Reassembly(calls, Concat(FragmentLists(chunks)));
  }

  /** The last of the values that is not empty, if there is one. */
  predicate IsLastGiven(values: seq<string>, v: string) {
    if forall k :: 0 <= k < |values| ==> values[k] == "" then v == ""
    else v != "" && exists k :: 0 <= k < |values| && values[k] == v && forall m :: k < m < |values| ==> values[m] == ""
  }

  lemma LastGivenMore(values: seq<string>, v: string, next: string)
    requires IsLastGiven(values, v)
    ensures IsLastGiven(values + [next], if next != "" then next else v)
  {
    var more := values + [next];
    assert more[|values|] == next;
    forall k | 0 <= k < |values| ensures more[k] == values[k] { }
    if next == "" && !(forall k :: 0 <= k < |values| ==> values[k] == "") {
      var k :| 0 <= k < |values| && values[k] == v && forall m :: k < m < |values| ==> values[m] == "";
      assert more[k] == v && forall m :: k < m < |more| ==> more[m] == "";
    }
  }

  function Ids(fragments: seq<Fragment>): seq<string> {
    seq(|fragments|, n requires 0 <= n < |fragments| => fragments[n].id)
  }

  function Names(fragments: seq<Fragment>): seq<string> {
    seq(|fragments|, n requires 0 <= n < |fragments| => fragments[n].name)
  }

  function ArgumentPieces(fragments: seq<Fragment>): seq<string> {
    seq(|fragments|, n requires 0 <= n < |fragments| => fragments[n].arguments)
  }

  /** A call has the last id and the last name it was given, and its arguments are all the
      pieces in the order they came. */
  lemma {:induction false} AssembledIs(fragments: seq<Fragment>)
    ensures IsLastGiven(Ids(fragments), Assembled(fragments).id)
    ensures IsLastGiven(Names(fragments), Assembled(fragments).name)
    ensures Assembled(fragments).arguments == Concat(ArgumentPieces(fragments))
  {
    if fragments != [] {
      var front, last := fragments[..|fragments| - 1], fragments[|fragments| - 1];
      AssembledIs(front);
      assert Ids(fragments) == Ids(front) + [last.id];
      assert Names(fragments) == Names(front) + [last.name];
      assert ArgumentPieces(fragments) == ArgumentPieces(front) + [last.arguments];
      LastGivenMore(Ids(front), Assembled(front).id, last.id);
      LastGivenMore(Names(front), Assembled(front).name, last.name);
      ConcatSnoc(ArgumentPieces(front), last.arguments);
    }
  }

  predicate Ascends(indices: seq<nat>) {
    forall m, n :: 0 <= m < n < |indices| ==> indices[m] < indices[n]
  }

  predicate HasAll(indices: seq<nat>, acc: map<nat, Call>) {
    forall k :: k in acc ==> k in indices
  }

  predicate Picks(indices: seq<nat>, acc: map<nat, Call>, calls: seq<Call>) {
    && |calls| == |indices|
    && forall n :: 0 <= n < |indices| ==> indices[n] in acc && calls[n] == acc[indices[n]]
  }

  /** The calls at all indices, from the lowest to the highest. */
  predicate ListsAll(indices: seq<nat>, acc: map<nat, Call>, calls: seq<Call>) {
    Ascends(indices) && HasAll(indices, acc) && Picks(indices, acc, calls)
  }

  lemma HasAllMore(k: nat, indices: seq<nat>, acc: map<nat, Call>)
    requires HasAll(indices, acc - {k})
    ensures HasAll([k] + indices, acc)
  {
    forall i | i in acc ensures i in [k] + indices {
      if i != k { assert i in acc - {k}; }
    }
  }

  lemma PicksMore(k: nat, indices: seq<nat>, acc: map<nat, Call>, calls: seq<Call>)
    requires k in acc && Picks(indices, acc - {k}, calls)
    ensures Picks([k] + indices, acc, [acc[k]] + calls)
  {
  }

  lemma AscendsMore(k: nat, indices: seq<nat>, acc: map<nat, Call>, calls: seq<Call>)
    requires Ascends(indices) && Picks(indices, acc - {k}, calls) && forall i :: i in acc ==> k <= i
    ensures Ascends([k] + indices)
  {
    forall n | 0 <= n < |indices| ensures k < indices[n] { assert indices[n] in acc - {k}; }
  }

  lemma ListsOneMore(k: nat, indices: seq<nat>, acc: map<nat, Call>, calls: seq<Call>)
    requires k in acc && (forall i :: i in acc ==> k <= i) && ListsAll(indices, acc - {k}, calls)
    ensures ListsAll([k] + indices, acc, [acc[k]] + calls)
  {
    HasAllMore(k, indices, acc);
    PicksMore(k, indices, acc, calls);
    AscendsMore(k, indices, acc, calls);
  }

  /** The calls of a message are those at all its indices, from the lowest to the highest,
      whatever indices are missing. */
  lemma {:induction false} CallsInIndexOrder(acc: map<nat, Call>) returns (indices: seq<nat>)
    ensures ListsAll(indices, acc, InOrder(acc))
    decreases |acc|
  {
    if acc == map[] {
      indices := [];
    } else {
      var k := Least(acc.Keys);
      assert (acc - {k}).Keys == acc.Keys - {k};
      var rest := CallsInIndexOrder(acc - {k});
      ListsOneMore(k, rest, acc, InOrder(acc - {k}));
      indices := [k] + rest;
    }
  }
}
