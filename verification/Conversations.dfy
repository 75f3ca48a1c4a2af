/** What the models are told in a run of the agent loop: at every request the messages are the
    opening and then, iteration by iteration, what each one wrote. */
module Conversations {
  import opened Seqs
  import opened Text
  import opened Grounding
  import opened Untrusted
  import opened Orchestrator
  import opened AgentRuns

  // ----- whole blocks

  /** A tool result that answers `call`: its id if it had one, its name, and a framed body. */
  ghost predicate Answers(m: Message, call: Call) {
    && m.Tool? && m.name == call.name
    && (call.id != "" ==> m.callId == call.id)
    && exists body :: m.content == WrapToolResult(call.name, body)
  }

  /** An assistant message with its calls, within the budget, and one result for each call,
      in the same order. */
  ghost predicate IsExchange(cfg: Config, block: seq<Message>) {
    && block != [] && block[0].Assistant?
    && 0 < |block[0].calls| <= cfg.maxToolCalls
    && |block| == 1 + |block[0].calls|
    && forall j :: 0 <= j < |block[0].calls| ==> Answers(block[1 + j], block[0].calls[j])
  }

  /** A draft that was thrown away, and the correction that asks for another. */
  ghost predicate IsDiscard(block: seq<Message>) {
    |block| == 2 && block[0].Assistant? && block[0].calls == [] && block[0].content != "" && block[1].User?
  }

  ghost predicate IsBlock(cfg: Config, block: seq<Message>) { IsExchange(cfg, block) || IsDiscard(block) }

  // ----- the opening

  /** A run opens with the prompt, then the history as it is, then the question. */
  lemma OpeningIs(prompt: string, history: seq<Message>, question: string)
    ensures var opening := Opening(prompt, history, question);
      && |opening| == |history| + 2
      && opening[0] == System(prompt) && opening[1..|opening| - 1] == history
      && opening[|opening| - 1] == User(question)
  {
  }

  // ----- what the replies so far amount to

  /** The steps that iteration `k` notes on taking `reply`, if the loop goes on. */
  function Noted(world: World, k: nat, reply: Reply): seq<Step> {
    if reply.calls != [] then ToolSteps(world, k, reply.calls)
    else [Step(k, UngroundedAnswer, "ungrounded_answer", Value.Text(Strip(reply.content)), false)]
  }

  /** The steps after iterations that took these replies, one each. */
  function StepsAfter(world: World, replies: seq<Reply>): seq<Step> {
    if replies == [] then []
    else
      var last := |replies| - 1;
      StepsAfter(world, replies[..last]) + Noted(world, |replies|, replies[last])
  }

  /** What iteration `k` writes on taking `reply`, with the steps before it: the calls and
      their results, or the draft and what is wrong with it. */
  function Block(world: World, k: nat, reply: Reply, steps: seq<Step>): seq<Message> {
    if reply.calls != [] then [Assistant(reply.content, reply.calls)] + ToolMessages(world, k, reply.calls)
    else
      var draft := Strip(reply.content);
      [Assistant(draft, []), User(Correction(UnsupportedFigures(world.read, draft, steps)))]
  }

  function Blocks(world: World, replies: seq<Reply>): (blocks: seq<seq<Message>>)
    ensures |blocks| == |replies|
  {
    if replies == [] then []
    else
      var last := |replies| - 1;
      Blocks(world, replies[..last]) + [Block(world, |replies|, replies[last], StepsAfter(world, replies[..last]))]
  }

  /** The loop goes on after a reply: it asks for no more calls than the budget, or is a draft
      with figures that the steps do not support. */
  predicate GoesOn(cfg: Config, world: World, reply: Reply, steps: seq<Step>) {
    if reply.calls != [] then |reply.calls| <= cfg.maxToolCalls
    else Strip(reply.content) != "" && UnsupportedFigures(world.read, Strip(reply.content), steps) != []
  }

  predicate AllGoOn(cfg: Config, world: World, replies: seq<Reply>) {
    replies != [] ==>
      var last := |replies| - 1;
      && AllGoOn(cfg, world, replies[..last])
      && GoesOn(cfg, world, replies[last], StepsAfter(world, replies[..last]))
  }

  /** Iteration `k` took `reply` from one of its requests. */
  predicate Took(requests: seq<Request>, k: nat, reply: Reply) {
    exists n :: 0 <= n < |requests| && requests[n].iteration == k && requests[n].taken == Some(reply)
  }

  predicate AllTook(requests: seq<Request>, replies: seq<Reply>) {
    forall k :: 0 <= k < |replies| ==> Took(requests, k + 1, replies[k])
  }

  /** The messages are the opening and then the blocks of the replies that were taken. */
  predicate Recounts(cfg: Config, world: World, opening: seq<Message>, requests: seq<Request>, replies: seq<Reply>,
                     messages: seq<Message>) {
    && AllGoOn(cfg, world, replies) && AllTook(requests, replies)
    && messages == opening + Concat(Blocks(world, replies))
  }

  /** What a request tells its model: one block for each iteration before its own. */
  ghost predicate IsTold(cfg: Config, world: World, opening: seq<Message>, requests: seq<Request>, request: Request) {
    exists replies ::
      |replies| + 1 == request.iteration && Recounts(cfg, world, opening, requests, replies, request.messages)
  }

  ghost predicate AllTold(cfg: Config, world: World, opening: seq<Message>, requests: seq<Request>) {
    forall n :: 0 <= n < |requests| ==> IsTold(cfg, world, opening, requests, requests[n])
  }

  predicate WithinBudget(cfg: Config, request: Request) {
    request.taken.Some? ==> |request.taken.value.calls| <= cfg.maxToolCalls
  }

  predicate AllWithinBudget(cfg: Config, requests: seq<Request>) {
    forall n :: 0 <= n < |requests| ==> WithinBudget(cfg, requests[n])
  }

  /** Written out: the assistant's calls are told as they came and then, for each, what its
      tool returned, shortened and framed, under its id and name; a draft thrown away is told
      with the figures that were wrong. */
  lemma BlockWrittenOut(world: World, k: nat, reply: Reply, steps: seq<Step>)
    ensures var block := Block(world, k, reply, steps);
      if reply.calls == [] then
        block == [Assistant(Strip(reply.content), []),
                  User("Not in any result: " + Names(UnsupportedFigures(world.read, Strip(reply.content), steps)))]
      else
        && |block| == 1 + |reply.calls| && block[0] == Assistant(reply.content, reply.calls)
        && forall j :: 0 <= j < |reply.calls| ==>
             IsToldOf(world, k, j, reply.calls[j], Noted(world, k, reply)[j], block[1 + j])
  {
  }

  predicate IsToldOf(world: World, k: nat, j: nat, call: Call, step: Step, m: Message) {
    && m.Tool? && m.name == call.name
    && m.callId == (if call.id == "" then world.freshId(k, j) else call.id)
    && m.content == WrapToolResult(call.name, world.compact(call.name, step.result))
  }

  // ----- each block is whole

  lemma ExchangeIsBlock(cfg: Config, world: World, k: nat, reply: Reply)
    requires 0 < |reply.calls| <= cfg.maxToolCalls
    ensures IsExchange(cfg, [Assistant(reply.content, reply.calls)] + ToolMessages(world, k, reply.calls))
  {
    var block := [Assistant(reply.content, reply.calls)] + ToolMessages(world, k, reply.calls);
    forall j | 0 <= j < |reply.calls| ensures Answers(block[1 + j], reply.calls[j]) {
      assert block[1 + j] == ToolMessage(world, k, j, reply.calls[j]);
    }
  }

  lemma {:induction false} BlocksAreWhole(cfg: Config, world: World, replies: seq<Reply>)
    requires AllGoOn(cfg, world, replies)
    ensures forall n :: 0 <= n < |replies| ==> IsBlock(cfg, Blocks(world, replies)[n])
  {
    if replies != [] {
      var last := |replies| - 1;
      BlocksAreWhole(cfg, world, replies[..last]);
      if replies[last].calls != [] { ExchangeIsBlock(cfg, world, |replies|, replies[last]); }
    }
  }

  // ----- the loop keeps the account

  /** An iteration takes one reply at most. */
  predicate TakenOnce(requests: seq<Request>, last: nat) {
    && (forall n :: 0 <= n < |requests| ==> requests[n].iteration <= last)
    && forall m, n :: 0 <= m < n < |requests| && requests[m].taken.Some? && requests[n].taken.Some? ==>
         requests[m].iteration < requests[n].iteration
  }

  /** The state is what these replies make it, one for each iteration so far. */
  predicate StandsAt(cfg: Config, world: World, opening: seq<Message>, st: State, replies: seq<Reply>, last: nat) {
    && |replies| == last && st.steps == StepsAfter(world, replies)
    && Recounts(cfg, world, opening, st.requests, replies, st.messages)
  }

  /** What holds when the iterations up to `last` are over. */
  ghost predicate Account(cfg: Config, world: World, opening: seq<Message>, st: State, last: nat) {
    && AllTold(cfg, world, opening, st.requests)
    && AllWithinBudget(cfg, st.requests)
    && TakenOnce(st.requests, last)
    && exists replies :: StandsAt(cfg, world, opening, st, replies, last)
  }

  /** What holds of the requests of a finished run: only its last reply can be over budget. */
  ghost predicate Closed(cfg: Config, world: World, opening: seq<Message>, end: Outcome) {
    && end.Stop?
    && AllTold(cfg, world, opening, end.requests)
    && TakenOnce(end.requests, cfg.maxIterations)
    && forall m :: 0 <= m < |end.requests| - 1 ==> WithinBudget(cfg, end.requests[m])
  }

  lemma TookStays(requests: seq<Request>, more: seq<Request>, k: nat, reply: Reply)
    requires Took(requests, k, reply)
    ensures Took(requests + more, k, reply)
  {
    var n :| 0 <= n < |requests| && requests[n].iteration == k && requests[n].taken == Some(reply);
    assert (requests + more)[n] == requests[n];
  }

  lemma RecountsStays(cfg: Config, world: World, opening: seq<Message>, requests: seq<Request>, more: seq<Request>,
                      replies: seq<Reply>, messages: seq<Message>)
    requires Recounts(cfg, world, opening, requests, replies, messages)
    ensures Recounts(cfg, world, opening, requests + more, replies, messages)
  {
    forall k | 0 <= k < |replies| ensures Took(requests + more, k + 1, replies[k]) {
      TookStays(requests, more, k + 1, replies[k]);
    }
  }

  lemma IsToldStays(cfg: Config, world: World, opening: seq<Message>, requests: seq<Request>, more: seq<Request>,
                    request: Request)
    requires IsTold(cfg, world, opening, requests, request)
    ensures IsTold(cfg, world, opening, requests + more, request)
  {
    var replies :|
      |replies| + 1 == request.iteration && Recounts(cfg, world, opening, requests, replies, request.messages);
    RecountsStays(cfg, world, opening, requests, more, replies, request.messages);
  }

  /** The requests of an iteration are told what the state says. */
  lemma AskingTells(cfg: Config, world: World, opening: seq<Message>, st: State, i: nat, replies: seq<Reply>)
    requires i >= 1 && AllTold(cfg, world, opening, st.requests)
    requires StandsAt(cfg, world, opening, st, replies, i - 1)
    ensures AllTold(cfg, world, opening, Asked(cfg, world, i, st).requests)
  {
    var sent := Sent(cfg, world, i, st.messages, st.escalate);
    SentAlike(cfg, world, i, st.messages, st.escalate);
    RecountsStays(cfg, world, opening, st.requests, sent, replies, st.messages);
    ToldAlike(cfg, world, opening, st.requests + sent, sent, st.messages, replies);
    AllToldMore(cfg, world, opening, st.requests, sent);
  }

  lemma AllToldMore(cfg: Config, world: World, opening: seq<Message>, requests: seq<Request>, sent: seq<Request>)
    requires AllTold(cfg, world, opening, requests)
    requires forall n :: 0 <= n < |sent| ==> IsTold(cfg, world, opening, requests + sent, sent[n])
    ensures AllTold(cfg, world, opening, requests + sent)
  {
    var all := requests + sent;
    forall n | 0 <= n < |all| ensures IsTold(cfg, world, opening, all, all[n]) {
      if n < |requests| {
        IsToldStays(cfg, world, opening, requests, sent, requests[n]);
      } else {
        assert all[n] == sent[n - |requests|];
      }
    }
  }

  lemma SentAlike(cfg: Config, world: World, i: nat, messages: seq<Message>, escalate: bool)
    ensures var sent := Sent(cfg, world, i, messages, escalate);
      forall n :: 0 <= n < |sent| ==> sent[n].iteration == i && sent[n].messages == messages
  {
  }

  lemma ToldAlike(cfg: Config, world: World, opening: seq<Message>, all: seq<Request>, sent: seq<Request>,
                  messages: seq<Message>, replies: seq<Reply>)
    requires Recounts(cfg, world, opening, all, replies, messages)
    requires forall n :: 0 <= n < |sent| ==> sent[n].iteration == |replies| + 1 && sent[n].messages == messages
    ensures forall n :: 0 <= n < |sent| ==> IsTold(cfg, world, opening, all, sent[n])
  {
  }

  lemma AskedTakenOnce(cfg: Config, world: World, st: State, i: nat)
    requires i >= 1 && TakenOnce(st.requests, i - 1)
    ensures TakenOnce(Asked(cfg, world, i, st).requests, i)
  {
    var sent := Sent(cfg, world, i, st.messages, st.escalate);
    assert forall n :: 0 <= n < |sent| ==> sent[n].iteration == i;
    assert |sent| == 1 || (|sent| == 2 && sent[0].taken == None);
  }

  lemma AskedWithinBudget(cfg: Config, world: World, st: State, i: nat)
    requires cfg.maxToolCalls >= 1 && AllWithinBudget(cfg, st.requests)
    ensures var requests := Asked(cfg, world, i, st).requests;
      forall m :: 0 <= m < |requests| - 1 ==> WithinBudget(cfg, requests[m])
    ensures var reply := ReplyOf(cfg, world, i, st.escalate);
      reply.None? || |reply.value.calls| <= cfg.maxToolCalls ==>
        AllWithinBudget(cfg, Asked(cfg, world, i, st).requests)
  {
    var sent := Sent(cfg, world, i, st.messages, st.escalate);
    assert |sent| == 2 ==> sent[0].taken == None;
    assert sent[|sent| - 1].taken == ReplyOf(cfg, world, i, st.escalate);
  }

  /** One more reply, and its block. */
  lemma RecountsMore(cfg: Config, world: World, opening: seq<Message>, requests: seq<Request>, replies: seq<Reply>,
                     messages: seq<Message>, reply: Reply)
    requires Recounts(cfg, world, opening, requests, replies, messages)
    requires GoesOn(cfg, world, reply, StepsAfter(world, replies)) && Took(requests, |replies| + 1, reply)
    ensures var block := Block(world, |replies| + 1, reply, StepsAfter(world, replies));
      Recounts(cfg, world, opening, requests, replies + [reply], messages + block)
    ensures StepsAfter(world, replies + [reply]) == StepsAfter(world, replies) + Noted(world, |replies| + 1, reply)
  {
    var longer, block := replies + [reply], Block(world, |replies| + 1, reply, StepsAfter(world, replies));
    assert longer[..|replies|] == replies;
    ConcatSnoc(Blocks(world, replies), block);
    Assoc(opening, Concat(Blocks(world, replies)), block);
  }

  lemma LastTook(cfg: Config, world: World, i: nat, st: State)
    requires ReplyOf(cfg, world, i, st.escalate).Some?
    ensures Took(Asked(cfg, world, i, st).requests, i, ReplyOf(cfg, world, i, st.escalate).value)
  {
    LastSent(cfg, world, i, st);
  }

  /** What an iteration writes if the loop goes on is the block of the reply it took. */
  lemma WritesItsBlock(cfg: Config, world: World, st: State, i: nat)
    requires cfg.maxToolCalls >= 1 && Iteration(cfg, world, i, st).Continue?
    ensures var reply, next := ReplyOf(cfg, world, i, st.escalate), Iteration(cfg, world, i, st).state;
      && reply.Some? && GoesOn(cfg, world, reply.value, st.steps)
      && next.messages == st.messages + Block(world, i, reply.value, st.steps)
      && next.steps == st.steps + Noted(world, i, reply.value)
      && next.requests == Asked(cfg, world, i, st).requests
  {
  }

  lemma StandsNext(cfg: Config, world: World, opening: seq<Message>, st: State, i: nat, replies: seq<Reply>)
    requires cfg.maxToolCalls >= 1 && i >= 1 && StandsAt(cfg, world, opening, st, replies, i - 1)
    requires Iteration(cfg, world, i, st).Continue? && ReplyOf(cfg, world, i, st.escalate).Some?
    ensures StandsAt(cfg, world, opening, Iteration(cfg, world, i, st).state,
                     replies + [ReplyOf(cfg, world, i, st.escalate).value], i)
  {
    var reply := ReplyOf(cfg, world, i, st.escalate).value;
    var sent := Sent(cfg, world, i, st.messages, st.escalate);
    WritesItsBlock(cfg, world, st, i);
    LastTook(cfg, world, i, st);
    RecountsStays(cfg, world, opening, st.requests, sent, replies, st.messages);
    RecountsMore(cfg, world, opening, Asked(cfg, world, i, st).requests, replies, st.messages, reply);
  }

  lemma StopsAsAsked(cfg: Config, world: World, st: State, i: nat)
    requires cfg.maxToolCalls >= 1 && Iteration(cfg, world, i, st).Stop?
    ensures Iteration(cfg, world, i, st).requests == Asked(cfg, world, i, st).requests
  {
  }

  lemma GoingOnTells(cfg: Config, world: World, opening: seq<Message>, st: State, i: nat, replies: seq<Reply>)
    requires cfg.maxToolCalls >= 1 && i >= 1 && Iteration(cfg, world, i, st).Continue?
    requires AllTold(cfg, world, opening, st.requests) && AllWithinBudget(cfg, st.requests)
    requires TakenOnce(st.requests, i - 1) && StandsAt(cfg, world, opening, st, replies, i - 1)
    ensures Account(cfg, world, opening, Iteration(cfg, world, i, st).state, i)
  {
    AskingTells(cfg, world, opening, st, i, replies);
    AskedTakenOnce(cfg, world, st, i);
    GoingOnWithinBudget(cfg, world, st, i);
    StandsNext(cfg, world, opening, st, i, replies);
  }

  lemma GoingOnWithinBudget(cfg: Config, world: World, st: State, i: nat)
    requires cfg.maxToolCalls >= 1 && Iteration(cfg, world, i, st).Continue? && AllWithinBudget(cfg, st.requests)
    ensures Iteration(cfg, world, i, st).state.requests == Asked(cfg, world, i, st).requests
    ensures AllWithinBudget(cfg, Asked(cfg, world, i, st).requests)
  {
    WritesItsBlock(cfg, world, st, i);
    AskedWithinBudget(cfg, world, st, i);
  }

  lemma StoppingTells(cfg: Config, world: World, opening: seq<Message>, st: State, i: nat, replies: seq<Reply>)
    requires cfg.maxToolCalls >= 1 && 1 <= i <= cfg.maxIterations && Iteration(cfg, world, i, st).Stop?
    requires AllTold(cfg, world, opening, st.requests) && AllWithinBudget(cfg, st.requests)
    requires TakenOnce(st.requests, i - 1) && StandsAt(cfg, world, opening, st, replies, i - 1)
    ensures Closed(cfg, world, opening, Iteration(cfg, world, i, st))
  {
    AskingTells(cfg, world, opening, st, i, replies);
    AskedTakenOnce(cfg, world, st, i);
    AskedWithinBudget(cfg, world, st, i);
    StopsAsAsked(cfg, world, st, i);
  }

  lemma IterationTells(cfg: Config, world: World, opening: seq<Message>, st: State, i: nat)
    requires cfg.maxToolCalls >= 1 && 1 <= i <= cfg.maxIterations && Account(cfg, world, opening, st, i - 1)
    ensures Iteration(cfg, world, i, st).Continue? ==>
      Account(cfg, world, opening, Iteration(cfg, world, i, st).state, i)
    ensures Iteration(cfg, world, i, st).Stop? ==> Closed(cfg, world, opening, Iteration(cfg, world, i, st))
  {
    var replies :| StandsAt(cfg, world, opening, st, replies, i - 1);
    if Iteration(cfg, world, i, st).Continue? {
      GoingOnTells(cfg, world, opening, st, i, replies);
    } else {
      StoppingTells(cfg, world, opening, st, i, replies);
    }
  }

  lemma StartIsAccounted(cfg: Config, world: World, opening: seq<Message>)
    ensures Account(cfg, world, opening, Start(opening), 0)
  {
    var none: seq<Reply> := [];
    assert opening + [] == opening && StepsAfter(world, none) == [];
    assert StandsAt(cfg, world, opening, Start(opening), none, 0);
  }

  lemma RunIsClosed(cfg: Config, world: World, opening: seq<Message>)
    requires cfg.maxToolCalls >= 1
    ensures Closed(cfg, world, opening, Run(cfg, world, opening))
  {
    var inv := (s: State, n: nat) => Account(cfg, world, opening, s, n);
    var final := (o: Outcome) => Closed(cfg, world, opening, o);
    StartIsAccounted(cfg, world, opening);
    forall s, n: nat | 1 <= n <= cfg.maxIterations && inv(s, n - 1)
      ensures Leads(Iteration(cfg, world, n, s), n, inv, final)
    {
      IterationTells(cfg, world, opening, s, n);
    }
    forall s | inv(s, cfg.maxIterations) ensures final(RanOut(cfg, world, s)) { }
    RunInduction(cfg, world, inv, final, Start(opening), 1);
    assert final(Run(cfg, world, opening));
  }

  // ----- the theorems

  /** At every request of every run the messages are the opening and then one block for each
      earlier iteration, the one its reply makes it write: the message with its calls, within
      the budget, and exactly their results, in order and framed; or a draft whose figures the
      steps before it do not support, and the correction that names them. */
  lemma EveryRequestIsWellFormed(cfg: Config, world: World, opening: seq<Message>, n: nat)
      returns (replies: seq<Reply>)
    requires cfg.maxToolCalls >= 1 && n < |Run(cfg, world, opening).requests|
    ensures var requests := Run(cfg, world, opening).requests;
      && |replies| + 1 == requests[n].iteration
      && AllTook(requests, replies) && AllGoOn(cfg, world, replies)
      && requests[n].messages == opening + Concat(Blocks(world, replies))
    ensures forall k :: 0 <= k < |replies| ==> IsBlock(cfg, Blocks(world, replies)[k])
  {
    var requests := Run(cfg, world, opening).requests;
    RunIsClosed(cfg, world, opening);
    assert IsTold(cfg, world, opening, requests, requests[n]);
    replies :| |replies| + 1 == requests[n].iteration
      && Recounts(cfg, world, opening, requests, replies, requests[n].messages);
    BlocksAreWhole(cfg, world, replies);
  }

  /** The replies that an account speaks of are the only ones its iterations took. */
  lemma OneReplyEach(cfg: Config, world: World, opening: seq<Message>, k: nat, p: Reply, q: Reply)
    requires cfg.maxToolCalls >= 1
    requires Took(Run(cfg, world, opening).requests, k, p) && Took(Run(cfg, world, opening).requests, k, q)
    ensures p == q
  {
    RunIsClosed(cfg, world, opening);
    TookOnce(Run(cfg, world, opening).requests, cfg.maxIterations, k, p, q);
  }

  lemma TookOnce(requests: seq<Request>, last: nat, k: nat, p: Reply, q: Reply)
    requires TakenOnce(requests, last) && Took(requests, k, p) && Took(requests, k, q)
    ensures p == q
  {
  }

  /** An iteration that went over the budget never reaches another request: every reply but
      the last asked for no more calls than the budget. */
  lemma NothingFollowsAnOverrun(cfg: Config, world: World, opening: seq<Message>, m: nat, n: nat)
    requires cfg.maxToolCalls >= 1 && m < n < |Run(cfg, world, opening).requests|
    ensures var taken := Run(cfg, world, opening).requests[m].taken;
      taken.Some? ==> |taken.value.calls| <= cfg.maxToolCalls
  {
    RunIsClosed(cfg, world, opening);
    assert WithinBudget(cfg, Run(cfg, world, opening).requests[m]);
  }
}
