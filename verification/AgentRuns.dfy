/** What holds of every run of the agent loop, whatever the model, the router and the tools
    do.  `Invariant` holds at the start of each iteration, `Final` of every result. */
module AgentRuns {
  import opened Seqs
  import opened Text
  import opened Grounding
  import opened Orchestrator

  // ----- steps by iteration

  predicate AllOk(steps: seq<Step>, k: int) {
    forall n :: 0 <= n < |steps| && steps[n].iteration == k ==> steps[n].ok
  }

  /** The tool steps of iteration `k`, in order. */
  function StepsOf(steps: seq<Step>, k: nat): seq<Step> {
    if steps == [] then []
    else
      (if steps[0].iteration == k && steps[0].kind == ToolCall then [steps[0]] else []) + StepsOf(steps[1..], k)
  }

  function Discards(steps: seq<Step>): nat {
    if steps == [] then 0 else (if steps[0].kind == UngroundedAnswer then 1 else 0) + Discards(steps[1..])
  }

  lemma {:induction false} StepsOfConcat(a: seq<Step>, b: seq<Step>, k: nat)
    ensures StepsOf(a + b, k) == StepsOf(a, k) + StepsOf(b, k)
    ensures Discards(a + b) == Discards(a) + Discards(b)
  {
    if a == [] {
      assert a + b == b;
    } else {
      assert (a + b)[1..] == a[1..] + b;
      StepsOfConcat(a[1..], b, k);
    }
  }

  lemma {:induction false} NoStepsOf(steps: seq<Step>, k: nat)
    requires forall n :: 0 <= n < |steps| ==> steps[n].iteration != k || steps[n].kind != ToolCall
    ensures StepsOf(steps, k) == []
  {
    if steps != [] { NoStepsOf(steps[1..], k); }
  }

  lemma {:induction false} OnlyToolSteps(steps: seq<Step>, k: nat)
    requires forall n :: 0 <= n < |steps| ==> steps[n].iteration == k && steps[n].kind == ToolCall
    ensures StepsOf(steps, k) == steps && Discards(steps) == 0
  {
    if steps != [] {
      OnlyToolSteps(steps[1..], k);
      assert steps == [steps[0]] + steps[1..];
    }
  }

  lemma AllOkConcat(a: seq<Step>, b: seq<Step>, k: int)
    ensures AllOk(a + b, k) <==> AllOk(a, k) && AllOk(b, k)
  {
    var s := a + b;
    if AllOk(s, k) {
      forall n | 0 <= n < |a| && a[n].iteration == k ensures a[n].ok { assert s[n] == a[n]; }
      forall n | 0 <= n < |b| && b[n].iteration == k ensures b[n].ok { assert s[|a| + n] == b[n]; }
    }
  }

  // ----- the parts of the invariant

  /** Within an iteration the router comes first and each model is asked at most once. */
  predicate Before(a: Request, b: Request) {
    a.iteration < b.iteration || (a.iteration == b.iteration && a.toRouter && !b.toRouter)
  }

  predicate Ordered(requests: seq<Request>, last: nat) {
    && (forall n :: 0 <= n < |requests| ==> 1 <= requests[n].iteration <= last)
    && (forall m, n :: 0 <= m < n < |requests| ==> Before(requests[m], requests[n]))
  }

  predicate RouterAsked(requests: seq<Request>, k: nat) {
    exists n :: 0 <= n < |requests| && requests[n].iteration == k && requests[n].toRouter
  }

  /** The router drives iteration `k` exactly when there is one and nothing failed and
      nothing was discarded in the iteration before. */
  predicate RoutedByOutcome(cfg: Config, steps: seq<Step>, requests: seq<Request>, last: nat) {
    forall k :: 1 <= k <= last ==> (RouterAsked(requests, k) <==> cfg.HasRouter() && AllOk(steps, k - 1))
  }

  /** The tool steps of an iteration are those of a prefix of the calls it took, as long as
      the budget allows. */
  ghost predicate Handled(cfg: Config, world: World, steps: seq<Step>, requests: seq<Request>, last: nat)
    requires cfg.maxToolCalls >= 1
  {
    forall n :: 0 <= n < |requests| && requests[n].iteration <= last && requests[n].taken.Some? ==>
      StepsOf(steps, requests[n].iteration)
        == ToolSteps(world, requests[n].iteration, Executed(cfg, requests[n].taken.value.calls))
  }

  /** Only tool calls are ever marked as successful before the end, and no step is later
      than the iteration it belongs to. */
  predicate StepsUpTo(steps: seq<Step>, last: nat) {
    forall n :: 0 <= n < |steps| ==>
      && 1 <= steps[n].iteration <= last
      && (steps[n].kind == ToolCall || (steps[n].kind == UngroundedAnswer && !steps[n].ok))
  }

  /** What holds when the iterations up to `last` are over. */
  ghost predicate Invariant(cfg: Config, world: World, st: State, last: nat)
    requires cfg.maxToolCalls >= 1
  {
    && Ordered(st.requests, last)
    && StepsUpTo(st.steps, last)
    && Discards(st.steps) == st.retries <= MAX_GROUNDING_RETRIES
    && (st.escalate <==> !AllOk(st.steps, last))
    && RoutedByOutcome(cfg, st.steps, st.requests, last)
    && Handled(cfg, world, st.steps, st.requests, last)
  }

  /** What holds in iteration `i` once the models have been asked. */
  ghost predicate AfterAsking(cfg: Config, world: World, st: State, i: nat, reply: Option<Reply>)
    requires cfg.maxToolCalls >= 1 && i >= 1
  {
    && Ordered(st.requests, i)
    && StepsUpTo(st.steps, i - 1)
    && Discards(st.steps) == st.retries <= MAX_GROUNDING_RETRIES
    && !st.escalate
    && RoutedByOutcome(cfg, st.steps, st.requests, i)
    && Handled(cfg, world, st.steps, st.requests, i - 1)
    && TookOnly(st.requests, i, reply)
  }

  lemma SentOrdered(cfg: Config, world: World, st: State, i: nat)
    requires i >= 1 && Ordered(st.requests, i - 1)
    ensures Ordered(Asked(cfg, world, i, st).requests, i)
  {
    var sent := Sent(cfg, world, i, st.messages, st.escalate);
    assert forall n :: 0 <= n < |sent| ==> sent[n].iteration == i;
    assert forall m, n :: 0 <= m < n < |sent| ==> Before(sent[m], sent[n]);
  }

  lemma RouterAskedConcat(a: seq<Request>, b: seq<Request>, k: nat)
    ensures RouterAsked(a + b, k) <==> RouterAsked(a, k) || RouterAsked(b, k)
  {
    var s := a + b;
    if RouterAsked(a, k) {
      var n :| 0 <= n < |a| && a[n].iteration == k && a[n].toRouter;
      assert s[n] == a[n];
    }
    if RouterAsked(b, k) {
      var n :| 0 <= n < |b| && b[n].iteration == k && b[n].toRouter;
      assert s[|a| + n] == b[n];
    }
  }

  lemma AskingRoutes(cfg: Config, world: World, st: State, i: nat)
    requires i >= 1 && Ordered(st.requests, i - 1)
    requires RoutedByOutcome(cfg, st.steps, st.requests, i - 1)
    requires st.escalate <==> !AllOk(st.steps, i - 1)
    ensures RoutedByOutcome(cfg, st.steps, Asked(cfg, world, i, st).requests, i)
  {
    var sent := Sent(cfg, world, i, st.messages, st.escalate);
    forall k | 1 <= k <= i
      ensures RouterAsked(st.requests + sent, k) <==> cfg.HasRouter() && AllOk(st.steps, k - 1)
    {
      RouterAskedConcat(st.requests, sent, k);
      if k == i {
        assert sent[0].iteration == i && sent[0].toRouter == UsesRouter(cfg, st.escalate);
      }
    }
  }

  /** What an iteration took from its requests is the reply it goes on with. */
  predicate TookOnly(requests: seq<Request>, i: nat, reply: Option<Reply>) {
    forall n :: 0 <= n < |requests| && requests[n].iteration == i && requests[n].taken.Some? ==>
      requests[n].taken == reply
  }

  lemma SentTaken(cfg: Config, world: World, st: State, i: nat)
    requires i >= 1 && Ordered(st.requests, i - 1)
    ensures TookOnly(Asked(cfg, world, i, st).requests, i, ReplyOf(cfg, world, i, st.escalate))
  {
    var sent := Sent(cfg, world, i, st.messages, st.escalate);
    assert TookOnly(sent, i, ReplyOf(cfg, world, i, st.escalate));
    var all := st.requests + sent;
    forall n | 0 <= n < |all| && all[n].iteration == i && all[n].taken.Some?
      ensures all[n].taken == ReplyOf(cfg, world, i, st.escalate)
    {
      if n >= |st.requests| { assert all[n] == sent[n - |st.requests|]; }
    }
  }

  lemma SentHandled(cfg: Config, world: World, st: State, i: nat)
    requires cfg.maxToolCalls >= 1 && i >= 1
    requires Handled(cfg, world, st.steps, st.requests, i - 1)
    ensures Handled(cfg, world, st.steps, Asked(cfg, world, i, st).requests, i - 1)
  {
    var sent := Sent(cfg, world, i, st.messages, st.escalate);
    assert forall n :: 0 <= n < |sent| ==> sent[n].iteration == i;
  }

  lemma AskingKeeps(cfg: Config, world: World, st: State, i: nat)
    requires cfg.maxToolCalls >= 1 && i >= 1
    requires Invariant(cfg, world, st, i - 1)
    ensures AfterAsking(cfg, world, Asked(cfg, world, i, st), i, ReplyOf(cfg, world, i, st.escalate))
  {
    SentOrdered(cfg, world, st, i);
    AskingRoutes(cfg, world, st, i);
    SentTaken(cfg, world, st, i);
    SentHandled(cfg, world, st, i);
  }

  // ----- the two ways to go on

  /** New steps of iteration `i` or later say nothing about earlier iterations. */
  lemma RoutingForgetsLater(cfg: Config, steps: seq<Step>, later: seq<Step>, requests: seq<Request>, i: nat)
    requires RoutedByOutcome(cfg, steps, requests, i)
    requires forall n :: 0 <= n < |later| ==> later[n].iteration >= i
    ensures RoutedByOutcome(cfg, steps + later, requests, i)
  {
    forall k | 1 <= k <= i
      ensures RouterAsked(requests, k) <==> cfg.HasRouter() && AllOk(steps + later, k - 1)
    {
      AllOkConcat(steps, later, k - 1);
    }
  }

  lemma HandledStays(cfg: Config, world: World, steps: seq<Step>, later: seq<Step>, requests: seq<Request>, last: nat)
    requires cfg.maxToolCalls >= 1 && Handled(cfg, world, steps, requests, last)
    requires forall n :: 0 <= n < |later| ==> later[n].iteration > last || later[n].kind != ToolCall
    ensures Handled(cfg, world, steps + later, requests, last)
  {
    forall n | 0 <= n < |requests| && requests[n].iteration <= last && requests[n].taken.Some?
      ensures StepsOf(steps + later, requests[n].iteration)
           == ToolSteps(world, requests[n].iteration, Executed(cfg, requests[n].taken.value.calls))
    {
      StepsOfConcat(steps, later, requests[n].iteration);
      NoStepsOf(later, requests[n].iteration);
    }
  }

  /** Handling iteration `i` as well. */
  lemma HandledNow(cfg: Config, world: World, steps: seq<Step>, made: seq<Step>, requests: seq<Request>, i: nat,
                   reply: Reply)
    requires cfg.maxToolCalls >= 1 && i >= 1
    requires StepsUpTo(steps, i - 1) && Handled(cfg, world, steps, requests, i - 1)
    requires TookOnly(requests, i, Some(reply))
    requires forall n :: 0 <= n < |made| ==> made[n].iteration == i
    requires StepsOf(made, i) == ToolSteps(world, i, Executed(cfg, reply.calls))
    ensures Handled(cfg, world, steps + made, requests, i)
  {
    HandledStays(cfg, world, steps, made, requests, i - 1);
    StepsOfConcat(steps, made, i);
    NoStepsOf(steps, i);
    assert [] + StepsOf(made, i) == StepsOf(made, i);
  }

  lemma StepsUpToConcat(steps: seq<Step>, made: seq<Step>, i: nat)
    requires i >= 1 && StepsUpTo(steps, i - 1)
    requires forall n :: 0 <= n < |made| ==> made[n].iteration == i
    requires forall n :: 0 <= n < |made| ==>
      made[n].kind == ToolCall || (made[n].kind == UngroundedAnswer && !made[n].ok)
    ensures StepsUpTo(steps + made, i)
    ensures AllOk(steps + made, i) <==> AllOk(made, i)
  {
    AllOkConcat(steps, made, i);
  }

  lemma DiscardKeeps(cfg: Config, world: World, st: State, i: nat, reply: Reply,
                     unverified: seq<Figure>)
    requires cfg.maxToolCalls >= 1 && i >= 1 && reply.calls == [] && Strip(reply.content) != ""
    requires AfterAsking(cfg, world, st, i, Some(reply)) && st.retries < MAX_GROUNDING_RETRIES
    ensures Invariant(cfg, world, Discard(i, st, Strip(reply.content), unverified), i)
  {
    var answer := Strip(reply.content);
    var step := Step(i, UngroundedAnswer, "ungrounded_answer", Value.Text(answer), false);
    RoutingForgetsLater(cfg, st.steps, [step], st.requests, i);
    StepsUpToConcat(st.steps, [step], i);
    OneDiscard(step, i);
    StepsOfConcat(st.steps, [step], i);
    assert ToolSteps(world, i, Executed(cfg, [])) == [];
    HandledNow(cfg, world, st.steps, [step], st.requests, i, reply);
  }

  lemma OneDiscard(step: Step, i: nat)
    requires step.kind == UngroundedAnswer && step.iteration == i && !step.ok
    ensures Discards([step]) == 1 && StepsOf([step], i) == [] && !AllOk([step], i)
  {
    assert [step][1..] == [] && [step][0] == step;
  }

  /** Tool steps, whether or not the loop goes on after them. */
  lemma WorkHandles(cfg: Config, world: World, st: State, i: nat, reply: Reply, made: seq<Step>)
    requires cfg.maxToolCalls >= 1 && i >= 1
    requires AfterAsking(cfg, world, st, i, Some(reply))
    requires made == ToolSteps(world, i, Executed(cfg, reply.calls))
    ensures StepsUpTo(st.steps + made, i) && Discards(st.steps + made) == st.retries
    ensures RoutedByOutcome(cfg, st.steps + made, st.requests, i)
    ensures Handled(cfg, world, st.steps + made, st.requests, i)
    ensures AllOk(st.steps + made, i) <==> AllOk(made, i)
  {
    RoutingForgetsLater(cfg, st.steps, made, st.requests, i);
    StepsUpToConcat(st.steps, made, i);
    OnlyToolSteps(made, i);
    StepsOfConcat(st.steps, made, i);
    HandledNow(cfg, world, st.steps, made, st.requests, i, reply);
  }

  lemma FailedIsNotAllOk(world: World, i: nat, calls: seq<Call>)
    ensures AnyFailed(ToolSteps(world, i, calls)) <==> !AllOk(ToolSteps(world, i, calls), i)
  {
  }

  lemma WorkedKeeps(cfg: Config, world: World, st: State, i: nat, reply: Reply)
    requires cfg.maxToolCalls >= 1 && i >= 1 && 0 < |reply.calls| <= cfg.maxToolCalls
    requires AfterAsking(cfg, world, st, i, Some(reply))
    ensures Invariant(cfg, world, Worked(cfg, world, i, st, reply), i)
  {
    WorkHandles(cfg, world, st, i, reply, ToolSteps(world, i, Executed(cfg, reply.calls)));
    FailedIsNotAllOk(world, i, Executed(cfg, reply.calls));
  }

  // ----- the end of a run

  /** Only what tools returned counts as evidence. */
  predicate EvidenceFromTools(steps: seq<Step>) {
    forall n :: 0 <= n < |steps| && IsEvidence(steps[n]) ==> steps[n].kind == ToolCall
  }

  /** The request whose reply asked for more than the budget is the last one of the run. */
  predicate EndedOverBudget(cfg: Config, result: Result, requests: seq<Request>) {
    && requests != []
    && var last := requests[|requests| - 1];
       last.iteration == result.iterations && last.taken.Some? && |last.taken.value.calls| > cfg.maxToolCalls
  }

  ghost predicate Final(cfg: Config, world: World, end: Outcome)
    requires cfg.maxToolCalls >= 1
  {
    && end.Stop?
    && var result, requests := end.result, end.requests;
       && result.iterations <= cfg.maxIterations
       && Ordered(requests, result.iterations)
       && RoutedByOutcome(cfg, result.steps, requests, result.iterations)
       && Handled(cfg, world, result.steps, requests, result.iterations)
       && EvidenceFromTools(result.steps)
       && Discards(result.steps) <= MAX_GROUNDING_RETRIES
       && (result.stop == StopUnverifiedFigures ==> Discards(result.steps) == 1)
       && (result.stop == StopToolCallBudget ==> EndedOverBudget(cfg, result, requests))
       && (result.stop == StopMaxIterations ==> result.iterations == cfg.maxIterations)
       && result.answer != ""
       && (result.completed <==> result.stop == StopFinalAnswer)
       && (result.completed ==> world.advice(result.answer) == [])
       && (result.completed ==> UnsupportedFigures(world.read, result.answer, result.steps) == [])
  }

  /** The parts of `Final` that a closing step, which is no tool step, leaves alone. */
  lemma ClosingStep(cfg: Config, world: World, steps: seq<Step>, step: Step, requests: seq<Request>, last: nat)
    requires cfg.maxToolCalls >= 1
    requires step.kind != ToolCall && step.kind != UngroundedAnswer && step.iteration >= last
    requires RoutedByOutcome(cfg, steps, requests, last) && Handled(cfg, world, steps, requests, last)
    requires EvidenceFromTools(steps) && !IsEvidence(step)
    ensures RoutedByOutcome(cfg, steps + [step], requests, last)
    ensures Handled(cfg, world, steps + [step], requests, last)
    ensures EvidenceFromTools(steps + [step])
    ensures Discards(steps + [step]) == Discards(steps)
    ensures EvidenceOf(world.read, steps + [step]) == EvidenceOf(world.read, steps)
  {
    RoutingForgetsLater(cfg, steps, [step], requests, last);
    HandledStays(cfg, world, steps, [step], requests, last);
    StepsOfConcat(steps, [step], last);
    assert [step][1..] == [] && Discards([step]) == 0;
    EvidenceSnoc(world.read, steps, step);
  }

  /** Ending without tool calls in iteration `i`: the requests of the iteration are settled. */
  lemma NothingToHandle(cfg: Config, world: World, st: State, i: nat, reply: Option<Reply>)
    requires cfg.maxToolCalls >= 1 && i >= 1
    requires AfterAsking(cfg, world, st, i, reply)
    requires reply.Some? ==> reply.value.calls == []
    ensures Handled(cfg, world, st.steps, st.requests, i)
    ensures EvidenceFromTools(st.steps)
  {
    NoStepsOf(st.steps, i);
    assert ToolSteps(world, i, Executed(cfg, [])) == [];
  }

  lemma FailureIsFinal(cfg: Config, world: World, st: State, i: nat)
    requires cfg.maxToolCalls >= 1 && 1 <= i <= cfg.maxIterations
    requires AfterAsking(cfg, world, st, i, None)
    ensures Final(cfg, world, InferenceFailed(i, st))
  {
    NothingToHandle(cfg, world, st, i, None);
    var step := Step(i, FinalAnswer, "final_answer", Value.Text(UNREACHABLE), false);
    ClosingStep(cfg, world, st.steps, step, st.requests, i);
  }

  lemma FinishIsFinal(cfg: Config, world: World, st: State, i: nat, reply: Reply)
    requires cfg.maxToolCalls >= 1 && 1 <= i <= cfg.maxIterations && reply.calls == []
    requires AfterAsking(cfg, world, st, i, Some(reply))
    requires var answer := Strip(reply.content);
      Unverified(world, answer, st.steps) == [] || st.retries >= MAX_GROUNDING_RETRIES
    ensures var answer := Strip(reply.content);
      Final(cfg, world, Finish(world, i, st, answer, Unverified(world, answer, st.steps)))
  {
    var draft := Strip(reply.content);
    var unverified := Unverified(world, draft, st.steps);
    NothingToHandle(cfg, world, st, i, Some(reply));
    FinishKeeps(cfg, world, st, i, draft, unverified);
    CleanFinish(world, st, i, draft);
  }

  /** What a run has made is left alone by the steps that end it with an answer. */
  lemma FinishKeeps(cfg: Config, world: World, st: State, i: nat, draft: string, unverified: seq<Figure>)
    requires cfg.maxToolCalls >= 1 && i >= 1
    requires RoutedByOutcome(cfg, st.steps, st.requests, i) && Handled(cfg, world, st.steps, st.requests, i)
    requires EvidenceFromTools(st.steps)
    ensures var steps := Finish(world, i, st, draft, unverified).result.steps;
      && RoutedByOutcome(cfg, steps, st.requests, i) && Handled(cfg, world, steps, st.requests, i)
      && EvidenceFromTools(steps) && Discards(steps) == Discards(st.steps)
  {
    var answer := if unverified != [] then Caveat(unverified) + draft else draft;
    var blocked := Step(i, AdvisoryAnswer, "advisory_answer", Value.Text(answer), false);
    var steps := if Advice(world, answer) == [] then st.steps else st.steps + [blocked];
    if Advice(world, answer) != [] { ClosingStep(cfg, world, st.steps, blocked, st.requests, i); }
    var end := Finish(world, i, st, draft, unverified);
    ClosingStep(cfg, world, steps, end.result.steps[|steps|], st.requests, i);
  }

  /** A run that ends completed ends with a draft that the evidence supports. */
  lemma CleanFinish(world: World, st: State, i: nat, draft: string)
    ensures var result := Finish(world, i, st, draft, Unverified(world, draft, st.steps)).result;
      result.completed ==>
        && result.answer == draft && draft != "" && world.advice(draft) == []
        && UnsupportedFigures(world.read, draft, result.steps) == []
  {
    var result := Finish(world, i, st, draft, Unverified(world, draft, st.steps)).result;
    if result.completed { EvidenceSnoc(world.read, st.steps, result.steps[|st.steps|]); }
  }

  lemma OverBudgetIsFinal(cfg: Config, world: World, st: State, i: nat, reply: Reply)
    requires cfg.maxToolCalls >= 1 && 1 <= i <= cfg.maxIterations && |reply.calls| > cfg.maxToolCalls
    requires AfterAsking(cfg, world, st, i, Some(reply))
    requires st.requests != [] && st.requests[|st.requests| - 1].iteration == i
    requires st.requests[|st.requests| - 1].taken == Some(reply)
    ensures Final(cfg, world, StoppedOverBudget(world, i, Worked(cfg, world, i, st, reply)))
  {
    var worked := Worked(cfg, world, i, st, reply);
    WorkHandles(cfg, world, st, i, reply, ToolSteps(world, i, Executed(cfg, reply.calls)));
    var answer := OverBudget(Findings(world, worked.steps));
    var step := Step(i, ToolCallBudget, "tool_call_budget", Value.Text(answer), false);
    ClosingStep(cfg, world, worked.steps, step, st.requests, i);
  }

  lemma RanOutIsFinal(cfg: Config, world: World, st: State)
    requires cfg.maxToolCalls >= 1
    requires Invariant(cfg, world, st, cfg.maxIterations)
    ensures Final(cfg, world, RanOut(cfg, world, st))
  {
    var answer := Exhausted(Findings(world, st.steps));
    ClosingStep(cfg, world, st.steps, Step(cfg.maxIterations, FinalAnswer, "final_answer", Value.Text(answer), false),
                st.requests, cfg.maxIterations);
  }

  lemma LastSent(cfg: Config, world: World, i: nat, st: State)
    ensures var requests := Asked(cfg, world, i, st).requests;
      requests != [] && requests[|requests| - 1].iteration == i
      && requests[|requests| - 1].taken == ReplyOf(cfg, world, i, st.escalate)
  {
  }

  lemma AnsweredKeeps(cfg: Config, world: World, asked: State, i: nat, reply: Reply)
    requires cfg.maxToolCalls >= 1 && 1 <= i <= cfg.maxIterations && reply.calls == []
    requires AfterAsking(cfg, world, asked, i, Some(reply))
    ensures match Answered(world, i, asked, reply.content)
      case Continue(next) => Invariant(cfg, world, next, i)
      case Stop(_, _) => Final(cfg, world, Answered(world, i, asked, reply.content))
  {
    var answer := Strip(reply.content);
    var unverified := Unverified(world, answer, asked.steps);
    if unverified != [] && asked.retries < MAX_GROUNDING_RETRIES {
      DiscardKeeps(cfg, world, asked, i, reply, unverified);
    } else {
      FinishIsFinal(cfg, world, asked, i, reply);
    }
  }

  /** One iteration goes from the invariant to the invariant, or to the end. */
  lemma IterationKeeps(cfg: Config, world: World, st: State, i: nat)
    requires cfg.maxToolCalls >= 1 && 1 <= i <= cfg.maxIterations
    requires Invariant(cfg, world, st, i - 1)
    ensures match Iteration(cfg, world, i, st)
      case Continue(next) => Invariant(cfg, world, next, i)
      case Stop(_, _) => Final(cfg, world, Iteration(cfg, world, i, st))
  {
    var reply, asked := ReplyOf(cfg, world, i, st.escalate), Asked(cfg, world, i, st);
    AskingKeeps(cfg, world, st, i);
    LastSent(cfg, world, i, st);
    if reply.None? {
      FailureIsFinal(cfg, world, asked, i);
    } else if reply.value.calls == [] {
      AnsweredKeeps(cfg, world, asked, i, reply.value);
    } else if |reply.value.calls| <= cfg.maxToolCalls {
      WorkedKeeps(cfg, world, asked, i, reply.value);
    } else {
      OverBudgetIsFinal(cfg, world, asked, i, reply.value);
    }
  }

  /** To the invariant if the run goes on, to something final if it does not. */
  ghost predicate Leads(end: Outcome, n: nat, inv: (State, nat) -> bool, final: Outcome -> bool) {
    if end.Continue? then inv(end.state, n) else final(end)
  }

  /** Induction over a run: what every iteration keeps, until it ends in something final,
      makes the whole run final. */
  lemma {:induction false} RunInduction(cfg: Config, world: World, inv: (State, nat) -> bool, final: Outcome -> bool,
                                        st: State, i: nat)
    requires cfg.maxToolCalls >= 1 && 1 <= i <= cfg.maxIterations + 1 && inv(st, i - 1)
    requires forall s, n: nat | 1 <= n <= cfg.maxIterations && inv(s, n - 1) ::
      Leads(Iteration(cfg, world, n, s), n, inv, final)
    requires forall s | inv(s, cfg.maxIterations) :: final(RanOut(cfg, world, s))
    ensures final(RunFrom(cfg, world, i, st))
    decreases cfg.maxIterations + 1 - i
  {
    if i <= cfg.maxIterations {
      var end := Iteration(cfg, world, i, st);
      if end.Continue? { RunInduction(cfg, world, inv, final, end.state, i + 1); }
    }
  }

  // ----- the theorems

  function Run(cfg: Config, world: World, opening: seq<Message>): Outcome
    requires cfg.maxToolCalls >= 1
  {
    RunFrom(cfg, world, 1, Start(opening))
  }

  lemma EveryRunIsFinal(cfg: Config, world: World, opening: seq<Message>) returns (end: Outcome)
    requires cfg.maxToolCalls >= 1
    ensures end == Run(cfg, world, opening)
    ensures Final(cfg, world, end)
  {
    var inv := (s: State, n: nat) => cfg.maxToolCalls >= 1 && Invariant(cfg, world, s, n);
    var final := (o: Outcome) => cfg.maxToolCalls >= 1 && Final(cfg, world, o);
    StartIsInvariant(cfg, world, opening);
    forall s, n: nat | 1 <= n <= cfg.maxIterations && inv(s, n - 1)
      ensures Leads(Iteration(cfg, world, n, s), n, inv, final)
    {
      IterationKeeps(cfg, world, s, n);
    }
    forall s | inv(s, cfg.maxIterations) ensures final(RanOut(cfg, world, s)) {
      RanOutIsFinal(cfg, world, s);
    }
    RunInduction(cfg, world, inv, final, Start(opening), 1);
    end := Run(cfg, world, opening);
    assert final(end);
  }

  lemma StartIsInvariant(cfg: Config, world: World, opening: seq<Message>)
    requires cfg.maxToolCalls >= 1
    ensures Invariant(cfg, world, Start(opening), 0)
  {
  }

  lemma {:induction false} AtMostTwoEach(requests: seq<Request>, last: nat)
    requires Ordered(requests, last)
    ensures |requests| <= 2 * last
    decreases last
  {
    if requests != [] {
      var n := |requests|;
      var end := requests[n - 1].iteration;
      if n == 1 {
      } else {
        assert Before(requests[n - 2], requests[n - 1]);
        var keep := if requests[n - 2].iteration == end then n - 2 else n - 1;
        forall m | 0 <= m < keep ensures requests[m].iteration <= end - 1 {
          assert Before(requests[m], requests[n - 1]);
          if keep == n - 2 { assert Before(requests[m], requests[n - 2]); }
          else if m < n - 2 { assert Before(requests[m], requests[n - 2]); }
        }
        AtMostTwoEach(requests[..keep], end - 1);
      }
    }
  }

  function RequestsOf(requests: seq<Request>, k: nat): seq<Request> {
    if requests == [] then []
    else
      var last := |requests| - 1;
      RequestsOf(requests[..last], k) + if requests[last].iteration == k then [requests[last]] else []
  }

  /** A second request of an iteration is to the larger model, so there is no third. */
  lemma {:induction false} AtMostTwoOf(requests: seq<Request>, last: nat, k: nat)
    requires Ordered(requests, last)
    ensures |RequestsOf(requests, k)| <= 2
    ensures |RequestsOf(requests, k)| == 2 ==>
      exists n :: 0 <= n < |requests| && requests[n].iteration == k && !requests[n].toRouter
    ensures |RequestsOf(requests, k)| == 1 ==> exists n :: 0 <= n < |requests| && requests[n].iteration == k
  {
    if requests != [] {
      var n := |requests| - 1;
      var front := requests[..n];
      AtMostTwoOf(front, last, k);
      if m :| 0 <= m < n && front[m].iteration == k { assert Before(requests[m], requests[n]); }
      if m :| 0 <= m < n && front[m].iteration == k && !front[m].toRouter {
        assert requests[m] == front[m];
        assert Before(requests[m], requests[n]);
      }
    }
  }

  /** The budgets of a run: at most two requests an iteration, the tools of an iteration are
      the first ones asked for, at most the budget, and at most one draft is thrown away; a
      run that ends in unverified figures threw one away before. */
  lemma RunBudgets(cfg: Config, world: World, opening: seq<Message>)
    requires cfg.maxToolCalls >= 1
    ensures var end := Run(cfg, world, opening); var steps, requests := end.result.steps, end.requests;
      && (forall k :: |RequestsOf(requests, k)| <= 2) && |requests| <= 2 * cfg.maxIterations
      && (forall n :: 0 <= n < |requests| && requests[n].taken.Some? ==>
            var made, asked := StepsOf(steps, requests[n].iteration), requests[n].taken.value.calls;
            && |made| == (if |asked| < cfg.maxToolCalls then |asked| else cfg.maxToolCalls)
            && forall j :: 0 <= j < |made| ==> made[j] == ToolStep(world, requests[n].iteration, j, asked[j]))
      && Discards(steps) <= 1
      && (end.result.stop == StopUnverifiedFigures ==> Discards(steps) == 1)
  {
    var end := EveryRunIsFinal(cfg, world, opening);
    AtMostTwoEach(end.requests, end.result.iterations);
    forall k ensures |RequestsOf(end.requests, k)| <= 2 { AtMostTwoOf(end.requests, end.result.iterations, k); }
  }

  /** The router is asked in an iteration exactly when there is one and, in the iteration
      before, no call failed and no draft was thrown away. */
  lemma WhenTheRouterDrives(cfg: Config, world: World, opening: seq<Message>, k: nat)
    requires cfg.maxToolCalls >= 1 && 1 <= k <= Run(cfg, world, opening).result.iterations
    ensures var end := Run(cfg, world, opening);
      RouterAsked(end.requests, k) <==>
        cfg.routerModel != "" && cfg.routerModel != cfg.model && AllOk(end.result.steps, k - 1)
  {
    var end := EveryRunIsFinal(cfg, world, opening);
  }

  /** A run is completed exactly when it stops with "final_answer".  Its answer is then not
      empty, has no advisory phrase, and each number in it is grounded in what the tool steps
      of the run returned successfully: up to a rescaling and 1.0025% it is a non-zero number
      of theirs or the result of one arithmetic step on two, or it is within reach of a zero. */
  lemma CompletedAnswersAreGrounded(cfg: Config, world: World, opening: seq<Message>)
    requires cfg.maxToolCalls >= 1
    ensures var result := Run(cfg, world, opening).result;
      && result.answer != ""
      && (result.completed <==> result.stop == StopFinalAnswer)
      && EvidenceFromTools(result.steps)
      && (result.completed ==>
            && world.advice(result.answer) == []
            && forall n :: 0 <= n < |world.read(result.answer)| ==>
                 Grounded(FigureValue(world.read(result.answer)[n]), EvidenceOf(world.read, result.steps)))
  {
    var end := EveryRunIsFinal(cfg, world, opening);
    var result := end.result;
    if result.completed {
      forall n | 0 <= n < |world.read(result.answer)|
        ensures Grounded(FigureValue(world.read(result.answer)[n]), EvidenceOf(world.read, result.steps))
      {
        GroundedNumber(world.read, result.answer, result.steps, n);
      }
    }
  }

  /** A completed answer whose tools returned no zero has each of its numbers of at least
      1.005e-10 traced to a non-zero number. */
  lemma CompletedWithoutZeros(cfg: Config, world: World, opening: seq<Message>, n: nat)
    requires cfg.maxToolCalls >= 1 && Run(cfg, world, opening).result.completed
    requires n < |world.read(Run(cfg, world, opening).result.answer)|
    requires 0.0 !in EvidenceOf(world.read, Run(cfg, world, opening).result.steps)
    ensures var result := Run(cfg, world, opening).result;
      var v, evidence := FigureValue(world.read(result.answer)[n]), EvidenceOf(world.read, result.steps);
      Abs(v) >= WIDE_DERIVED_ZERO_REACH || |evidence| > DERIVATION_LIMIT ==> Traced(v, evidence, COMPOSED_TOLERANCE)
  {
    var end := EveryRunIsFinal(cfg, world, opening);
    var result := end.result;
    TracedWithoutZeros(world.read, result.answer, result.steps, n);
  }

  /** A completed answer in which no number is close to an earlier, different one keeps the
      guard's own 0.5% for every number. */
  lemma CompletedAndApart(cfg: Config, world: World, opening: seq<Message>, n: nat)
    requires cfg.maxToolCalls >= 1 && Run(cfg, world, opening).result.completed
    requires Apart(world.read(Run(cfg, world, opening).result.answer))
    requires n < |world.read(Run(cfg, world, opening).result.answer)|
    ensures var result := Run(cfg, world, opening).result;
      Supported(FigureValue(world.read(result.answer)[n]), EvidenceOf(world.read, result.steps))
  {
    var end := EveryRunIsFinal(cfg, world, opening);
    var result := end.result;
    ApartNumbersAreSupported(world.read, result.answer, result.steps, n);
  }
}
