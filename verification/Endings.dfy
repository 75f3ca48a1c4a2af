/** How a run of the agent loop ends, by what the last reply was; and what was asked of whom. */
module Endings {
  import opened Seqs
  import opened Text
  import opened Grounding
  import opened Orchestrator
  import opened AgentRuns

  // ----- texts and steps, written out

  predicate IsFinding(step: Step) { step.ok && step.tool != "final_answer" }

  function Finding(world: World, step: Step): string {
    if IsFinding(step) then "- " + world.describe(step) + "\n" else ""
  }

  function EachFinding(world: World, steps: seq<Step>): seq<string> {
    seq(|steps|, n requires 0 <= n < |steps| => Finding(world, steps[n]))
  }

  /** The findings are a line for each successful step, in order, and nothing of a failed one. */
  lemma {:induction false} FindingsAreEachOnes(world: World, steps: seq<Step>)
    ensures Findings(world, steps) == Concat(EachFinding(world, steps))
  {
    if steps != [] {
      FindingsAreEachOnes(world, steps[1..]);
      assert EachFinding(world, steps)[1..] == EachFinding(world, steps[1..]);
    }
  }

  /** The figures a caveat or a correction names are all of them, in order. */
  lemma {:induction false} NamesAreEachOnes(figures: seq<Figure>)
    ensures Names(figures) == Concat(seq(|figures|, n requires 0 <= n < |figures| => figures[n].text + " "))
  {
    if figures != [] {
      NamesAreEachOnes(figures[1..]);
      var all := seq(|figures|, n requires 0 <= n < |figures| => figures[n].text + " ");
      assert all[1..] == seq(|figures| - 1, n requires 0 <= n < |figures| - 1 => figures[1..][n].text + " ");
    }
  }

  lemma FindingsWithoutFailed(world: World, steps: seq<Step>, step: Step)
    requires !step.ok
    ensures Findings(world, steps + [step]) == Findings(world, steps)
  {
    FindingsAreEachOnes(world, steps);
    FindingsAreEachOnes(world, steps + [step]);
    assert EachFinding(world, steps + [step]) == EachFinding(world, steps) + [""];
    ConcatSnoc(EachFinding(world, steps), "");
  }

  /** The step that call `j` of iteration `i` makes: what the tool returned, or a failure that
      no tool had a part in if its arguments do not parse. */
  predicate IsStepOf(world: World, i: nat, j: nat, call: Call, step: Step) {
    && step.iteration == i && step.kind == ToolCall
    && if call.arguments != "" && !world.validArguments(call.arguments)
       then step.ok == false && step.result == BAD_INPUT
            && step.tool == (if call.name == "" then "(unnamed)" else call.name)
       else step.ok == world.tool(i, j).ok && step.result == world.tool(i, j).result && step.tool == call.name
  }

  /** The steps of an iteration are those of its calls, as many as the budget allows. */
  lemma StepsAreOfTheirCalls(cfg: Config, world: World, opening: seq<Message>, n: nat, j: nat)
    requires cfg.maxToolCalls >= 1 && n < |Run(cfg, world, opening).requests|
    requires Run(cfg, world, opening).requests[n].taken.Some?
    requires var request := Run(cfg, world, opening).requests[n];
      j < |StepsOf(Run(cfg, world, opening).result.steps, request.iteration)|
    ensures var end := Run(cfg, world, opening); var request := end.requests[n];
      j < |request.taken.value.calls|
      && IsStepOf(world, request.iteration, j, request.taken.value.calls[j],
                  StepsOf(end.result.steps, request.iteration)[j])
  {
    RunBudgets(cfg, world, opening);
  }

  // ----- endings

  /** Steps from before the end: of tools, and of a draft thrown away. */
  predicate AreWorking(steps: seq<Step>) {
    forall n :: 0 <= n < |steps| ==> steps[n].kind == ToolCall || steps[n].kind == UngroundedAnswer
  }

  function Caveated(unverified: seq<Figure>, draft: string): string {
    if unverified == [] then draft else "[Unverified: " + Names(unverified) + "]\n\n" + draft
  }

  /** The last step of a run. */
  function Closing(i: nat, text: string, ok: bool): Step { Step(i, FinalAnswer, "final_answer", Value.Text(text), ok) }

  /** A run that ends with prose, by what the draft was and what the guards found in it.  What
      is shown is the draft, behind a caveat if some figures are unverified. */
  predicate EndsWithProse(world: World, result: Result, draft: string, before: seq<Step>) {
    var unverified := if draft == "" then [] else UnsupportedFigures(world.read, draft, before);
    var shown := Caveated(unverified, draft);
    var i := result.iterations;
    if shown != "" && world.advice(shown) != [] then
      && result.stop == StopInvestmentAdvice && !result.completed
      && result.answer == "I can't advise. " + Findings(world, before)
      && result.steps == before + [Step(i, AdvisoryAnswer, "advisory_answer", Value.Text(shown), false),
                                   Closing(i, result.answer, false)]
    else if unverified != [] then
      && result.stop == StopUnverifiedFigures && !result.completed
      && result.answer == shown
      && result.steps == before + [Closing(i, shown, false)]
    else if draft != "" then
      && result.stop == StopFinalAnswer && result.completed
      && result.answer == draft
      && result.steps == before + [Closing(i, draft, true)]
    else
      && result.stop == StopEmptyResponse && !result.completed
      && result.answer == "Empty response."
      && result.steps == before + [Closing(i, "", false)]
  }

  /** How a run ends on the last reply it took, if it took one. */
  predicate EndsOn(cfg: Config, world: World, result: Result, taken: Option<Reply>, before: seq<Step>) {
    if taken.None? then
      && result.stop == StopInferenceError && !result.completed
      && result.answer == "No answer."
      && result.steps == before + [Closing(result.iterations, "No answer.", false)]
    else if taken.value.calls == [] then EndsWithProse(world, result, Strip(taken.value.content), before)
    else
      && |taken.value.calls| > cfg.maxToolCalls
      && result.stop == StopToolCallBudget && !result.completed
      && result.answer == "Too many calls. " + Findings(world, before)
      && result.steps == before + [Step(result.iterations, ToolCallBudget, "tool_call_budget",
                                        Value.Text(result.answer), false)]
  }

  ghost predicate EndsRightly(cfg: Config, world: World, end: Outcome) {
    && end.Stop?
    && var result, requests := end.result, end.requests;
       exists before ::
         && AreWorking(before)
         && if result.stop == StopMaxIterations then
              && result.iterations == cfg.maxIterations && !result.completed
              && result.answer == "Out of steps. " + Findings(world, before)
              && result.steps == before + [Closing(cfg.maxIterations, result.answer, false)]
            else
              && requests != [] && requests[|requests| - 1].iteration == result.iterations
              && EndsOn(cfg, world, result, requests[|requests| - 1].taken, before)
  }

  lemma ProseEnds(world: World, i: nat, st: State, draft: string)
    ensures var unverified := if draft == "" then [] else UnsupportedFigures(world.read, draft, st.steps);
      var end := Finish(world, i, st, draft, unverified);
      && end.Stop? && end.requests == st.requests && end.result.iterations == i
      && EndsWithProse(world, end.result, draft, st.steps)
      && end.result.stop != StopMaxIterations
  {
    var unverified := if draft == "" then [] else UnsupportedFigures(world.read, draft, st.steps);
    var shown := Caveated(unverified, draft);
    assert shown == if unverified != [] then Caveat(unverified) + draft else draft;
    var blocked := Step(i, AdvisoryAnswer, "advisory_answer", Value.Text(shown), false);
    FindingsWithoutFailed(world, st.steps, blocked);
    assert st.steps + [blocked] + [Closing(i, "I can't advise. " + Findings(world, st.steps), false)]
        == st.steps + [blocked, Closing(i, "I can't advise. " + Findings(world, st.steps), false)];
  }

  lemma IterationEnds(cfg: Config, world: World, st: State, i: nat)
    requires cfg.maxToolCalls >= 1 && AreWorking(st.steps)
    ensures match Iteration(cfg, world, i, st)
      case Continue(next) => AreWorking(next.steps)
      case Stop(_, _) => EndsRightly(cfg, world, Iteration(cfg, world, i, st))
  {
    var asked, reply := Asked(cfg, world, i, st), ReplyOf(cfg, world, i, st.escalate);
    LastSent(cfg, world, i, st);
    if reply.None? {
      FailureEnds(cfg, world, i, asked);
    } else if reply.value.calls == [] {
      PlainEnds(cfg, world, i, asked, reply.value);
    } else {
      WorkEnds(cfg, world, i, asked, reply.value);
    }
  }

  lemma FailureEnds(cfg: Config, world: World, i: nat, st: State)
    requires AreWorking(st.steps) && st.requests != []
    requires st.requests[|st.requests| - 1].iteration == i && st.requests[|st.requests| - 1].taken == None
    ensures EndsRightly(cfg, world, InferenceFailed(i, st))
  {
    assert EndsOn(cfg, world, InferenceFailed(i, st).result, None, st.steps);
  }

  lemma PlainEnds(cfg: Config, world: World, i: nat, st: State, reply: Reply)
    requires AreWorking(st.steps) && st.requests != [] && reply.calls == []
    requires st.requests[|st.requests| - 1].iteration == i && st.requests[|st.requests| - 1].taken == Some(reply)
    ensures match Answered(world, i, st, reply.content)
      case Continue(next) => AreWorking(next.steps)
      case Stop(_, _) => EndsRightly(cfg, world, Answered(world, i, st, reply.content))
  {
    var end := Answered(world, i, st, reply.content);
    if end.Stop? {
      ProseEnds(world, i, st, Strip(reply.content));
      assert EndsOn(cfg, world, end.result, Some(reply), st.steps);
    }
  }

  lemma WorkEnds(cfg: Config, world: World, i: nat, st: State, reply: Reply)
    requires cfg.maxToolCalls >= 1 && AreWorking(st.steps) && st.requests != [] && reply.calls != []
    requires st.requests[|st.requests| - 1].iteration == i && st.requests[|st.requests| - 1].taken == Some(reply)
    ensures match CalledTools(cfg, world, i, st, reply)
      case Continue(next) => AreWorking(next.steps)
      case Stop(_, _) => EndsRightly(cfg, world, CalledTools(cfg, world, i, st, reply))
  {
    var worked := Worked(cfg, world, i, st, reply);
    assert AreWorking(worked.steps);
    var end := CalledTools(cfg, world, i, st, reply);
    if end.Stop? { assert EndsOn(cfg, world, end.result, Some(reply), worked.steps); }
  }

  lemma RunningOutEnds(cfg: Config, world: World, st: State)
    requires AreWorking(st.steps)
    ensures EndsRightly(cfg, world, RanOut(cfg, world, st))
  {
    assert RanOut(cfg, world, st).result.steps == st.steps
      + [Closing(cfg.maxIterations, "Out of steps. " + Findings(world, st.steps), false)];
  }

  /** Every run ends as its last reply has it.  A draft with an advisory phrase is never
      answered: it is in one step only, the blocked one, and the answer is the redirection with
      what the tools found.  A draft with figures unverified is answered behind the caveat that
      names them, an empty one with the failure, and any other as it is. */
  lemma RunsEndRightly(cfg: Config, world: World, opening: seq<Message>)
    requires cfg.maxToolCalls >= 1
    ensures EndsRightly(cfg, world, Run(cfg, world, opening))
  {
    var inv := (s: State, n: nat) => AreWorking(s.steps);
    var final := (o: Outcome) => EndsRightly(cfg, world, o);
    forall s, n: nat | 1 <= n <= cfg.maxIterations && inv(s, n - 1)
      ensures Leads(Iteration(cfg, world, n, s), n, inv, final)
    {
      IterationEnds(cfg, world, s, n);
    }
    forall s | inv(s, cfg.maxIterations) ensures final(RanOut(cfg, world, s)) { RunningOutEnds(cfg, world, s); }
    RunInduction(cfg, world, inv, final, Start(opening), 1);
    assert final(Run(cfg, world, opening));
  }

  /** The answer of a run that the advice guard stopped. */
  lemma AdviceIsNeverAnswered(cfg: Config, world: World, opening: seq<Message>) returns (blocked: string)
    requires cfg.maxToolCalls >= 1 && Run(cfg, world, opening).result.stop == StopInvestmentAdvice
    ensures var result := Run(cfg, world, opening).result;
      && "I can't advise. " <= result.answer
      && world.advice(blocked) != []
      && forall n :: 0 <= n < |result.steps| && result.steps[n].kind !in {ToolCall, UngroundedAnswer} ==>
           result.steps[n].result
             == Value.Text(if result.steps[n].kind == AdvisoryAnswer then blocked else result.answer)
  {
    var end := Run(cfg, world, opening);
    RunsEndRightly(cfg, world, opening);
    blocked := BlockedDraft(cfg, world, end);
  }

  lemma BlockedDraft(cfg: Config, world: World, end: Outcome) returns (blocked: string)
    requires EndsRightly(cfg, world, end) && end.result.stop == StopInvestmentAdvice
    ensures var result := end.result;
      && "I can't advise. " <= result.answer
      && world.advice(blocked) != []
      && forall n :: 0 <= n < |result.steps| && result.steps[n].kind !in {ToolCall, UngroundedAnswer} ==>
           result.steps[n].result
             == Value.Text(if result.steps[n].kind == AdvisoryAnswer then blocked else result.answer)
  {
    var result, requests := end.result, end.requests;
    var before :| AreWorking(before) && requests != []
      && EndsOn(cfg, world, result, requests[|requests| - 1].taken, before);
    var draft := Strip(requests[|requests| - 1].taken.value.content);
    var unverified := if draft == "" then [] else UnsupportedFigures(world.read, draft, before);
    blocked := Caveated(unverified, draft);
    OnlyInItsStep(before, result.iterations, blocked, result.answer, result.steps);
  }

  lemma OnlyInItsStep(before: seq<Step>, i: nat, blocked: string, answer: string, steps: seq<Step>)
    requires AreWorking(before)
    requires steps == before + [Step(i, AdvisoryAnswer, "advisory_answer", Value.Text(blocked), false),
                                Closing(i, answer, false)]
    ensures forall n :: 0 <= n < |steps| && steps[n].kind !in {ToolCall, UngroundedAnswer} ==>
      steps[n].result == Value.Text(if steps[n].kind == AdvisoryAnswer then blocked else answer)
  {
    forall n | 0 <= n < |before| ensures steps[n].kind in {ToolCall, UngroundedAnswer} { assert steps[n] == before[n]; }
  }

  /** The answer of a run that ends with unverified figures says so first. */
  lemma UnverifiedFiguresAreNamed(cfg: Config, world: World, opening: seq<Message>)
    requires cfg.maxToolCalls >= 1 && Run(cfg, world, opening).result.stop == StopUnverifiedFigures
    ensures "[Unverified: " <= Run(cfg, world, opening).result.answer
  {
    RunsEndRightly(cfg, world, opening);
  }

  // ----- what was asked of whom

  /** A request, as far as it was asked and answered. */
  function Shown(requests: seq<Request>): seq<(bool, Option<Reply>)> {
    seq(|requests|, n requires 0 <= n < |requests| => (requests[n].toRouter, requests[n].taken))
  }

  /** What an iteration asks: the router first, if it drives, and the larger model if the
      router has no tool call, or does not drive.  Prose of the router is not taken. */
  function Expected(world: World, k: nat, driven: bool): seq<(bool, Option<Reply>)> {
    if !driven then [(false, world.model(k))]
    else if world.router(k).Routed? then [(true, Some(Reply("", world.router(k).calls)))]
    else if world.router(k).RouterFailed? then [(true, None)]
    else [(true, None), (false, world.model(k))]
  }

  predicate AskedRightly(world: World, requests: seq<Request>, k: nat) {
    Shown(RequestsOf(requests, k)) == Expected(world, k, RouterAsked(requests, k))
  }

  predicate AllAskedRightly(world: World, requests: seq<Request>, last: nat) {
    && (forall n :: 0 <= n < |requests| ==> 1 <= requests[n].iteration <= last)
    && forall k :: 1 <= k <= last ==> AskedRightly(world, requests, k)
  }

  lemma {:induction false} RequestsOfConcat(a: seq<Request>, b: seq<Request>, k: nat)
    ensures RequestsOf(a + b, k) == RequestsOf(a, k) + RequestsOf(b, k)
  {
    if b == [] {
      assert a + b == a;
    } else {
      var last := |b| - 1;
      assert (a + b)[..|a + b| - 1] == a + b[..last];
      RequestsOfConcat(a, b[..last], k);
      Assoc(RequestsOf(a, k), RequestsOf(b[..last], k), if b[last].iteration == k then [b[last]] else []);
    }
  }

  lemma {:induction false} NoRequestsOf(requests: seq<Request>, k: nat)
    requires forall n :: 0 <= n < |requests| ==> requests[n].iteration != k
    ensures RequestsOf(requests, k) == [] && !RouterAsked(requests, k)
  {
    if requests != [] { NoRequestsOf(requests[..|requests| - 1], k); }
  }

  lemma {:induction false} AllRequestsOf(requests: seq<Request>, k: nat)
    requires forall n :: 0 <= n < |requests| ==> requests[n].iteration == k
    ensures RequestsOf(requests, k) == requests
  {
    if requests != [] {
      AllRequestsOf(requests[..|requests| - 1], k);
      assert requests == requests[..|requests| - 1] + [requests[|requests| - 1]];
    }
  }

  lemma SentIsExpected(cfg: Config, world: World, i: nat, messages: seq<Message>, escalate: bool)
    ensures var sent := Sent(cfg, world, i, messages, escalate);
      && (forall n :: 0 <= n < |sent| ==> sent[n].iteration == i)
      && Shown(sent) == Expected(world, i, RouterAsked(sent, i))
  {
    var sent := Sent(cfg, world, i, messages, escalate);
    assert sent[0].toRouter == UsesRouter(cfg, escalate);
    if UsesRouter(cfg, escalate) { assert RouterAsked(sent, i); }
  }

  lemma AskingRightly(cfg: Config, world: World, st: State, i: nat)
    requires i >= 1 && AllAskedRightly(world, st.requests, i - 1)
    ensures AllAskedRightly(world, Asked(cfg, world, i, st).requests, i)
  {
    var old', sent := st.requests, Sent(cfg, world, i, st.messages, st.escalate);
    SentIsExpected(cfg, world, i, st.messages, st.escalate);
    forall k | 1 <= k <= i ensures AskedRightly(world, old' + sent, k) {
      RequestsOfConcat(old', sent, k);
      RouterAskedConcat(old', sent, k);
      if k < i {
        NoRequestsOf(sent, k);
        assert AskedRightly(world, old', k);
      } else {
        NoRequestsOf(old', k);
        AllRequestsOf(sent, k);
        assert [] + sent == sent;
      }
    }
  }

  function RouterRequests(requests: seq<Request>): nat {
    if requests == [] then 0
    else RouterRequests(requests[..|requests| - 1]) + if requests[|requests| - 1].toRouter then 1 else 0
  }

  lemma {:induction false} RouterRequestsOfConcat(a: seq<Request>, b: seq<Request>)
    ensures RouterRequests(a + b) == RouterRequests(a) + RouterRequests(b)
  {
    if b == [] {
      assert a + b == a;
    } else {
      assert (a + b)[..|a + b| - 1] == a + b[..|b| - 1];
      RouterRequestsOfConcat(a, b[..|b| - 1]);
    }
  }

  lemma AskingCounts(cfg: Config, world: World, st: State, i: nat)
    requires st.routerCalls == RouterRequests(st.requests)
    ensures Asked(cfg, world, i, st).routerCalls == RouterRequests(Asked(cfg, world, i, st).requests)
  {
    var sent := Sent(cfg, world, i, st.messages, st.escalate);
    RouterRequestsOfConcat(st.requests, sent);
    if |sent| == 2 {
      assert sent[..1] == [sent[0]];
    }
    assert |sent| == 1 ==> sent == [sent[0]];
    OneRouterRequest(sent[0]);
  }

  lemma OneRouterRequest(request: Request)
    ensures RouterRequests([request]) == if request.toRouter then 1 else 0
  {
    assert [request][..0] == [];
  }

  ghost predicate AskedSoFar(world: World, st: State, last: nat) {
    AllAskedRightly(world, st.requests, last) && st.routerCalls == RouterRequests(st.requests)
  }

  ghost predicate AskedAtEnd(world: World, end: Outcome) {
    && end.Stop? && AllAskedRightly(world, end.requests, end.result.iterations)
    && end.result.routerCalls == RouterRequests(end.requests)
  }

  lemma IterationAsks(cfg: Config, world: World, st: State, i: nat)
    requires cfg.maxToolCalls >= 1 && i >= 1 && AskedSoFar(world, st, i - 1)
    ensures match Iteration(cfg, world, i, st)
      case Continue(next) => AskedSoFar(world, next, i)
      case Stop(_, _) => AskedAtEnd(world, Iteration(cfg, world, i, st))
  {
    AskingRightly(cfg, world, st, i);
    AskingCounts(cfg, world, st, i);
    NothingElseAsked(cfg, world, st, i);
  }

  lemma NothingElseAsked(cfg: Config, world: World, st: State, i: nat)
    requires cfg.maxToolCalls >= 1
    ensures var asked := Asked(cfg, world, i, st);
      match Iteration(cfg, world, i, st)
      case Continue(next) => next.requests == asked.requests && next.routerCalls == asked.routerCalls
      case Stop(result, requests) =>
        requests == asked.requests && result.routerCalls == asked.routerCalls && result.iterations == i
  {
  }

  /** Each iteration of a run asks as it should, and is answered by what was asked: the router
      if it drives, and the larger model behind it if it has no tool call; the count of router
      calls is the number of requests to it. */
  lemma EachIterationAsksRightly(cfg: Config, world: World, opening: seq<Message>)
    requires cfg.maxToolCalls >= 1
    ensures var end := Run(cfg, world, opening);
      && (forall k :: 1 <= k <= end.result.iterations ==> AskedRightly(world, end.requests, k))
      && end.result.routerCalls == RouterRequests(end.requests)
  {
    var inv := (s: State, n: nat) => AskedSoFar(world, s, n);
    var final := (o: Outcome) => AskedAtEnd(world, o);
    forall s, n: nat | 1 <= n <= cfg.maxIterations && inv(s, n - 1)
      ensures Leads(Iteration(cfg, world, n, s), n, inv, final)
    {
      IterationAsks(cfg, world, s, n);
    }
    forall s | inv(s, cfg.maxIterations) ensures final(RanOut(cfg, world, s)) { }
    RunInduction(cfg, world, inv, final, Start(opening), 1);
    assert final(Run(cfg, world, opening));
  }
}
