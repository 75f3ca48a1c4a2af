/** agent/orchestrator.py: one run of the agent loop.

    The model, the router, the tools, the advice patterns and the number finder are a
    `World` of arbitrary functions of the iteration (and of the call's place in it), so a
    statement for every world is a statement for everything they may do.  Events, latencies
    and token counts are left out; answers the program writes itself are shortened to what
    the statements need, that they are not empty. */
module Orchestrator {
  import opened Seqs
  import opened Text
  import opened Grounding
  import opened Untrusted

  const MAX_GROUNDING_RETRIES: nat := 1

  /** A tool call of an assembled assistant message; "" where the model left a field out. */
  datatype Call = Call(id: string, name: string, arguments: string)

  datatype Message =
    | System(content: string)
    | User(content: string)
    | Assistant(content: string, calls: seq<Call>)
    | Tool(callId: string, name: string, content: string)

  datatype Reply = Reply(content: string, calls: seq<Call>)

  /** What a call to the router comes to: a tool-calling message, prose or nothing, or an
      exception. */
  datatype Routing = Routed(calls: seq<Call>) | NoToolCall | RouterFailed

  datatype ToolOutcome = ToolOutcome(result: Value, ok: bool)

  datatype World = World(
    router: nat -> Routing,
    model: nat -> Option<Reply>,          // None is an exception
    tool: (nat, nat) -> ToolOutcome,
    validArguments: string -> bool,
    freshId: (nat, nat) -> string,
    compact: (string, Value) -> string,
    describe: Step -> string,
    read: Reader,
    advice: string -> seq<string>)

  datatype Config = Config(maxIterations: nat, maxToolCalls: int, model: string, routerModel: string) {
    /** A router equal to the model is no router. */
    predicate HasRouter() { routerModel != "" && routerModel != model }
  }

  /** A request to a model, as it went out, and what the loop took from it. */
  datatype Request = Request(iteration: nat, toRouter: bool, messages: seq<Message>, taken: Option<Reply>)

  datatype StopReason =
    | StopFinalAnswer | StopEmptyResponse | StopUnverifiedFigures | StopInvestmentAdvice
    | StopToolCallBudget | StopMaxIterations | StopInferenceError

  datatype Result = Result(answer: string, steps: seq<Step>, iterations: nat, completed: bool,
                           stop: StopReason, routerCalls: nat)

  datatype State = State(messages: seq<Message>, steps: seq<Step>, retries: nat, escalate: bool,
                         routerCalls: nat, requests: seq<Request>)

  /** How an iteration ends: with another one to come, or with the result. */
  datatype Outcome = Continue(state: State) | Stop(result: Result, requests: seq<Request>)

  // ----- texts the program writes

  function Findings(world: World, steps: seq<Step>): string {
    if steps == [] then ""
    else (if steps[0].ok && steps[0].tool != "final_answer" then "- " + world.describe(steps[0]) + "\n" else "")
         + Findings(world, steps[1..])
  }

  function Names(figures: seq<Figure>): string {
    if figures == [] then "" else figures[0].text + " " + Names(figures[1..])
  }

  function Correction(figures: seq<Figure>): string { "Not in any result: " + Names(figures) }
  function Caveat(figures: seq<Figure>): string { "[Unverified: " + Names(figures) + "]\n\n" }
  function Redirection(findings: string): string { "I can't advise. " + findings }
  function Exhausted(findings: string): string { "Out of steps. " + findings }
  function OverBudget(findings: string): string { "Too many calls. " + findings }
  const UNREACHABLE: string := "No answer."
  const EMPTY_RESPONSE: string := "Empty response."
  const BAD_INPUT: Value := Dict([("ok", Bool(false)), ("error", Text("bad_input"))])

  // ----- one iteration, branch by branch

  predicate UsesRouter(cfg: Config, escalate: bool) { cfg.HasRouter() && !escalate }

  /** The message an iteration goes on with.  Only tool calls are taken from the router; if
      it has none, or is not to be asked, the larger model is called. */
  function ReplyOf(cfg: Config, world: World, i: nat, escalate: bool): Option<Reply> {
    if !UsesRouter(cfg, escalate) then world.model(i)
    else
      match world.router(i)
      case RouterFailed => None
      case Routed(calls) => Some(Reply("", calls))
      case NoToolCall => world.model(i)
  }

  /** The requests an iteration sends. */
  function Sent(cfg: Config, world: World, i: nat, messages: seq<Message>, escalate: bool): seq<Request> {
    if !UsesRouter(cfg, escalate) then [Request(i, false, messages, world.model(i))]
    else
      match world.router(i)
      case RouterFailed => [Request(i, true, messages, None)]
      case Routed(calls) => [Request(i, true, messages, Some(Reply("", calls)))]
      case NoToolCall => [Request(i, true, messages, None), Request(i, false, messages, world.model(i))]
  }

  function Asked(cfg: Config, world: World, i: nat, st: State): State {
    st.(escalate := false,
        routerCalls := if UsesRouter(cfg, st.escalate) then st.routerCalls + 1 else st.routerCalls,
        requests := st.requests + Sent(cfg, world, i, st.messages, st.escalate))
  }

  function InferenceFailed(i: nat, st: State): Outcome {
    Stop(Result(UNREACHABLE, st.steps + [Step(i, FinalAnswer, "final_answer", Text(UNREACHABLE), false)], i, false,
                StopInferenceError, st.routerCalls), st.requests)
  }

  function Unverified(world: World, answer: string, steps: seq<Step>): seq<Figure> {
    if answer == "" then [] else UnsupportedFigures(world.read, answer, steps)
  }

  /** A draft with figures that trace to nothing is thrown away, once in a run. */
  function Discard(i: nat, st: State, answer: string, unverified: seq<Figure>): State {
    st.(retries := st.retries + 1, escalate := true,
        steps := st.steps + [Step(i, UngroundedAnswer, "ungrounded_answer", Text(answer), false)],
        messages := st.messages + [Assistant(answer, []), User(Correction(unverified))])
  }

  function Advice(world: World, answer: string): seq<string> {
    if answer == "" then [] else world.advice(answer)
  }

  function Finish(world: World, i: nat, st: State, draft: string, unverified: seq<Figure>): Outcome {
    var answer := if unverified != [] then Caveat(unverified) + draft else draft;
    var advice := Advice(world, answer);
    var steps := if advice == [] then st.steps
                 else st.steps + [Step(i, AdvisoryAnswer, "advisory_answer", Text(answer), false)];
    var final := if advice == [] then answer else Redirection(Findings(world, steps));
    var clean := final != "" && unverified == [] && advice == [];
    Stop(Result(if final == "" then EMPTY_RESPONSE else final,
                steps + [Step(i, FinalAnswer, "final_answer", Text(final), clean)], i, clean,
                if advice != [] then StopInvestmentAdvice
                else if unverified != [] then StopUnverifiedFigures
                else if final != "" then StopFinalAnswer else StopEmptyResponse,
                st.routerCalls), st.requests)
  }

  function Answered(world: World, i: nat, st: State, content: string): Outcome {
    var answer := Strip(content);
    var unverified := Unverified(world, answer, st.steps);
    if unverified != [] && st.retries < MAX_GROUNDING_RETRIES then Continue(Discard(i, st, answer, unverified))
    else Finish(world, i, st, answer, unverified)
  }

  function ToolStep(world: World, i: nat, j: nat, call: Call): Step {
    if call.arguments == "" || world.validArguments(call.arguments) then
      Step(i, ToolCall, call.name, world.tool(i, j).result, world.tool(i, j).ok)
    else
      Step(i, ToolCall, if call.name == "" then "(unnamed)" else call.name, BAD_INPUT, false)
  }

  function ToolMessage(world: World, i: nat, j: nat, call: Call): Message {
    Tool(if call.id != "" then call.id else world.freshId(i, j), call.name,
         WrapToolResult(call.name, world.compact(call.name, ToolStep(world, i, j, call).result)))
  }

  function ToolSteps(world: World, i: nat, calls: seq<Call>): seq<Step> {
    seq(|calls|, j requires 0 <= j < |calls| => ToolStep(world, i, j, calls[j]))
  }

  predicate AnyFailed(steps: seq<Step>) {
    exists j :: 0 <= j < |steps| && !steps[j].ok
  }

  function ToolMessages(world: World, i: nat, calls: seq<Call>): seq<Message> {
    seq(|calls|, j requires 0 <= j < |calls| => ToolMessage(world, i, j, calls[j]))
  }

  /** The calls that run are the first ones asked for, as many as the budget allows. */
  function Executed(cfg: Config, calls: seq<Call>): seq<Call>
    requires cfg.maxToolCalls >= 1
  {
    if |calls| > cfg.maxToolCalls then calls[..cfg.maxToolCalls] else calls
  }

  function Worked(cfg: Config, world: World, i: nat, st: State, reply: Reply): State
    requires cfg.maxToolCalls >= 1
  {
    var executed := Executed(cfg, reply.calls);
    var made := ToolSteps(world, i, executed);
    st.(messages := st.messages + ([Assistant(reply.content, reply.calls)] + ToolMessages(world, i, executed)),
        steps := st.steps + made,
        escalate := st.escalate || AnyFailed(made))
  }

  function StoppedOverBudget(world: World, i: nat, worked: State): Outcome {
    var answer := OverBudget(Findings(world, worked.steps));
    Stop(Result(answer, worked.steps + [Step(i, ToolCallBudget, "tool_call_budget", Text(answer), false)], i, false,
                StopToolCallBudget, worked.routerCalls), worked.requests)
  }

  function CalledTools(cfg: Config, world: World, i: nat, st: State, reply: Reply): Outcome
    requires cfg.maxToolCalls >= 1
  {
    var worked := Worked(cfg, world, i, st, reply);
    if |reply.calls| <= cfg.maxToolCalls then Continue(worked) else StoppedOverBudget(world, i, worked)
  }

  function Iteration(cfg: Config, world: World, i: nat, st: State): Outcome
    requires cfg.maxToolCalls >= 1
  {
    var reply, asked := ReplyOf(cfg, world, i, st.escalate), Asked(cfg, world, i, st);
    if reply.None? then InferenceFailed(i, asked)
    else if reply.value.calls == [] then Answered(world, i, asked, reply.value.content)
    else CalledTools(cfg, world, i, asked, reply.value)
  }

  function RanOut(cfg: Config, world: World, st: State): Outcome {
    var answer := Exhausted(Findings(world, st.steps));
    Stop(Result(answer, st.steps + [Step(cfg.maxIterations, FinalAnswer, "final_answer", Text(answer), false)],
                cfg.maxIterations, false, StopMaxIterations, st.routerCalls), st.requests)
  }

  /** The run from iteration `i` on. */
  function RunFrom(cfg: Config, world: World, i: nat, st: State): (end: Outcome)
    requires cfg.maxToolCalls >= 1
    ensures end.Stop?
    decreases cfg.maxIterations + 1 - i
  {
    if i > cfg.maxIterations then RanOut(cfg, world, st)
    else
      match Iteration(cfg, world, i, st)
      case Continue(next) => RunFrom(cfg, world, i + 1, next)
      case Stop(result, requests) => Stop(result, requests)
  }

  function Opening(prompt: string, history: seq<Message>, question: string): seq<Message> {
    [System(prompt)] + history + [User(question)]
  }

  function Start(opening: seq<Message>): State { State(opening, [], 0, false, 0, []) }

  // ----- the loop

  lemma AnyFailedSnoc(steps: seq<Step>, step: Step)
    ensures AnyFailed(steps + [step]) <==> AnyFailed(steps) || !step.ok
  {
    var longer := steps + [step];
    assert longer[|steps|] == step;
    if AnyFailed(steps) {
      var j :| 0 <= j < |steps| && !steps[j].ok;
      assert longer[j] == steps[j];
    }
  }

  /** Runs the calls of one iteration, appending a step and a framed message for each. */
  method RunTools(world: World, i: nat, executed: seq<Call>)
    returns (steps: seq<Step>, messages: seq<Message>, failed: bool)
    ensures steps == ToolSteps(world, i, executed)
    ensures messages == ToolMessages(world, i, executed)
    ensures failed <==> AnyFailed(steps)
  {
    steps, messages, failed := [], [], false;
    for j := 0 to |executed|
      invariant steps == ToolSteps(world, i, executed)[..j]
      invariant messages == ToolMessages(world, i, executed)[..j]
      invariant failed <==> AnyFailed(steps)
    {
      var call := executed[j];
      var step := ToolStep(world, i, j, call);
      AnyFailedSnoc(steps, step);
      steps := steps + [step];
      if !step.ok { failed := true; }
      messages := messages + [ToolMessage(world, i, j, call)];
    }
  }

  method AskModels(cfg: Config, world: World, i: nat, messages: seq<Message>, useRouter: bool)
    returns (reply: Option<Reply>, sent: seq<Request>)
    requires useRouter ==> cfg.HasRouter()
    ensures reply == ReplyOf(cfg, world, i, cfg.HasRouter() && !useRouter)
    ensures sent == Sent(cfg, world, i, messages, cfg.HasRouter() && !useRouter)
  {
    if useRouter {
      match world.router(i) {
        case RouterFailed => return None, [Request(i, true, messages, None)];
        case Routed(calls) => return Some(Reply("", calls)), [Request(i, true, messages, Some(Reply("", calls)))];
        case NoToolCall => sent := [Request(i, true, messages, None)];
      }
    } else {
      sent := [];
    }
    reply := world.model(i);
    sent := sent + [Request(i, false, messages, reply)];
  }

  /** `run_agent`: the run the specification describes, or the error for a budget below one. */
  method RunAgent(cfg: Config, world: World, prompt: string, history: seq<Message>, question: string)
    returns (end: Option<Outcome>)
    ensures end.None? <==> cfg.maxToolCalls < 1
    ensures end.Some? ==> end.value == RunFrom(cfg, world, 1, Start(Opening(prompt, history, question)))
  {
    if cfg.maxToolCalls < 1 { return None; }
    var messages := Opening(prompt, history, question);
    var steps: seq<Step>, retries, escalateNext, routerCalls := [], 0, false, 0;
    var requests: seq<Request> := [];
    for i := 1 to cfg.maxIterations + 1
      invariant RunFrom(cfg, world, i, State(messages, steps, retries, escalateNext, routerCalls, requests))
             == RunFrom(cfg, world, 1, Start(Opening(prompt, history, question)))
    {
      ghost var st := State(messages, steps, retries, escalateNext, routerCalls, requests);
      var useRouter := cfg.HasRouter() && !escalateNext;
      escalateNext := false;
      if useRouter { routerCalls := routerCalls + 1; }
      var reply, sent := AskModels(cfg, world, i, messages, useRouter);
      requests := requests + sent;
      var asked := State(messages, steps, retries, escalateNext, routerCalls, requests);
      assert asked == Asked(cfg, world, i, st) && reply == ReplyOf(cfg, world, i, st.escalate);
      if reply.None? { return Some(InferenceFailed(i, asked)); }

      var content, calls := reply.value.content, reply.value.calls;
      if calls == [] {
        var answer := Strip(content);
        var unverified := Unverified(world, answer, steps);
        if unverified == [] || retries >= MAX_GROUNDING_RETRIES {
          return Some(Finish(world, i, asked, answer, unverified));
        }
        retries := retries + 1;
        steps := steps + [Step(i, UngroundedAnswer, "ungrounded_answer", Text(answer), false)];
        messages := messages + [Assistant(answer, []), User(Correction(unverified))];
        escalateNext := true;
      } else {
        var made, told, failed := RunTools(world, i, Executed(cfg, calls));
        steps := steps + made;
        messages := messages + ([Assistant(content, calls)] + told);
        if failed { escalateNext := true; }
        if |calls| > cfg.maxToolCalls {
          var last := State(messages, steps, retries, escalateNext, routerCalls, requests);
          return Some(StoppedOverBudget(world, i, last));
        }
      }
      ghost var next := State(messages, steps, retries, escalateNext, routerCalls, requests);
      assert Iteration(cfg, world, i, st) == Continue(next);
    }
    end := Some(RanOut(cfg, world, State(messages, steps, retries, escalateNext, routerCalls, requests)));
  }
}
