/**
 * The hand-rolled ReAct agent (src/chapter_4/main.py): a `while True` loop that asks a
 * reasoning step (prompt | model | ReAct output parser) for the next step, runs the named
 * tool on an action and records `(action, observation)` in `intermediate_steps`, stops on a
 * finish, and stops at the loop limit only for a step that is neither.
 *
 * The reasoning step is a parameter `reason(k, prompt)`: `prompt` is exactly what the code
 * hands to `agent.invoke` (the fixed question and the current `intermediate_steps`), and `k`
 * is the number of earlier calls, so that a scripted or non-deterministic model can answer
 * the same prompt differently. The code runs until the model answers with a finish; to keep
 * the model total, `fuel` bounds the number of model calls and `OutOfFuel` says the code
 * would have asked again.
 */
module ReactLoop {
  import opened Wrappers
  import TextLengthTool

  /** The question every iteration puts to the model. */
  const Question: string := "What is the length of the string: Hello, world!"

  /** `agent_loop_limit`. */
  const AgentLoopLimit: nat := 20

  /** `AgentAction`: the tool to run, its input, and the model text it was parsed from. */
  datatype AgentAction = AgentAction(tool: string, toolInput: string, log: string)

  /**
   * What one call of the reasoning step returns: an `AgentAction`, an `AgentFinish`, or
   * anything else (the last `elif` of the loop is reached only for the third kind).
   */
  datatype AgentStep =
    | Action(action: AgentAction)
    | Finish(returnValues: map<string, string>, log: string)
    | Other

  /** A tool: a name and a function from its string input to its observation. */
  datatype Tool<O> = Tool(name: string, invoke: string -> O)

  /** One `(action, observation)` pair of `intermediate_steps`. */
  datatype Entry<O> = Entry(action: AgentAction, observation: O)

  /** The `input` dictionary of one `agent.invoke` call. */
  datatype Prompt<O> = Prompt(input: string, agentScratchpad: seq<Entry<O>>)

  /** How the loop ended. */
  datatype Outcome =
    | Finished(returnValues: map<string, string>)  // an `AgentFinish`: its values are printed
    | LoopLimitReached                             // the limit message is printed
    | ToolNotFound(toolName: string)               // `next` on an empty filter raises
    | OutOfFuel                                    // the code would call the model again

  /** The end state of the loop, and every prompt the model was given, in order. */
  datatype Run<O> = Run(outcome: Outcome, intermediateSteps: seq<Entry<O>>, agentStepCount: nat,
                        prompts: seq<Prompt<O>>)

  /** `find_tool`: the first tool, in list order, with the given name; none if there is none. */
  function FindTool<O>(tools: seq<Tool<O>>, toolName: string): (r: Option<Tool<O>>)
    ensures r.None? <==> forall i :: 0 <= i < |tools| ==> tools[i].name != toolName
    ensures r.Some? ==>
              exists i :: 0 <= i < |tools| && tools[i] == r.value && tools[i].name == toolName &&
                forall j :: 0 <= j < i ==> tools[j].name != toolName
  {
    if tools == [] then None
    else if tools[0].name == toolName then Some(tools[0])
    else
      var r := FindTool(tools[1..], toolName);
      assert r.Some? ==> exists i :: 1 <= i < |tools| && tools[i] == r.value && tools[i].name == toolName &&
                           forall j :: 0 <= j < i ==> tools[j].name != toolName by {
        if r.Some? {
          var i :| 0 <= i < |tools[1..]| && tools[1..][i] == r.value && tools[1..][i].name == toolName &&
                   forall j :: 0 <= j < i ==> tools[1..][j].name != toolName;
          assert tools[i + 1] == r.value;
          assert forall j :: 1 <= j < i + 1 ==> tools[j].name == tools[1..][j - 1].name;
        }
      }
      r
  }

  /**
   * The loop from a given state: `steps` is `intermediate_steps`, `count` is
   * `agent_step_count`, `prompts` the prompts given so far, `fuel` the calls still allowed.
   */
  function RunFrom<O>(tools: seq<Tool<O>>, reason: (nat, Prompt<O>) -> AgentStep, fuel: nat,
                      steps: seq<Entry<O>>, count: nat, prompts: seq<Prompt<O>>): Run<O>
    decreases fuel
  {
    if fuel == 0 then Run(OutOfFuel, steps, count, prompts)
    else
      var prompt := Prompt(Question, steps);
      match reason(count, prompt)
      case Action(action) =>
        (match FindTool(tools, action.tool)
         case None => Run(ToolNotFound(action.tool), steps, count + 1, prompts + [prompt])
         case Some(tool) =>
           // `str(tool_input)` is the input itself: the parser yields a string
           var observation := tool.invoke(action.toolInput);
           RunFrom(tools, reason, fuel - 1, steps + [Entry(action, observation)], count + 1, prompts + [prompt]))
      case Finish(values, _) => Run(Finished(values), steps, count + 1, prompts + [prompt])
      case Other =>
        if count + 1 >= AgentLoopLimit then Run(LoopLimitReached, steps, count + 1, prompts + [prompt])
        else RunFrom(tools, reason, fuel - 1, steps, count + 1, prompts + [prompt])
  }

  /** The whole run of `main`'s loop: empty scratchpad, count zero. */
  function Agent<O>(tools: seq<Tool<O>>, reason: (nat, Prompt<O>) -> AgentStep, fuel: nat): Run<O>
  {
    RunFrom(tools, reason, fuel, [], 0, [])
  }

  /**
   * The loop of `main`, as the code writes it: the list and the counter are updated in
   * place, and the run is the one `Agent` describes.
   */
  method RunAgent<O>(tools: seq<Tool<O>>, reason: (nat, Prompt<O>) -> AgentStep, fuel: nat)
    returns (outcome: Outcome, intermediateSteps: seq<Entry<O>>, agentStepCount: nat, prompts: seq<Prompt<O>>)
    ensures Run(outcome, intermediateSteps, agentStepCount, prompts) == Agent(tools, reason, fuel)
    ensures agentStepCount == |prompts| <= fuel
    ensures forall k :: 0 <= k < |prompts| ==> prompts[k].input == Question
    ensures forall k :: 0 <= k < |prompts| ==> prompts[k].agentScratchpad <= intermediateSteps
  {
    intermediateSteps, agentStepCount, prompts := [], 0, [];
    outcome := OutOfFuel;
    while agentStepCount < fuel
      invariant agentStepCount <= fuel
      invariant Agent(tools, reason, fuel) ==
                RunFrom(tools, reason, fuel - agentStepCount, intermediateSteps, agentStepCount, prompts)
      decreases fuel - agentStepCount
    {
      var prompt := Prompt(Question, intermediateSteps);
      var agentStep := reason(agentStepCount, prompt);
      prompts := prompts + [prompt];
      agentStepCount := agentStepCount + 1;
      match agentStep {
        case Action(action) =>
          var tool := FindTool(tools, action.tool);
          if tool.None? {
            outcome := ToolNotFound(action.tool);
            break;
          }
          var observation := tool.value.invoke(action.toolInput);
          intermediateSteps := intermediateSteps + [Entry(action, observation)];
        case Finish(values, _) =>
          outcome := Finished(values);
          break;
        case Other =>
          if agentStepCount >= AgentLoopLimit {
            outcome := LoopLimitReached;
            break;
          }
      }
    }
    AgentTrace(tools, reason, fuel);
  }

  // ---------------------------------------------------------------------------------------
  // What one iteration does

  /**
   * Call `k` on `prompt` did not end the loop, and the scratchpad became `next`: an action
   * whose tool exists appended exactly its `(action, observation)` pair; a step that is
   * neither action nor finish, below the limit, appended nothing.
   */
  ghost predicate Continued<O>(tools: seq<Tool<O>>, reason: (nat, Prompt<O>) -> AgentStep,
                               k: nat, prompt: Prompt<O>, next: seq<Entry<O>>)
  {
    match reason(k, prompt)
    case Action(a) =>
      FindTool(tools, a.tool).Some? &&
      next == prompt.agentScratchpad + [Entry(a, FindTool(tools, a.tool).value.invoke(a.toolInput))]
    case Finish(_, _) => false
    case Other => k + 1 < AgentLoopLimit && next == prompt.agentScratchpad
  }

  /**
   * Call `k` on `prompt` ended the loop with `outcome`: a finish, an action naming no tool,
   * or a step that is neither once the count reached the limit.
   */
  ghost predicate Stopped<O>(tools: seq<Tool<O>>, reason: (nat, Prompt<O>) -> AgentStep,
                             k: nat, prompt: Prompt<O>, outcome: Outcome)
  {
    match reason(k, prompt)
    case Action(a) => FindTool(tools, a.tool).None? && outcome == ToolNotFound(a.tool)
    case Finish(values, _) => outcome == Finished(values)
    case Other => k + 1 >= AgentLoopLimit && outcome == LoopLimitReached
  }

  /** Everything the loop promises about a run that starts from a consistent state. */
  ghost predicate TraceOf<O>(tools: seq<Tool<O>>, reason: (nat, Prompt<O>) -> AgentStep, fuel: nat,
                             steps: seq<Entry<O>>, count: nat, prompts: seq<Prompt<O>>, r: Run<O>)
  {
    // one prompt per iteration, and the counter counts the iterations
    && |r.prompts| == r.agentStepCount
    && count <= r.agentStepCount <= count + fuel
    && prompts <= r.prompts
    // every iteration asks the fixed question with the scratchpad as it then was
    && (forall k :: count <= k < r.agentStepCount ==> r.prompts[k].input == Question)
    && (r.agentStepCount > count ==> r.prompts[count].agentScratchpad == steps)
    && (forall k :: count <= k < r.agentStepCount - 1 ==>
          Continued(tools, reason, k, r.prompts[k], r.prompts[k + 1].agentScratchpad))
    // the scratchpad only grows, by at most one entry per iteration
    && steps <= r.intermediateSteps
    && |r.intermediateSteps| - |steps| <= r.agentStepCount - count
    && (forall k :: count <= k < r.agentStepCount ==> r.prompts[k].agentScratchpad <= r.intermediateSteps)
    // how it ended
    && (r.outcome == OutOfFuel ==>
          && r.agentStepCount == count + fuel
          && (r.agentStepCount == count ==> r.intermediateSteps == steps)
          && (r.agentStepCount > count ==>
                Continued(tools, reason, r.agentStepCount - 1, r.prompts[r.agentStepCount - 1], r.intermediateSteps)))
    && (r.outcome != OutOfFuel ==>
          && r.agentStepCount > count
          && Stopped(tools, reason, r.agentStepCount - 1, r.prompts[r.agentStepCount - 1], r.outcome)
          && r.intermediateSteps == r.prompts[r.agentStepCount - 1].agentScratchpad)
  }

  /** An iteration that did not end the loop, followed by a run that keeps `TraceOf`, keeps it. */
  lemma TraceExtend<O>(tools: seq<Tool<O>>, reason: (nat, Prompt<O>) -> AgentStep, fuel: nat,
                       steps: seq<Entry<O>>, count: nat, prompts: seq<Prompt<O>>, next: seq<Entry<O>>, r: Run<O>)
    requires fuel > 0 && |prompts| == count
    requires Continued(tools, reason, count, Prompt(Question, steps), next)
    requires TraceOf(tools, reason, fuel - 1, next, count + 1, prompts + [Prompt(Question, steps)], r)
    ensures TraceOf(tools, reason, fuel, steps, count, prompts, r)
  {
    var prompt := Prompt(Question, steps);
    assert next == steps + next[|steps|..] by {
      assert steps <= next;
    }
    assert r.prompts[count] == prompt by {
      assert (prompts + [prompt])[count] == prompt;
    }
  }

  /** An iteration that ended the loop gives a run that keeps `TraceOf`. */
  lemma TraceStop<O>(tools: seq<Tool<O>>, reason: (nat, Prompt<O>) -> AgentStep, fuel: nat,
                     steps: seq<Entry<O>>, count: nat, prompts: seq<Prompt<O>>, outcome: Outcome)
    requires fuel > 0 && |prompts| == count && outcome != OutOfFuel
    requires Stopped(tools, reason, count, Prompt(Question, steps), outcome)
    ensures TraceOf(tools, reason, fuel, steps, count, prompts,
                    Run(outcome, steps, count + 1, prompts + [Prompt(Question, steps)]))
  {
  }

  /** The loop, run from any consistent state, does what `TraceOf` says. */
  lemma {:induction false} RunFromTrace<O>(tools: seq<Tool<O>>, reason: (nat, Prompt<O>) -> AgentStep, fuel: nat,
                                           steps: seq<Entry<O>>, count: nat, prompts: seq<Prompt<O>>)
    requires |prompts| == count
    ensures TraceOf(tools, reason, fuel, steps, count, prompts, RunFrom(tools, reason, fuel, steps, count, prompts))
    decreases fuel
  {
    if fuel > 0 {
      var prompt := Prompt(Question, steps);
      var prompts' := prompts + [prompt];
      var next: seq<Entry<O>>;
      match reason(count, prompt) {
      case Action(a) =>
        if FindTool(tools, a.tool).None? {
          TraceStop(tools, reason, fuel, steps, count, prompts, ToolNotFound(a.tool));
          return;
        }
        next := steps + [Entry(a, FindTool(tools, a.tool).value.invoke(a.toolInput))];
      case Finish(values, _) =>
        TraceStop(tools, reason, fuel, steps, count, prompts, Finished(values));
        return;
      case Other =>
        if count + 1 >= AgentLoopLimit {
          TraceStop(tools, reason, fuel, steps, count, prompts, LoopLimitReached);
          return;
        }
        next := steps;
      }
      RunFromTrace(tools, reason, fuel - 1, next, count + 1, prompts');
      TraceExtend(tools, reason, fuel, steps, count, prompts, next, RunFrom(tools, reason, fuel - 1, next, count + 1, prompts'));
    }
  }

  /** The run of `main`'s loop does what `TraceOf` says, starting from nothing. */
  lemma AgentTrace<O>(tools: seq<Tool<O>>, reason: (nat, Prompt<O>) -> AgentStep, fuel: nat)
    ensures TraceOf(tools, reason, fuel, [], 0, [], Agent(tools, reason, fuel))
  {
    RunFromTrace(tools, reason, fuel, [], 0, []);
  }

  /**
   * An action that names no registered tool ends the run: no tool has that name, and the
   * scratchpad is the one that call was given, so that step appended nothing.
   */
  lemma ToolNotFoundLeavesScratchpad<O>(tools: seq<Tool<O>>, reason: (nat, Prompt<O>) -> AgentStep, fuel: nat)
    requires Agent(tools, reason, fuel).outcome.ToolNotFound?
    ensures var r := Agent(tools, reason, fuel);
            && r.agentStepCount >= 1
            && |r.prompts| == r.agentStepCount
            && (forall i :: 0 <= i < |tools| ==> tools[i].name != r.outcome.toolName)
            && r.intermediateSteps == r.prompts[r.agentStepCount - 1].agentScratchpad
            && reason(r.agentStepCount - 1, r.prompts[r.agentStepCount - 1]).Action?
            && reason(r.agentStepCount - 1, r.prompts[r.agentStepCount - 1]).action.tool == r.outcome.toolName
  {
    AgentTrace(tools, reason, fuel);
  }

  /** A finish answer to the first call ends the run at once with an empty scratchpad. */
  lemma FinishFirst<O>(tools: seq<Tool<O>>, reason: (nat, Prompt<O>) -> AgentStep, fuel: nat)
    requires fuel > 0 && reason(0, Prompt(Question, [])).Finish?
    ensures Agent(tools, reason, fuel) ==
            Run(Finished(reason(0, Prompt(Question, [])).returnValues), [], 1, [Prompt(Question, [])])
  {
  }

  /**
   * The limit is checked only for steps that are neither action nor finish: a model that
   * only ever names a registered tool is never stopped, and the counter passes the limit.
   */
  lemma {:induction false} ActionsAreNeverCapped<O>(tools: seq<Tool<O>>, reason: (nat, Prompt<O>) -> AgentStep,
                                                    fuel: nat, steps: seq<Entry<O>>, count: nat,
                                                    prompts: seq<Prompt<O>>)
    requires forall k: nat, p: Prompt<O> :: reason(k, p).Action? && FindTool(tools, reason(k, p).action.tool).Some?
    ensures var r := RunFrom(tools, reason, fuel, steps, count, prompts);
            && r.outcome == OutOfFuel
            && r.agentStepCount == count + fuel
            && |r.intermediateSteps| == |steps| + fuel
    decreases fuel
  {
    if fuel > 0 {
      var prompt := Prompt(Question, steps);
      var a := reason(count, prompt).action;
      var observation := FindTool(tools, a.tool).value.invoke(a.toolInput);
      ActionsAreNeverCapped(tools, reason, fuel - 1, steps + [Entry(a, observation)], count + 1, prompts + [prompt]);
    }
  }

  /** In particular, 21 calls naming a registered tool leave the run going past the limit. */
  lemma ActionsRunPastLimit<O>(tools: seq<Tool<O>>, reason: (nat, Prompt<O>) -> AgentStep)
    requires forall k: nat, p: Prompt<O> :: reason(k, p).Action? && FindTool(tools, reason(k, p).action.tool).Some?
    ensures Agent(tools, reason, AgentLoopLimit + 1).outcome == OutOfFuel
    ensures Agent(tools, reason, AgentLoopLimit + 1).agentStepCount > AgentLoopLimit
  {
    ActionsAreNeverCapped(tools, reason, AgentLoopLimit + 1, [], 0, []);
  }

  /**
   * A model that only answers with steps that are neither action nor finish is stopped when
   * the counter reaches the limit, and nothing is appended.
   */
  lemma {:induction false} OtherStepsStopAtLimit<O>(tools: seq<Tool<O>>, reason: (nat, Prompt<O>) -> AgentStep,
                                                    fuel: nat, steps: seq<Entry<O>>, count: nat,
                                                    prompts: seq<Prompt<O>>)
    requires forall k: nat, p: Prompt<O> :: reason(k, p) == Other
    requires count < AgentLoopLimit <= count + fuel
    ensures var r := RunFrom(tools, reason, fuel, steps, count, prompts);
            && r.outcome == LoopLimitReached
            && r.agentStepCount == AgentLoopLimit
            && r.intermediateSteps == steps
    decreases fuel
  {
    if count + 1 < AgentLoopLimit {
      OtherStepsStopAtLimit(tools, reason, fuel - 1, steps, count + 1, prompts + [Prompt(Question, steps)]);
    }
  }

  // ---------------------------------------------------------------------------------------
  // The tools of `main`

  /** `tools = [get_text_length]`. */
  function MainTools(): seq<Tool<nat>>
  {
    [Tool(TextLengthTool.Name, TextLengthTool.GetTextLength)]
  }

  /** The example's action: the length of "Hello, world!". */
  const ExampleAction := AgentAction(TextLengthTool.Name, "Hello, world!", "")

  /** A scripted model: the example's action on the first call, a finish with "13" after it. */
  function ExampleScript(k: nat, p: Prompt<nat>): AgentStep
  {
    if k == 0 then Action(ExampleAction) else Finish(map["output" := "13"], "")
  }

  /**
   * With `main`'s tools, that script gives one entry recording the observation 13, two
   * prompts, and the finish.
   */
  lemma MainRunExample(fuel: nat)
    requires fuel >= 2
    ensures Agent(MainTools(), ExampleScript, fuel) ==
            Run(Finished(map["output" := "13"]), [Entry(ExampleAction, 13)], 2,
                [Prompt(Question, []), Prompt(Question, [Entry(ExampleAction, 13)])])
  {
    var entry := Entry(ExampleAction, 13);
    assert FindTool(MainTools(), ExampleAction.tool) == Some(MainTools()[0]);
    assert MainTools()[0].invoke(ExampleAction.toolInput) == 13;
    assert ExampleScript(0, Prompt(Question, [])) == Action(ExampleAction);
    var noSteps: seq<Entry<nat>> := [];
    var noPrompts: seq<Prompt<nat>> := [];
    assert noSteps + [entry] == [entry];
    assert noPrompts + [Prompt(Question, noSteps)] == [Prompt(Question, [])];
    assert Agent(MainTools(), ExampleScript, fuel) ==
           RunFrom(MainTools(), ExampleScript, fuel - 1, [entry], 1, [Prompt(Question, [])]);
    assert RunFrom(MainTools(), ExampleScript, fuel - 1, [entry], 1, [Prompt(Question, [])]) ==
           Run(Finished(map["output" := "13"]), [entry], 2, [Prompt(Question, []), Prompt(Question, [entry])]);
  }
}
