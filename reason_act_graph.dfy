/**
 * The reason/act graph of src/chapter_8/main.py: a graph over the message list with two
 * nodes, `agent_reason` (the model answers) and `act` (the tool node runs the tool calls
 * of the last answer). Execution enters at `agent_reason`; after it, `should_continue`
 * routes to the end when the last message has no tool calls and to `act` otherwise, and
 * `act` always leads back to `agent_reason`.
 *
 * The model's answers are a script, one answer per visit of `agent_reason`, and the tool
 * node is a function from the message list to the messages it adds. A script can run out
 * before the graph ends: the run then stops with `OutOfResponses`, which bounds the model
 * and is not a behaviour of the graph.
 */
module ReasonActGraph {
  import opened Wrappers

  /** The graph's nodes: `AGENT_REASON`, `ACT` and LangGraph's `END`. */
  datatype Node = AgentReason | Act | End

  /** A tool call requested by the model. */
  datatype ToolCall = ToolCall(name: string, args: string, id: string)

  /** A message of the state: its text and the tool calls it carries (none for most messages). */
  datatype Message = Message(content: string, toolCalls: seq<ToolCall>)

  /** Python's `IndexError`: `[-1]` on an empty list. */
  datatype IndexError = IndexError

  /**
   * `should_continue(state)`: the end when the last message has no tool calls, `act` when
   * it has some; an empty message list has no last message.
   */
  function ShouldContinue(messages: seq<Message>): (r: Result<Node, IndexError>)
    ensures r.Failure? <==> messages == []
    ensures r.Success? ==> r.value in Successors(AgentReason)
    ensures r.Success? ==> (r.value == End <==> messages[|messages| - 1].toolCalls == [])
  {
    if messages == [] then Failure(IndexError)
    else if messages[|messages| - 1].toolCalls == [] then Success(End)
    else Success(Act)
  }

  /** Only the last message matters to the routing. */
  lemma ShouldContinueLastOnly(earlier1: seq<Message>, earlier2: seq<Message>, last: Message)
    ensures ShouldContinue(earlier1 + [last]) == ShouldContinue(earlier2 + [last])
  {
    assert (earlier1 + [last])[|earlier1|] == last && (earlier2 + [last])[|earlier2|] == last;
  }

  /** `set_entry_point(AGENT_REASON)`. */
  const EntryPoint: Node := AgentReason

  /**
   * The edges: the conditional edges from `agent_reason`, whose path map sends each result
   * of `should_continue` to the node of the same name, and the edge from `act` back.
   */
  function Successors(node: Node): set<Node>
  {
    match node
    case AgentReason => {End, Act}
    case Act => {AgentReason}
    case End => {}
  }

  /** Every step of the path takes an edge of the graph. */
  predicate FollowsEdges(path: seq<Node>)
  {
    forall k :: 0 <= k < |path| - 1 ==> path[k + 1] in Successors(path[k])
  }

  datatype GraphOutcome = Ended | OutOfResponses

  /** A run: how it stopped, the nodes visited in order (`End` included) and the final messages. */
  datatype GraphRun = GraphRun(outcome: GraphOutcome, path: seq<Node>, messages: seq<Message>)

  /**
   * The run from `node`, with `used` answers of the script already given. `agent_reason`
   * appends the next answer to the messages and leaves by `should_continue`; `act` appends
   * what the tool node returns and leaves for `agent_reason`.
   */
  function RunAt(node: Node, responses: seq<Message>, used: nat, messages: seq<Message>,
                 toolNode: seq<Message> -> seq<Message>): GraphRun
    requires used <= |responses|
    decreases |responses| - used, if node == AgentReason then 0 else 1
  {
    match node
    case End => GraphRun(Ended, [End], messages)
    case AgentReason =>
      if used == |responses| then GraphRun(OutOfResponses, [], messages)
      else
        var answered := messages + [responses[used]];
        var rest := RunAt(ShouldContinue(answered).value, responses, used + 1, answered, toolNode);
        GraphRun(rest.outcome, [AgentReason] + rest.path, rest.messages)
    case Act =>
      var rest := RunAt(AgentReason, responses, used, messages + toolNode(messages), toolNode);
      GraphRun(rest.outcome, [Act] + rest.path, rest.messages)
  }

  /** `app.invoke({"messages": initial})`. */
  function Graph(initial: seq<Message>, responses: seq<Message>, toolNode: seq<Message> -> seq<Message>): GraphRun
  {
    RunAt(EntryPoint, responses, 0, initial, toolNode)
  }

  /** `run` with `path` visited before it. */
  function After(path: seq<Node>, run: GraphRun): GraphRun
  {
    GraphRun(run.outcome, path + run.path, run.messages)
  }

  /** One visit of `agent_reason`: it takes the next answer and routes by `should_continue`. */
  lemma ReasonStep(responses: seq<Message>, used: nat, messages: seq<Message>, toolNode: seq<Message> -> seq<Message>)
    requires used < |responses|
    ensures var answered := messages + [responses[used]];
            RunAt(AgentReason, responses, used, messages, toolNode)
            == After([AgentReason], RunAt(ShouldContinue(answered).value, responses, used + 1, answered, toolNode))
  {
  }

  /** One visit of `act`: it appends the tool node's messages and goes back to `agent_reason`. */
  lemma ActStep(responses: seq<Message>, used: nat, messages: seq<Message>, toolNode: seq<Message> -> seq<Message>)
    requires used <= |responses|
    ensures RunAt(Act, responses, used, messages, toolNode)
            == After([Act], RunAt(AgentReason, responses, used, messages + toolNode(messages), toolNode))
  {
  }

  lemma AfterAfter(path1: seq<Node>, path2: seq<Node>, run: GraphRun)
    ensures After(path1, After(path2, run)) == After(path1 + path2, run)
  {
    assert path1 + (path2 + run.path) == (path1 + path2) + run.path;
  }

  /**
   * The compiled graph executed node by node: the current node, the message state and the
   * nodes visited so far.
   */
  method RunGraph(initial: seq<Message>, responses: seq<Message>, toolNode: seq<Message> -> seq<Message>)
    returns (outcome: GraphOutcome, path: seq<Node>, messages: seq<Message>)
    ensures GraphRun(outcome, path, messages) == Graph(initial, responses, toolNode)
  {
    var node := EntryPoint;
    var used := 0;
    messages, path := initial, [];
    assert [] + RunAt(node, responses, used, messages, toolNode).path == RunAt(node, responses, used, messages, toolNode).path;
    while node != End
      invariant used <= |responses|
      invariant Graph(initial, responses, toolNode) == After(path, RunAt(node, responses, used, messages, toolNode))
      decreases |responses| - used, if node == AgentReason then 0 else 1
    {
      if node == AgentReason {
        if used == |responses| {
          outcome := OutOfResponses;
          assert path + [] == path;
          return;
        }
        ReasonStep(responses, used, messages, toolNode);
        var answered := messages + [responses[used]];
        var next := ShouldContinue(answered).value;
        AfterAfter(path, [AgentReason], RunAt(next, responses, used + 1, answered, toolNode));
        messages := answered;
        used := used + 1;
        path := path + [AgentReason];
        node := next;
      } else {
        ActStep(responses, used, messages, toolNode);
        var after := messages + toolNode(messages);
        AfterAfter(path, [Act], RunAt(AgentReason, responses, used, after, toolNode));
        messages := after;
        path := path + [Act];
        node := AgentReason;
      }
    }
    outcome := Ended;
    path := path + [End];
  }

  /** A run from a node starts at that node and only takes edges of the graph. */
  lemma {:induction false} RunAtFollowsEdges(node: Node, responses: seq<Message>, used: nat, messages: seq<Message>,
                                             toolNode: seq<Message> -> seq<Message>)
    requires used <= |responses|
    ensures var r := RunAt(node, responses, used, messages, toolNode);
            (r.path != [] ==> r.path[0] == node) && (node != AgentReason ==> r.path != []) && FollowsEdges(r.path)
    ensures var r := RunAt(node, responses, used, messages, toolNode);
            r.outcome == Ended <==> r.path != [] && r.path[|r.path| - 1] == End
    decreases |responses| - used, if node == AgentReason then 0 else 1
  {
    match node
    case End =>
    case AgentReason =>
      if used < |responses| {
        var answered := messages + [responses[used]];
        var next := ShouldContinue(answered).value;
        RunAtFollowsEdges(next, responses, used + 1, answered, toolNode);
        EdgesPrepend(AgentReason, RunAt(next, responses, used + 1, answered, toolNode).path);
      }
    case Act =>
      var after := messages + toolNode(messages);
      RunAtFollowsEdges(AgentReason, responses, used, after, toolNode);
      EdgesPrepend(Act, RunAt(AgentReason, responses, used, after, toolNode).path);
  }

  /** A step along an edge followed by a path that takes edges is a path that takes edges. */
  lemma EdgesPrepend(node: Node, path: seq<Node>)
    requires FollowsEdges(path)
    requires path != [] ==> path[0] in Successors(node)
    ensures FollowsEdges([node] + path)
  {
    var p := [node] + path;
    forall k | 0 <= k < |p| - 1 ensures p[k + 1] in Successors(p[k]) {
      if k > 0 {
        assert p[k] == path[k - 1] && p[k + 1] == path[k];
      }
    }
  }

  /** The whole run starts at the entry point and follows the edges; it ends at `End` exactly when it ended. */
  lemma GraphPath(initial: seq<Message>, responses: seq<Message>, toolNode: seq<Message> -> seq<Message>)
    ensures var r := Graph(initial, responses, toolNode);
            (r.path != [] ==> r.path[0] == EntryPoint) && FollowsEdges(r.path)
            && (r.outcome == Ended <==> r.path != [] && r.path[|r.path| - 1] == End)
  {
    RunAtFollowsEdges(EntryPoint, responses, 0, initial, toolNode);
  }

  /** The index of the first answer from `used` on without tool calls, or the script's length. */
  function FirstFinal(responses: seq<Message>, used: nat): (j: nat)
    requires used <= |responses|
    ensures used <= j <= |responses|
    ensures forall k :: used <= k < j ==> responses[k].toolCalls != []
    ensures j < |responses| ==> responses[j].toolCalls == []
    decreases |responses| - used
  {
    if used == |responses| || responses[used].toolCalls == [] then used else FirstFinal(responses, used + 1)
  }

  /** `n` rounds of reason then act. */
  function ReasonAct(n: nat): seq<Node>
  {
    if n == 0 then [] else [AgentReason, Act] + ReasonAct(n - 1)
  }

  /**
   * The shape `agent_reason (act agent_reason)* END`: a round of reason and act for every
   * answer with tool calls, up to the first answer without, then a last reason and the end.
   * The run ends exactly when the script holds such an answer, and then the last message is
   * that answer.
   */
  lemma {:induction false} RunAtShape(responses: seq<Message>, used: nat, messages: seq<Message>,
                                      toolNode: seq<Message> -> seq<Message>)
    requires used <= |responses|
    ensures var r := RunAt(AgentReason, responses, used, messages, toolNode);
            var j := FirstFinal(responses, used);
            (r.outcome == Ended <==> j < |responses|)
            && r.path == ReasonAct(j - used) + (if j < |responses| then [AgentReason, End] else [])
            && (r.outcome == Ended ==> r.messages != [] && r.messages[|r.messages| - 1] == responses[j])
    decreases |responses| - used
  {
    if used < |responses| {
      var answered := messages + [responses[used]];
      if responses[used].toolCalls != [] {
        var after := answered + toolNode(answered);
        RunAtShape(responses, used + 1, after, toolNode);
        var rest := RunAt(AgentReason, responses, used + 1, after, toolNode);
        var j := FirstFinal(responses, used);
        var tail := if j < |responses| then [AgentReason, End] else [];
        assert [AgentReason] + ([Act] + rest.path) == [AgentReason, Act] + rest.path;
        assert [AgentReason, Act] + (ReasonAct(j - used - 1) + tail) == ([AgentReason, Act] + ReasonAct(j - used - 1)) + tail;
      }
    }
  }

  /**
   * For the whole run: it ends exactly when some answer has no tool calls, after
   * `2 j + 2` node visits for the first such answer `j`, with that answer as the last message.
   */
  lemma GraphShape(initial: seq<Message>, responses: seq<Message>, toolNode: seq<Message> -> seq<Message>)
    ensures var r := Graph(initial, responses, toolNode);
            var j := FirstFinal(responses, 0);
            (r.outcome == Ended <==> exists k :: 0 <= k < |responses| && responses[k].toolCalls == [])
            && r.path == ReasonAct(j) + (if j < |responses| then [AgentReason, End] else [])
            && (r.outcome == Ended ==> r.messages != [] && r.messages[|r.messages| - 1] == responses[j])
  {
    RunAtShape(responses, 0, initial, toolNode);
  }
}
