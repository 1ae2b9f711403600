/**
 * The tool-calling agent of project/simple_rag/agent/agent.py: a graph of
 * two nodes, the model call and the tool runner, over a message list that
 * nodes only append to and a counter of model calls.
 *
 * The chat model and the tools are not part of this model and are passed in
 * as functions.  The graph runtime is replaced by a run that follows the
 * edges and stops with an error once a step budget, the runtime's recursion
 * limit, is spent.
 */
module SimpleAgent {
  import opened Common

  /** A tool call the model asks for: the tool's name, its arguments and the call's id. */
  datatype ToolCall = ToolCall(name: string, args: map<string, string>, id: string)

  datatype Message =
    | SystemMessage(content: string)
    | HumanMessage(content: string)
    | AIMessage(content: string, toolCalls: seq<ToolCall>)
    | ToolMessage(content: string, toolCallId: string)

  /** `MessagesState`; `llmCalls` is `None` while the key is absent. */
  datatype MessagesState = MessagesState(messages: seq<Message>, llmCalls: Option<int>)

  /** What a node returns: messages to append, and a new counter if it sets one. */
  datatype Update = Update(messages: seq<Message>, llmCalls: Option<int>)

  datatype AgentError = IndexError | KeyError(name: string) | RecursionLimit

  /** The chat model: its reply's text and tool calls for a message list. */
  type Llm = seq<Message> -> (string, seq<ToolCall>)

  /** `tools_by_name`: each tool as a function from its arguments to the text of its result. */
  type Tools = map<string, map<string, string> -> string>

  /** The graph's reducers: messages are appended, the counter is replaced when a node sets it. */
  function Apply(s: MessagesState, u: Update): (t: MessagesState)
    ensures t.messages == s.messages + u.messages
    ensures t.llmCalls == (if u.llmCalls.Some? then u.llmCalls else s.llmCalls)
  {
    MessagesState(s.messages + u.messages, if u.llmCalls.Some? then u.llmCalls else s.llmCalls)
  }

  function CallsSoFar(s: MessagesState): int
  {
    if s.llmCalls.None? then 0 else s.llmCalls.value
  }

  // ---------------------------------------------------------------- nodes

  /** The messages `ollama_call` sends: the system message, then the whole history. */
  function LlmInput(s: MessagesState, system: string): (input: seq<Message>)
    ensures |input| == |s.messages| + 1
    ensures input[0] == SystemMessage(system) && input[1..] == s.messages
  {
    [SystemMessage(system)] + s.messages
  }

  /**
   * `ollama_call`: one new model message, the model's reply to the system
   * message followed by the whole history, and the counter one above its
   * old value (0 when absent).
   */
  function OllamaCall(s: MessagesState, system: string, llm: Llm): (u: Update)
    ensures |u.messages| == 1 && u.messages[0].AIMessage?
    ensures u.messages[0] == AIMessage(llm([SystemMessage(system)] + s.messages).0, llm([SystemMessage(system)] + s.messages).1)
    ensures u.llmCalls == Some(CallsSoFar(s) + 1)
  {
    var reply := llm(LlmInput(s, system));
    Update([AIMessage(reply.0, reply.1)], Some(CallsSoFar(s) + 1))
  }

  /** The node `should_continue` routes to. */
  datatype Route = ToTools | ToEnd

  predicate AsksForTools(m: Message)
  {
    m.AIMessage? && m.toolCalls != []
  }

  /** `should_continue`; an empty message list fails as `messages[-1]` does. */
  function ShouldContinue(s: MessagesState): (r: Result<Route, AgentError>)
    ensures r.Failure? <==> s.messages == []
    ensures r == Success(ToTools) <==> s.messages != [] && AsksForTools(s.messages[|s.messages| - 1])
    ensures r == Success(ToEnd) <==> s.messages != [] && !AsksForTools(s.messages[|s.messages| - 1])
  {
    if s.messages == [] then Failure(IndexError)
    else if AsksForTools(s.messages[|s.messages| - 1]) then Success(ToTools)
    else Success(ToEnd)
  }

  /** The answers to a list of tool calls; an unknown tool fails at the first one. */
  function ToolResults(calls: seq<ToolCall>, tools: Tools): Result<seq<Message>, AgentError>
    decreases |calls|
  {
    if calls == [] then Success([])
    else
      var n := |calls| - 1;
      match ToolResults(calls[..n], tools)
      case Failure(e) => Failure(e)
      case Success(done) =>
        if calls[n].name !in tools then Failure(KeyError(calls[n].name))
        else Success(done + [ToolMessage(tools[calls[n].name](calls[n].args), calls[n].id)])
  }

  /**
   * The calls succeed iff every tool is known; then there is one tool
   * message per call, in order, carrying the call's id and the tool's
   * result; otherwise the error names the first unknown tool.
   */
  lemma {:induction false} ToolResultsSpec(calls: seq<ToolCall>, tools: Tools)
    ensures ToolResults(calls, tools).Success? <==> forall k :: 0 <= k < |calls| ==> calls[k].name in tools
    ensures ToolResults(calls, tools).Success? ==>
              |ToolResults(calls, tools).value| == |calls|
              && forall k :: 0 <= k < |calls| ==>
                   ToolResults(calls, tools).value[k] == ToolMessage(tools[calls[k].name](calls[k].args), calls[k].id)
    ensures ToolResults(calls, tools).Failure? ==>
              exists j :: 0 <= j < |calls| && calls[j].name !in tools
                          && (forall k :: 0 <= k < j ==> calls[k].name in tools)
                          && ToolResults(calls, tools) == Failure(KeyError(calls[j].name))
    decreases |calls|
  {
    if calls != [] {
      var n := |calls| - 1;
      var p := calls[..n];
      ToolResultsSpec(p, tools);
      assert forall k :: 0 <= k < n ==> p[k] == calls[k];
      if ToolResults(p, tools).Success? && calls[n].name !in tools {
        assert forall k :: 0 <= k < n ==> calls[k].name in tools;
      }
    }
  }

  /** Once a prefix of the calls fails, the whole list fails with the same error. */
  lemma {:induction false} ToolResultsFailurePersists(calls: seq<ToolCall>, i: nat, tools: Tools)
    requires i <= |calls| && ToolResults(calls[..i], tools).Failure?
    ensures ToolResults(calls, tools) == ToolResults(calls[..i], tools)
    decreases |calls| - i
  {
    if i < |calls| {
      var n := |calls| - 1;
      assert calls[..n][..i] == calls[..i];
      ToolResultsFailurePersists(calls[..n], i, tools);
    } else {
      assert calls[..i] == calls;
    }
  }

  /** `tool_node`: the answers to the last message's tool calls, or none. */
  function ToolNode(s: MessagesState, tools: Tools): (r: Result<seq<Message>, AgentError>)
    ensures s.messages != [] && !AsksForTools(s.messages[|s.messages| - 1]) ==> r == Success([])
    ensures r.Success? ==> forall k :: 0 <= k < |r.value| ==> r.value[k].ToolMessage?
  {
    if s.messages == [] then Failure(IndexError)
    else
      var last := s.messages[|s.messages| - 1];
      if AsksForTools(last) then
        ToolResultsSpec(last.toolCalls, tools);
        ToolResults(last.toolCalls, tools)
      else Success([])
  }

  /** `tool_node`'s loop over the tool calls. */
  method RunToolNode(s: MessagesState, tools: Tools) returns (r: Result<seq<Message>, AgentError>)
    ensures r == ToolNode(s, tools)
  {
    if s.messages == [] {
      return Failure(IndexError);
    }
    var result: seq<Message> := [];
    var lastMessage := s.messages[|s.messages| - 1];
    if AsksForTools(lastMessage) {
      var calls := lastMessage.toolCalls;
      for i := 0 to |calls|
        invariant ToolResults(calls[..i], tools) == Success(result)
      {
        assert calls[..i + 1][..i] == calls[..i];
        var call := calls[i];
        if call.name !in tools {
          ToolResultsFailurePersists(calls, i + 1, tools);
          return Failure(KeyError(call.name));
        }
        var observation := tools[call.name](call.args);
        result := result + [ToolMessage(observation, call.id)];
      }
      assert calls[..|calls|] == calls;
    }
    return Success(result);
  }

  // ---------------------------------------------------------------- graph

  datatype AgentNode = CallModel | RunTools

  /**
   * The compiled graph from `node`: `ollama_call` routes by `should_continue`
   * to the tool node or to END, and the tool node always returns to
   * `ollama_call`.  Each node executed spends one step of `budget`.
   */
  function RunFrom(node: AgentNode, s: MessagesState, budget: nat, system: string, llm: Llm, tools: Tools)
    : Result<MessagesState, AgentError>
    decreases budget
  {
    if budget == 0 then Failure(RecursionLimit)
    else match node
      case CallModel =>
        var t := Apply(s, OllamaCall(s, system, llm));
        (match ShouldContinue(t)
         case Success(ToTools) => RunFrom(RunTools, t, budget - 1, system, llm, tools)
         case Success(ToEnd) => Success(t)
         case Failure(e) => Failure(e))
      case RunTools =>
        match ToolNode(s, tools)
        case Failure(e) => Failure(e)
        case Success(ms) => RunFrom(CallModel, Apply(s, Update(ms, None)), budget - 1, system, llm, tools)
  }

  /** `agent.invoke(state)`: START leads to `ollama_call`. */
  function Invoke(s: MessagesState, budget: nat, system: string, llm: Llm, tools: Tools): Result<MessagesState, AgentError>
  {
    RunFrom(CallModel, s, budget, system, llm, tools)
  }

  /** The number of model messages in a list. */
  function ModelMessages(ms: seq<Message>): nat
    decreases |ms|
  {
    if ms == [] then 0 else ModelMessages(ms[..|ms| - 1]) + (if ms[|ms| - 1].AIMessage? then 1 else 0)
  }

  lemma {:induction false} ModelMessagesAppend(a: seq<Message>, b: seq<Message>)
    ensures ModelMessages(a + b) == ModelMessages(a) + ModelMessages(b)
    decreases |b|
  {
    if b == [] {
      assert a + b == a;
    } else {
      var n := |b| - 1;
      ModelMessagesAppend(a, b[..n]);
      assert (a + b)[..|a + b| - 1] == a + b[..n];
    }
  }

  lemma {:induction false} NoModelMessages(ms: seq<Message>)
    requires forall k :: 0 <= k < |ms| ==> ms[k].ToolMessage?
    ensures ModelMessages(ms) == 0
    decreases |ms|
  {
    if ms != [] {
      NoModelMessages(ms[..|ms| - 1]);
    }
  }

  /**
   * `f` is a state a run from `s` may finish in: it extends the history of
   * `s`, ends with a model message that asks for no tool, and its counter is
   * the old one (0 when absent) plus the number of model messages appended.
   */
  ghost predicate FinishedFrom(s: MessagesState, f: MessagesState)
  {
    && |s.messages| < |f.messages| && f.messages[..|s.messages|] == s.messages
    && f.messages[|f.messages| - 1].AIMessage? && f.messages[|f.messages| - 1].toolCalls == []
    && f.llmCalls == Some(CallsSoFar(s) + ModelMessages(f.messages[|s.messages|..]))
  }

  lemma FinishedAfterModel(s: MessagesState, u: Update, f: MessagesState)
    requires |u.messages| == 1 && u.messages[0].AIMessage? && u.llmCalls == Some(CallsSoFar(s) + 1)
    requires FinishedFrom(Apply(s, u), f)
    ensures FinishedFrom(s, f)
  {
    var t := Apply(s, u);
    assert ModelMessages(u.messages) == 1 by {
      assert u.messages[..0] == [];
    }
    assert f.messages[..|s.messages|] == f.messages[..|t.messages|][..|s.messages|];
    assert f.messages[|s.messages|..] == u.messages + f.messages[|t.messages|..];
    ModelMessagesAppend(u.messages, f.messages[|t.messages|..]);
  }

  lemma FinishedAfterTools(s: MessagesState, ms: seq<Message>, f: MessagesState)
    requires forall k :: 0 <= k < |ms| ==> ms[k].ToolMessage?
    requires FinishedFrom(Apply(s, Update(ms, None)), f)
    ensures FinishedFrom(s, f)
  {
    var t := Apply(s, Update(ms, None));
    NoModelMessages(ms);
    assert f.messages[..|s.messages|] == f.messages[..|t.messages|][..|s.messages|];
    assert f.messages[|s.messages|..] == ms + f.messages[|t.messages|..];
    ModelMessagesAppend(ms, f.messages[|t.messages|..]);
  }

  lemma FinishedAtEnd(s: MessagesState, u: Update)
    requires |u.messages| == 1 && u.messages[0].AIMessage? && u.messages[0].toolCalls == []
    requires u.llmCalls == Some(CallsSoFar(s) + 1)
    ensures FinishedFrom(s, Apply(s, u))
  {
    var t := Apply(s, u);
    assert t.messages[|s.messages|..] == u.messages;
    assert ModelMessages(u.messages) == 1 by {
      assert u.messages[..0] == [];
    }
  }

  /**
   * A run that finishes only appends to the history, ends with a model
   * message that asks for no tool, and counts one model call per model
   * message it appended.
   */
  lemma {:induction false} RunProperties(node: AgentNode, s: MessagesState, budget: nat, system: string, llm: Llm, tools: Tools)
    requires RunFrom(node, s, budget, system, llm, tools).Success?
    ensures FinishedFrom(s, RunFrom(node, s, budget, system, llm, tools).value)
    decreases budget
  {
    var f := RunFrom(node, s, budget, system, llm, tools).value;
    match node
    case CallModel =>
      var u := OllamaCall(s, system, llm);
      var t := Apply(s, u);
      if ShouldContinue(t) == Success(ToTools) {
        RunProperties(RunTools, t, budget - 1, system, llm, tools);
        FinishedAfterModel(s, u, f);
      } else {
        FinishedAtEnd(s, u);
      }
    case RunTools =>
      var ms := ToolNode(s, tools).value;
      RunProperties(CallModel, Apply(s, Update(ms, None)), budget - 1, system, llm, tools);
      FinishedAfterTools(s, ms, f);
  }

  /** A history whose last message asks for no tool is answered by exactly one model call. */
  lemma SingleTurnWithoutTools(s: MessagesState, budget: nat, system: string, llm: Llm, tools: Tools)
    requires budget >= 1 && llm(LlmInput(s, system)).1 == []
    ensures Invoke(s, budget, system, llm, tools)
            == Success(MessagesState(s.messages + [AIMessage(llm(LlmInput(s, system)).0, [])], Some(CallsSoFar(s) + 1)))
  {
  }
}
