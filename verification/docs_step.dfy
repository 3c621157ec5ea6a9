/** The workflow step `documentation-query-step`: prompt the documentation
    agent with the page URL and the query, then take the answer out of the
    agent's first tool result, falling back to an empty answer. The agent's
    reply is an input: which tool the model calls, and with what, is not
    modelled. */
module DocsStep {
  import opened Text
  import opened Wrappers
  import DocsTool

  datatype StepInput = StepInput(url: string, query: string)

  /** The two fields the step reads from a tool's result object; either may
      be missing. */
  datatype ToolOutput = ToolOutput(snippets: Option<seq<string>>, sourceUrl: Option<string>)

  /** One entry of the agent's tool results: the tool's name and its
      result object, absent when the tool produced none. */
  datatype ToolCall = ToolCall(toolName: string, result: Option<ToolOutput>)

  /** The agent's reply: its text and, when it called tools, their results. */
  datatype AgentResult = AgentResult(text: string, toolResults: Option<seq<ToolCall>>)

  datatype StepOutput = StepOutput(snippets: seq<string>, sourceUrl: string)

  /** The key the documentation tool is registered under in the agent. */
  const DocsToolName: string := "docsTool"

  /** The prompt sent to the agent; it quotes the URL and the query verbatim. */
  function Prompt(input: StepInput): (prompt: string)
    ensures Contains(prompt, input.url)
    ensures Contains(prompt, input.query)
  {
    var intro := "Use the docsTool to fetch documentation from the URL \"";
    var middle := "\" and find information related to the query: \"";
    var close := "\".";
    var prompt := intro + input.url + middle + input.query + close;
    ContainsInfix(intro + input.url + middle, input.query, close);
    ContainsInfix(intro, input.url, middle + input.query + close);
    RegroupTail(intro + input.url, middle, input.query, close);
    prompt
  }

  /** The first entry of the agent's tool results, if it made any call. */
  function FirstToolCall(agent: AgentResult): Option<ToolCall> {
    match agent.toolResults
    case Some(calls) => if |calls| > 0 then Some(calls[0]) else None
    case None => None
  }

  /** The answer when the documentation tool's result is not available. */
  function Fallback(input: StepInput): StepOutput {
    StepOutput([], input.url)
  }

  /** The step's answer from a documentation tool result: its snippets, or
      none if they are missing; its source URL unless that is missing or
      empty, in which case the step's own URL. */
  function FromToolOutput(input: StepInput, output: ToolOutput): (out: StepOutput)
    ensures out.snippets == output.snippets.GetOr([])
    ensures output.sourceUrl.Some? && output.sourceUrl.value != [] ==> out.sourceUrl == output.sourceUrl.value
    ensures output.sourceUrl.None? || output.sourceUrl.value == [] ==> out.sourceUrl == input.url
  {
    var sourceUrl := match output.sourceUrl
      case Some(u) => if u != [] then u else input.url
      case None => input.url;
    StepOutput(output.snippets.GetOr([]), sourceUrl)
  }

  /** The step's `execute` after the agent has replied. Only the first tool
      result is consulted, and only when it is the documentation tool's and
      carries a result; every other reply yields the fallback. */
  function Execute(input: StepInput, agent: AgentResult): (out: StepOutput)
    ensures FirstToolCall(agent).None? ==> out == Fallback(input)
    ensures FirstToolCall(agent).Some? ==>
      var call := FirstToolCall(agent).value;
      if call.toolName == DocsToolName && call.result.Some?
      then out == FromToolOutput(input, call.result.value)
      else out == Fallback(input)
    ensures out.sourceUrl == input.url || out.sourceUrl != []
  {
    match FirstToolCall(agent)
    case Some(ToolCall(name, Some(output))) =>
      if name == DocsToolName then FromToolOutput(input, output) else Fallback(input)
    case _ => Fallback(input)
  }

  /** With no tool results at all, the answer is the fallback. */
  lemma NoToolCallGivesFallback(input: StepInput, text: string)
    ensures Execute(input, AgentResult(text, None)) == StepOutput([], input.url)
    ensures Execute(input, AgentResult(text, Some([]))) == StepOutput([], input.url)
  {
  }

  /** Neither the agent's text nor any tool result after the first affects
      the answer. */
  lemma OnlyFirstToolResultMatters(input: StepInput, text1: string, text2: string,
                                   first: ToolCall, rest1: seq<ToolCall>, rest2: seq<ToolCall>)
    ensures Execute(input, AgentResult(text1, Some([first] + rest1)))
         == Execute(input, AgentResult(text2, Some([first] + rest2)))
  {
  }

  /** How the documentation tool's outcome appears among the agent's tool
      results: its result object, or no result when it threw. */
  function AsToolOutput(r: DocsTool.ToolResult): Option<ToolOutput> {
    match r
    case Snippets(snippets, sourceUrl) => Some(ToolOutput(Some(snippets), Some(sourceUrl)))
    case Failure(_) => None
  }

  /** When the agent's first call is the documentation tool on the step's
      own URL and query, the step answers with the tool's snippets for that
      query and the step's URL; when the tool failed, with no snippets. */
  lemma StepForwardsDocsTool(input: StepInput, fetched: DocsTool.Fetched, text: string, rest: seq<ToolCall>)
    ensures var tool := DocsTool.FetchAndQuery(input.url, input.query, fetched);
      var out := Execute(input, AgentResult(text, Some([ToolCall(DocsToolName, AsToolOutput(tool))] + rest)));
      && out.sourceUrl == input.url
      && (tool.Snippets? ==> out.snippets == tool.snippets)
      && (tool.Failure? ==> out.snippets == [])
      && forall k :: 0 <= k < |out.snippets| ==> DocsTool.IsSnippetFor(out.snippets[k], input.query)
  {
  }
}
