/**
 * OllamaService: the chat requests it assembles and the way it turns a
 * chat response into text. The HTTP exchange is not modelled: the parsed
 * response (or the parse failure) and Jackson's readTree are parameters,
 * and a JSON message is the record of the fields this code sets.
 */
module OllamaServices {
  import opened Common
  import opened JavaLang
  import opened SystemMessages

  const SYSTEM_ROLE: string := "system"
  const USER_ROLE: string := "user"
  const ASSISTANT_ROLE: string := "assistant"
  const TOOL_ROLE: string := "tool"

  /** The text generateChatWithTools puts before a tool-call array. */
  const FUNCTION_CALL_PREFIX: string := "FUNCTION_CALL: "

  /** The prefix ChatController looks for and strips (without the space). */
  const FUNCTION_CALL_MARKER: string := "FUNCTION_CALL:"

  /** The instruction put before the original prompt when a function result is sent back. */
  const FUNCTION_RESULT_INSTRUCTION: string := "根据最初的用户问题，结合工具调用的结果，给出最终的回答：\n"

  /** One element of a tool_calls array: whether it has a "function" member, and its "id" as text. */
  datatype ToolCall = ToolCall(hasFunction: bool, id: Option<string>)

  /** A tool_calls node: an array with its JSON text, or a node of another kind. */
  datatype ToolCalls =
    | ToolCallArray(calls: seq<ToolCall>, json: string)
    | OtherNode(json: string)

  /** One element of the "messages" array. A missing "role" is None. */
  datatype ChatMessage = ChatMessage(
    role: Option<string>,
    content: string,
    toolCalls: Option<ToolCalls>,
    toolCallId: Option<string>)

  function SystemMessage(content: string): ChatMessage
  {
    ChatMessage(Some(SYSTEM_ROLE), content, None, None)
  }

  function UserMessage(content: string): ChatMessage
  {
    ChatMessage(Some(USER_ROLE), content, None, None)
  }

  /** The assistant turn that asked for the tools: empty content plus the tool_calls node. */
  function AssistantToolCallMessage(toolCalls: ToolCalls): ChatMessage
  {
    ChatMessage(Some(ASSISTANT_ROLE), "", Some(toolCalls), None)
  }

  function ToolMessage(result: string, toolCallId: Option<string>): ChatMessage
  {
    ChatMessage(Some(TOOL_ROLE), result, None, toolCallId)
  }

  /** The Jackson ArrayNode the messages are collected in. */
  class MessageArray {
    var items: seq<ChatMessage>

    constructor()
      ensures items == []
    {
      items := [];
    }

    /** ArrayNode.add */
    method Add(m: ChatMessage)
      modifies this
      ensures items == old(items) + [m]
    {
      items := items + [m];
    }

    /** ArrayNode.insert(0, m) */
    method InsertFirst(m: ChatMessage)
      modifies this
      ensures items == [m] + old(items)
    {
      items := [m] + items;
    }
  }

  predicate StartsWithSystemMessage(items: seq<ChatMessage>)
  {
    |items| > 0 && items[0].role == Some(SYSTEM_ROLE)
  }

  /**
   * The messages after prependDefaultSystemMessage, where `defaultMessage`
   * is getDefaultSystemMessage() (null exactly when the feature is off).
   */
  function WithSystemMessage(items: seq<ChatMessage>, defaultMessage: Option<string>): (r: seq<ChatMessage>)
    ensures defaultMessage.None? || StartsWithSystemMessage(items) ==> r == items
    ensures defaultMessage.Some? && !StartsWithSystemMessage(items) ==> r == [SystemMessage(defaultMessage.value)] + items
  {
    if defaultMessage.None? || StartsWithSystemMessage(items) then items
    else [SystemMessage(defaultMessage.value)] + items
  }

  /** Prepending keeps the original messages, unchanged and in order, after at most one new one. */
  lemma WithSystemMessageShape(items: seq<ChatMessage>, defaultMessage: Option<string>)
    ensures var r := WithSystemMessage(items, defaultMessage);
      |items| <= |r| <= |items| + 1 && r[|r| - |items|..] == items
    ensures defaultMessage.Some? ==> StartsWithSystemMessage(WithSystemMessage(items, defaultMessage))
  {
    if defaultMessage.Some? && !StartsWithSystemMessage(items) {
      var m := SystemMessage(defaultMessage.value);
      assert ([m] + items)[0] == m;
      assert ([m] + items)[1..] == items;
    }
  }

  /** Prepending twice is prepending once: a second call finds the system message already there. */
  lemma WithSystemMessageIdempotent(items: seq<ChatMessage>, defaultMessage: Option<string>)
    ensures WithSystemMessage(WithSystemMessage(items, defaultMessage), defaultMessage)
            == WithSystemMessage(items, defaultMessage)
  {
    WithSystemMessageShape(items, defaultMessage);
  }

  /** The "tools" field: set only when toolsJson is non-empty and readTree accepts it. */
  function ToolsField<J>(toolsJson: Option<string>, readTree: string -> Option<J>): (r: Option<J>)
    ensures r.Some? <==> toolsJson.Some? && toolsJson.value != "" && readTree(toolsJson.value).Some?
    ensures r.Some? ==> r == readTree(toolsJson.value)
  {
    if toolsJson.Some? && toolsJson.value != "" then readTree(toolsJson.value) else None
  }

  /** A /api/chat request body: model, "stream": false, the messages and the optional tools. */
  datatype ChatRequest<J> = ChatRequest(model: string, stream: bool, messages: seq<ChatMessage>, tools: Option<J>)

  /** The tool-result message, sent only for a non-empty array whose first call has "function". */
  function ToolResultMessages(toolCalls: ToolCalls, functionResult: string): (r: seq<ChatMessage>)
    ensures |r| <= 1
  {
    if toolCalls.ToolCallArray? && |toolCalls.calls| > 0 && toolCalls.calls[0].hasFunction
    then [ToolMessage(functionResult, toolCalls.calls[0].id)]
    else []
  }

  /**
   * The history continueConversationWithFunctionResult sends: the user's
   * prompt after the instruction and the assistant's tool calls are always
   * there, with at most one message before and one after them.
   */
  function ContinuationHistory(defaultMessage: Option<string>, originalPrompt: string,
                               toolCalls: ToolCalls, functionResult: string): (h: seq<ChatMessage>)
    ensures 2 <= |h| <= 4
    ensures UserMessage(FUNCTION_RESULT_INSTRUCTION + originalPrompt) in h
    ensures AssistantToolCallMessage(toolCalls) in h
  {
    WithSystemMessage([], defaultMessage)
      + [UserMessage(FUNCTION_RESULT_INSTRUCTION + originalPrompt), AssistantToolCallMessage(toolCalls)]
      + ToolResultMessages(toolCalls, functionResult)
  }

  /**
   * The history in order: an optional system message, the user's prompt
   * after the instruction, the assistant's tool calls, then a tool message
   * exactly when the first call names a function, carrying the result and
   * the call's id when it has one.
   */
  lemma ContinuationHistoryOrder(defaultMessage: Option<string>, originalPrompt: string,
                                 toolCalls: ToolCalls, functionResult: string)
    ensures var h := ContinuationHistory(defaultMessage, originalPrompt, toolCalls, functionResult);
      var s := if defaultMessage.Some? then 1 else 0;
      var hasTool := toolCalls.ToolCallArray? && |toolCalls.calls| > 0 && toolCalls.calls[0].hasFunction;
      && |h| == s + 2 + (if hasTool then 1 else 0)
      && (defaultMessage.Some? ==> h[0] == SystemMessage(defaultMessage.value))
      && h[s].role == Some(USER_ROLE) && h[s].content == FUNCTION_RESULT_INSTRUCTION + originalPrompt
      && h[s + 1].role == Some(ASSISTANT_ROLE) && h[s + 1].content == "" && h[s + 1].toolCalls == Some(toolCalls)
      && (hasTool ==> h[s + 2].role == Some(TOOL_ROLE) && h[s + 2].content == functionResult
                      && (h[s + 2].toolCallId.Some? <==> toolCalls.calls[0].id.Some?))
      && (forall k :: s <= k < |h| ==> h[k].role != Some(SYSTEM_ROLE))
  {
  }

  /** The response text generateChatWithTools builds from the parsed message node. */
  datatype ResponseMessage = ResponseMessage(toolCalls: Option<ToolCalls>, content: Option<string>)

  /**
   * `parsed` is None when the body is not JSON; otherwise it holds the
   * "message" node if there is one.
   */
  function ResponseText(body: string, parsed: Option<Option<ResponseMessage>>): (r: string)
    ensures parsed.Some? && parsed.value.Some? && HasToolCalls(parsed.value.value) ==>
              r == FUNCTION_CALL_PREFIX + parsed.value.value.toolCalls.value.json
    ensures !(parsed.Some? && parsed.value.Some? && HasToolCalls(parsed.value.value)) ==>
              r == body || (parsed.Some? && parsed.value.Some? && parsed.value.value.content == Some(r))
  {
    match parsed
    case None => body
    case Some(None) => body
    case Some(Some(message)) =>
      if message.toolCalls.Some? && message.toolCalls.value.ToolCallArray? && |message.toolCalls.value.calls| > 0
      then FUNCTION_CALL_PREFIX + message.toolCalls.value.json
      else if message.content.Some? then message.content.value
      else body
  }

  predicate HasToolCalls(message: ResponseMessage)
  {
    message.toolCalls.Some? && message.toolCalls.value.ToolCallArray? && |message.toolCalls.value.calls| > 0
  }

  /**
   * A non-empty tool-call array is reported with the prefix the controller
   * recognises, and stripping that prefix and trimming gives back the
   * array's JSON text, trimmed.
   */
  lemma FunctionCallRoundTrip(body: string, message: ResponseMessage)
    requires HasToolCalls(message)
    ensures var r := ResponseText(body, Some(Some(message)));
      StartsWith(r, FUNCTION_CALL_MARKER)
      && Trim(r[|FUNCTION_CALL_MARKER|..]) == Trim(message.toolCalls.value.json)
  {
    var json := message.toolCalls.value.json;
    var r := ResponseText(body, Some(Some(message)));
    assert r == FUNCTION_CALL_PREFIX + json;
    assert r[..|FUNCTION_CALL_MARKER|] == FUNCTION_CALL_MARKER;
    var rest := r[|FUNCTION_CALL_MARKER|..];
    assert rest == " " + json;
    assert rest[1..] == json;
    assert TrimStart(rest) == TrimStart(json);
  }

  /** Without tool calls the text is the message content, and without that the raw body. */
  lemma ResponseTextFallbacks(body: string, parsed: Option<Option<ResponseMessage>>)
    ensures parsed.None? || parsed.value.None? ==> ResponseText(body, parsed) == body
    ensures parsed.Some? && parsed.value.Some? && !HasToolCalls(parsed.value.value) ==>
      ResponseText(body, parsed) == parsed.value.value.content.GetOr(body)
  {
  }

  /**
   * The response text continueConversationWithFunctionResult builds: the
   * message content, else the raw body. Its tool calls are never looked at.
   */
  function ContinuationResponseText(body: string, parsed: Option<Option<ResponseMessage>>): (r: string)
    ensures r == body || (parsed.Some? && parsed.value.Some? && parsed.value.value.content == Some(r))
    ensures parsed.Some? && parsed.value.Some? && parsed.value.value.content.Some? ==>
              r == parsed.value.value.content.value
  {
    match parsed
    case None => body
    case Some(None) => body
    case Some(Some(message)) => message.content.GetOr(body)
  }

  /**
   * The two mappings agree except on a message with tool calls: there the
   * continuation returns the content (or the body) where generateChatWithTools
   * returns the FUNCTION_CALL marker, so a second round of tool calls is not
   * reported as one.
   */
  lemma ContinuationIgnoresToolCalls(body: string, parsed: Option<Option<ResponseMessage>>)
    ensures !(parsed.Some? && parsed.value.Some? && HasToolCalls(parsed.value.value)) ==>
              ContinuationResponseText(body, parsed) == ResponseText(body, parsed)
    ensures parsed.Some? && parsed.value.Some? && HasToolCalls(parsed.value.value) ==>
              ContinuationResponseText(body, parsed) == parsed.value.value.content.GetOr(body)
    ensures parsed.Some? && parsed.value.Some? && HasToolCalls(parsed.value.value)
            && !StartsWith(ContinuationResponseText(body, parsed), FUNCTION_CALL_MARKER) ==>
              ContinuationResponseText(body, parsed) != ResponseText(body, parsed)
  {
    if parsed.Some? && parsed.value.Some? && HasToolCalls(parsed.value.value) {
      var r := ResponseText(body, parsed);
      assert r[..|FUNCTION_CALL_MARKER|] == FUNCTION_CALL_MARKER;
    }
  }

  /** The part of OllamaService that reads the system-message configuration. */
  class OllamaService {
    const systemMessageConfig: SystemMessageConfig

    constructor(systemMessageConfig: SystemMessageConfig)
      ensures this.systemMessageConfig == systemMessageConfig
    {
      this.systemMessageConfig := systemMessageConfig;
    }

    /** prependDefaultSystemMessage: insert the configured message at index 0 unless present or disabled. */
    method PrependDefaultSystemMessage(messages: MessageArray)
      modifies messages
      ensures messages.items == WithSystemMessage(old(messages.items), systemMessageConfig.DefaultSystemMessage())
    {
      if !systemMessageConfig.IsEnabled() {
        return;
      }
      if |messages.items| > 0 {
        var first := messages.items[0];
        if first.role.Some? && first.role.value == SYSTEM_ROLE {
          return;
        }
      }
      var defaultMessage := systemMessageConfig.DefaultSystemMessage();
      if defaultMessage.Some? {
        messages.InsertFirst(SystemMessage(defaultMessage.value));
      }
    }

    /** The request continueConversationWithFunctionResult posts. */
    method ContinuationRequest<J>(model: string, originalPrompt: string, toolCalls: ToolCalls,
                                  functionResult: string, toolsJson: Option<string>,
                                  readTree: string -> Option<J>)
      returns (request: ChatRequest<J>)
      ensures request.model == model && !request.stream
      ensures request.messages ==
        ContinuationHistory(systemMessageConfig.DefaultSystemMessage(), originalPrompt, toolCalls, functionResult)
      ensures request.tools == ToolsField(toolsJson, readTree)
    {
      var messages := new MessageArray();
      PrependDefaultSystemMessage(messages);
      messages.Add(UserMessage(FUNCTION_RESULT_INSTRUCTION + originalPrompt));
      messages.Add(AssistantToolCallMessage(toolCalls));
      if toolCalls.ToolCallArray? && |toolCalls.calls| > 0 {
        var firstToolCall := toolCalls.calls[0];
        if firstToolCall.hasFunction {
          messages.Add(ToolMessage(functionResult, firstToolCall.id));
        }
      }
      var tools: Option<J> := None;
      if toolsJson.Some? && toolsJson.value != "" {
        tools := readTree(toolsJson.value);
      }
      request := ChatRequest(model, false, messages.items, tools);
    }

    /** The request generateChatWithTools posts: the optional system message, then the prompt. */
    method ChatWithToolsRequest<J>(model: string, prompt: string, toolsJson: Option<string>,
                                   readTree: string -> Option<J>)
      returns (request: ChatRequest<J>)
      ensures request.model == model && !request.stream
      ensures request.messages == WithSystemMessage([], systemMessageConfig.DefaultSystemMessage()) + [UserMessage(prompt)]
      ensures request.tools == ToolsField(toolsJson, readTree)
    {
      var messages := new MessageArray();
      PrependDefaultSystemMessage(messages);
      messages.Add(UserMessage(prompt));
      var tools: Option<J> := None;
      if toolsJson.Some? && toolsJson.value != "" {
        tools := readTree(toolsJson.value);
      }
      request := ChatRequest(model, false, messages.items, tools);
    }
  }
}
