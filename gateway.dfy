/** `call_model`, `call_claude` and `call_nova`: the request body each model
    family expects, the path its reply text is read from, and the dispatch on
    the provider tag. The Bedrock client itself is a parameter, `invoke`, from
    the request sent to the parsed response body, `None` when the call or the
    parsing raises. */
module Gateway {
  import opened Wrappers

  /** A JSON document as `json.loads` returns it. */
  datatype Json =
    | JNull
    | JBool(b: bool)
    | JInt(n: int)
    | JFloat(r: real)
    | JStr(s: string)
    | JArr(items: seq<Json>)
    | JObj(fields: map<string, Json>)

  /** One subscript of a Python expression such as `body['content'][0]`. */
  datatype Step = Key(key: string) | Index(index: nat)

  /** One subscript: a key of an object, an element of a list or a character
      of a string; any other subscript raises (`KeyError`, `IndexError`,
      `TypeError`). */
  function Select(j: Json, step: Step): Option<Json> {
    match step
    case Key(k) =>
      if j.JObj? && k in j.fields then Some(j.fields[k]) else None
    case Index(i) =>
      if j.JArr? && i < |j.items| then Some(j.items[i])
      else if j.JStr? && i < |j.s| then Some(JStr([j.s[i]]))
      else None
  }

  /** A chain of subscripts, `None` as soon as one raises. */
  function Follow(j: Json, path: seq<Step>): Option<Json>
    decreases |path|
  {
    if path == [] then Some(j)
    else match Select(j, path[0])
      case None => None
      case Some(next) => Follow(next, path[1..])
  }

  /** Following two paths one after the other is following their concatenation. */
  lemma {:induction false} FollowAppend(j: Json, p: seq<Step>, q: seq<Step>)
    ensures Follow(j, p + q) == (match Follow(j, p) case None => None case Some(n) => Follow(n, q))
    decreases |p|
  {
    if p != [] {
      assert (p + q)[0] == p[0];
      assert (p + q)[1..] == p[1..] + q;
      match Select(j, p[0])
      case None =>
      case Some(next) => FollowAppend(next, p[1..], q);
    } else {
      assert p + q == q;
    }
  }

  // ---------------------------------------------------------------------
  // Request bodies
  // ---------------------------------------------------------------------

  const AnthropicVersion: string := "bedrock-2023-05-31"
  const ContentType: string := "application/json"
  const DefaultTemperature: real := 0.3

  /** The two request bodies: the Anthropic messages format with the prompt
      as the message content, and the Amazon Nova format with the prompt in a
      text block and the limits under `inferenceConfig`. */
  datatype RequestBody =
    | ClaudeBody(anthropicVersion: string, maxTokens: int, temperature: real, prompt: string)
    | NovaBody(prompt: string, maxNewTokens: int, temperature: real)

  function UserMessage(content: Json): Json {
    JObj(map["role" := JStr("user"), "content" := content])
  }

  /** The dictionary `json.dumps` serialises. */
  function ToJson(body: RequestBody): Json {
    match body
    case ClaudeBody(version, maxTokens, temperature, prompt) =>
      JObj(map[
        "anthropic_version" := JStr(version),
        "max_tokens" := JInt(maxTokens),
        "temperature" := JFloat(temperature),
        "messages" := JArr([UserMessage(JStr(prompt))])])
    case NovaBody(prompt, maxNewTokens, temperature) =>
      JObj(map[
        "messages" := JArr([UserMessage(JArr([JObj(map["text" := JStr(prompt)])]))]),
        "inferenceConfig" := JObj(map["max_new_tokens" := JInt(maxNewTokens), "temperature" := JFloat(temperature)])])
  }

  /** Where each body carries the prompt. */
  const ClaudePromptPath: seq<Step> := [Key("messages"), Index(0), Key("content")]
  const NovaPromptPath: seq<Step> := [Key("messages"), Index(0), Key("content"), Index(0), Key("text")]

  /** Each body has exactly the top-level keys its API expects, and the
      prompt, the token limit and the temperature are where that API reads them. */
  lemma BodyShape(prompt: string, maxTokens: int, temperature: real)
    ensures var c := ToJson(ClaudeBody(AnthropicVersion, maxTokens, temperature, prompt));
      && c.fields.Keys == {"anthropic_version", "max_tokens", "temperature", "messages"}
      && Follow(c, [Key("anthropic_version")]) == Some(JStr("bedrock-2023-05-31"))
      && Follow(c, [Key("max_tokens")]) == Some(JInt(maxTokens))
      && Follow(c, [Key("temperature")]) == Some(JFloat(temperature))
      && Follow(c, ClaudePromptPath) == Some(JStr(prompt))
    ensures var n := ToJson(NovaBody(prompt, maxTokens, temperature));
      && n.fields.Keys == {"messages", "inferenceConfig"}
      && Follow(n, [Key("inferenceConfig"), Key("max_new_tokens")]) == Some(JInt(maxTokens))
      && Follow(n, [Key("inferenceConfig"), Key("temperature")]) == Some(JFloat(temperature))
      && Follow(n, NovaPromptPath) == Some(JStr(prompt))
  {
    var c := ToJson(ClaudeBody(AnthropicVersion, maxTokens, temperature, prompt));
    var n := ToJson(NovaBody(prompt, maxTokens, temperature));
    assert Follow(c, ClaudePromptPath) == Follow(JArr([UserMessage(JStr(prompt))]), ClaudePromptPath[1..]);
    assert Follow(n, NovaPromptPath) == Follow(n.fields["messages"], NovaPromptPath[1..]);
  }

  /** A body never passes for the other family's: the Anthropic body has no
      `inferenceConfig`, the Nova body no `anthropic_version`, and the prompt
      is not where the other family would look for it. */
  lemma BodiesDiffer(prompt: string, maxTokens: int, temperature: real)
    ensures var c := ToJson(ClaudeBody(AnthropicVersion, maxTokens, temperature, prompt));
      var n := ToJson(NovaBody(prompt, maxTokens, temperature));
      && Follow(c, [Key("inferenceConfig")]).None?
      && Follow(n, [Key("anthropic_version")]).None?
      && Follow(c, NovaPromptPath).None?
      && Follow(n, ClaudePromptPath) != Some(JStr(prompt))
  {
    var c := ToJson(ClaudeBody(AnthropicVersion, maxTokens, temperature, prompt));
    assert Follow(c, NovaPromptPath) == Follow(JStr(prompt), NovaPromptPath[3..]);
    assert NovaPromptPath[3..] == [Index(0), Key("text")];
    if prompt != [] {
      assert Follow(JStr(prompt), [Index(0), Key("text")]) == Follow(JStr([prompt[0]]), [Key("text")]);
    }
  }

  // ---------------------------------------------------------------------
  // Responses
  // ---------------------------------------------------------------------

  /** `response_body['content'][0]['text']` */
  const ClaudeTextPath: seq<Step> := [Key("content"), Index(0), Key("text")]
  /** `response_body['output']['message']['content'][0]['text']` */
  const NovaTextPath: seq<Step> := [Key("output"), Key("message"), Key("content"), Index(0), Key("text")]

  /** The smallest reply of each family carrying `text`. */
  function ClaudeReply(text: string): Json {
    JObj(map["content" := JArr([JObj(map["text" := JStr(text)])])])
  }

  function NovaReply(text: string): Json {
    JObj(map["output" := JObj(map["message" := ClaudeReply(text)])])
  }

  /** A Nova reply wraps the content list of an Anthropic reply in
      `output.message`, so its path is the Anthropic path below that. */
  lemma NovaPathWrapsClaudePath(j: Json)
    ensures NovaTextPath == [Key("output"), Key("message")] + ClaudeTextPath
    ensures Follow(j, NovaTextPath) ==
      (match Follow(j, [Key("output"), Key("message")]) case None => None case Some(m) => Follow(m, ClaudeTextPath))
  {
    FollowAppend(j, [Key("output"), Key("message")], ClaudeTextPath);
  }

  /** Each family's path reads the text back out of its own reply, and finds
      nothing in the other family's. */
  lemma ReplyRoundTrip(text: string)
    ensures Follow(ClaudeReply(text), ClaudeTextPath) == Some(JStr(text))
    ensures Follow(NovaReply(text), NovaTextPath) == Some(JStr(text))
    ensures Follow(NovaReply(text), ClaudeTextPath).None?
    ensures Follow(ClaudeReply(text), NovaTextPath).None?
  {
    NovaPathWrapsClaudePath(NovaReply(text));
    assert Follow(NovaReply(text), [Key("output"), Key("message")]) == Some(ClaudeReply(text));
  }

  // ---------------------------------------------------------------------
  // Calls
  // ---------------------------------------------------------------------

  /** The arguments of one `client.invoke_model` call. */
  datatype Invocation = Invocation(modelId: string, body: Json, contentType: string)

  /** What a call returns, and the invocations it made on the client. */
  datatype CallOutcome = CallOutcome(result: Option<Json>, sent: seq<Invocation>)

  /** Invoke once and read the reply text along `path`; an exception anywhere
      (the call, parsing, a missing key or index) is caught and gives `None`. */
  function CallWith(invoke: Invocation -> Option<Json>, modelId: string, body: RequestBody, path: seq<Step>): CallOutcome {
    var request := Invocation(modelId, ToJson(body), ContentType);
    match invoke(request)
    case None => CallOutcome(None, [request])
    case Some(response) => CallOutcome(Follow(response, path), [request])
  }

  /** Lines 167-188. */
  function CallClaude(invoke: Invocation -> Option<Json>, modelId: string, prompt: string, maxTokens: int, temperature: real): CallOutcome {
    CallWith(invoke, modelId, ClaudeBody(AnthropicVersion, maxTokens, temperature, prompt), ClaudeTextPath)
  }

  /** Lines 193-222. */
  function CallNova(invoke: Invocation -> Option<Json>, modelId: string, prompt: string, maxTokens: int, temperature: real): CallOutcome {
    CallWith(invoke, modelId, NovaBody(prompt, maxTokens, temperature), NovaTextPath)
  }

  /** Lines 224-232: dispatch on the provider tag. */
  function CallModel(invoke: Invocation -> Option<Json>, modelId: string, provider: string, prompt: string, maxTokens: int, temperature: real): CallOutcome {
    if provider == "Anthropic" then CallClaude(invoke, modelId, prompt, maxTokens, temperature)
    else if provider == "Amazon" then CallNova(invoke, modelId, prompt, maxTokens, temperature)
    else CallOutcome(None, [])
  }

  /** A supported provider sends exactly one request, to the given model,
      with that provider's body; any other tag gives `None` without calling
      the client. When the client raises, the result is `None`; when it
      answers with a reply of the provider's family, the result is the text. */
  lemma CallModelSpec(invoke: Invocation -> Option<Json>, modelId: string, provider: string, prompt: string, maxTokens: int, temperature: real, text: string)
    ensures var o := CallModel(invoke, modelId, provider, prompt, maxTokens, temperature);
      && (provider != "Anthropic" && provider != "Amazon" <==> o.sent == [])
      && (o.sent == [] ==> o.result.None?)
      && (o.sent != [] ==> |o.sent| == 1 && o.sent[0].modelId == modelId && o.sent[0].contentType == "application/json")
      && (o.sent != [] && invoke(o.sent[0]).None? ==> o.result.None?)
    ensures provider == "Anthropic" ==>
      var o := CallModel(invoke, modelId, provider, prompt, maxTokens, temperature);
      && o.sent[0].body == ToJson(ClaudeBody(AnthropicVersion, maxTokens, temperature, prompt))
      && (invoke(o.sent[0]) == Some(ClaudeReply(text)) ==> o.result == Some(JStr(text)))
      && (invoke(o.sent[0]) == Some(NovaReply(text)) ==> o.result.None?)
    ensures provider == "Amazon" ==>
      var o := CallModel(invoke, modelId, provider, prompt, maxTokens, temperature);
      && o.sent[0].body == ToJson(NovaBody(prompt, maxTokens, temperature))
      && (invoke(o.sent[0]) == Some(NovaReply(text)) ==> o.result == Some(JStr(text)))
      && (invoke(o.sent[0]) == Some(ClaudeReply(text)) ==> o.result.None?)
  {
    ReplyRoundTrip(text);
  }

  // ---------------------------------------------------------------------
  // The models offered
  // ---------------------------------------------------------------------

  datatype ModelInfo = ModelInfo(name: string, modelId: string, maxTokens: int, provider: string)

  /** `MODELS`, in its order. */
  const Models: seq<ModelInfo> := [
    ModelInfo("Claude 3.5 Sonnet", "anthropic.claude-3-5-sonnet-20240620-v1:0", 8000, "Anthropic"),
    ModelInfo("Nova Pro", "amazon.nova-pro-v1:0", 5000, "Amazon"),
    ModelInfo("Claude 3 Haiku", "anthropic.claude-3-haiku-20240307-v1:0", 4000, "Anthropic")
  ]

  /** Every model offered is served: calling it sends one request to its own
      model id with its own token limit, in the body of its family. */
  lemma OfferedModelsAreServed(k: nat, prompt: string, invoke: Invocation -> Option<Json>)
    requires k < |Models|
    ensures var m := Models[k];
      var o := CallModel(invoke, m.modelId, m.provider, prompt, m.maxTokens, DefaultTemperature);
      && |o.sent| == 1
      && o.sent[0].modelId == m.modelId
      && (m.provider == "Anthropic" ==> Follow(o.sent[0].body, [Key("max_tokens")]) == Some(JInt(m.maxTokens)))
      && (m.provider == "Amazon" ==> Follow(o.sent[0].body, [Key("inferenceConfig"), Key("max_new_tokens")]) == Some(JInt(m.maxTokens)))
  {
    var m := Models[k];
    BodyShape(prompt, m.maxTokens, DefaultTemperature);
  }
}
