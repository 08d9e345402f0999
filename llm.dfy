/**
 * lib/llm.js: the DeepSeek chat client built once when the module loads, the
 * model-name fallback, and `askLLM`, which builds a two-message request and
 * reads the answer out of the completion.
 */
module Llm {
  import opened Wrappers
  import opened Config

  const DefaultModel := "deepseek-chat"
  const DefaultTimeoutMs := 30000
  const Temperature: real := 0.2
  const NotInitialized := "OpenAI client not initialized. Please check your API key configuration."

  const SystemPrompt :=
    "You are a helpful assistant for health workers.\n" +
    "Answer questions using the provided context from WHO guidelines.\n" +
    "Be concise and professional. Cite sources when possible."

  /** `LLM_MODEL || DEEPSEEK_MODEL || "deepseek-chat"`: the first variable that
      is set and not empty names the model, so the name is never empty. */
  function ModelName(env: Env): (name: string)
    ensures name != ""
    ensures Truthy(env.llmModel) ==> name == env.llmModel.value
    ensures !Truthy(env.llmModel) && Truthy(env.deepseekModel) ==> name == env.deepseekModel.value
    ensures !Truthy(env.llmModel) && !Truthy(env.deepseekModel) ==> name == "deepseek-chat"
  {
    if Truthy(env.llmModel) then env.llmModel.value
    else if Truthy(env.deepseekModel) then env.deepseekModel.value
    else DefaultModel
  }

  datatype Message = Message(role: string, content: string)

  /** The user turn: the context, then the question. */
  function UserContent(context: string, question: string): string {
    "Context:\n" + context + "\n\nQuestion: " + question
  }

  /** With the question fixed, the user turn determines the context. */
  lemma UserContentDeterminesContext(c1: string, c2: string, question: string)
    requires UserContent(c1, question) == UserContent(c2, question)
    ensures c1 == c2
  {
    var u := UserContent(c1, question);
    assert c1 == u[9..|u| - 12 - |question|];
    assert c2 == u[9..|u| - 12 - |question|];
  }

  /** With the context fixed, the user turn determines the question. */
  lemma UserContentDeterminesQuestion(context: string, q1: string, q2: string)
    requires UserContent(context, q1) == UserContent(context, q2)
    ensures q1 == q2
  {
    var u := UserContent(context, q1);
    assert q1 == u[21 + |context|..];
    assert q2 == u[21 + |context|..];
  }

  /** The system prompt, then the user turn. */
  function Messages(question: string, context: string): (ms: seq<Message>)
    ensures |ms| == 2
    ensures ms[0].role == "system" && ms[0].content == SystemPrompt
    ensures ms[1].role == "user" && ms[1].content == UserContent(context, question)
  {
    [Message("system", SystemPrompt), Message("user", UserContent(context, question))]
  }

  /** What `client.chat.completions.create` is called with. */
  datatype Request = Request(model: string, messages: seq<Message>, temperature: real, timeoutMs: int)

  /** A completion: `choices` may be absent, and each choice's `message.content`
      may be absent (`None`). */
  datatype Completion = Completion(choices: Option<seq<Option<string>>>)

  /** `response.choices?.[0]?.message?.content || ""`: the first choice's
      content when there is one, and empty otherwise. */
  function Answer(response: Completion): (answer: string)
    ensures var cs := response.choices;
      (cs.Some? && cs.value != [] && cs.value[0].Some? ==> answer == cs.value[0].value) &&
      (cs.None? || cs.value == [] || cs.value[0].None? ==> answer == "")
  {
    match response.choices
    case None => ""
    case Some(choices) =>
      if choices == [] then ""
      else choices[0].GetOr("")
  }

  /** An OpenAI client, with the key and base URL read at module load. */
  datatype Client = Client(apiKey: string, baseUrl: Option<string>)

  /** The module's state after it loads: `client` is built only when the key is
      set, and the model name is fixed then too. */
  class LlmModule {
    const client: Option<Client>
    const modelName: string

    /** Module load. */
    constructor Load(env: Env)
      ensures client.Some? <==> Truthy(env.deepseekApiKey)
      ensures client.Some? ==> client.value == Client(env.deepseekApiKey.value, env.deepseekBaseUrl)
      ensures modelName == ModelName(env)
    {
      client := if Truthy(env.deepseekApiKey) then Some(Client(env.deepseekApiKey.value, env.deepseekBaseUrl)) else None;
      modelName := ModelName(env);
    }

    /** The request `askLLM` sends for a question, its context and the timeout option. */
    function RequestFor(question: string, context: string, timeoutMs: Option<int>): (r: Request)
      ensures r.model == modelName && r.messages == Messages(question, context)
      ensures r.temperature == 0.2
      ensures r.timeoutMs == (if timeoutMs.Some? then timeoutMs.value else 30000)
    {
      Request(modelName, Messages(question, context), Temperature, timeoutMs.GetOr(DefaultTimeoutMs))
    }

    /** `askLLM(question, context, { timeoutMs })`. `complete` is the remote call
        (`Failure` when it throws or is aborted). Without a client it fails
        before any request is built. */
    function AskLLM(question: string, context: string, timeoutMs: Option<int>,
                    complete: Request -> Result<Completion, string>): (r: Result<string, string>)
      ensures client.None? ==> r == Failure(NotInitialized)
      ensures client.Some? ==>
        match complete(RequestFor(question, context, timeoutMs))
        case Failure(e) => r == Failure(e)
        case Success(response) => r == Success(Answer(response))
    {
      if client.None? then Failure(NotInitialized)
      else
        match complete(RequestFor(question, context, timeoutMs))
        case Failure(e) => Failure(e)
        case Success(response) => Success(Answer(response))
    }
  }
}
