/**
 * app/api/chat/route.js: the configuration guards, the query for the five
 * nearest chunks, the empty-match answer, the context handed to the LLM and
 * the per-match `chunkedTexts` summary.
 */
module Chat {
  import opened Wrappers
  import opened Config
  import opened JsText
  import opened Llm
  import Embedding

  const VectorStoreNotConfigured := "Vector store not configured"
  const LlmNotConfigured := "DeepSeek LLM not configured. Please set DEEPSEEK_API_KEY and DEEPSEEK_BASE_URL in .env"
  const NoContextAnswer := "No relevant context found in the knowledge base."
  const ChatError := "Chat error"
  const TopK := 5
  const ChatTimeoutMs := 30000
  const Unknown := "unknown"

  /** A match's metadata as stored by the ingestion routes; any field may be missing. */
  datatype MatchMetadata = MatchMetadata(text: Option<string>, page: Option<int>, source: Option<string>)

  /** One match returned by the index query; its metadata may be missing. */
  datatype Match = Match(id: string, metadata: Option<MatchMetadata>)

  /** `index.query({ vector, topK, includeMetadata })`. */
  datatype QueryRequest = QueryRequest(vector: Embedding.Vector, topK: int, includeMetadata: bool)

  /** The query result; `matches` is `None` when it is missing or not an array. */
  datatype QueryResponse = QueryResponse(matches: Option<seq<Match>>)

  /** The calls the handler makes to code outside it, in order. */
  datatype Call = EmbedCall(text: string) | QueryCall(request: QueryRequest) | LlmCall(question: string, context: string)

  /** `page || "unknown"`. */
  datatype PageField = PageNumber(n: int) | UnknownPage

  datatype ChunkedText = ChunkedText(
    chunkNumber: int, page: PageField, source: string, text: string, textLength: int, textPreview: string)

  datatype Reply =
    | ErrorReply(status: int, error: string)
    /** The empty-match reply; its `sources` field is always `[]`, so the
        model keeps only the answer. */
    | NoContext(answer: string)
    | Answered(answer: string, sources: seq<Match>, chunkedTexts: seq<ChunkedText>, totalChunks: int)

  datatype Handled = Handled(reply: Reply, calls: seq<Call>)

  // ---------------------------------------------------------------- per-match projections

  /** `m.metadata?.text`. */
  function MatchText(m: Match): Option<string> {
    if m.metadata.Some? then m.metadata.value.text else None
  }

  /** `m.metadata?.text || ""`. */
  function TextOf(m: Match): string {
    MatchText(m).GetOr("")
  }

  /** The `chunkedTexts` entry for match `m` at position `index`. */
  function ChunkedTextOf(m: Match, index: nat): ChunkedText {
    var md := m.metadata;
    var page := if md.Some? && md.value.page.Some? && md.value.page.value != 0 then PageNumber(md.value.page.value) else UnknownPage;
    var source := if md.Some? && Truthy(md.value.source) then md.value.source.value else Unknown;
    // `text?.substring(0, 200) + "..."` is never falsy: with no text it reads "undefined...".
    var preview := if MatchText(m).Some? then Preview(MatchText(m).value, 200) else "undefined...";
    ChunkedText(index + 1, page, source, TextOf(m), |TextOf(m)|, preview)
  }

  /** `matches.map((match, index) => ...)`. */
  function ChunkedTexts(matches: seq<Match>): seq<ChunkedText> {
    seq(|matches|, i requires 0 <= i < |matches| => ChunkedTextOf(matches[i], i))
  }

  /** The match texts, in the order returned. */
  function Texts(matches: seq<Match>): seq<string> {
    seq(|matches|, i requires 0 <= i < |matches| => TextOf(matches[i]))
  }

  /** `matches.map(m => m.metadata?.text || "").join("\n\n")`. */
  function Context(matches: seq<Match>): string {
    Join(Texts(matches), "\n\n")
  }

  // ---------------------------------------------------------------- the handler

  /** `POST(request)` for the question `question`. `embed` is `generateEmbedding`
      and `query` is `index.query` (`None`/`Failure` when they throw); `llm`
      and `complete` give `askLLM`. */
  function Post(env: Env, question: string, embed: string -> Option<Embedding.Vector>,
                query: QueryRequest -> Result<QueryResponse, string>,
                llm: LlmModule, complete: Request -> Result<Completion, string>): Handled
  {
    if !Truthy(env.pineconeApiKey) || !Truthy(env.pineconeIndex) then
      Handled(ErrorReply(500, VectorStoreNotConfigured), [])
    else if !Truthy(env.deepseekApiKey) || !Truthy(env.deepseekBaseUrl) then
      Handled(ErrorReply(500, LlmNotConfigured), [])
    else
      match embed(question)
      case None => Handled(ErrorReply(500, ChatError), [EmbedCall(question)])
      case Some(vector) =>
        var request := QueryRequest(vector, TopK, true);
        var calls := [EmbedCall(question), QueryCall(request)];
        match query(request)
        case Failure(_) => Handled(ErrorReply(500, ChatError), calls)
        case Success(response) =>
          var matches := response.matches.GetOr([]);
          if matches == [] then Handled(NoContext(NoContextAnswer), calls)
          else
            var context := Context(matches);
            var chunkedTexts := ChunkedTexts(matches);
            var llmCalls := calls + [LlmCall(question, context)];
            match llm.AskLLM(question, context, Some(ChatTimeoutMs), complete)
            case Failure(_) => Handled(ErrorReply(500, ChatError), llmCalls)
            case Success(answer) => Handled(Answered(answer, matches, chunkedTexts, |chunkedTexts|), llmCalls)
  }

  // ---------------------------------------------------------------- properties

  /** The vector-store check comes first and the LLM check second; a request
      failing either is answered with a 500 before anything is embedded. */
  lemma GuardOrder(env: Env, question: string, embed: string -> Option<Embedding.Vector>,
                   query: QueryRequest -> Result<QueryResponse, string>,
                   llm: LlmModule, complete: Request -> Result<Completion, string>)
    ensures var h := Post(env, question, embed, query, llm, complete);
      (!Truthy(env.pineconeApiKey) || !Truthy(env.pineconeIndex) ==>
        h.reply == ErrorReply(500, "Vector store not configured") && h.calls == []) &&
      (Truthy(env.pineconeApiKey) && Truthy(env.pineconeIndex) &&
       (!Truthy(env.deepseekApiKey) || !Truthy(env.deepseekBaseUrl)) ==>
        h.reply == ErrorReply(500, LlmNotConfigured) && h.calls == []) &&
      (Truthy(env.pineconeApiKey) && Truthy(env.pineconeIndex) &&
       Truthy(env.deepseekApiKey) && Truthy(env.deepseekBaseUrl) ==>
        h.calls != [] && h.calls[0] == EmbedCall(question))
  {
  }

  /** Whenever the index is queried, it is asked for the 5 nearest records with
      their metadata, for the question's embedding. */
  lemma QueryShape(env: Env, question: string, embed: string -> Option<Embedding.Vector>,
                   query: QueryRequest -> Result<QueryResponse, string>,
                   llm: LlmModule, complete: Request -> Result<Completion, string>, j: int)
    requires var h := Post(env, question, embed, query, llm, complete);
      0 <= j < |h.calls| && h.calls[j].QueryCall?
    ensures var r := Post(env, question, embed, query, llm, complete).calls[j].request;
      j == 1 && embed(question) == Some(r.vector) && r.topK == 5 && r.includeMetadata
  {
  }

  /** When the query returns no matches (or no array of them) the fixed answer
      comes back and the LLM is never called. */
  lemma NoMatchesNoLlm(env: Env, question: string, embed: string -> Option<Embedding.Vector>,
                       query: QueryRequest -> Result<QueryResponse, string>,
                       llm: LlmModule, complete: Request -> Result<Completion, string>)
    requires Truthy(env.pineconeApiKey) && Truthy(env.pineconeIndex)
    requires Truthy(env.deepseekApiKey) && Truthy(env.deepseekBaseUrl)
    requires embed(question).Some?
    requires var r := query(QueryRequest(embed(question).value, 5, true));
      r.Success? && (r.value.matches.None? || r.value.matches.value == [])
    ensures var h := Post(env, question, embed, query, llm, complete);
      h.reply == NoContext("No relevant context found in the knowledge base.") &&
      forall c :: c in h.calls ==> !c.LlmCall?
  {
  }

  /** An answered request reports every match, one `chunkedTexts` entry per
      match, and asked the LLM once, last, with the joined match texts. */
  lemma AnsweredShape(env: Env, question: string, embed: string -> Option<Embedding.Vector>,
                      query: QueryRequest -> Result<QueryResponse, string>,
                      llm: LlmModule, complete: Request -> Result<Completion, string>)
    requires Post(env, question, embed, query, llm, complete).reply.Answered?
    ensures var h := Post(env, question, embed, query, llm, complete);
      var matches := query(QueryRequest(embed(question).value, 5, true)).value.matches.value;
      embed(question).Some? &&
      h.reply.sources == matches && matches != [] &&
      |h.reply.chunkedTexts| == |matches| == h.reply.totalChunks &&
      |h.calls| == 3 && h.calls[2] == LlmCall(question, Context(matches))
  {
  }

  /** The context is the match texts in order, separated by a blank line; a
      match without text adds an empty piece. */
  lemma ContextSnoc(matches: seq<Match>, m: Match)
    requires matches != []
    ensures Context(matches + [m]) == Context(matches) + "\n\n" + TextOf(m)
  {
    assert Texts(matches + [m]) == Texts(matches) + [TextOf(m)];
    JoinSnoc(Texts(matches), TextOf(m), "\n\n");
  }

  lemma ContextSingle(m: Match)
    ensures Context([m]) == TextOf(m)
  {
    assert Texts([m]) == [TextOf(m)];
  }

  /** Entry `i` of `chunkedTexts` is numbered `i + 1` and carries match `i`'s
      text and its length, page and source defaulting to "unknown" and a preview
      that is never empty: with no text it reads "undefined...". */
  lemma ChunkedTextAt(matches: seq<Match>, i: int)
    requires 0 <= i < |matches|
    ensures var c, m := ChunkedTexts(matches)[i], matches[i];
      c.chunkNumber == i + 1 && c.text == TextOf(m) && c.textLength == |TextOf(m)| &&
      (c.source == "unknown" <==> m.metadata.None? || m.metadata.value.source.None? ||
                                  m.metadata.value.source.value in {"", "unknown"}) &&
      (m.metadata.Some? && Truthy(m.metadata.value.source) ==> c.source == m.metadata.value.source.value) &&
      (m.metadata.Some? && m.metadata.value.page.Some? && m.metadata.value.page.value != 0 ==>
        c.page == PageNumber(m.metadata.value.page.value)) &&
      (c.page == UnknownPage <==> m.metadata.None? || m.metadata.value.page.None? || m.metadata.value.page.value == 0) &&
      c.textPreview != "" && EndsWith(c.textPreview, "...") &&
      (MatchText(m).None? ==> c.textPreview == "undefined...") &&
      (MatchText(m).Some? ==> c.textPreview == MatchText(m).value[..Min(200, |MatchText(m).value|)] + "...")
  {
  }
}
