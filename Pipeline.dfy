/**
 * The drivers of code_analysis.py: `query_embeddings`, one turn of `interactive_query`, and the
 * batch run of `main` (chunk, store, query, build the prompt or stop, ask, save).
 */
module Pipeline {
  import opened Wrappers
  import opened Text
  import opened Chunking
  import opened Services
  import opened Embedding
  import opened Ingestion
  import opened Generation

  /** How many matches a query asks the index for. */
  const TOP_K := 5

  // ---------------------------------------------------------------------------
  // query_embeddings
  // ---------------------------------------------------------------------------

  /**
   * What `query_embeddings(query)` returns: the matches for the first vector of the query, or
   * the error raised (no `try` surrounds it, so a failing embedding or an empty query, whose
   * `[0]` raises, reaches the caller).
   */
  function QueryMatches(
    records: map<string, Record>, query: string, model: string -> Result<Vector, Error>,
    search: (map<string, Record>, Vector, nat) -> Result<seq<Match>, Error>): Result<seq<Match>, Error>
  {
    match Embeddings(query, model)
    case Failure(e) => Failure(e)
    case Success(vectors) => if vectors == [] then Failure(NoEmbedding) else search(records, vectors[0], TOP_K)
  }

  method QueryEmbeddings(client: OpenAIClient, index: VectorIndex, query: string)
    returns (r: Result<seq<Match>, Error>)
    modifies client
    ensures r == QueryMatches(index.records, query, client.embedding, index.search)
    ensures client.requests == old(client.requests) + EmbeddingCalls(query, client.embedding)
  {
    var embeddings := GetEmbedding(client, query);
    if embeddings.Failure? {
      return Failure(embeddings.error);
    }
    if embeddings.value == [] {
      return Failure(NoEmbedding);
    }
    r := index.Query(embeddings.value[0], TOP_K);
  }

  /**
   * The index is searched with the vector of the query's first 4000 characters, and only when
   * every slice of the query was embedded; the empty query fails without any request.
   */
  lemma QueryUsesFirstSlice(
    records: map<string, Record>, query: string, model: string -> Result<Vector, Error>,
    search: (map<string, Record>, Vector, nat) -> Result<seq<Match>, Error>)
    ensures query == "" ==> QueryMatches(records, query, model, search) == Failure(NoEmbedding)
    ensures query == "" ==> EmbeddingCalls(query, model) == []
    ensures var head := query[..Min(|query|, SLICE_SIZE)];
      QueryMatches(records, query, model, search).Success? ==>
        && query != ""
        && (forall i :: 0 <= i < |Slices(query)| ==> model(Slices(query)[i]).Success?)
        && model(head).Success?
        && QueryMatches(records, query, model, search) == search(records, model(head).value, TOP_K)
  {
    EmbeddingsCount(query, model);
    var slices := Slices(query);
    EmbedEachSpec(slices, model);
    if query != "" {
      SplitTextAt(query, SLICE_SIZE, 0);
      assert slices[0] == query[..Min(|query|, SLICE_SIZE)];
    }
  }

  // ---------------------------------------------------------------------------
  // interactive_query
  // ---------------------------------------------------------------------------

  /** `custom_prompt.lower() == 'exit'`. */
  predicate IsExitCommand(input: string)
  {
    Lower(input) == "exit"
  }

  /** The sentinel is "exit" in any mix of upper and lower case, and nothing else. */
  lemma ExitCommand(input: string)
    ensures IsExitCommand(input) <==>
      && |input| == 4
      && (input[0] == 'e' || input[0] == 'E')
      && (input[1] == 'x' || input[1] == 'X')
      && (input[2] == 'i' || input[2] == 'I')
      && (input[3] == 't' || input[3] == 'T')
  {
    if |input| == 4 {
      var low := Lower(input);
      assert low == [LowerChar(input[0]), LowerChar(input[1]), LowerChar(input[2]), LowerChar(input[3])];
    }
  }

  /**
   * `[result['metadata']['code'] for result in matches]`: the codes in order, or the `KeyError`
   * of the first match without metadata or without code.
   */
  function RelevantCode(matches: seq<Match>): Result<seq<string>, Error>
    decreases |matches|
  {
    if matches == [] then Success([])
    else
      match RelevantCode(matches[..|matches| - 1])
      case Failure(e) => Failure(e)
      case Success(codes) =>
        var m := matches[|matches| - 1];
        if HasCode(m) then Success(codes + [CodeOf(m)]) else Failure(MissingCode)
  }

  /** The comprehension succeeds exactly when every match carries code, and keeps their order. */
  lemma {:induction false} RelevantCodeSpec(matches: seq<Match>)
    ensures RelevantCode(matches).Success? <==> forall i :: 0 <= i < |matches| ==> HasCode(matches[i])
    ensures RelevantCode(matches).Failure? ==> RelevantCode(matches).error == MissingCode
    ensures var r := RelevantCode(matches);
      r.Success? ==> |r.value| == |matches| && forall i :: 0 <= i < |matches| ==> r.value[i] == CodeOf(matches[i])
    decreases |matches|
  {
    if matches != [] {
      var init := matches[..|matches| - 1];
      RelevantCodeSpec(init);
      assert forall i :: 0 <= i < |init| ==> init[i] == matches[i];
    }
  }

  /** How one turn of the loop ends. */
  datatype TurnOutcome =
    | Quit
    | Halted(error: Error)
    | Printed(analyses: seq<string>)

  /** One turn for the given input: quit, raise out of the loop, or print the analyses. */
  function Turn(
    records: map<string, Record>, input: string, model: string -> Result<Vector, Error>,
    search: (map<string, Record>, Vector, nat) -> Result<seq<Match>, Error>,
    completion: string -> Result<string, Error>): TurnOutcome
  {
    if IsExitCommand(input) then Quit
    else
      match QueryMatches(records, input, model, search)
      case Failure(e) => Halted(e)
      case Success(matches) =>
        match RelevantCode(matches)
        case Failure(e) => Halted(e)
        case Success(codes) => Printed(Analyses(codes, completion))
  }

  /** The requests one turn sends: none to quit, the query's embeddings, then one per analysed code. */
  function TurnRequests(
    records: map<string, Record>, input: string, model: string -> Result<Vector, Error>,
    search: (map<string, Record>, Vector, nat) -> Result<seq<Match>, Error>): seq<Request>
  {
    if IsExitCommand(input) then []
    else
      EmbeddingCalls(input, model) +
      match QueryMatches(records, input, model, search)
      case Failure(_) => []
      case Success(matches) =>
        match RelevantCode(matches)
        case Failure(_) => []
        case Success(codes) => AnalysisRequests(codes)
  }

  /** The body of the `while True` loop of `interactive_query`, for one line of input. */
  method InteractiveTurn(client: OpenAIClient, index: VectorIndex, input: string) returns (outcome: TurnOutcome)
    modifies client
    ensures outcome == Turn(index.records, input, client.embedding, index.search, client.completion)
    ensures client.requests == old(client.requests) + TurnRequests(index.records, input, client.embedding, index.search)
  {
    if Lower(input) == "exit" {
      return Quit;
    }
    var similar := QueryEmbeddings(client, index, input);
    if similar.Failure? {
      return Halted(similar.error);
    }
    var relevant := RelevantCode(similar.value);
    if relevant.Failure? {
      return Halted(relevant.error);
    }
    var analysis := AnalyzeCodeWithGpt(client, relevant.value);
    outcome := Printed(analysis);
  }

  /**
   * Line 127 has no guard: one match without code among the results ends the loop with a
   * `KeyError` before any completion is requested; otherwise the turn analyses every match.
   */
  lemma UnguardedCodeAccess(
    records: map<string, Record>, input: string, model: string -> Result<Vector, Error>,
    search: (map<string, Record>, Vector, nat) -> Result<seq<Match>, Error>,
    completion: string -> Result<string, Error>)
    requires !IsExitCommand(input)
    requires QueryMatches(records, input, model, search).Success?
    ensures var matches := QueryMatches(records, input, model, search).value;
      (exists i :: 0 <= i < |matches| && !HasCode(matches[i])) ==>
        && Turn(records, input, model, search, completion) == Halted(MissingCode)
        && TurnRequests(records, input, model, search) == EmbeddingCalls(input, model)
    ensures var matches := QueryMatches(records, input, model, search).value;
      (forall i :: 0 <= i < |matches| ==> HasCode(matches[i])) ==>
        && Turn(records, input, model, search, completion).Printed?
        && |Turn(records, input, model, search, completion).analyses| <= |matches|
  {
    var matches := QueryMatches(records, input, model, search).value;
    RelevantCodeSpec(matches);
    var r := RelevantCode(matches);
    if r.Success? {
      AnalysesSpec(r.value, completion);
    } else {
      assert EmbeddingCalls(input, model) + [] == EmbeddingCalls(input, model);
    }
  }

  // ---------------------------------------------------------------------------
  // main
  // ---------------------------------------------------------------------------

  /** How the batch run of `main` ends after storing the chunks. */
  datatype BatchOutcome =
    | Crashed(error: Error)
    | NoSnippets
    | GenerationFailed(error: Error)
    | Saved(markdown: string)

  /** The part of `main` after the upserts, for the records the index then holds. */
  function Answer(
    records: map<string, Record>, query: string, model: string -> Result<Vector, Error>,
    search: (map<string, Record>, Vector, nat) -> Result<seq<Match>, Error>,
    chat: (string, string) -> Result<string, Error>): BatchOutcome
  {
    match QueryMatches(records, query, model, search)
    case Failure(e) => Crashed(e)
    case Success(matches) =>
      match AnswerPrompt(matches, query)
      case None => NoSnippets
      case Some(prompt) =>
        match chat(SYSTEM_PROMPT, prompt)
        case Failure(e) => GenerationFailed(e)
        case Success(response) => Saved(Artifact(query, response))
  }

  /** The requests of that part: the query's embeddings, then the chat request unless skipped. */
  function AnswerRequests(
    records: map<string, Record>, query: string, model: string -> Result<Vector, Error>,
    search: (map<string, Record>, Vector, nat) -> Result<seq<Match>, Error>): seq<Request>
  {
    EmbeddingCalls(query, model) +
    match QueryMatches(records, query, model, search)
    case Failure(_) => []
    case Success(matches) =>
      match AnswerPrompt(matches, query)
      case None => []
      case Some(prompt) => [ChatRequest(SYSTEM_PROMPT, prompt)]
  }

  /** Query, build the prompt or stop, ask the chat model, and produce the artifact. */
  method GenerateAnswer(client: OpenAIClient, index: VectorIndex, query: string) returns (outcome: BatchOutcome)
    modifies client
    ensures outcome == Answer(index.records, query, client.embedding, index.search, client.chat)
    ensures client.requests == old(client.requests) + AnswerRequests(index.records, query, client.embedding, index.search)
  {
    var similar := QueryEmbeddings(client, index, query);
    if similar.Failure? {
      return Crashed(similar.error);
    }
    var prompt := BuildAnswerPrompt(similar.value, query);
    if prompt.None? {
      return NoSnippets;
    }
    var response := client.CreateChat(SYSTEM_PROMPT, prompt.value);
    if response.Failure? {
      return GenerationFailed(response.error);
    }
    outcome := Saved(Artifact(query, response.value));
  }

  /**
   * The batch run of `main` on the file's text and the typed prompt: chunk with the default
   * bound, store (the error, if any, is only printed), then answer.
   */
  method RunBatch(client: OpenAIClient, index: VectorIndex, code: string, query: string)
    returns (storeFault: Option<Error>, outcome: BatchOutcome)
    modifies client, index
    ensures var s := Ingest(old(index.records), old(client.requests), CodeChunks(code, DEFAULT_MAX_CHUNK_SIZE),
                            RecordOf(client.embedding), CallsOf(client.embedding), index.rejects);
      && index.records == s.records
      && storeFault == s.failure
      && outcome == Answer(s.records, query, client.embedding, index.search, client.chat)
      && client.requests == s.requests + AnswerRequests(s.records, query, client.embedding, index.search)
  {
    var chunks := SplitCodeIntoChunks(code, DEFAULT_MAX_CHUNK_SIZE);
    storeFault := StoreEmbeddings(client, index, chunks);
    outcome := GenerateAnswer(client, index, query);
  }

  /**
   * The chat model is asked exactly when the query found matches and the skip test passed; a
   * skipped run sends only the query's embedding requests.
   */
  lemma AnswerAsksChat(
    records: map<string, Record>, query: string, model: string -> Result<Vector, Error>,
    search: (map<string, Record>, Vector, nat) -> Result<seq<Match>, Error>,
    chat: (string, string) -> Result<string, Error>)
    ensures var r := QueryMatches(records, query, model, search);
      Answer(records, query, model, search, chat) == NoSnippets <==> r.Success? && SkipsGeneration(r.value)
    ensures var r := QueryMatches(records, query, model, search);
      (r.Failure? || SkipsGeneration(r.value)) ==> AnswerRequests(records, query, model, search) == EmbeddingCalls(query, model)
    ensures var r := QueryMatches(records, query, model, search);
      r.Success? && !SkipsGeneration(r.value) ==>
        AnswerRequests(records, query, model, search) ==
          EmbeddingCalls(query, model) + [ChatRequest(SYSTEM_PROMPT, PROMPT_HEADER + Snippets(r.value) + QuestionSection(query))]
  {
    assert EmbeddingCalls(query, model) + [] == EmbeddingCalls(query, model);
  }

  /** A saved artifact of a one-line prompt reads back as the prompt and the chat model's answer. */
  lemma SavedArtifactReadsBack(
    records: map<string, Record>, query: string, model: string -> Result<Vector, Error>,
    search: (map<string, Record>, Vector, nat) -> Result<seq<Match>, Error>,
    chat: (string, string) -> Result<string, Error>)
    requires '\n' !in query
    requires Answer(records, query, model, search, chat).Saved?
    ensures var prompt := AnswerPrompt(QueryMatches(records, query, model, search).value, query).value;
      ReadArtifact(Answer(records, query, model, search, chat).markdown) == Some((query, chat(SYSTEM_PROMPT, prompt).value))
  {
    var prompt := AnswerPrompt(QueryMatches(records, query, model, search).value, query).value;
    ArtifactRoundTrip(query, chat(SYSTEM_PROMPT, prompt).value);
  }
}
