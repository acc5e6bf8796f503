/** `get_embedding`: one embedding request per 4000-character slice, in order, failing fast. */
module Embedding {
  import opened Wrappers
  import opened Chunking
  import opened Services

  /** The slice width `get_embedding` passes to `split_text`. */
  const SLICE_SIZE := 4000

  function Slices(text: string): seq<string>
  {
    SplitText(text, SLICE_SIZE)
  }

  /** The vectors of the slices in order, or the first error: the loop of `get_embedding`. */
  function EmbedEach(slices: seq<string>, model: string -> Result<Vector, Error>): Result<seq<Vector>, Error>
    decreases |slices|
  {
    if slices == [] then Success([])
    else
      match EmbedEach(slices[..|slices| - 1], model)
      case Failure(e) => Failure(e)
      case Success(vectors) =>
        match model(slices[|slices| - 1])
        case Failure(e) => Failure(e)
        case Success(v) => Success(vectors + [v])
  }

  /** How many slices are sent: all of them, or those up to and including the first that fails. */
  function CallsMade(slices: seq<string>, model: string -> Result<Vector, Error>): (n: nat)
    ensures n <= |slices|
    decreases |slices|
  {
    if slices == [] then 0
    else if EmbedEach(slices[..|slices| - 1], model).Failure? then CallsMade(slices[..|slices| - 1], model)
    else |slices|
  }

  function EmbeddingRequests(inputs: seq<string>): seq<Request>
  {
    seq(|inputs|, i requires 0 <= i < |inputs| => EmbeddingRequest(inputs[i]))
  }

  /** What `get_embedding(text)` returns. */
  function Embeddings(text: string, model: string -> Result<Vector, Error>): Result<seq<Vector>, Error>
  {
    EmbedEach(Slices(text), model)
  }

  /** The requests `get_embedding(text)` sends. */
  function EmbeddingCalls(text: string, model: string -> Result<Vector, Error>): seq<Request>
  {
    var slices := Slices(text);
    EmbeddingRequests(slices[..CallsMade(slices, model)])
  }

  /**
   * Fan-out: the result succeeds exactly when every slice is embedded, and then holds one
   * vector per slice in slice order, every slice having been sent once; otherwise it carries
   * the error of the first slice that failed, which is the last one sent.
   */
  lemma {:induction false} EmbedEachSpec(slices: seq<string>, model: string -> Result<Vector, Error>)
    ensures var r := EmbedEach(slices, model);
      r.Success? <==> forall i :: 0 <= i < |slices| ==> model(slices[i]).Success?
    ensures var r := EmbedEach(slices, model);
      r.Success? ==>
        && |r.value| == |slices|
        && (forall i :: 0 <= i < |slices| ==> r.value[i] == model(slices[i]).value)
        && CallsMade(slices, model) == |slices|
    ensures var r, n := EmbedEach(slices, model), CallsMade(slices, model);
      r.Failure? ==>
        && 0 < n <= |slices|
        && model(slices[n - 1]) == Failure(r.error)
        && (forall i :: 0 <= i < n - 1 ==> model(slices[i]).Success?)
    decreases |slices|
  {
    if slices != [] {
      var init := slices[..|slices| - 1];
      EmbedEachSpec(init, model);
      assert forall i :: 0 <= i < |init| ==> init[i] == slices[i];
    }
  }

  /** Once a prefix has failed, the later slices change nothing. */
  lemma {:induction false} EmbedEachStops(slices: seq<string>, k: nat, model: string -> Result<Vector, Error>)
    requires k <= |slices|
    requires EmbedEach(slices[..k], model).Failure?
    ensures EmbedEach(slices, model) == EmbedEach(slices[..k], model)
    ensures CallsMade(slices, model) == CallsMade(slices[..k], model)
    decreases |slices| - k
  {
    if k < |slices| {
      var init := slices[..|slices| - 1];
      assert init[..k] == slices[..k];
      EmbedEachStops(init, k, model);
    } else {
      assert slices[..k] == slices;
    }
  }

  /**
   * Counts: one vector per slice, ceil(|text| / 4000) of them; none for the empty text (so the
   * `[0]` of callers fails), exactly one for a non-empty text of at most 4000 characters.
   */
  lemma EmbeddingsCount(text: string, model: string -> Result<Vector, Error>)
    ensures var r := Embeddings(text, model);
      r.Success? ==> |r.value| == |EmbeddingCalls(text, model)| == (|text| + SLICE_SIZE - 1) / SLICE_SIZE
    ensures text == "" ==> Embeddings(text, model) == Success([]) && EmbeddingCalls(text, model) == []
    ensures var r := Embeddings(text, model);
      0 < |text| <= SLICE_SIZE && r.Success? ==> |r.value| == 1
  {
    var slices := Slices(text);
    EmbedEachSpec(slices, model);
    SplitTextCount(text, SLICE_SIZE);
    assert slices[..|slices|] == slices;
  }

  /** One more slice after a prefix that succeeded: it is sent, and its outcome decides. */
  lemma EmbedStep(slices: seq<string>, i: nat, model: string -> Result<Vector, Error>)
    requires i < |slices| && EmbedEach(slices[..i], model).Success?
    ensures CallsMade(slices[..i + 1], model) == i + 1
    ensures EmbedEach(slices[..i + 1], model) ==
      match model(slices[i])
      case Failure(e) => Failure(e)
      case Success(v) => Success(EmbedEach(slices[..i], model).value + [v])
    ensures EmbeddingRequests(slices[..i + 1]) == EmbeddingRequests(slices[..i]) + [EmbeddingRequest(slices[i])]
  {
    assert slices[..i + 1][..i] == slices[..i];
  }

  /** `get_embedding` with its loop, sending each slice to the client in turn. */
  method GetEmbedding(client: OpenAIClient, text: string) returns (r: Result<seq<Vector>, Error>)
    modifies client
    ensures r == Embeddings(text, client.embedding)
    ensures client.requests == old(client.requests) + EmbeddingCalls(text, client.embedding)
  {
    var slices := SplitText(text, SLICE_SIZE);
    var embeddings: seq<Vector> := [];
    var i := 0;
    while i < |slices|
      invariant 0 <= i <= |slices|
      invariant EmbedEach(slices[..i], client.embedding) == Success(embeddings)
      invariant CallsMade(slices[..i], client.embedding) == i
      invariant client.requests == old(client.requests) + EmbeddingRequests(slices[..i])
    {
      var response := client.CreateEmbedding(slices[i]);
      EmbedStep(slices, i, client.embedding);
      if response.Failure? {
        EmbedEachStops(slices, i + 1, client.embedding);
        r := Failure(response.error);
        return;
      }
      embeddings := embeddings + [response.value];
      i := i + 1;
    }
    assert slices[..i] == slices;
    r := Success(embeddings);
  }
}
