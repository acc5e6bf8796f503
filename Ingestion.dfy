/**
 * `store_embeddings_in_pinecone`: chunk `i` is embedded and upserted under the id `str(i)` with
 * its first 4000 characters as metadata. One `try` wraps the whole loop, so the first failure
 * ends the run: the chunks before it are stored and none after it is attempted.
 */
module Ingestion {
  import opened Wrappers
  import opened Text
  import opened Chunking
  import opened Services
  import opened Embedding

  /** The number of characters of a chunk kept as metadata. */
  const METADATA_LIMIT := 4000

  /** `chunk[:4000]`: a prefix of the chunk, as long as the chunk but at most 4000 characters. */
  function StoredCode(chunk: string): (code: string)
    ensures |code| == Min(|chunk|, METADATA_LIMIT)
    ensures code == chunk[..|code|]
  {
    if |chunk| <= METADATA_LIMIT then chunk else chunk[..METADATA_LIMIT]
  }

  /** The record stored for a chunk: its first vector and its truncated text, or the error raised. */
  function ChunkRecord(chunk: string, model: string -> Result<Vector, Error>): Result<Record, Error>
  {
    match Embeddings(chunk, model)
    case Failure(e) => Failure(e)
    case Success(vectors) =>
      if vectors == [] then Failure(NoEmbedding) else Success(Record(vectors[0], StoredCode(chunk)))
  }

  /** How `store_embeddings_in_pinecone` turns a chunk into a record, for a given embedding model. */
  function RecordOf(model: string -> Result<Vector, Error>): string -> Result<Record, Error>
  {
    chunk => ChunkRecord(chunk, model)
  }

  /** The embedding requests sent for a chunk, for a given embedding model. */
  function CallsOf(model: string -> Result<Vector, Error>): string -> seq<Request>
  {
    chunk => EmbeddingCalls(chunk, model)
  }

  /** The state of the index and of the client during a run, with how many chunks were stored. */
  datatype IngestState = IngestState(
    records: map<string, Record>,
    requests: seq<Request>,
    stored: nat,
    failure: Option<Error>)

  /**
   * One iteration for the chunk at position `s.stored`: `recordOf` is how the chunk becomes a
   * record (or an error), `callsOf` the requests that costs, `rejects` the index's verdict.
   */
  function IngestChunk(
    s: IngestState, chunk: string, recordOf: string -> Result<Record, Error>,
    callsOf: string -> seq<Request>, rejects: (string, Record) -> Option<Error>): IngestState
  {
    var requests := s.requests + callsOf(chunk);
    match recordOf(chunk)
    case Failure(e) => IngestState(s.records, requests, s.stored, Some(e))
    case Success(record) =>
      var id := NatToString(s.stored);
      match rejects(id, record)
      case Some(e) => IngestState(s.records, requests, s.stored, Some(e))
      case None => IngestState(s.records[id := record], requests, s.stored + 1, None)
  }

  /** The state after the run over `chunks`, from the given records and requests. */
  function Ingest(
    records: map<string, Record>, requests: seq<Request>, chunks: seq<string>,
    recordOf: string -> Result<Record, Error>, callsOf: string -> seq<Request>,
    rejects: (string, Record) -> Option<Error>): IngestState
    decreases |chunks|
  {
    if chunks == [] then IngestState(records, requests, 0, None)
    else
      var s := Ingest(records, requests, chunks[..|chunks| - 1], recordOf, callsOf, rejects);
      if s.failure.Some? then s else IngestChunk(s, chunks[|chunks| - 1], recordOf, callsOf, rejects)
  }

  /** The ids `str(0) .. str(n - 1)`. */
  function Ids(n: nat): set<string>
  {
    set i | 0 <= i < n :: NatToString(i)
  }

  /**
   * Which chunks were stored: the first `stored` ones, each accepted; the run fails exactly when
   * some chunk is left, and then it is chunk `stored` whose embedding or upsert raised.
   */
  lemma {:induction false} IngestOutcome(
    records: map<string, Record>, requests: seq<Request>, chunks: seq<string>,
    recordOf: string -> Result<Record, Error>, callsOf: string -> seq<Request>,
    rejects: (string, Record) -> Option<Error>)
    ensures var s := Ingest(records, requests, chunks, recordOf, callsOf, rejects);
      && s.stored <= |chunks|
      && (s.failure.None? <==> s.stored == |chunks|)
      && (forall i :: 0 <= i < s.stored ==> Accepted(chunks[i], i, recordOf, callsOf, rejects))
    ensures var s := Ingest(records, requests, chunks, recordOf, callsOf, rejects);
      s.failure.Some? ==> s.failure == FaultOf(chunks[s.stored], s.stored, recordOf, callsOf, rejects)
    decreases |chunks|
  {
    if chunks != [] {
      var init := chunks[..|chunks| - 1];
      var last := chunks[|chunks| - 1];
      var s0 := Ingest(records, requests, init, recordOf, callsOf, rejects);
      IngestOutcome(records, requests, init, recordOf, callsOf, rejects);
      if s0.failure.None? {
        IngestChunkOutcome(s0, last, recordOf, callsOf, rejects);
      }
      forall i | 0 <= i < s0.stored
        ensures Accepted(chunks[i], i, recordOf, callsOf, rejects)
      {
        assert init[i] == chunks[i];
      }
      if s0.failure.Some? {
        assert init[s0.stored] == chunks[s0.stored];
      }
    }
  }

  /** The chunk at position `i` was embedded and its upsert accepted. */
  ghost predicate Accepted(chunk: string, i: nat, recordOf: string -> Result<Record, Error>, callsOf: string -> seq<Request>,
    rejects: (string, Record) -> Option<Error>)
  {
    recordOf(chunk).Success? && rejects(NatToString(i), recordOf(chunk).value).None?
  }

  /** The error raised for the chunk at position `i`, if any. */
  function FaultOf(chunk: string, i: nat, recordOf: string -> Result<Record, Error>, callsOf: string -> seq<Request>,
    rejects: (string, Record) -> Option<Error>): Option<Error>
  {
    match recordOf(chunk)
    case Failure(e) => Some(e)
    case Success(record) => rejects(NatToString(i), record)
  }

  /** One iteration stores the chunk exactly when it is accepted, and otherwise records its fault. */
  lemma IngestChunkOutcome(
    s: IngestState, chunk: string,
    recordOf: string -> Result<Record, Error>, callsOf: string -> seq<Request>,
    rejects: (string, Record) -> Option<Error>)
    ensures var t := IngestChunk(s, chunk, recordOf, callsOf, rejects);
      && (t.failure.None? <==> Accepted(chunk, s.stored, recordOf, callsOf, rejects))
      && (t.failure.None? ==> t.stored == s.stored + 1)
      && (t.failure.None? ==> t.records == s.records[NatToString(s.stored) := recordOf(chunk).value])
      && (t.failure.Some? ==>
            t.stored == s.stored && t.records == s.records && t.failure == FaultOf(chunk, s.stored, recordOf, callsOf, rejects))
  {
  }

  /** The ids grow by one fresh id at a time. */
  lemma IdsSnoc(n: nat)
    ensures Ids(n + 1) == Ids(n) + {NatToString(n)}
    ensures NatToString(n) !in Ids(n)
  {
    if NatToString(n) in Ids(n) {
      var i :| 0 <= i < n && NatToString(i) == NatToString(n);
      NatToStringInjective(i, n);
    }
    assert forall key :: key in Ids(n + 1) ==> key in Ids(n) + {NatToString(n)};
  }

  /**
   * One more chunk either leaves the records and the count as they were, or stores the chunk's
   * record under the next id.
   */
  lemma IngestStep(
    records: map<string, Record>, requests: seq<Request>, chunks: seq<string>,
    recordOf: string -> Result<Record, Error>, callsOf: string -> seq<Request>,
    rejects: (string, Record) -> Option<Error>)
    requires chunks != []
    ensures var s0 := Ingest(records, requests, chunks[..|chunks| - 1], recordOf, callsOf, rejects);
      var s := Ingest(records, requests, chunks, recordOf, callsOf, rejects);
      || (s.records == s0.records && s.stored == s0.stored)
      || (&& s.stored == s0.stored + 1
          && recordOf(chunks[|chunks| - 1]).Success?
          && s.records == s0.records[NatToString(s0.stored) := recordOf(chunks[|chunks| - 1]).value])
  {
  }

  /** The keys afterwards: the old ones and `str(0) .. str(stored - 1)`. */
  lemma {:induction false} IngestKeys(
    records: map<string, Record>, requests: seq<Request>, chunks: seq<string>,
    recordOf: string -> Result<Record, Error>, callsOf: string -> seq<Request>,
    rejects: (string, Record) -> Option<Error>)
    ensures var s := Ingest(records, requests, chunks, recordOf, callsOf, rejects);
      s.records.Keys == records.Keys + Ids(s.stored)
    decreases |chunks|
  {
    if chunks != [] {
      var s0 := Ingest(records, requests, chunks[..|chunks| - 1], recordOf, callsOf, rejects);
      IngestKeys(records, requests, chunks[..|chunks| - 1], recordOf, callsOf, rejects);
      IngestStep(records, requests, chunks, recordOf, callsOf, rejects);
      IdsSnoc(s0.stored);
    }
  }

  /**
   * What the index holds afterwards: key `str(i)` maps to the record of chunk `i` for every
   * stored chunk.
   */
  lemma {:induction false} IngestRecordAt(
    records: map<string, Record>, requests: seq<Request>, chunks: seq<string>,
    recordOf: string -> Result<Record, Error>, callsOf: string -> seq<Request>,
    rejects: (string, Record) -> Option<Error>, i: nat)
    requires i < |chunks| && i < Ingest(records, requests, chunks, recordOf, callsOf, rejects).stored
    ensures var s := Ingest(records, requests, chunks, recordOf, callsOf, rejects);
      NatToString(i) in s.records && recordOf(chunks[i]) == Success(s.records[NatToString(i)])
    decreases |chunks|
  {
    var init := chunks[..|chunks| - 1];
    var s0 := Ingest(records, requests, init, recordOf, callsOf, rejects);
    IngestStep(records, requests, chunks, recordOf, callsOf, rejects);
    IngestOutcome(records, requests, init, recordOf, callsOf, rejects);
    if i < s0.stored {
      IngestRecordAt(records, requests, init, recordOf, callsOf, rejects, i);
      assert init[i] == chunks[i];
      IdsSnoc(s0.stored);
      assert NatToString(i) in Ids(s0.stored);
    }
  }

  /** Every old key outside `str(0) .. str(stored - 1)` keeps its record, so an earlier, longer run's records survive. */
  lemma {:induction false} IngestKeeps(
    records: map<string, Record>, requests: seq<Request>, chunks: seq<string>,
    recordOf: string -> Result<Record, Error>, callsOf: string -> seq<Request>,
    rejects: (string, Record) -> Option<Error>, key: string)
    requires key in records && key !in Ids(Ingest(records, requests, chunks, recordOf, callsOf, rejects).stored)
    ensures var s := Ingest(records, requests, chunks, recordOf, callsOf, rejects);
      key in s.records && s.records[key] == records[key]
    decreases |chunks|
  {
    if chunks != [] {
      var s0 := Ingest(records, requests, chunks[..|chunks| - 1], recordOf, callsOf, rejects);
      IngestStep(records, requests, chunks, recordOf, callsOf, rejects);
      IdsSnoc(s0.stored);
      IngestKeeps(records, requests, chunks[..|chunks| - 1], recordOf, callsOf, rejects, key);
    }
  }

  /** The three facts above over every key, with the count bounded by the number of chunks. */
  lemma IngestRecords(
    records: map<string, Record>, requests: seq<Request>, chunks: seq<string>,
    recordOf: string -> Result<Record, Error>, callsOf: string -> seq<Request>,
    rejects: (string, Record) -> Option<Error>)
    ensures Ingest(records, requests, chunks, recordOf, callsOf, rejects).stored <= |chunks|
    ensures var s := Ingest(records, requests, chunks, recordOf, callsOf, rejects);
      && s.records.Keys == records.Keys + Ids(s.stored)
      && (forall i :: 0 <= i < s.stored ==> recordOf(chunks[i]) == Success(s.records[NatToString(i)]))
      && (forall key :: key in records && key !in Ids(s.stored) ==> s.records[key] == records[key])
  {
    IngestOutcome(records, requests, chunks, recordOf, callsOf, rejects);
    IngestKeys(records, requests, chunks, recordOf, callsOf, rejects);
    var s := Ingest(records, requests, chunks, recordOf, callsOf, rejects);
    forall i | 0 <= i < s.stored
      ensures recordOf(chunks[i]) == Success(s.records[NatToString(i)])
    {
      IngestRecordAt(records, requests, chunks, recordOf, callsOf, rejects, i);
    }
    forall key | key in records && key !in Ids(s.stored)
      ensures s.records[key] == records[key]
    {
      IngestKeeps(records, requests, chunks, recordOf, callsOf, rejects, key);
    }
  }

  /**
   * With the embedding requests of `get_embedding`: key `str(i)` of every stored chunk holds the
   * first vector of the chunk's embeddings and the chunk's first 4000 characters.
   */
  lemma StoredRecords(
    records: map<string, Record>, requests: seq<Request>, chunks: seq<string>,
    model: string -> Result<Vector, Error>, rejects: (string, Record) -> Option<Error>)
    ensures Ingest(records, requests, chunks, RecordOf(model), CallsOf(model), rejects).stored <= |chunks|
    ensures var s := Ingest(records, requests, chunks, RecordOf(model), CallsOf(model), rejects);
      forall i :: 0 <= i < s.stored ==>
        && NatToString(i) in s.records
        && Embeddings(chunks[i], model).Success?
        && Embeddings(chunks[i], model).value != []
        && s.records[NatToString(i)] == Record(Embeddings(chunks[i], model).value[0], StoredCode(chunks[i]))
  {
    IngestRecords(records, requests, chunks, RecordOf(model), CallsOf(model), rejects);
    var s := Ingest(records, requests, chunks, RecordOf(model), CallsOf(model), rejects);
    forall i | 0 <= i < s.stored
      ensures NatToString(i) in s.records
    {
      IdsSnoc(i);
    }
  }

  /** Once a prefix of the run has failed, the later chunks change nothing. */
  lemma {:induction false} IngestStops(
    records: map<string, Record>, requests: seq<Request>, chunks: seq<string>, k: nat,
    recordOf: string -> Result<Record, Error>, callsOf: string -> seq<Request>,
    rejects: (string, Record) -> Option<Error>)
    requires k <= |chunks|
    requires Ingest(records, requests, chunks[..k], recordOf, callsOf, rejects).failure.Some?
    ensures Ingest(records, requests, chunks, recordOf, callsOf, rejects) == Ingest(records, requests, chunks[..k], recordOf, callsOf, rejects)
    decreases |chunks| - k
  {
    if k < |chunks| {
      var init := chunks[..|chunks| - 1];
      assert init[..k] == chunks[..k];
      IngestStops(records, requests, init, k, recordOf, callsOf, rejects);
    } else {
      assert chunks[..k] == chunks;
    }
  }

  /** An empty chunk has no slice and so no embedding: `[0]` raises and nothing more is stored. */
  lemma EmptyChunkStopsRun(
    records: map<string, Record>, requests: seq<Request>, chunks: seq<string>, k: nat,
    model: string -> Result<Vector, Error>, rejects: (string, Record) -> Option<Error>)
    requires k < |chunks| && chunks[k] == ""
    ensures Ingest(records, requests, chunks, RecordOf(model), CallsOf(model), rejects).stored <= k
  {
    IngestOutcome(records, requests, chunks, RecordOf(model), CallsOf(model), rejects);
    assert RecordOf(model)("") == Failure(NoEmbedding);
  }

  /**
   * Chunker and ingestion together: when the first line of the code is over the chunk bound,
   * the chunker's empty first chunk makes the run fail at once, and the index is left as it was.
   */
  lemma LongFirstLineStoresNothing(
    records: map<string, Record>, requests: seq<Request>, code: string, maxSize: int,
    model: string -> Result<Vector, Error>, rejects: (string, Record) -> Option<Error>)
    requires code != "" && |Lines(code)[0]| > maxSize
    ensures var s := Ingest(records, requests, CodeChunks(code, maxSize), RecordOf(model), CallsOf(model), rejects);
      s.stored == 0 && s.failure == Some(NoEmbedding) && s.records == records
  {
    var chunks := CodeChunks(code, maxSize);
    LeadingEmptyChunk(code, maxSize);
    var first := chunks[..1];
    assert first[..0] == [];
    assert RecordOf(model)(first[0]) == Failure(NoEmbedding);
    IngestStops(records, requests, chunks, 1, RecordOf(model), CallsOf(model), rejects);
  }

  /** `store_embeddings_in_pinecone` with its loop; the result is the error it prints, if any. */
  method StoreEmbeddings(client: OpenAIClient, index: VectorIndex, chunks: seq<string>)
    returns (logged: Option<Error>)
    modifies client, index
    ensures var s := Ingest(old(index.records), old(client.requests), chunks, RecordOf(client.embedding), CallsOf(client.embedding), index.rejects);
      index.records == s.records && client.requests == s.requests && logged == s.failure
  {
    ghost var records0, requests0 := index.records, client.requests;
    var i := 0;
    while i < |chunks|
      invariant 0 <= i <= |chunks|
      invariant Ingest(records0, requests0, chunks[..i], RecordOf(client.embedding), CallsOf(client.embedding), index.rejects)
        == IngestState(index.records, client.requests, i, None)
    {
      var chunk := chunks[i];
      assert chunks[..i + 1][..i] == chunks[..i];
      ghost var before := IngestState(index.records, client.requests, i, None);
      var metadata := StoredCode(chunk);
      var embeddings := GetEmbedding(client, chunk);
      if embeddings.Failure? {
        IngestStops(records0, requests0, chunks, i + 1, RecordOf(client.embedding), CallsOf(client.embedding), index.rejects);
        logged := Some(embeddings.error);
        return;
      }
      if embeddings.value == [] {
        IngestStops(records0, requests0, chunks, i + 1, RecordOf(client.embedding), CallsOf(client.embedding), index.rejects);
        logged := Some(NoEmbedding);
        return;
      }
      var fault := index.Upsert(NatToString(i), Record(embeddings.value[0], metadata));
      if fault.Some? {
        IngestStops(records0, requests0, chunks, i + 1, RecordOf(client.embedding), CallsOf(client.embedding), index.rejects);
        logged := fault;
        return;
      }
      i := i + 1;
    }
    assert chunks[..i] == chunks;
    logged := None;
  }
}
