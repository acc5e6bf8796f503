/**
 * The two remote services code_analysis.py talks to, reduced to what the pipeline observes:
 * the OpenAI client (embeddings, completions, chat), whose answers are given functions of the
 * request and whose requests are recorded in order, and the Pinecone index, a map from record
 * id to record that an upsert overwrites.
 */
module Services {
  import opened Wrappers

  /** An embedding vector; its contents are computed remotely and never inspected here. */
  type Vector = seq<real>

  /** What can go wrong: a service raises, `[0]` of an empty list, or a missing metadata key. */
  datatype Error = ServiceError(message: string) | NoEmbedding | MissingCode

  /** A stored record: the vector and the metadata `{"code": ...}`. */
  datatype Record = Record(values: Vector, code: string)

  /** The metadata of a query match; its "code" key may be absent. */
  datatype Metadata = Metadata(code: Option<string>)

  /** A query match; its "metadata" key may be absent. */
  datatype Match = Match(id: string, score: real, metadata: Option<Metadata>)

  /** One call made to the OpenAI service. */
  datatype Request =
    | EmbeddingRequest(input: string)
    | CompletionRequest(prompt: string)
    | ChatRequest(system: string, user: string)

  class OpenAIClient {
    /** The answer of `openai.Embedding.create` for one input. */
    const embedding: string -> Result<Vector, Error>
    /** The text of the first choice of `openai.Completion.create` for a prompt. */
    const completion: string -> Result<string, Error>
    /** The message content of the first choice of `openai.ChatCompletion.create`. */
    const chat: (string, string) -> Result<string, Error>
    /** Every request sent so far, in order. */
    var requests: seq<Request>

    constructor (
      embedding: string -> Result<Vector, Error>,
      completion: string -> Result<string, Error>,
      chat: (string, string) -> Result<string, Error>)
      ensures this.embedding == embedding && this.completion == completion && this.chat == chat
      ensures requests == []
    {
      this.embedding := embedding;
      this.completion := completion;
      this.chat := chat;
      requests := [];
    }

    method CreateEmbedding(input: string) returns (r: Result<Vector, Error>)
      modifies this
      ensures r == embedding(input)
      ensures requests == old(requests) + [EmbeddingRequest(input)]
    {
      r := embedding(input);
      requests := requests + [EmbeddingRequest(input)];
    }

    method CreateCompletion(prompt: string) returns (r: Result<string, Error>)
      modifies this
      ensures r == completion(prompt)
      ensures requests == old(requests) + [CompletionRequest(prompt)]
    {
      r := completion(prompt);
      requests := requests + [CompletionRequest(prompt)];
    }

    method CreateChat(system: string, user: string) returns (r: Result<string, Error>)
      modifies this
      ensures r == chat(system, user)
      ensures requests == old(requests) + [ChatRequest(system, user)]
    {
      r := chat(system, user);
      requests := requests + [ChatRequest(system, user)];
    }
  }

  class VectorIndex {
    /** The fault the service raises for an upsert, if any. */
    const rejects: (string, Record) -> Option<Error>
    /** The service's answer to a query: matches, best first, for the records it holds. */
    const search: (map<string, Record>, Vector, nat) -> Result<seq<Match>, Error>
    /** The records held, by id. */
    var records: map<string, Record>

    constructor (
      rejects: (string, Record) -> Option<Error>,
      search: (map<string, Record>, Vector, nat) -> Result<seq<Match>, Error>,
      records: map<string, Record>)
      ensures this.rejects == rejects && this.search == search && this.records == records
    {
      this.rejects := rejects;
      this.search := search;
      this.records := records;
    }

    /** `index.upsert`: insert or overwrite the record at `id`, unless the service raises. */
    method Upsert(id: string, record: Record) returns (fault: Option<Error>)
      modifies this
      ensures fault == rejects(id, record)
      ensures records == if fault.None? then old(records)[id := record] else old(records)
    {
      fault := rejects(id, record);
      if fault.None? {
        records := records[id := record];
      }
    }

    /** `index.query(vector=..., top_k=..., include_metadata=True)`. */
    method Query(vector: Vector, topK: nat) returns (r: Result<seq<Match>, Error>)
      ensures r == search(records, vector, topK)
    {
      r := search(records, vector, topK);
    }
  }
}
