# Code-embedding pipeline: a Dafny model

This project models `code_analysis.py`, a small retrieval-augmented pipeline. It reads a
source file and cuts it into chunks of whole lines. Each chunk is embedded with the OpenAI
embedding service and upserted into a Pinecone index under the id `str(i)`, with its first
4000 characters as metadata. A typed question is then embedded and used to query the index.
The matches' code goes into a chat prompt, and the answer is saved as a markdown artifact.
An interactive mode instead asks the completion model to explain each retrieved chunk.

The model is organised by component:

- `Text`: Python's `"\n".join`, `str.splitlines` (on `'\n'` only), `str(i)` and `str.lower`.
- `Chunking`: `split_text`, a pure function, and `split_code_into_chunks`. The chunker is a
  method with its loop, proved against a specification function `CodeChunks`.
- `Services`: the two remote services. `OpenAIClient` answers with given functions of the
  request and records every request in order. `VectorIndex` holds its records in a `map`
  field that an upsert overwrites.
- `Embedding`: `get_embedding`, one request per 4000-character slice, in order.
- `Ingestion`: `store_embeddings_in_pinecone`, whose single `try` stops the run at the first
  failure.
- `Generation`: the answer prompt of `main` and its skip test, the saved artifact, and the
  labelled analyses of `analyze_code_with_gpt`.
- `Pipeline`: `query_embeddings`, one turn of `interactive_query`, and the batch run of `main`.

Behaviours of `code_analysis.py` that are easy to misread, all modelled as written:

- Ingestion does not catch failures chunk by chunk. One `try` wraps the whole loop, so the
  first failing chunk ends the run, and later chunks are never attempted.
- The chunker's test ignores the `'\n'` separator. A chunk of two or more lines can therefore
  be `max_chunk_size + 1` characters long.
- When the first line alone is over the bound, the chunker emits an empty chunk `""` first.
  Ingesting that chunk fails at once: an empty text has no embedding, so `[0]` raises.
- Rejoining the chunks does not give the original text back when it ends in a newline,
  because `splitlines` drops the final newline.
- Generation is skipped only when there are no matches or the first match has no metadata.
  This is weaker than "no match carried code".
- In the interactive mode, a match without code raises a `KeyError` that ends the loop. The
  loop does not skip that match; it stops.
- An embedding failure carries the service's error, not the index of the failing slice.

## Model

| member | source | states |
|---|---|---|
| `Chunking.SplitText` | code_analysis.py:131-133 | for a positive width, every slice holds 1 to `n` characters and all but the last exactly `n`; there are no slices exactly when the text is empty or the width negative |
| `Chunking.SplitTextConcat` | code_analysis.py:131-133 | the slices, concatenated in order, give the text back |
| `Chunking.SplitTextCount` | code_analysis.py:131-133 | there are `ceil(len(text) / n)` slices |
| `Chunking.SplitTextAt` | code_analysis.py:131-133 | slice `i` is `text[i*n : i*n + n]`, as in the comprehension |
| `Chunking.SplitCodeIntoChunks` | code_analysis.py:46-62 | the loop returns exactly the chunks of the specification function `CodeChunks` |
| `Chunking.PackingProperties` | code_analysis.py:48-60 | the line groups flatten to the lines in order; only the first group can be empty, exactly when the first line is over the bound; groups of two or more lines are at most one over the bound; a group is closed only when the next line fails the test |
| `Chunking.ChunksRejoin` | code_analysis.py:48-60 | `"\n".join(chunks)` equals `"\n".join(lines)`, with one extra separator in front exactly when the first line is over the bound |
| `Chunking.ChunksAreWholeLines` | code_analysis.py:52-60 | each non-empty chunk splits back into exactly its group of lines, so no line is ever split |
| `Chunking.ChunksBound` | code_analysis.py:53-57 | a chunk holding a newline is at most `max_chunk_size + 1` long; each chunk plus the first line of the next exceeds the bound |
| `Chunking.ChunksEdgeCases` | code_analysis.py:48-62 | empty code gives `[]`; other code gives between one chunk and one more chunk than lines; a final newline changes nothing |
| `Chunking.LeadingEmptyChunk` | code_analysis.py:53-57 | when the first line is over the bound, the first chunk is `""` and at least two chunks are returned |
| `Chunking.OffByOneExample` | code_analysis.py:53-54 | `"a\nb"` with bound 2 is a single chunk of three characters |
| `Chunking.OneChunk` | code_analysis.py:52-60 | the code is a single chunk, its lines rejoined, exactly when it has a line and the joined lines are at most the bound for one line, or the bound plus one for two lines or more |
| `Chunking.TwoLineFile` | code_analysis.py:46-62 | two fitting lines followed by a newline form one chunk, without that newline |
| `Chunking.TwoLineFileExample` | code_analysis.py:46-62 | `"def f():\n    return 1\n"` with the default bound 500 gives the one chunk `"def f():\n    return 1"` |
| `Text.Lines` | code_analysis.py:48 | no line holds a newline; there are no lines exactly when the text is empty |
| `Text.LinesRoundTrip` | code_analysis.py:48 | the lines, joined with `'\n'`, give the text back less its final newline |
| `Text.NatToStringInjective` | code_analysis.py:78 | different positions get different ids `str(i)` |
| `Services.OpenAIClient.CreateEmbedding` | code_analysis.py:37-41 | the answer is the embedding service's answer for the input; one embedding request is appended to the log |
| `Services.OpenAIClient.CreateCompletion` | code_analysis.py:109-114 | the answer is the completion service's answer for the prompt; one completion request is logged |
| `Services.OpenAIClient.CreateChat` | code_analysis.py:164-173 | the answer is the chat service's answer for the two messages; one chat request is logged |
| `Services.VectorIndex.Upsert` | code_analysis.py:77-79 | unless the service raises, the record at the id is inserted or overwritten and no other key changes; on a fault the records are unchanged |
| `Services.VectorIndex.Query` | code_analysis.py:87-91 | stand-in for the remote `index.query` call, not a property: the matches are the given search function of the records held, the vector and `top_k` |
| `Embedding.EmbedEachSpec` | code_analysis.py:34-42 | success exactly when every slice is embedded, then one vector per slice in slice order with every slice sent once; on failure the error is that of the last slice sent, and all before it succeeded |
| `Embedding.EmbedEachStops` | code_analysis.py:36-41 | after the first failing slice no later slice is sent or changes the result |
| `Embedding.EmbeddingsCount` | code_analysis.py:33-42 | `ceil(len(text) / 4000)` vectors and as many requests; the empty text gives `[]` and no request; a text of at most 4000 characters gives one vector |
| `Embedding.GetEmbedding` | code_analysis.py:33-42 | the loop returns `Embeddings(text)` and sends exactly the requests `EmbeddingCalls(text)`, in order |
| `Ingestion.StoredCode` | code_analysis.py:75 | the metadata code is the prefix of the chunk of length `min(len(chunk), 4000)` |
| `Ingestion.IngestChunkOutcome` | code_analysis.py:75-79 | one iteration stores the chunk exactly when its embedding and upsert succeed, and otherwise leaves the records as they were and keeps the fault |
| `Ingestion.IngestOutcome` | code_analysis.py:71-81 | the first `stored` chunks were all accepted; the run fails exactly when chunks remain, and then chunk `stored` is the one that raised |
| `Ingestion.IngestStops` | code_analysis.py:72-81 | once a prefix of the run has failed, the later chunks change nothing |
| `Ingestion.IngestKeys` | code_analysis.py:73-79 | afterwards the keys are the old keys plus `str(0) .. str(stored - 1)` |
| `Ingestion.IngestRecordAt` | code_analysis.py:73-79 | key `str(i)` of a stored chunk `i` holds that chunk's record |
| `Ingestion.IngestKeeps` | code_analysis.py:73-79 | an old key outside `str(0) .. str(stored - 1)` keeps its record, so records of an earlier, longer run survive |
| `Ingestion.IngestRecords` | code_analysis.py:71-81 | the three facts above together, over every key |
| `Ingestion.StoredRecords` | code_analysis.py:73-79 | key `str(i)` of every stored chunk holds the first vector of `get_embedding(chunk)` and `chunk[:4000]` |
| `Ingestion.EmptyChunkStopsRun` | code_analysis.py:76 | an empty chunk has no embedding, so the run stops at it or earlier |
| `Ingestion.LongFirstLineStoresNothing` | code_analysis.py:53-57 | when the first line of the code is over the bound, ingesting its chunks stores nothing and fails with no embedding |
| `Ingestion.StoreEmbeddings` | code_analysis.py:71-81 | the loop leaves the index and the request log in the state `Ingest` describes, and reports the error it printed |
| `Generation.BuildAnswerPrompt` | code_analysis.py:150-160 | the loop builds the prompt `AnswerPrompt` gives: header, snippet blocks, question; none when the skip test holds |
| `Generation.SnippetsAppend` | code_analysis.py:151-153 | the snippets of two runs of matches are those of each, in order |
| `Generation.SnippetAt` | code_analysis.py:151-153 | every match with metadata and code contributes its `### Code Snippet (ID: id)` block at its own place in match order |
| `Generation.SnippetsEmpty` | code_analysis.py:151-153 | no block is added exactly when no match carries code |
| `Generation.SkipRuleIsNotNoSnippets` | code_analysis.py:150-158 | a first match without metadata skips generation although a later match has code; a first match with metadata but no code sends a prompt without snippets |
| `Generation.FirstSnippetLeads` | code_analysis.py:151-156 | when the first match carries code, generation goes ahead and that match's block opens the snippets |
| `Generation.ArtifactRoundTrip` | code_analysis.py:178 | the artifact of a one-line prompt reads back as that prompt and the response |
| `Generation.AnalysedPositions` | code_analysis.py:104-118 | analyses and positions correspond one to one, at most one per chunk, positions strictly increasing |
| `Generation.AnalysedExactly` | code_analysis.py:106-117 | a chunk's position is listed exactly when its completion succeeded |
| `Generation.AnalysesLabelled` | code_analysis.py:114-115 | analysis `j` is the completion text of chunk `ps[j]`, labelled `ps[j] + 1` |
| `Generation.AnalysesSpec` | code_analysis.py:104-118 | the kept analyses are those of the chunks whose completion succeeded, each labelled with the chunk's 1-based position, in increasing order |
| `Generation.AllAnalysed` | code_analysis.py:104-118 | when every completion succeeds, analysis `k` is chunk `k`'s, labelled `k + 1` |
| `Generation.AllPositions` | code_analysis.py:104-118 | when every completion succeeds, every position is listed, in order |
| `Generation.AnalyzeCodeWithGpt` | code_analysis.py:104-118 | the loop returns `Analyses(chunks)` and sends one completion request per chunk, in order |
| `Pipeline.QueryEmbeddings` | code_analysis.py:85-101 | the result is `QueryMatches` and the requests are the query's embedding requests |
| `Pipeline.QueryUsesFirstSlice` | code_analysis.py:85-91 | the empty query fails with no request; a successful query searches with the vector of the query's first 4000 characters, after every slice was embedded |
| `Pipeline.ExitCommand` | code_analysis.py:124 | the sentinel is exactly `exit` in any mix of upper and lower case |
| `Pipeline.RelevantCodeSpec` | code_analysis.py:127 | the comprehension succeeds exactly when every match has code, and then keeps their codes in order; otherwise it raises a missing-key error |
| `Pipeline.InteractiveTurn` | code_analysis.py:122-129 | one turn ends as `Turn` says, with the requests `TurnRequests` lists |
| `Pipeline.UnguardedCodeAccess` | code_analysis.py:126-128 | one match without code ends the loop with a missing-key error before any completion request; otherwise the turn analyses the matches |
| `Pipeline.GenerateAnswer` | code_analysis.py:147-183 | query, prompt or skip, chat and artifact end as `Answer` says, with the requests `AnswerRequests` lists |
| `Pipeline.RunBatch` | code_analysis.py:136-183 | the batch run chunks with bound 500, leaves the index as `Ingest` describes, then answers against the records then held |
| `Pipeline.AnswerAsksChat` | code_analysis.py:150-173 | the chat model is asked exactly when the query succeeded and the skip test failed, with the assembled prompt; otherwise only the embedding requests are sent |
| `Pipeline.SavedArtifactReadsBack` | code_analysis.py:176-178 | a saved artifact of a one-line prompt reads back as the prompt and the chat answer |

## Left out

- Client and index setup at import time (API keys, `list_indexes`, `create_index` with its
  dimension, metric and region, lines 5-30): these are calls into the remote services.
- Vector contents and the similarity ranking: vectors are opaque values. The index's answer
  to a query is a given function of its records, the vector and `top_k`.
- Parsing of OpenAI responses: each service is a given function from the request to a vector
  or text, or to an error. The model names, `max_tokens` and temperature are not modelled.
- Services.VectorIndex.Upsert: whether an upsert raises is a fixed function of the id and
  the record, so the model cannot express a service that fails at random.
- File reading and writing in `main`: the artifact text is modelled, the write is not.
- `debug_pinecone_metadata` and the prints in `query_embeddings`: console output only.
- The `input()` loop of `interactive_query`: one turn is modelled, for a given line of input.
- `str.splitlines` boundaries other than `'\n'` (`\r`, `\r\n`, `\v`, `\f`, `\x1c`-`\x1e`,
  `\x85`, `\u2028`,
  `\u2029`): the model splits lines on `'\n'` only.
- `str.lower` is modelled on ASCII letters only.
- The default `max_chunk_size=8000` of `split_text` is never used: every call passes 4000.
- Chunking.SplitText: a width of zero, for which Python's `range` raises `ValueError`, is
  excluded by a precondition. Every caller in the code passes 4000.
- The 1536-dimension check of the index is not modelled, since vectors are opaque.
