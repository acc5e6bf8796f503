/**
 * The text the pipeline builds around the model calls: the answer prompt of `main` with its skip
 * rule, the markdown artifact it saves, and the labelled analyses of `analyze_code_with_gpt`.
 */
module Generation {
  import opened Wrappers
  import opened Text
  import opened Services

  // ---------------------------------------------------------------------------
  // The answer prompt of main
  // ---------------------------------------------------------------------------

  const PROMPT_HEADER := "You have the following code snippets from the application:\n\n"

  /** The system message of the chat request. */
  const SYSTEM_PROMPT := "You are a helpful assistant that tailors responses to specific code snippets."

  const SNIPPET_OPEN := "### Code Snippet (ID: "
  const SNIPPET_MID := "):\n"
  const SNIPPET_CLOSE := "\n\n"
  const QUESTION_OPEN := "### Question:\n"
  const QUESTION_CLOSE := "\n\nPlease provide a detailed response tailored to the code snippets provided above."

  /** The block added for one match that carries code. */
  function SnippetBlock(id: string, code: string): string
  {
    SNIPPET_OPEN + id + SNIPPET_MID + code + SNIPPET_CLOSE
  }

  /** The closing part of the prompt, after the snippets. */
  function QuestionSection(query: string): string
  {
    QUESTION_OPEN + query + QUESTION_CLOSE
  }

  /** `"metadata" in match and "code" in match["metadata"]`. */
  predicate HasCode(m: Match)
  {
    m.metadata.Some? && m.metadata.value.code.Some?
  }

  /** The code of a match that carries some. */
  function CodeOf(m: Match): string
    requires HasCode(m)
  {
    m.metadata.value.code.value
  }

  /** What one iteration of the `+=` loop adds for a match. */
  function Block(m: Match): string
  {
    if HasCode(m) then SnippetBlock(m.id, CodeOf(m)) else ""
  }

  /** The block of each match, in match order. */
  function Blocks(matches: seq<Match>): seq<string>
  {
    seq(|matches|, i requires 0 <= i < |matches| => Block(matches[i]))
  }

  /** What the `+=` loop adds for the matches, in order. */
  function Snippets(matches: seq<Match>): string
  {
    Flatten(Blocks(matches))
  }

  /** One more match adds its block at the end. */
  lemma SnippetsSnoc(matches: seq<Match>, m: Match)
    ensures Snippets(matches + [m]) == Snippets(matches) + Block(m)
  {
    assert Blocks(matches + [m])[..|matches|] == Blocks(matches);
  }

  /** The test of `main`: no matches at all, or a first match without a "metadata" key. */
  predicate SkipsGeneration(matches: seq<Match>)
  {
    |matches| == 0 || matches[0].metadata.None?
  }

  /** The prompt sent to the chat model, or `None` when `main` returns before the request. */
  function AnswerPrompt(matches: seq<Match>, query: string): Option<string>
  {
    if SkipsGeneration(matches) then None else Some(PROMPT_HEADER + Snippets(matches) + QuestionSection(query))
  }

  /** The prompt is built in `main` with a loop; the skip test comes after it. */
  method BuildAnswerPrompt(matches: seq<Match>, query: string) returns (prompt: Option<string>)
    ensures prompt == AnswerPrompt(matches, query)
  {
    var text := PROMPT_HEADER;
    for i := 0 to |matches|
      invariant text == PROMPT_HEADER + Snippets(matches[..i])
    {
      var m := matches[i];
      assert matches[..i + 1] == matches[..i] + [m];
      SnippetsSnoc(matches[..i], m);
      if m.metadata.Some? && m.metadata.value.code.Some? {
        text := text + SnippetBlock(m.id, m.metadata.value.code.value);
      }
      assert text == PROMPT_HEADER + Snippets(matches[..i]) + Block(m);
    }
    assert matches[..|matches|] == matches;
    if |matches| == 0 || matches[0].metadata.None? {
      return None;
    }
    prompt := Some(text + QuestionSection(query));
  }

  /** The snippets of two runs of matches are those of each, one after the other. */
  lemma SnippetsAppend(a: seq<Match>, b: seq<Match>)
    ensures Snippets(a + b) == Snippets(a) + Snippets(b)
  {
    assert Blocks(a + b) == Blocks(a) + Blocks(b);
    FlattenAppend(Blocks(a), Blocks(b));
  }

  /** Each match that carries code contributes its block, at its own place in the order. */
  lemma SnippetAt(matches: seq<Match>, i: nat)
    requires i < |matches| && HasCode(matches[i])
    ensures Snippets(matches) ==
      Snippets(matches[..i]) + SnippetBlock(matches[i].id, CodeOf(matches[i])) + Snippets(matches[i + 1..])
  {
    var before, after := matches[..i] + [matches[i]], matches[i + 1..];
    assert matches == before + after;
    SnippetsAppend(before, after);
    assert before == matches[..i] + [matches[i]];
    SnippetsSnoc(matches[..i], matches[i]);
    assert Snippets(before) == Snippets(matches[..i]) + SnippetBlock(matches[i].id, CodeOf(matches[i]));
  }

  /** No block is added exactly when no match carries code. */
  lemma {:induction false} SnippetsEmpty(matches: seq<Match>)
    ensures Snippets(matches) == "" <==> forall i :: 0 <= i < |matches| ==> !HasCode(matches[i])
    decreases |matches|
  {
    if matches != [] {
      var init := matches[..|matches| - 1];
      SnippetsEmpty(init);
      assert init + [matches[|matches| - 1]] == matches;
      SnippetsSnoc(init, matches[|matches| - 1]);
      assert forall i :: 0 <= i < |init| ==> init[i] == matches[i];
    }
  }

  /**
   * The skip test is not "no snippet was added": a first match without metadata skips the
   * request although a later match carries code, and a first match whose metadata has no code
   * lets a prompt without any snippet through.
   */
  lemma SkipRuleIsNotNoSnippets()
    ensures var ms := [Match("0", 0.9, None), Match("1", 0.8, Some(Metadata(Some("x = 1"))))];
      SkipsGeneration(ms) && Snippets(ms) != ""
    ensures var ms := [Match("0", 0.9, Some(Metadata(None)))];
      !SkipsGeneration(ms) && Snippets(ms) == "" && AnswerPrompt(ms, "q") == Some(PROMPT_HEADER + QuestionSection("q"))
  {
    var ms := [Match("0", 0.9, None), Match("1", 0.8, Some(Metadata(Some("x = 1"))))];
    SnippetAt(ms, 1);
    var ms' := [Match("0", 0.9, Some(Metadata(None)))];
    assert ms'[..0] == [];
    assert Snippets(ms') == "";
    assert PROMPT_HEADER + Snippets(ms') == PROMPT_HEADER;
  }

  /** When the first match carries code the request is made and its block opens the snippets. */
  lemma FirstSnippetLeads(matches: seq<Match>, query: string)
    requires matches != [] && HasCode(matches[0])
    ensures AnswerPrompt(matches, query).Some?
    ensures Snippets(matches) == SnippetBlock(matches[0].id, CodeOf(matches[0])) + Snippets(matches[1..])
  {
    SnippetAt(matches, 0);
    assert matches[..0] == [];
  }

  // ---------------------------------------------------------------------------
  // The saved artifact
  // ---------------------------------------------------------------------------

  const ARTIFACT_HEADER := "# GPT Response\n\n## Prompt\n"
  const RESPONSE_HEADER := "\n\n## Response\n"

  /** The text written to `gpt_response.md`. */
  function Artifact(query: string, response: string): string
  {
    ARTIFACT_HEADER + query + RESPONSE_HEADER + response
  }

  /** Reading an artifact back: the prompt is its line after the header, the rest is the response. */
  function ReadArtifact(doc: string): Option<(string, string)>
  {
    if |doc| < |ARTIFACT_HEADER| || doc[..|ARTIFACT_HEADER|] != ARTIFACT_HEADER then None
    else
      var rest := doc[|ARTIFACT_HEADER|..];
      var n := LineEnd(rest);
      var tail := rest[n..];
      if |tail| < |RESPONSE_HEADER| || tail[..|RESPONSE_HEADER|] != RESPONSE_HEADER then None
      else Some((rest[..n], tail[|RESPONSE_HEADER|..]))
  }

  /** A one-line prompt and any response can be read back from the artifact. */
  lemma ArtifactRoundTrip(query: string, response: string)
    requires '\n' !in query
    ensures ReadArtifact(Artifact(query, response)) == Some((query, response))
  {
    var doc := Artifact(query, response);
    var rest := query + RESPONSE_HEADER + response;
    var tail := RESPONSE_HEADER + response;
    assert doc == ARTIFACT_HEADER + rest;
    assert doc[..|ARTIFACT_HEADER|] == ARTIFACT_HEADER;
    assert doc[|ARTIFACT_HEADER|..] == rest;
    LineEndAt(query, tail);
    assert rest == query + tail;
    assert rest[..|query|] == query;
    assert rest[|query|..] == tail;
    assert tail[..|RESPONSE_HEADER|] == RESPONSE_HEADER;
    assert tail[|RESPONSE_HEADER|..] == response;
  }

  /** The first newline of `line + tail` is the first of `tail` when `line` has none. */
  lemma {:induction false} LineEndAt(line: string, tail: string)
    requires '\n' !in line && tail != [] && tail[0] == '\n'
    ensures LineEnd(line + tail) == |line|
    decreases |line|
  {
    if line != [] {
      assert (line + tail)[1..] == line[1..] + tail;
      assert line[0] in line;
      LineEndAt(line[1..], tail);
    } else {
      assert line + tail == tail;
    }
  }

  // ---------------------------------------------------------------------------
  // analyze_code_with_gpt
  // ---------------------------------------------------------------------------

  const ANALYSIS_OPEN := "Here is a chunk of code:\n\n"
  const ANALYSIS_CLOSE := "\n\nPlease explain what this code does in detail."
  const SECTION_OPEN := "### Analysis for Chunk "
  const SECTION_MID := ":\n\n"

  /** The prompt sent for one chunk. */
  function AnalysisPrompt(chunk: string): string
  {
    ANALYSIS_OPEN + chunk + ANALYSIS_CLOSE
  }

  /** The entry kept for the chunk with 1-based position `position`. */
  function Section(position: nat, text: string): string
  {
    SECTION_OPEN + NatToString(position) + SECTION_MID + text + "\n"
  }

  /** The entries kept: one per chunk whose completion succeeded, the others dropped. */
  function Analyses(chunks: seq<string>, completion: string -> Result<string, Error>): seq<string>
    decreases |chunks|
  {
    if chunks == [] then []
    else
      var rs := Analyses(chunks[..|chunks| - 1], completion);
      match completion(AnalysisPrompt(chunks[|chunks| - 1]))
      case Failure(_) => rs
      case Success(text) => rs + [Section(|chunks|, text)]
  }

  /** The 0-based positions of the chunks whose completion succeeded, in order. */
  function Analysed(chunks: seq<string>, completion: string -> Result<string, Error>): seq<nat>
    decreases |chunks|
  {
    if chunks == [] then []
    else
      var ps := Analysed(chunks[..|chunks| - 1], completion);
      if completion(AnalysisPrompt(chunks[|chunks| - 1])).Success? then ps + [|chunks| - 1] else ps
  }

  /** One completion request per chunk, in order, failed ones included. */
  function AnalysisRequests(chunks: seq<string>): seq<Request>
  {
    seq(|chunks|, i requires 0 <= i < |chunks| => CompletionRequest(AnalysisPrompt(chunks[i])))
  }

  /** Entries and positions correspond one to one; positions increase strictly and name chunks. */
  lemma {:induction false} AnalysedPositions(chunks: seq<string>, completion: string -> Result<string, Error>)
    ensures var rs, ps := Analyses(chunks, completion), Analysed(chunks, completion);
      && |rs| == |ps| <= |chunks|
      && (forall j :: 0 <= j < |ps| ==> ps[j] < |chunks|)
      && (forall j, j' :: 0 <= j < j' < |ps| ==> ps[j] < ps[j'])
    decreases |chunks|
  {
    if chunks != [] {
      AnalysedPositions(chunks[..|chunks| - 1], completion);
    }
  }

  /** A chunk's position is listed exactly when its completion succeeded. */
  lemma {:induction false} AnalysedExactly(chunks: seq<string>, completion: string -> Result<string, Error>)
    ensures var ps := Analysed(chunks, completion);
      forall k :: 0 <= k < |chunks| ==> (k in ps <==> completion(AnalysisPrompt(chunks[k])).Success?)
    decreases |chunks|
  {
    if chunks != [] {
      var n := |chunks| - 1;
      var init := chunks[..n];
      AnalysedExactly(init, completion);
      AnalysedPositions(init, completion);
      var ps := Analysed(init, completion);
      forall k | 0 <= k < |chunks|
        ensures k in Analysed(chunks, completion) <==> completion(AnalysisPrompt(chunks[k])).Success?
      {
        if k < n {
          assert init[k] == chunks[k];
        } else {
          assert n !in ps;
        }
      }
    }
  }

  /** Entry `j` is the analysis of the chunk at position `ps[j]`, labelled with `ps[j] + 1`. */
  lemma {:induction false} AnalysesLabelled(chunks: seq<string>, completion: string -> Result<string, Error>)
    ensures var rs, ps := Analyses(chunks, completion), Analysed(chunks, completion);
      forall j :: 0 <= j < |rs| ==>
        && j < |ps| && ps[j] < |chunks|
        && completion(AnalysisPrompt(chunks[ps[j]])).Success?
        && rs[j] == Section(ps[j] + 1, completion(AnalysisPrompt(chunks[ps[j]])).value)
    decreases |chunks|
  {
    AnalysedPositions(chunks, completion);
    if chunks != [] {
      var n := |chunks| - 1;
      var init := chunks[..n];
      AnalysesLabelled(init, completion);
      AnalysedPositions(init, completion);
      var rs, ps := Analyses(init, completion), Analysed(init, completion);
      forall j | 0 <= j < |rs| && j < |ps|
        ensures init[ps[j]] == chunks[ps[j]]
      {
      }
    }
  }

  /**
   * The entries are those of the chunks whose completion succeeded, each labelled with the
   * chunk's 1-based position; positions increase strictly, so labels do, and there are at most
   * as many entries as chunks.
   */
  lemma AnalysesSpec(chunks: seq<string>, completion: string -> Result<string, Error>)
    ensures var rs, ps := Analyses(chunks, completion), Analysed(chunks, completion);
      && |rs| == |ps| <= |chunks|
      && (forall j :: 0 <= j < |ps| ==> ps[j] < |chunks|)
      && (forall j, j' :: 0 <= j < j' < |ps| ==> ps[j] < ps[j'])
      && (forall k :: 0 <= k < |chunks| ==> (k in ps <==> completion(AnalysisPrompt(chunks[k])).Success?))
      && (forall j :: 0 <= j < |ps| ==>
            rs[j] == Section(ps[j] + 1, completion(AnalysisPrompt(chunks[ps[j]])).value))
  {
    AnalysedPositions(chunks, completion);
    AnalysedExactly(chunks, completion);
    AnalysesLabelled(chunks, completion);
  }

  /** When every completion succeeds, entry `k` is the analysis of chunk `k`, labelled `k + 1`. */
  lemma AllAnalysed(chunks: seq<string>, completion: string -> Result<string, Error>)
    requires forall k :: 0 <= k < |chunks| ==> completion(AnalysisPrompt(chunks[k])).Success?
    ensures var rs := Analyses(chunks, completion);
      && |rs| == |chunks|
      && forall k :: 0 <= k < |chunks| ==> rs[k] == Section(k + 1, completion(AnalysisPrompt(chunks[k])).value)
  {
    AnalysesSpec(chunks, completion);
    AllPositions(chunks, completion);
  }

  /** When every completion succeeds, every position is listed, in order. */
  lemma {:induction false} AllPositions(chunks: seq<string>, completion: string -> Result<string, Error>)
    requires forall k :: 0 <= k < |chunks| ==> completion(AnalysisPrompt(chunks[k])).Success?
    ensures var ps := Analysed(chunks, completion);
      |ps| == |chunks| && forall j :: 0 <= j < |ps| ==> ps[j] == j
    decreases |chunks|
  {
    if chunks != [] {
      var init := chunks[..|chunks| - 1];
      assert forall k :: 0 <= k < |init| ==> init[k] == chunks[k];
      AllPositions(init, completion);
    }
  }

  /** `analyze_code_with_gpt` with its loop, one completion request per chunk. */
  method AnalyzeCodeWithGpt(client: OpenAIClient, chunks: seq<string>) returns (results: seq<string>)
    modifies client
    ensures results == Analyses(chunks, client.completion)
    ensures client.requests == old(client.requests) + AnalysisRequests(chunks)
  {
    results := [];
    for idx := 0 to |chunks|
      invariant results == Analyses(chunks[..idx], client.completion)
      invariant client.requests == old(client.requests) + AnalysisRequests(chunks[..idx])
    {
      var chunk := chunks[idx];
      var prompt := AnalysisPrompt(chunk);
      var response := client.CreateCompletion(prompt);
      assert chunks[..idx + 1][..idx] == chunks[..idx];
      assert AnalysisRequests(chunks[..idx + 1]) == AnalysisRequests(chunks[..idx]) + [CompletionRequest(prompt)];
      if response.Success? {
        results := results + [Section(idx + 1, response.value)];
      }
    }
    assert chunks[..|chunks|] == chunks;
  }
}
