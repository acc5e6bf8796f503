/**
 * The two chunkers of code_analysis.py: `split_text`, which cuts a text into slices of a
 * fixed width, and `split_code_into_chunks`, which packs whole lines greedily into chunks.
 */
module Chunking {
  import opened Text

  /** The default bound of `split_code_into_chunks`. */
  const DEFAULT_MAX_CHUNK_SIZE := 500

  function Min(a: int, b: int): int
  {
    if a <= b then a else b
  }

  // ---------------------------------------------------------------------------
  // split_text: `[text[i:i + size] for i in range(0, len(text), size)]`
  // ---------------------------------------------------------------------------

  /**
   * Consecutive slices of `size` characters. A size of zero makes Python's `range` raise,
   * so callers must not pass it; a negative size gives an empty range and no slice.
   */
  function SplitText(text: string, size: int): (slices: seq<string>)
    requires size != 0
    ensures size > 0 ==> forall i :: 0 <= i < |slices| ==> 1 <= |slices[i]| <= size
    ensures size > 0 ==> forall i :: 0 <= i < |slices| - 1 ==> |slices[i]| == size
    ensures slices == [] <==> text == "" || size < 0
    decreases |text|
  {
    if size < 0 || text == "" then []
    else if |text| <= size then [text]
    else [text[..size]] + SplitText(text[size..], size)
  }

  /** The slices, in order, concatenate to the text. */
  lemma {:induction false} SplitTextConcat(text: string, size: int)
    requires size > 0
    ensures Flatten(SplitText(text, size)) == text
    decreases |text|
  {
    if text != "" {
      if |text| <= size {
        FlattenSingle(text);
      } else {
        var first, rest := text[..size], text[size..];
        assert SplitText(text, size) == [first] + SplitText(rest, size);
        SplitTextConcat(rest, size);
        FlattenAppend([first], SplitText(rest, size));
        FlattenSingle(first);
        assert first + rest == text;
      }
    }
  }

  lemma FlattenSingle<T>(x: seq<T>)
    ensures Flatten([x]) == x
  {
    assert [x][..0] == [];
  }

  /** There are ceil(|text| / size) slices. */
  lemma {:induction false} SplitTextCount(text: string, size: int)
    requires size > 0
    ensures |SplitText(text, size)| == (|text| + size - 1) / size
    decreases |text|
  {
    var n := |text|;
    if text == "" {
      DivBetween(size - 1, size, 0);
    } else if n <= size {
      DivBetween(n + size - 1, size, 1);
    } else {
      SplitTextCount(text[size..], size);
      var k := (n - 1) / size;
      assert |SplitText(text[size..], size)| == k;
      DivBounds(n - 1, size);
      MulSucc(k, size);
      DivBetween(n + size - 1, size, k + 1);
    }
  }

  lemma MulSucc(k: int, size: int)
    ensures (k + 1) * size == k * size + size
  {
  }

  lemma {:induction false} MulLe(a: int, b: int, c: nat)
    requires a <= b
    ensures a * c <= b * c
    decreases c
  {
    if c > 0 {
      MulLe(a, b, c - 1);
      MulSucc(c - 1, a);
      MulSucc(c - 1, b);
      assert a * c == a * (c - 1) + a;
      assert b * c == b * (c - 1) + b;
    }
  }

  lemma DivBounds(x: int, size: int)
    requires size > 0
    ensures (x / size) * size <= x < (x / size) * size + size
  {
  }

  lemma DivBetween(x: int, size: int, q: int)
    requires size > 0
    requires q * size <= x < q * size + size
    ensures x / size == q
  {
    var d := x / size;
    DivBounds(x, size);
    if d > q {
      MulLe(q + 1, d, size);
      MulSucc(q, size);
    } else if d < q {
      MulLe(d + 1, q, size);
      MulSucc(d, size);
    }
  }

  /** Slice `i` is `text[i * size : i * size + size]`, as in the comprehension. */
  lemma {:induction false} SplitTextAt(text: string, size: int, i: nat)
    requires size > 0
    requires i < |SplitText(text, size)|
    ensures i * size < |text|
    ensures SplitText(text, size)[i] == text[i * size .. Min(i * size + size, |text|)]
    decreases i
  {
    if i == 0 {
      assert i * size == 0;
    } else {
      assert |text| > size;
      var rest := text[size..];
      assert SplitText(text, size)[i] == SplitText(rest, size)[i - 1];
      SplitTextAt(rest, size, i - 1);
      var start := (i - 1) * size;
      var end := Min(start + size, |rest|);
      MulSucc(i - 1, size);
      SliceShift(text, size, start, end);
      var start', end' := i * size, Min(i * size + size, |text|);
      assert start + size == start' && end + size == end';
    }
  }

  /** A slice of `text[size..]` is the slice of `text` shifted by `size`. */
  lemma SliceShift(text: string, size: nat, a: nat, b: nat)
    requires size <= |text| && a <= b <= |text| - size
    ensures text[size..][a..b] == text[a + size .. b + size]
  {
  }

  // ---------------------------------------------------------------------------
  // split_code_into_chunks
  // ---------------------------------------------------------------------------

  /** The loop state of the chunker: the chunks closed so far and the lines of the open one. */
  datatype PackState = PackState(closed: seq<seq<string>>, current: seq<string>)

  /** One iteration: add the line to the open chunk if the test passes, else close it. */
  function Step(s: PackState, line: string, maxSize: int): PackState
  {
    if |Join(s.current)| + |line| <= maxSize then PackState(s.closed, s.current + [line])
    else PackState(s.closed + [s.current], [line])
  }

  /** The loop state after the given lines. */
  function Scan(lines: seq<string>, maxSize: int): PackState
    decreases |lines|
  {
    if lines == [] then PackState([], [])
    else Step(Scan(lines[..|lines| - 1], maxSize), lines[|lines| - 1], maxSize)
  }

  /** The groups of lines that become chunks: the closed ones, and the open one if it has lines. */
  function Packing(lines: seq<string>, maxSize: int): seq<seq<string>>
  {
    var s := Scan(lines, maxSize);
    if s.current == [] then s.closed else s.closed + [s.current]
  }

  function JoinEach(groups: seq<seq<string>>): seq<string>
  {
    seq(|groups|, i requires 0 <= i < |groups| => Join(groups[i]))
  }

  lemma JoinEachSnoc(groups: seq<seq<string>>, group: seq<string>)
    ensures JoinEach(groups + [group]) == JoinEach(groups) + [Join(group)]
  {
  }

  /** What `split_code_into_chunks(code, maxSize)` returns. */
  function CodeChunks(code: string, maxSize: int): seq<string>
  {
    JoinEach(Packing(Lines(code), maxSize))
  }

  /** A group of two or more lines passed the test, which ignores one separator. */
  ghost predicate Fits(group: seq<string>, maxSize: int)
  {
    |group| >= 2 ==> |Join(group)| <= maxSize + 1
  }

  /** Each group was closed because the first line of the next would not have passed the test. */
  ghost predicate Greedy(groups: seq<seq<string>>, maxSize: int)
  {
    forall k :: 0 <= k < |groups| - 1 && groups[k + 1] != [] ==>
      |Join(groups[k])| + |groups[k + 1][0]| > maxSize
  }

  /** What holds of the loop state after `lines`, with the open chunk taken as the last group. */
  ghost predicate ScanInvariant(s: PackState, lines: seq<string>, maxSize: int)
  {
    var groups := s.closed + [s.current];
    && Flatten(groups) == lines
    && (lines != [] ==> s.current != [])
    && TailNonEmpty(groups)
    && (lines != [] ==> (|lines[0]| > maxSize <==> s.closed != [] && s.closed[0] == []))
    && AllFit(groups, maxSize)
    && Greedy(groups, maxSize)
  }

  /** Only the first group may be empty. */
  ghost predicate TailNonEmpty(groups: seq<seq<string>>)
  {
    forall k :: 0 < k < |groups| ==> groups[k] != []
  }

  /** Every group is within the bound as `Fits` measures it. */
  ghost predicate AllFit(groups: seq<seq<string>>, maxSize: int)
  {
    forall k :: 0 <= k < |groups| ==> Fits(groups[k], maxSize)
  }

  lemma AllFitSnoc(groups: seq<seq<string>>, g: seq<string>, maxSize: int)
    requires AllFit(groups, maxSize) && Fits(g, maxSize)
    ensures AllFit(groups + [g], maxSize)
  {
    forall k | 0 <= k < |groups| + 1
      ensures Fits((groups + [g])[k], maxSize)
    {
      if k < |groups| {
        assert (groups + [g])[k] == groups[k];
      }
    }
  }

  lemma AllFitUnsnoc(groups: seq<seq<string>>, g: seq<string>, maxSize: int)
    requires AllFit(groups + [g], maxSize)
    ensures AllFit(groups, maxSize)
  {
    forall k | 0 <= k < |groups|
      ensures Fits(groups[k], maxSize)
    {
      assert (groups + [g])[k] == groups[k];
    }
  }

  lemma TailNonEmptySnoc(groups: seq<seq<string>>, g: seq<string>)
    requires TailNonEmpty(groups) && g != []
    ensures TailNonEmpty(groups + [g])
  {
    forall k | 0 < k < |groups| + 1
      ensures (groups + [g])[k] != []
    {
      if k < |groups| {
        assert (groups + [g])[k] == groups[k];
      }
    }
  }

  lemma TailNonEmptyUnsnoc(groups: seq<seq<string>>, g: seq<string>)
    requires TailNonEmpty(groups + [g])
    ensures TailNonEmpty(groups)
  {
    forall k | 0 < k < |groups|
      ensures groups[k] != []
    {
      assert (groups + [g])[k] == groups[k];
    }
  }

  lemma GreedySnoc(groups: seq<seq<string>>, g: seq<string>, maxSize: int)
    requires Greedy(groups, maxSize) && groups != [] && g != []
    requires |Join(groups[|groups| - 1])| + |g[0]| > maxSize
    ensures Greedy(groups + [g], maxSize)
  {
    var groups' := groups + [g];
    forall k | 0 <= k < |groups'| - 1 && groups'[k + 1] != []
      ensures |Join(groups'[k])| + |groups'[k + 1][0]| > maxSize
    {
      assert groups'[k] == groups[k];
      if k + 1 < |groups| {
        assert groups'[k + 1] == groups[k + 1];
      }
    }
  }

  lemma GreedyUnsnoc(groups: seq<seq<string>>, g: seq<string>, maxSize: int)
    requires Greedy(groups + [g], maxSize)
    ensures Greedy(groups, maxSize)
    ensures groups != [] && g != [] ==> |Join(groups[|groups| - 1])| + |g[0]| > maxSize
  {
    var groups' := groups + [g];
    forall k | 0 <= k < |groups| - 1 && groups[k + 1] != []
      ensures |Join(groups[k])| + |groups[k + 1][0]| > maxSize
    {
      assert groups'[k] == groups[k];
      assert groups'[k + 1] == groups[k + 1];
    }
    if groups != [] && g != [] {
      assert groups'[|groups| - 1] == groups[|groups| - 1];
      assert groups'[|groups|] == g;
    }
  }

  lemma FlattenSnoc<T>(parts: seq<seq<T>>, x: seq<T>)
    ensures Flatten(parts + [x]) == Flatten(parts) + x
  {
    assert (parts + [x])[..|parts|] == parts;
  }

  lemma EmptyFlatten(s: PackState, lines: seq<string>, maxSize: int)
    requires ScanInvariant(s, lines, maxSize)
    requires lines == []
    ensures s.closed == [] && s.current == []
  {
    FlattenSnoc(s.closed, s.current);
    var groups := s.closed + [s.current];
    assert groups[|s.closed|] == s.current;
  }

  /** The line passes the test and is appended to the open chunk. */
  lemma StepAppend(s: PackState, lines: seq<string>, line: string, maxSize: int)
    requires ScanInvariant(s, lines, maxSize)
    requires |Join(s.current)| + |line| <= maxSize
    ensures ScanInvariant(Step(s, line, maxSize), lines + [line], maxSize)
  {
    var cur' := s.current + [line];
    assert Step(s, line, maxSize) == PackState(s.closed, cur');
    FlattenSnoc(s.closed, s.current);
    FlattenSnoc(s.closed, cur');
    if lines == [] {
      EmptyFlatten(s, lines, maxSize);
      assert cur' == [line];
      FlattenSnoc([], [line]);
    } else {
      assert cur'[..|s.current|] == s.current;
      assert Join(cur') == Join(s.current) + "\n" + line;
      assert (lines + [line])[0] == lines[0];
      AllFitUnsnoc(s.closed, s.current, maxSize);
      AllFitSnoc(s.closed, cur', maxSize);
      TailNonEmptyUnsnoc(s.closed, s.current);
      TailNonEmptySnoc(s.closed, cur');
      GreedyUnsnoc(s.closed, s.current, maxSize);
      if s.closed != [] {
        GreedySnoc(s.closed, cur', maxSize);
      }
    }
  }

  /** The line fails the test: the open chunk is closed and a new one holds the line. */
  lemma StepClose(s: PackState, lines: seq<string>, line: string, maxSize: int)
    requires ScanInvariant(s, lines, maxSize)
    requires |Join(s.current)| + |line| > maxSize
    ensures ScanInvariant(Step(s, line, maxSize), lines + [line], maxSize)
  {
    var groups := s.closed + [s.current];
    assert Step(s, line, maxSize) == PackState(groups, [line]);
    FlattenSnoc(s.closed, s.current);
    FlattenSnoc(groups, [line]);
    AllFitSnoc(groups, [line], maxSize);
    TailNonEmptySnoc(groups, [line]);
    GreedySnoc(groups, [line], maxSize);
    if lines == [] {
      EmptyFlatten(s, lines, maxSize);
      assert groups + [[line]] == [[], [line]];
    } else {
      assert (lines + [line])[0] == lines[0];
      assert groups[0] == (if s.closed == [] then s.current else s.closed[0]);
    }
  }

  lemma {:induction false} ScanInvariantHolds(lines: seq<string>, maxSize: int)
    ensures ScanInvariant(Scan(lines, maxSize), lines, maxSize)
    decreases |lines|
  {
    if lines == [] {
      assert Flatten([[]]) == Flatten<string>([]) + [];
    } else {
      var init := lines[..|lines| - 1];
      var line := lines[|lines| - 1];
      ScanInvariantHolds(init, maxSize);
      assert init + [line] == lines;
      if |Join(Scan(init, maxSize).current)| + |line| <= maxSize {
        StepAppend(Scan(init, maxSize), init, line, maxSize);
      } else {
        StepClose(Scan(init, maxSize), init, line, maxSize);
      }
    }
  }

  /**
   * The groups of lines are the lines, in order and each whole; only the first group can be
   * empty, and it is exactly when the first line alone fails the test; every group of two or
   * more lines is at most one character over the bound; and a group was closed only when the
   * next line would not have passed the test.
   */
  lemma PackingProperties(lines: seq<string>, maxSize: int)
    ensures var groups := Packing(lines, maxSize);
      && Flatten(groups) == lines
      && (groups == [] <==> lines == [])
      && (forall k :: 0 < k < |groups| ==> groups[k] != [])
      && (lines != [] ==> (groups[0] == [] <==> |lines[0]| > maxSize))
      && (forall k :: 0 <= k < |groups| ==> Fits(groups[k], maxSize))
      && Greedy(groups, maxSize)
  {
    var s := Scan(lines, maxSize);
    ScanInvariantHolds(lines, maxSize);
    if lines == [] {
      EmptyFlatten(s, lines, maxSize);
    } else {
      assert Packing(lines, maxSize) == s.closed + [s.current];
      if s.closed == [] {
        assert Packing(lines, maxSize)[0] == s.current;
      } else {
        assert Packing(lines, maxSize)[0] == s.closed[0];
      }
    }
  }

  /** Every line of every group is one of the lines. */
  lemma {:induction false} FlattenHas<T>(parts: seq<seq<T>>, i: nat, j: nat)
    requires i < |parts| && j < |parts[i]|
    ensures parts[i][j] in Flatten(parts)
    decreases |parts|
  {
    var init := parts[..|parts| - 1];
    if i < |parts| - 1 {
      assert init[i] == parts[i];
      FlattenHas(init, i, j);
    }
  }

  lemma {:induction false} FlattenNonEmpty<T>(parts: seq<seq<T>>)
    requires parts != [] && parts[|parts| - 1] != []
    ensures Flatten(parts) != []
  {
  }

  /** Rejoining the chunks of non-empty groups equals joining all their lines. */
  lemma {:induction false} JoinEachFlatten(groups: seq<seq<string>>)
    requires forall k :: 0 <= k < |groups| ==> groups[k] != []
    ensures Join(JoinEach(groups)) == Join(Flatten(groups))
    decreases |groups|
  {
    var n := |groups|;
    if n == 1 {
      var c := Join(groups[0]);
      assert JoinEach(groups) == [c];
      assert Join([c]) == c;
      assert Flatten(groups) == groups[0] by {
        assert groups[..0] == [];
        assert Flatten(groups[..0]) == [];
      }
    } else if n > 1 {
      var init := groups[..n - 1];
      var last := groups[n - 1];
      JoinEachFlatten(init);
      var chunks := JoinEach(groups);
      assert chunks[..n - 1] == JoinEach(init);
      assert Join(chunks) == Join(JoinEach(init)) + "\n" + Join(last);
      assert init[|init| - 1] == groups[n - 2];
      FlattenNonEmpty(init);
      JoinAppend(Flatten(init), last);
    }
  }

  /** No line of a group holds a newline. */
  lemma PackedLinesHaveNoNewline(lines: seq<string>, maxSize: int, k: nat, j: nat)
    requires forall i :: 0 <= i < |lines| ==> '\n' !in lines[i]
    requires k < |Packing(lines, maxSize)| && j < |Packing(lines, maxSize)[k]|
    ensures '\n' !in Packing(lines, maxSize)[k][j]
  {
    PackingProperties(lines, maxSize);
    FlattenHas(Packing(lines, maxSize), k, j);
  }

  /**
   * Round trip: rejoining the chunks gives the lines of the code joined again, preceded by an
   * extra separator exactly when the first line alone is over the bound (the chunker then
   * emits an empty first chunk). With `LinesRoundTrip`, this is the code without a final newline.
   */
  lemma ChunksRejoin(code: string, maxSize: int)
    ensures var lines := Lines(code);
      Join(CodeChunks(code, maxSize))
        == (if lines != [] && |lines[0]| > maxSize then "\n" else "") + Join(lines)
  {
    var lines := Lines(code);
    var groups := Packing(lines, maxSize);
    PackingProperties(lines, maxSize);
    if lines != [] {
      if |lines[0]| > maxSize {
        LeadingGroupRejoin(groups);
      } else {
        JoinEachFlatten(groups);
      }
    }
  }

  /** An empty first group adds one separator in front of the rejoined lines. */
  lemma LeadingGroupRejoin(groups: seq<seq<string>>)
    requires |groups| >= 2 && groups[0] == []
    requires forall k :: 0 < k < |groups| ==> groups[k] != []
    ensures Join(JoinEach(groups)) == "\n" + Join(Flatten(groups))
  {
    var rest := groups[1..];
    FlattenDropEmpty(groups);
    assert forall k :: 0 <= k < |rest| ==> rest[k] == groups[k + 1];
    JoinEachFlatten(rest);
    JoinEachDropEmpty(groups);
    JoinAfterEmpty(JoinEach(rest));
  }

  lemma FlattenDropEmpty(groups: seq<seq<string>>)
    requires |groups| >= 1 && groups[0] == []
    ensures Flatten(groups) == Flatten(groups[1..])
  {
    var lead: seq<seq<string>> := [[]];
    assert groups == lead + groups[1..];
    FlattenAppend(lead, groups[1..]);
    assert lead[..0] == [];
    assert Flatten(lead) == Flatten(lead[..0]) + [];
  }

  lemma JoinEachDropEmpty(groups: seq<seq<string>>)
    requires |groups| >= 1 && groups[0] == []
    ensures JoinEach(groups) == [""] + JoinEach(groups[1..])
  {
    assert Join(groups[0]) == "";
  }

  lemma JoinAfterEmpty(rest: seq<string>)
    requires rest != []
    ensures Join([""] + rest) == "\n" + Join(rest)
  {
    JoinAppend([""], rest);
    assert Join([""]) == "";
  }

  /** Each chunk is the lines of its group, whole: splitting it again gives them back. */
  lemma ChunksAreWholeLines(code: string, maxSize: int)
    ensures var groups := Packing(Lines(code), maxSize);
      forall k :: 0 <= k < |groups| && groups[k] != [] ==> Split(CodeChunks(code, maxSize)[k]) == groups[k]
  {
    var lines := Lines(code);
    var groups := Packing(lines, maxSize);
    forall k | 0 <= k < |groups| && groups[k] != []
      ensures Split(CodeChunks(code, maxSize)[k]) == groups[k]
    {
      forall j | 0 <= j < |groups[k]|
        ensures '\n' !in groups[k][j]
      {
        PackedLinesHaveNoNewline(lines, maxSize, k, j);
      }
      SplitJoin(groups[k]);
    }
  }

  /**
   * Size bound: a chunk holding a newline (two or more lines) is at most `maxSize + 1` long,
   * the separator not being counted by the test; a chunk without one is a single line and can
   * be of any length. Greedy: the first line of each following chunk would not have fitted.
   */
  lemma ChunksBound(code: string, maxSize: int)
    ensures var chunks := CodeChunks(code, maxSize);
      forall k :: 0 <= k < |chunks| && '\n' in chunks[k] ==> |chunks[k]| <= maxSize + 1
    ensures var chunks := CodeChunks(code, maxSize);
      forall k :: 0 <= k < |chunks| - 1 ==> |chunks[k]| + |Split(chunks[k + 1])[0]| > maxSize
  {
    var lines := Lines(code);
    var groups := Packing(lines, maxSize);
    var chunks := CodeChunks(code, maxSize);
    PackingProperties(lines, maxSize);
    ChunksAreWholeLines(code, maxSize);
    forall k | 0 <= k < |chunks| && '\n' in chunks[k]
      ensures |chunks[k]| <= maxSize + 1
    {
      if |groups[k]| == 1 {
        PackedLinesHaveNoNewline(lines, maxSize, k, 0);
      }
      assert Fits(groups[k], maxSize);
    }
    forall k | 0 <= k < |chunks| - 1
      ensures |chunks[k]| + |Split(chunks[k + 1])[0]| > maxSize
    {
      assert groups[k + 1] != [];
      assert Split(chunks[k + 1]) == groups[k + 1];
    }
  }

  /**
   * Edge cases: no lines give no chunk; some lines give at least one chunk and at most one more
   * than there are lines; a final newline makes no difference.
   */
  lemma ChunksEdgeCases(code: string, maxSize: int)
    ensures CodeChunks("", maxSize) == []
    ensures code != "" ==> 1 <= |CodeChunks(code, maxSize)| <= |Lines(code)| + 1
    ensures code != "" && !EndsWithNewline(code) ==>
      CodeChunks(code + "\n", maxSize) == CodeChunks(code, maxSize)
  {
    var lines := Lines(code);
    var groups := Packing(lines, maxSize);
    PackingProperties(lines, maxSize);
    if code != "" {
      GroupCount(groups);
    }
    if code != "" && !EndsWithNewline(code) {
      assert (code + "\n")[..|code|] == code;
      assert Lines(code + "\n") == lines;
    }
  }

  /** Non-empty groups after a possibly empty first one: no more groups than lines, plus one. */
  lemma {:induction false} GroupCount<T>(groups: seq<seq<T>>)
    requires forall k :: 0 < k < |groups| ==> groups[k] != []
    ensures |groups| <= |Flatten(groups)| + 1
    decreases |groups|
  {
    if |groups| > 1 {
      var init := groups[..|groups| - 1];
      assert forall k :: 0 < k < |init| ==> init[k] == groups[k];
      GroupCount(init);
    }
  }

  /** The first line alone is over the bound: the chunker emits an empty chunk first. */
  lemma LeadingEmptyChunk(code: string, maxSize: int)
    requires code != "" && |Lines(code)[0]| > maxSize
    ensures var chunks := CodeChunks(code, maxSize); |chunks| >= 2 && chunks[0] == ""
  {
    var lines := Lines(code);
    var groups := Packing(lines, maxSize);
    PackingProperties(lines, maxSize);
  }

  /** Two short lines fill `maxSize + 1` characters without being split: "a\nb" with bound 2. */
  lemma OffByOneExample()
    ensures CodeChunks("a\nb", 2) == ["a\nb"] && |"a\nb"| == 3
  {
    assert Lines("a\nb") == ["a", "b"] by {
      assert Join(["a", "b"]) == "a\nb" by {
        assert ["a", "b"][..1] == ["a"];
      }
      SplitJoin(["a", "b"]);
    }
    assert Scan(["a"], 2) == PackState([], ["a"]) by {
      assert ["a"][..0] == [];
    }
    assert Scan(["a", "b"], 2) == PackState([], ["a", "b"]) by {
      assert ["a", "b"][..1] == ["a"];
      assert |Join(["a"])| + |"b"| == 2;
    }
    assert Join(["a", "b"]) == "a\nb" by {
      assert ["a", "b"][..1] == ["a"];
    }
    assert JoinEach([["a", "b"]]) == [Join(["a", "b"])];
  }

  /** Lines whose joined text is within the bound all stay in the open chunk. */
  lemma {:induction false} ScanFits(lines: seq<string>, maxSize: int)
    requires lines != [] && |Join(lines)| <= maxSize
    ensures Scan(lines, maxSize) == PackState([], lines)
    decreases |lines|
  {
    var init, line := lines[..|lines| - 1], lines[|lines| - 1];
    if init == [] {
      assert lines == [line];
    } else {
      assert |Join(init)| + |line| < |Join(lines)|;
      ScanFits(init, maxSize);
      assert init + [line] == lines;
    }
  }

  /**
   * The most characters the joined lines can have and still form one chunk: the test of the last
   * line does not count the separator before it, so two or more lines may go one over the bound.
   */
  function OneChunkLimit(lines: seq<string>, maxSize: int): int
  {
    if |lines| >= 2 then maxSize + 1 else maxSize
  }

  /** Lines within that limit all stay in the open chunk. */
  lemma ScanFitsLoose(lines: seq<string>, maxSize: int)
    requires lines != [] && |Join(lines)| <= OneChunkLimit(lines, maxSize)
    ensures Scan(lines, maxSize) == PackState([], lines)
  {
    if |lines| == 1 {
      ScanFits(lines, maxSize);
    } else {
      var init, last := lines[..|lines| - 1], lines[|lines| - 1];
      assert init + [last] == lines;
      JoinSnoc(init, last);
      ScanFits(init, maxSize);
    }
  }

  /** Lines over that limit are packed into two groups or more. */
  lemma ScanSplits(lines: seq<string>, maxSize: int)
    requires lines != [] && |Join(lines)| > OneChunkLimit(lines, maxSize)
    ensures |Packing(lines, maxSize)| >= 2
  {
    ScanInvariantHolds(lines, maxSize);
    if |lines| == 1 {
      assert lines[..0] == [];
    } else {
      var init, last := lines[..|lines| - 1], lines[|lines| - 1];
      assert init + [last] == lines;
      JoinSnoc(init, last);
      var s := Scan(init, maxSize);
      ScanInvariantHolds(init, maxSize);
      if s.closed == [] {
        var none: seq<seq<string>> := [];
        FlattenSnoc(none, s.current);
        assert none + [s.current] == s.closed + [s.current];
        assert s.current == init;
        assert Scan(lines, maxSize) == PackState([init], [last]);
      }
    }
  }

  /**
   * The code is a single chunk, its lines rejoined, exactly when it has a line and the joined
   * lines are within `OneChunkLimit`: `maxSize` for one line, `maxSize + 1` for more.
   */
  lemma OneChunk(code: string, maxSize: int)
    ensures CodeChunks(code, maxSize) == [Join(Lines(code))] <==>
      code != "" && |Join(Lines(code))| <= OneChunkLimit(Lines(code), maxSize)
  {
    var lines := Lines(code);
    if code == "" {
      assert Packing(lines, maxSize) == [];
    } else if |Join(lines)| <= OneChunkLimit(lines, maxSize) {
      ScanFitsLoose(lines, maxSize);
    } else {
      ScanSplits(lines, maxSize);
    }
  }

  /** Two lines that fit, followed by a final newline, are one chunk: the text without that newline. */
  lemma TwoLineFile(first: string, second: string, maxSize: int)
    requires '\n' !in first && '\n' !in second
    requires |first| + 1 + |second| <= maxSize
    ensures CodeChunks(first + "\n" + second + "\n", maxSize) == [first + "\n" + second]
  {
    var code := first + "\n" + second + "\n";
    var lines := [first, second];
    var body := first + "\n" + second;
    assert Join(lines) == body by {
      assert lines[..1] == [first];
    }
    SplitJoin(lines);
    assert EndsWithNewline(code);
    assert code[..|code| - 1] == body;
    assert Lines(code) == lines;
    ScanFits(lines, maxSize);
    assert JoinEach([lines]) == [body];
  }

  /** The file "def f():\n    return 1\n" with the default bound gives one chunk, without the final newline. */
  lemma TwoLineFileExample()
    ensures var code := "def f():" + "\n" + "    return 1" + "\n";
      CodeChunks(code, DEFAULT_MAX_CHUNK_SIZE) == ["def f():" + "\n" + "    return 1"]
  {
    TwoLineFile("def f():", "    return 1", DEFAULT_MAX_CHUNK_SIZE);
  }

  /** `split_code_into_chunks` with its loop, as in code_analysis.py. */
  method SplitCodeIntoChunks(code: string, maxChunkSize: int) returns (chunks: seq<string>)
    ensures chunks == CodeChunks(code, maxChunkSize)
  {
    var lines := Lines(code);
    chunks := [];
    var current: seq<string> := [];
    for i := 0 to |lines|
      invariant chunks == JoinEach(Scan(lines[..i], maxChunkSize).closed)
      invariant current == Scan(lines[..i], maxChunkSize).current
    {
      var line := lines[i];
      assert lines[..i + 1][..i] == lines[..i];
      assert Scan(lines[..i + 1], maxChunkSize) == Step(Scan(lines[..i], maxChunkSize), line, maxChunkSize);
      JoinEachSnoc(Scan(lines[..i], maxChunkSize).closed, current);
      if |Join(current)| + |line| <= maxChunkSize {
        current := current + [line];
      } else {
        chunks := chunks + [Join(current)];
        current := [line];
      }
    }
    assert lines[..|lines|] == lines;
    JoinEachSnoc(Scan(lines, maxChunkSize).closed, current);
    if current != [] {
      chunks := chunks + [Join(current)];
    }
  }
}
