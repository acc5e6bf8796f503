/**
 * String helpers with the meaning Python gives them in code_analysis.py:
 * `"\n".join`, `str.splitlines` (on '\n' only), `str(i)` for a natural number,
 * and `str.lower` (on ASCII letters only).
 */
module Text {

  /** Concatenation of a sequence of sequences, in order. */
  function Flatten<T>(parts: seq<seq<T>>): seq<T>
  {
    if parts == [] then [] else Flatten(parts[..|parts| - 1]) + parts[|parts| - 1]
  }

  lemma {:induction false} FlattenAppend<T>(a: seq<seq<T>>, b: seq<seq<T>>)
    ensures Flatten(a + b) == Flatten(a) + Flatten(b)
    decreases |b|
  {
    if b == [] {
      assert a + b == a;
    } else {
      var b' := b[..|b| - 1];
      var x := b[|b| - 1];
      assert (a + b)[..|a + b| - 1] == a + b';
      assert (a + b)[|a + b| - 1] == x;
      FlattenAppend(a, b');
      calc {
        Flatten(a + b);
        Flatten(a + b') + x;
        (Flatten(a) + Flatten(b')) + x;
        Flatten(a) + (Flatten(b') + x);
      }
    }
  }

  /** Python's `"\n".join(parts)`. */
  function Join(parts: seq<string>): string
  {
    if |parts| == 0 then ""
    else if |parts| == 1 then parts[0]
    else Join(parts[..|parts| - 1]) + "\n" + parts[|parts| - 1]
  }

  /** Joining two non-empty lists puts exactly one separator between them. */
  lemma {:induction false} JoinAppend(a: seq<string>, b: seq<string>)
    requires a != [] && b != []
    ensures Join(a + b) == Join(a) + "\n" + Join(b)
    decreases |b|
  {
    if |b| == 1 {
      assert (a + b)[..|a + b| - 1] == a;
    } else {
      var b' := b[..|b| - 1];
      assert (a + b)[..|a + b| - 1] == a + b';
      JoinAppend(a, b');
    }
  }

  /** The pieces of `s` between '\n' characters (Python's `s.split("\n")`). */
  function Split(s: string): (pieces: seq<string>)
    ensures |pieces| >= 1
    ensures forall i :: 0 <= i < |pieces| ==> '\n' !in pieces[i]
    decreases |s|
  {
    if s == [] then [""]
    else
      var init := Split(s[..|s| - 1]);
      var c := s[|s| - 1];
      if c == '\n' then init + [""]
      else init[..|init| - 1] + [init[|init| - 1] + [c]]
  }

  /** Splitting and joining again gives the text back. */
  lemma {:induction false} JoinSplit(s: string)
    ensures Join(Split(s)) == s
    decreases |s|
  {
    if s != [] {
      var s' := s[..|s| - 1];
      var c := s[|s| - 1];
      var init := Split(s');
      JoinSplit(s');
      assert s == s' + [c];
      if c == '\n' {
        assert Split(s) == init + [""];
        JoinSnoc(init, "");
      } else {
        assert Split(s) == init[..|init| - 1] + [init[|init| - 1] + [c]];
        JoinExtendLast(init, c);
      }
    }
  }

  lemma JoinSnoc(parts: seq<string>, x: string)
    requires parts != []
    ensures Join(parts + [x]) == Join(parts) + "\n" + x
  {
    assert (parts + [x])[..|parts|] == parts;
  }

  lemma JoinExtendLast(parts: seq<string>, c: char)
    requires parts != []
    ensures var n := |parts|;
      Join(parts[..n - 1] + [parts[n - 1] + [c]]) == Join(parts) + [c]
  {
    var n := |parts|;
    var pieces := parts[..n - 1] + [parts[n - 1] + [c]];
    if n > 1 {
      assert pieces[..n - 1] == parts[..n - 1];
    }
  }

  /** Appending text without a newline extends the last piece. */
  lemma {:induction false} SplitExtendsLast(x: string, y: string)
    requires '\n' !in y
    ensures var p := Split(x); Split(x + y) == p[..|p| - 1] + [p[|p| - 1] + y]
    decreases |y|
  {
    if y == [] {
      var p := Split(x);
      assert x + y == x;
      assert p[|p| - 1] + y == p[|p| - 1];
      assert p[..|p| - 1] + [p[|p| - 1]] == p;
    } else {
      var y' := y[..|y| - 1];
      var c := y[|y| - 1];
      assert (x + y)[..|x + y| - 1] == x + y';
      assert c in y;
      SplitExtendsLast(x, y');
      var p := Split(x);
      assert p[|p| - 1] + y' + [c] == p[|p| - 1] + y;
    }
  }

  /** A final newline opens a new, empty piece. */
  lemma SplitNewline(x: string)
    ensures Split(x + "\n") == Split(x) + [""]
  {
    assert (x + "\n")[..|x|] == x;
  }

  /** A text without a newline is a single piece. */
  lemma SplitSingle(line: string)
    requires '\n' !in line
    ensures Split(line) == [line]
  {
    SplitExtendsLast("", line);
    assert "" + line == line;
  }

  /** Joining lines that hold no newline and splitting again gives the lines back. */
  lemma {:induction false} SplitJoin(parts: seq<string>)
    requires parts != []
    requires forall i :: 0 <= i < |parts| ==> '\n' !in parts[i]
    ensures Split(Join(parts)) == parts
    decreases |parts|
  {
    var n := |parts|;
    var last := parts[n - 1];
    if n == 1 {
      SplitSingle(last);
    } else {
      var init := parts[..n - 1];
      forall i | 0 <= i < |init|
        ensures '\n' !in init[i]
      {
        assert init[i] == parts[i];
      }
      SplitJoin(init);
      SplitJoinSnoc(init, last);
      assert init + [last] == parts;
    }
  }

  /** One more line, after lines that split back to themselves. */
  lemma SplitJoinSnoc(init: seq<string>, last: string)
    requires init != [] && '\n' !in last
    requires Split(Join(init)) == init
    ensures Split(Join(init + [last])) == init + [last]
  {
    var j := Join(init) + "\n";
    SplitNewline(Join(init));
    SplitExtendsLast(j, last);
    var p := init + [""];
    assert p[..|p| - 1] == init;
    assert p[|p| - 1] + last == last;
    JoinSnoc(init, last);
  }

  predicate EndsWithNewline(text: string)
  {
    text != "" && text[|text| - 1] == '\n'
  }

  /** Python's `text.splitlines()` when '\n' is the only line boundary: a final newline ends the last line. */
  function Lines(text: string): (lines: seq<string>)
    ensures forall i :: 0 <= i < |lines| ==> '\n' !in lines[i]
    ensures lines == [] <==> text == ""
  {
    if text == "" then []
    else if EndsWithNewline(text) then Split(text[..|text| - 1])
    else Split(text)
  }

  /** The lines, joined again, give the text back without its final newline. */
  lemma LinesRoundTrip(text: string)
    ensures Join(Lines(text)) + (if EndsWithNewline(text) then "\n" else "") == text
  {
    if EndsWithNewline(text) {
      JoinSplit(text[..|text| - 1]);
      assert text == text[..|text| - 1] + "\n";
    } else if text != "" {
      JoinSplit(text);
    }
  }

  /** The number of characters before the first '\n' (all of them when there is none). */
  function LineEnd(s: string): (n: nat)
    ensures n <= |s|
    ensures forall i :: 0 <= i < n ==> s[i] != '\n'
    ensures n < |s| ==> s[n] == '\n'
    decreases |s|
  {
    if s == [] || s[0] == '\n' then 0 else 1 + LineEnd(s[1..])
  }

  function DigitChar(d: nat): (c: char)
    requires d < 10
  {
    (48 + d) as char
  }

  /** Python's `str(n)` for a natural number: its decimal digits. */
  function NatToString(n: nat): (s: string)
    ensures 1 <= |s|
    ensures forall i :: 0 <= i < |s| ==> '0' <= s[i] <= '9'
    decreases n
  {
    if n < 10 then [DigitChar(n)] else NatToString(n / 10) + [DigitChar(n % 10)]
  }

  /** Different numbers have different decimal strings, so ids `str(i)` never collide. */
  lemma {:induction false} NatToStringInjective(a: nat, b: nat)
    requires NatToString(a) == NatToString(b)
    ensures a == b
    decreases a
  {
    var sa, sb := NatToString(a), NatToString(b);
    if a < 10 && b < 10 {
      assert sa[0] == sb[0];
    } else if 10 <= a && 10 <= b {
      var pa, pb := NatToString(a / 10), NatToString(b / 10);
      assert sa[|sa| - 1] == sb[|sb| - 1];
      assert a % 10 == b % 10;
      assert sa[..|sa| - 1] == pa;
      assert sb[..|sb| - 1] == pb;
      NatToStringInjective(a / 10, b / 10);
    }
  }

  /** Python's `c.lower()` on an ASCII capital; every other character is left as it is. */
  function LowerChar(c: char): char
  {
    if 'A' <= c <= 'Z' then (c as int + 32) as char else c
  }

  function Lower(s: string): string
  {
    seq(|s|, i requires 0 <= i < |s| => LowerChar(s[i]))
  }
}
