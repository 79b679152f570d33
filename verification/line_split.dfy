/** `str.splitlines`, with and without `keepends`, over the full set of line
    boundaries Python recognises. */
module LineSplit {

  /** A character at which `str.splitlines` ends a line. */
  predicate IsLineBoundary(c: char) {
    c == '\n' || c == '\r' || c == '\U{0B}' || c == '\U{0C}' || c == '\U{1C}'
    || c == '\U{1D}' || c == '\U{1E}' || c == '\U{85}' || c == '\U{2028}' || c == '\U{2029}'
  }

  /** The length of the longest prefix of `s` that holds no line boundary. */
  function BodyLength(s: string): (n: nat)
    ensures n <= |s|
    ensures forall j :: 0 <= j < n ==> !IsLineBoundary(s[j])
    ensures n < |s| ==> IsLineBoundary(s[n])
    decreases |s|
  {
    if s == [] || IsLineBoundary(s[0]) then 0 else 1 + BodyLength(s[1..])
  }

  /** The two conditions of `BodyLength`'s contract determine it. */
  lemma BodyLengthUnique(s: string, m: nat)
    requires m <= |s|
    requires forall j :: 0 <= j < m ==> !IsLineBoundary(s[j])
    requires m < |s| ==> IsLineBoundary(s[m])
    ensures BodyLength(s) == m
  {
  }

  /** The length of the line terminator at index `n`: two for "\r\n", one for
      any other boundary, zero at the end of the text. */
  function TerminatorLength(s: string, n: nat): nat
    requires n <= |s|
  {
    if n == |s| then 0
    else if s[n] == '\r' && n + 1 < |s| && s[n + 1] == '\n' then 2
    else 1
  }

  /** The length of the first line, its terminator included. */
  function FirstLineLength(s: string): (k: nat)
    ensures k <= |s|
    ensures s != [] ==> k > 0
  {
    var n := BodyLength(s);
    n + TerminatorLength(s, n)
  }

  /** `"".join(lines)`. */
  function Concat(lines: seq<string>): string
    decreases |lines|
  {
    if lines == [] then [] else lines[0] + Concat(lines[1..])
  }

  /** One line as `splitlines(keepends=True)` yields it: a body free of line
      boundaries, followed by nothing, by one boundary character or by
      "\r\n". */
  predicate IsLine(l: string) {
    var n := BodyLength(l);
    l != [] && (|l| - n <= 1 || l[n..] == "\r\n")
  }

  /** The line ends with a terminator. */
  predicate Terminated(l: string) {
    BodyLength(l) < |l|
  }

  /** The line ends with a lone "\r". */
  predicate EndsWithCR(l: string) {
    l != [] && l[|l| - 1] == '\r'
  }

  /** A list of lines that `splitlines(keepends=True)` could return: every
      line but the last is terminated, and a line ending with "\r" is never
      followed by one starting with "\n" (the two would form one "\r\n"). */
  predicate WellSplit(lines: seq<string>) {
    && (forall k :: 0 <= k < |lines| ==> IsLine(lines[k]))
    && (forall k :: 0 <= k < |lines| - 1 ==> Terminated(lines[k]))
    && (forall i, j :: 0 <= i < |lines| - 1 && j == i + 1 ==> !(EndsWithCR(lines[i]) && lines[j][0] == '\n'))
  }

  lemma ConsWellSplit(l: string, rest: seq<string>)
    requires IsLine(l) && WellSplit(rest)
    requires rest != [] ==> Terminated(l) && !(EndsWithCR(l) && rest[0][0] == '\n')
    ensures WellSplit([l] + rest)
  {
    var ls := [l] + rest;
    forall k | 0 <= k < |ls| ensures IsLine(ls[k]) {
      if k > 0 { assert ls[k] == rest[k - 1]; }
    }
    forall k | 0 <= k < |ls| - 1 ensures Terminated(ls[k]) {
      if k > 0 { assert ls[k] == rest[k - 1]; }
    }
    forall i, j | 0 <= i < j < |ls| && j == i + 1
      ensures !(EndsWithCR(ls[i]) && ls[j][0] == '\n')
    {
      if i > 0 { assert ls[i] == rest[i - 1] && ls[j] == rest[j - 1]; }
    }
  }

  /** The body of the first line of `s` is the body of `s` itself. */
  lemma FirstLineBody(s: string)
    requires s != []
    ensures BodyLength(s[..FirstLineLength(s)]) == BodyLength(s)
    ensures IsLine(s[..FirstLineLength(s)])
  {
    var n := BodyLength(s);
    var k := FirstLineLength(s);
    var l := s[..k];
    BodyLengthUnique(l, n);
    if TerminatorLength(s, n) == 2 {
      assert l[n..] == "\r\n";
    }
  }

  /** Putting the first line of `s` before a split of the rest of `s` gives a
      split of `s`. */
  lemma ConsFirstLine(s: string, rest: seq<string>)
    requires s != []
    requires Concat(rest) == s[FirstLineLength(s)..] && WellSplit(rest)
    ensures Concat([s[..FirstLineLength(s)]] + rest) == s
    ensures WellSplit([s[..FirstLineLength(s)]] + rest)
  {
    var k := FirstLineLength(s);
    FirstLineBody(s);
    assert rest != [] ==> rest[0][0] == s[k] by {
      if rest != [] {
        assert rest[0] != [];
        assert Concat(rest) == rest[0] + Concat(rest[1..]);
      }
    }
    ConsWellSplit(s[..k], rest);
    assert s[..k] + s[k..] == s;
    assert ([s[..k]] + rest)[1..] == rest;
  }

  /** `s.splitlines(keepends=True)`: joining the lines gives back the text. */
  function SplitLinesKeepEnds(s: string): (lines: seq<string>)
    ensures Concat(lines) == s
    decreases |s|
  {
    if s == [] then []
    else
      var k := FirstLineLength(s);
      var rest := SplitLinesKeepEnds(s[k..]);
      assert ([s[..k]] + rest)[1..] == rest;
      assert s[..k] + s[k..] == s;
      [s[..k]] + rest
  }

  /** The lines `splitlines(keepends=True)` returns are well formed. */
  lemma {:induction false} SplitLinesWellSplit(s: string)
    ensures WellSplit(SplitLinesKeepEnds(s))
    decreases |s|
  {
    if s != [] {
      var k := FirstLineLength(s);
      SplitLinesWellSplit(s[k..]);
      ConsFirstLine(s, SplitLinesKeepEnds(s[k..]));
    }
  }

  /** Dropping the first line keeps a list well formed. */
  lemma WellSplitTail(lines: seq<string>)
    requires WellSplit(lines) && lines != []
    ensures WellSplit(lines[1..])
  {
    var rest := lines[1..];
    forall k | 0 <= k < |rest| ensures IsLine(rest[k]) {
      assert rest[k] == lines[k + 1];
    }
    forall k | 0 <= k < |rest| - 1 ensures Terminated(rest[k]) {
      assert rest[k] == lines[k + 1];
    }
    forall i, j | 0 <= i < j < |rest| && j == i + 1
      ensures !(EndsWithCR(rest[i]) && rest[j][0] == '\n')
    {
      assert rest[i] == lines[i + 1] && rest[j] == lines[j + 1];
    }
  }

  /** The body of the text that well-formed lines join to is the body of the
      first of those lines. */
  lemma ConcatBody(lines: seq<string>)
    requires WellSplit(lines) && lines != []
    ensures Concat(lines) == lines[0] + Concat(lines[1..])
    ensures Concat(lines)[..|lines[0]|] == lines[0]
    ensures BodyLength(Concat(lines)) == BodyLength(lines[0])
  {
    var l := lines[0];
    var s := Concat(lines);
    assert s == l + Concat(lines[1..]);
    assert s[..|l|] == l;
    var n := BodyLength(l);
    if n < |l| {
      BodyLengthUnique(s, n);
    } else {
      assert !Terminated(l);
      assert |lines| == 1;
      assert s == l;
    }
  }

  /** A line followed by text that neither continues its body nor turns a
      final "\r" into "\r\n" is the first line of the whole. */
  lemma FirstLineOfAppend(l: string, t: string)
    requires IsLine(l) && BodyLength(l + t) == BodyLength(l)
    requires t != [] ==> Terminated(l) && !(EndsWithCR(l) && t[0] == '\n')
    ensures FirstLineLength(l + t) == |l|
  {
    var s := l + t;
    var n := BodyLength(l);
    if n == |l| {
      assert s == l;
    } else if |l| - n == 2 {
      assert l[n..] == "\r\n";
      assert s[n] == l[n] && s[n + 1] == l[n + 1];
    } else if s[n] == '\r' && n + 1 < |s| {
      assert s[n + 1] == t[0];
    }
  }

  /** The first line of the text that well-formed lines join to is the first
      of those lines. */
  lemma FirstLineOfConcat(lines: seq<string>)
    requires WellSplit(lines) && lines != []
    ensures Concat(lines) == lines[0] + Concat(lines[1..])
    ensures FirstLineLength(Concat(lines)) == |lines[0]|
  {
    ConcatBody(lines);
    var rest := lines[1..];
    assert IsLine(lines[0]);
    if rest != [] {
      assert rest[0] != [] by { assert IsLine(lines[1]); }
      assert Concat(rest) == rest[0] + Concat(rest[1..]);
      assert Concat(rest)[0] == lines[1][0];
    }
    FirstLineOfAppend(lines[0], Concat(rest));
  }

  /** Conversely, every well-formed list of lines is what `splitlines` makes of
      the text they join to, so the split is unique. */
  lemma {:induction false} SplitLinesUnique(lines: seq<string>)
    requires WellSplit(lines)
    ensures SplitLinesKeepEnds(Concat(lines)) == lines
    decreases |lines|
  {
    if lines != [] {
      var s := Concat(lines);
      FirstLineOfConcat(lines);
      WellSplitTail(lines);
      assert s[..|lines[0]|] == lines[0];
      assert s[|lines[0]|..] == Concat(lines[1..]);
      SplitLinesUnique(lines[1..]);
    }
  }

  /** `s.splitlines()`: the lines without their terminators. */
  function SplitLines(s: string): (lines: seq<string>)
    ensures forall k, j :: 0 <= k < |lines| && 0 <= j < |lines[k]| ==> !IsLineBoundary(lines[k][j])
    decreases |s|
  {
    if s == [] then []
    else
      var rest := SplitLines(s[FirstLineLength(s)..]);
      var lines := [s[..BodyLength(s)]] + rest;
      assert forall k :: 0 < k < |lines| ==> lines[k] == rest[k - 1];
      lines
  }

  /** The lines of a non-empty text: the body of its first line, then the
      lines of what follows the first terminator. */
  lemma SplitLinesCons(s: string)
    requires s != []
    ensures SplitLines(s) == [s[..BodyLength(s)]] + SplitLines(s[FirstLineLength(s)..])
  {
  }

  /** `splitlines()` gives the lines of `splitlines(keepends=True)`, one for
      one, each without its terminator. */
  lemma {:induction false} SplitLinesBodies(s: string)
    ensures |SplitLines(s)| == |SplitLinesKeepEnds(s)|
    ensures forall k :: 0 <= k < |SplitLines(s)| ==>
      SplitLines(s)[k] == SplitLinesKeepEnds(s)[k][..BodyLength(SplitLinesKeepEnds(s)[k])]
    decreases |s|
  {
    if s != [] {
      var m := FirstLineLength(s);
      var n := BodyLength(s);
      var t := s[m..];
      SplitLinesBodies(t);
      SplitLinesCons(s);
      FirstLineBody(s);
      var ke := SplitLinesKeepEnds(s);
      var lines := SplitLines(s);
      assert ke == [s[..m]] + SplitLinesKeepEnds(t);
      assert ke[0][..n] == s[..n];
      forall k | 0 < k < |lines|
        ensures lines[k] == ke[k][..BodyLength(ke[k])]
      {
        assert ke[k] == SplitLinesKeepEnds(t)[k - 1];
        assert lines[k] == SplitLines(t)[k - 1];
      }
    }
  }

  /** Every character of a line is a character of the text. */
  lemma {:induction false} LineCharsFromText(s: string, k: nat, j: nat)
    requires k < |SplitLines(s)| && j < |SplitLines(s)[k]|
    ensures exists p :: 0 <= p < |s| && s[p] == SplitLines(s)[k][j]
    decreases |s|
  {
    SplitLinesCons(s);
    var m := FirstLineLength(s);
    if k == 0 {
      assert s[j] == SplitLines(s)[0][j];
    } else {
      var t := s[m..];
      assert SplitLines(s)[k] == SplitLines(t)[k - 1];
      LineCharsFromText(t, k - 1, j);
      var p :| 0 <= p < |t| && t[p] == SplitLines(t)[k - 1][j];
      assert s[m + p] == t[p];
    }
  }

  /** Every character of the text that is not a line boundary is a character
      of some line. */
  lemma {:induction false} TextCharsInLines(s: string, p: nat)
    requires p < |s| && !IsLineBoundary(s[p])
    ensures exists k, j :: 0 <= k < |SplitLines(s)| && 0 <= j < |SplitLines(s)[k]| && SplitLines(s)[k][j] == s[p]
    decreases |s|
  {
    SplitLinesCons(s);
    var n := BodyLength(s);
    var m := FirstLineLength(s);
    var lines := SplitLines(s);
    if p < n {
      assert lines[0][p] == s[p];
    } else {
      assert n < p;
      assert p >= m;
      var t := s[m..];
      assert t[p - m] == s[p];
      TextCharsInLines(t, p - m);
      var k, j :| 0 <= k < |SplitLines(t)| && 0 <= j < |SplitLines(t)[k]| && SplitLines(t)[k][j] == t[p - m];
      assert lines[k + 1] == SplitLines(t)[k];
    }
  }

  /** Holding a character of a kind that is never a line boundary is the same
      for the text and for its lines: `splitlines()` drops only terminators. */
  lemma SplitLinesKeepChars(s: string, P: char -> bool)
    requires forall c :: P(c) ==> !IsLineBoundary(c)
    ensures (exists p :: 0 <= p < |s| && P(s[p])) <==>
            (exists k, j :: 0 <= k < |SplitLines(s)| && 0 <= j < |SplitLines(s)[k]| && P(SplitLines(s)[k][j]))
  {
    var lines := SplitLines(s);
    if p :| 0 <= p < |s| && P(s[p]) {
      TextCharsInLines(s, p);
    }
    if k, j :| 0 <= k < |lines| && 0 <= j < |lines[k]| && P(lines[k][j]) {
      LineCharsFromText(s, k, j);
    }
  }
}
