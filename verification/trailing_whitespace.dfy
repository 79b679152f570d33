/** The trailing-whitespace checker and fixer
    (tools/lint/scripts/trailing_whitespace.py): the substitution of
    `TRAILING_RE` on each line, the per-file check or fix, the extension
    filter, path normalisation, and the exit code of a run. */
module TrailingWhitespace {
  import opened Wrappers
  import opened PyText
  import opened LineSplit

  // -------------------------------------------------------------- TRAILING_RE

  /** A character of the class `[ \t]`. */
  predicate IsBlank(c: char) {
    c == ' ' || c == '\t'
  }

  /** What may follow a run of blanks for the lookahead `(?=(\r?\n)?$)` to
      succeed. Without MULTILINE, `$` matches at the end of the text and just
      before a final "\n", so the run must be followed by nothing, "\n",
      "\r\n", "\n\n" or "\r\n\n". */
  predicate IsTail(t: string) {
    || |t| == 0
    || (|t| == 1 && t[0] == '\n')
    || (|t| == 2 && (t[0] == '\r' || t[0] == '\n') && t[1] == '\n')
    || (|t| == 3 && t[0] == '\r' && t[1] == '\n' && t[2] == '\n')
  }

  /** `s` without the blanks that end it (`rstrip(" \t")`). */
  function TrimBlanks(s: string): (r: string)
    ensures r <= s
    ensures r != [] ==> !IsBlank(r[|r| - 1])
    ensures forall j :: |r| <= j < |s| ==> IsBlank(s[j])
    decreases |s|
  {
    if s != [] && IsBlank(s[|s| - 1]) then TrimBlanks(s[..|s| - 1]) else s
  }

  lemma TrimBlanksNoop(s: string)
    requires s == [] || !IsBlank(s[|s| - 1])
    ensures TrimBlanks(s) == s
  {
  }

  /** A match of the pattern from `p` to `q`: a non-empty run of blanks that
      the lookahead accepts. */
  predicate MatchAt(s: string, p: nat, q: nat) {
    && p < q <= |s|
    && (forall j :: p <= j < q ==> IsBlank(s[j]))
    && IsTail(s[q..])
  }

  /** The length of the longest suffix of `s` that the lookahead accepts. */
  function TailLength(s: string): (k: nat)
    ensures k <= 3 && k <= |s|
  {
    var n := |s|;
    if n >= 1 && s[n - 1] == '\n' then
      if n >= 2 && s[n - 2] == '\n' then
        if n >= 3 && s[n - 3] == '\r' then 3 else 2
      else if n >= 2 && s[n - 2] == '\r' then 2
      else 1
    else 0
  }

  /** The lookahead accepts that suffix. */
  lemma TailAccepted(s: string)
    ensures IsTail(s[|s| - TailLength(s)..])
  {
  }

  /** No accepted suffix is longer. */
  lemma TailLongest(s: string, q: nat)
    requires q <= |s| && IsTail(s[q..])
    ensures |s| - q <= TailLength(s)
  {
    var t := s[q..];
    if |t| >= 1 {
      assert t[|t| - 1] == s[|s| - 1];
    }
    if |t| >= 2 {
      assert t[|t| - 2] == s[|s| - 2];
    }
    if |t| == 3 {
      assert t[0] == s[|s| - 3];
    }
  }

  /** `TRAILING_RE.sub("", s)`: the blanks that end where the longest accepted
      suffix begins are removed, and nothing else changes. */
  function StripTrailing(s: string): (r: string)
  {
    var k := TailLength(s);
    TrimBlanks(s[..|s| - k]) + s[|s| - k..]
  }

  /** Stripping removes a run of blanks that ends where the longest accepted
      suffix begins, and keeps everything before and after it. */
  lemma StripRemovesBlanks(s: string)
    ensures var r := StripTrailing(s);
      && TailLength(s) <= |r| <= |s|
      && r == s[..|r| - TailLength(s)] + s[|s| - TailLength(s)..]
      && forall j :: |r| - TailLength(s) <= j < |s| - TailLength(s) ==> IsBlank(s[j])
  {
  }

  // The rest of this section relates `StripTrailing` to the matches of the
  // pattern, the way `re.sub` uses them.

  /** A tail holds no blank. */
  lemma TailHasNoBlank(t: string, j: nat)
    requires IsTail(t) && j < |t|
    ensures !IsBlank(t[j])
  {
  }

  /** Every match ends where the longest accepted suffix begins. */
  lemma MatchEnd(s: string, p: nat, q: nat)
    requires MatchAt(s, p, q)
    ensures q == |s| - TailLength(s)
  {
    var k := TailLength(s);
    TailLongest(s, q);
    if |s| - q < k {
      TailHasNoBlank(s[|s| - k..], q - 1 - (|s| - k));
    }
  }

  /** Where there is no match, `sub` leaves the text as it is. */
  lemma NoMatchNoChange(s: string)
    requires forall p: nat, q: nat :: !MatchAt(s, p, q)
    ensures StripTrailing(s) == s
  {
    var k := TailLength(s);
    var b := s[..|s| - k];
    TailAccepted(s);
    if b != [] {
      assert !MatchAt(s, |b| - 1, |b|);
    }
    TrimBlanksNoop(b);
    assert b + s[|s| - k..] == s;
  }

  /** The leftmost match is removed, and no match starts after it, so `sub`
      makes exactly this one replacement. */
  lemma LeftmostMatchRemoved(s: string, p: nat, q: nat)
    requires MatchAt(s, p, q)
    requires forall p': nat, q': nat :: p' < p ==> !MatchAt(s, p', q')
    ensures StripTrailing(s) == s[..p] + s[q..]
    ensures forall p': nat, q': nat :: q <= p' ==> !MatchAt(s, p', q')
  {
    MatchEnd(s, p, q);
    var k := TailLength(s);
    var b := s[..q];
    if p > 0 && IsBlank(s[p - 1]) {
      assert MatchAt(s, p - 1, q);
    }
    var t := TrimBlanks(b);
    assert |t| == p;
    forall p': nat, q': nat | q <= p' ensures !MatchAt(s, p', q') {
      if MatchAt(s, p', q') {
        MatchEnd(s, p', q');
      }
    }
  }

  // ------------------------------------------------------------------ lines

  /** The terminators before which blanks are stripped: none, "\n" and
      "\r\n". Before a lone "\r", or any other line boundary, nothing is. */
  predicate Strippable(term: string) {
    || |term| == 0
    || (|term| == 1 && term[0] == '\n')
    || (|term| == 2 && term[0] == '\r' && term[1] == '\n')
  }

  /** Every character of a tail is "\r" or "\n". */
  lemma TailChars(t: string, j: nat)
    requires IsTail(t) && j < |t|
    ensures t[j] == '\r' || t[j] == '\n'
  {
  }

  /** On a line, the longest accepted suffix is the terminator when that is
      none, "\n" or "\r\n", and empty otherwise. */
  lemma LineTail(l: string)
    requires IsLine(l)
    ensures TailLength(l) == if Strippable(l[BodyLength(l)..]) then |l| - BodyLength(l) else 0
  {
    var n := BodyLength(l);
    var k := TailLength(l);
    if Strippable(l[n..]) {
      assert IsTail(l[n..]);
      TailLongest(l, n);
    } else {
      assert |l| - n == 1;
    }
  }

  /** On one line of `splitlines(keepends=True)`, the substitution removes
      exactly the blanks at the end of the body when the terminator is none,
      "\n" or "\r\n", and changes nothing otherwise. */
  lemma StripLineSpec(l: string)
    requires IsLine(l)
    ensures var n := BodyLength(l);
      StripTrailing(l) == if Strippable(l[n..]) then TrimBlanks(l[..n]) + l[n..] else l
  {
    if Strippable(l[BodyLength(l)..]) {
      StripStrippableLine(l);
    } else {
      StripOtherLine(l);
    }
  }

  /** Before none, "\n" or "\r\n", the blanks ending the body are removed. */
  lemma StripStrippableLine(l: string)
    requires IsLine(l) && Strippable(l[BodyLength(l)..])
    ensures StripTrailing(l) == TrimBlanks(l[..BodyLength(l)]) + l[BodyLength(l)..]
  {
    LineTail(l);
    var k := TailLength(l);
    assert |l| - k == BodyLength(l);
  }

  /** Before any other terminator, nothing is removed. */
  lemma StripOtherLine(l: string)
    requires IsLine(l) && !Strippable(l[BodyLength(l)..])
    ensures StripTrailing(l) == l
  {
    LineTail(l);
    assert TailLength(l) == 0;
    assert IsLineBoundary(l[|l| - 1]);
    TrimBlanksNoop(l);
    assert l[..|l|] == l && l[|l|..] == [];
  }

  /** A body free of line boundaries followed by nothing, "\n" or "\r\n" is
      a line (when not empty) with that body. */
  lemma BodyAndTerminator(b: string, term: string)
    requires forall j :: 0 <= j < |b| ==> !IsLineBoundary(b[j])
    requires Strippable(term)
    ensures BodyLength(b + term) == |b|
    ensures (b + term)[..|b|] == b && (b + term)[|b|..] == term
    ensures b + term != [] ==> IsLine(b + term)
  {
    var r := b + term;
    assert r[..|b|] == b && r[|b|..] == term;
    BodyLengthUnique(r, |b|);
  }

  /** The shape of a stripped line: a line (or nothing) with the same
      terminator, a body that is a prefix of the old one, and no blank right
      before a "\n" or "\r\n" terminator or the end. */
  predicate StrippedShape(l: string, r: string)
    requires IsLine(l)
  {
    && (r != [] ==> IsLine(r))
    && r[BodyLength(r)..] == l[BodyLength(l)..]
    && r[..BodyLength(r)] <= l[..BodyLength(l)]
    && (Strippable(r[BodyLength(r)..]) ==> BodyLength(r) == 0 || !IsBlank(r[BodyLength(r) - 1]))
  }

  /** The result `StripLineSpec` describes has that shape. */
  lemma SpecShape(l: string, r: string)
    requires IsLine(l)
    requires var n := BodyLength(l);
      r == if Strippable(l[n..]) then TrimBlanks(l[..n]) + l[n..] else l
    ensures StrippedShape(l, r)
  {
    var n := BodyLength(l);
    if Strippable(l[n..]) {
      TrimmedShape(l, n, l[n..], TrimBlanks(l[..n]));
    }
  }

  /** A body cut to a prefix that does not end with a blank, before a "\n",
      "\r\n" or no terminator, has the stripped shape. */
  lemma TrimmedShape(l: string, n: nat, term: string, b: string)
    requires IsLine(l) && n == BodyLength(l) && term == l[n..] && Strippable(term)
    requires b <= l[..n] && (b != [] ==> !IsBlank(b[|b| - 1]))
    ensures StrippedShape(l, b + term)
  {
    var body := l[..n];
    forall j | 0 <= j < |b| ensures !IsLineBoundary(b[j]) {
      assert b[j] == body[j] == l[j];
    }
    BodyAndTerminator(b, term);
    var r := b + term;
    assert |b| > 0 ==> r[|b| - 1] == b[|b| - 1];
  }


  /** Stripping keeps a line a line (or makes it empty, when it was nothing
      but blanks) with the same terminator, and leaves no blank right before
      a "\n" or "\r\n" terminator or the end. */
  lemma StripLineShape(l: string)
    requires IsLine(l)
    ensures StrippedShape(l, StripTrailing(l))
  {
    StripLineSpec(l);
    SpecShape(l, StripTrailing(l));
  }

  /** A line (or nothing) with no blank right before a "\n" or "\r\n"
      terminator or the end has nothing left to strip. */
  lemma ShapeIsStripped(r: string)
    requires r != [] ==> IsLine(r)
    requires Strippable(r[BodyLength(r)..]) ==> BodyLength(r) == 0 || !IsBlank(r[BodyLength(r) - 1])
    ensures StripTrailing(r) == r
  {
    if r == [] {
      EmptyStripped();
    } else if Strippable(r[BodyLength(r)..]) {
      CleanLineStripped(r);
    } else {
      StripOtherLine(r);
    }
  }

  /** There is nothing to strip from nothing. */
  lemma EmptyStripped()
    ensures StripTrailing([]) == []
  {
    assert TailLength([]) == 0;
  }

  /** A line whose body ends without a blank before none, "\n" or "\r\n"
      has nothing to strip. */
  lemma CleanLineStripped(r: string)
    requires IsLine(r) && Strippable(r[BodyLength(r)..])
    requires BodyLength(r) == 0 || !IsBlank(r[BodyLength(r) - 1])
    ensures StripTrailing(r) == r
  {
    var m := BodyLength(r);
    LineTail(r);
    assert TailLength(r) == |r| - m;
    var b := r[..m];
    assert b == [] || !IsBlank(b[|b| - 1]) by {
      if b != [] { assert b[|b| - 1] == r[m - 1]; }
    }
    TrimBlanksNoop(b);
    assert b + r[m..] == r;
  }

  /** Stripping a line twice is stripping it once. */
  lemma StripLineIdempotent(l: string)
    requires IsLine(l)
    ensures StripTrailing(StripTrailing(l)) == StripTrailing(l)
  {
    StripLineShape(l);
    ShapeIsStripped(StripTrailing(l));
  }

  /** Outside lines, one pass does not always finish the job: in " \r \n"
      the blank before the lone "\r" is exposed only once the other blank is
      gone. */
  lemma StripTwiceDiffers()
    ensures StripTrailing(" \r \n") == " \r\n"
    ensures StripTrailing(" \r\n") == "\r\n"
  {
    var s := " \r \n";
    assert TailLength(s) == 1;
    assert s[..3] == " \r " && s[3..] == "\n";
    assert " \r "[..2] == " \r";
    TrimBlanksNoop(" \r");
    assert TrimBlanks(" \r ") == " \r";
    var t := " \r\n";
    assert TailLength(t) == 2;
    assert t[..1] == " " && t[1..] == "\r\n";
    assert TrimBlanks(" ") == "";
  }

  // --------------------------------------------------------------- one file

  /** The stripped form of each line, in order (`new_lines`). */
  function StripAll(lines: seq<string>): (r: seq<string>)
    ensures |r| == |lines|
  {
    seq(|lines|, k requires 0 <= k < |lines| => StripTrailing(lines[k]))
  }

  /** Stripping changes the line. */
  predicate Changed(l: string) {
    StripTrailing(l) != l
  }

  /** The number of lines that stripping changes, counted from the front. */
  function CountChanged(lines: seq<string>): (n: nat)
    ensures n <= |lines|
    decreases |lines|
  {
    if lines == [] then 0
    else CountChanged(lines[..|lines| - 1]) + (if Changed(lines[|lines| - 1]) then 1 else 0)
  }

  /** The indices of the changed lines. */
  function ChangedIndices(lines: seq<string>): set<nat> {
    set k: nat | k < |lines| && Changed(lines[k])
  }

  /** `changed` is the number of lines whose stripped form differs. */
  lemma {:induction false} CountChangedIsCardinality(lines: seq<string>)
    ensures CountChanged(lines) == |ChangedIndices(lines)|
    decreases |lines|
  {
    if lines != [] {
      var m := |lines| - 1;
      var front := lines[..m];
      CountChangedIsCardinality(front);
      var a := ChangedIndices(front);
      var all := ChangedIndices(lines);
      assert m !in a;
      forall k: nat ensures k in all <==> k in a || (k == m && Changed(lines[m])) {
        if k < m {
          assert front[k] == lines[k];
        }
      }
      AddIndex(a, all, m, Changed(lines[m]));
    }
  }

  /** A set that is `a` plus, when `c`, an index not in `a`. */
  lemma AddIndex(a: set<nat>, all: set<nat>, m: nat, c: bool)
    requires m !in a
    requires forall k: nat :: k in all <==> k in a || (k == m && c)
    ensures |all| == |a| + if c then 1 else 0
  {
    if c {
      assert all == a + {m};
    } else {
      assert all == a;
    }
  }

  /** No line is counted exactly when no line changes. */
  lemma {:induction false} CountZeroIff(lines: seq<string>)
    ensures CountChanged(lines) == 0 <==> forall k :: 0 <= k < |lines| ==> !Changed(lines[k])
    decreases |lines|
  {
    if lines != [] {
      var m := |lines| - 1;
      var front := lines[..m];
      CountZeroIff(front);
      if CountChanged(lines) == 0 {
        forall k | 0 <= k < |lines| ensures !Changed(lines[k]) {
          if k < m {
            assert lines[k] == front[k];
          }
        }
      } else if CountChanged(front) != 0 {
        var k :| 0 <= k < m && Changed(front[k]);
        assert lines[k] == front[k];
      }
    }
  }

  /** Nothing changes exactly when no line changes. */
  lemma NoChangeIff(lines: seq<string>)
    ensures CountChanged(lines) == 0 <==> StripAll(lines) == lines
  {
    CountZeroIff(lines);
    if forall k :: 0 <= k < |lines| ==> !Changed(lines[k]) {
      assert forall k :: 0 <= k < |lines| ==> StripAll(lines)[k] == lines[k];
    }
    if StripAll(lines) == lines {
      assert forall k :: 0 <= k < |lines| ==> StripAll(lines)[k] == lines[k];
    }
  }

  /** The text the fixer writes for `text`: its stripped lines joined. */
  function FixText(text: string): string {
    Concat(StripAll(SplitLinesKeepEnds(text)))
  }

  /** Stripping never lengthens a line, and keeps its length only when it
      leaves it as it is. */
  lemma StripLength(l: string)
    ensures |StripTrailing(l)| <= |l|
    ensures |StripTrailing(l)| == |l| ==> !Changed(l)
  {
  }

  /** Lines no longer than their counterparts, and equal to them when as
      long, join to a shorter text, or to the same one. */
  lemma {:induction false} ConcatShorter(out: seq<string>, lines: seq<string>)
    requires |out| == |lines|
    requires forall k :: 0 <= k < |lines| ==> |out[k]| <= |lines[k]|
    requires forall k :: 0 <= k < |lines| ==> |out[k]| == |lines[k]| ==> out[k] == lines[k]
    ensures |Concat(out)| <= |Concat(lines)|
    ensures |Concat(out)| == |Concat(lines)| ==> out == lines
    decreases |lines|
  {
    if lines != [] {
      ConcatShorter(out[1..], lines[1..]);
      assert |Concat(out)| == |out[0]| + |Concat(out[1..])|;
      assert |Concat(lines)| == |lines[0]| + |Concat(lines[1..])|;
      if |Concat(out)| == |Concat(lines)| {
        assert out == [out[0]] + out[1..];
        assert lines == [lines[0]] + lines[1..];
      }
    }
  }

  /** Stripping never lengthens the joined lines, and keeps their length only
      when it changes no line. */
  lemma StripAllLength(lines: seq<string>)
    ensures |Concat(StripAll(lines))| <= |Concat(lines)|
    ensures |Concat(StripAll(lines))| == |Concat(lines)| ==> StripAll(lines) == lines
  {
    var out := StripAll(lines);
    forall k | 0 <= k < |lines|
      ensures |out[k]| <= |lines[k]| && (|out[k]| == |lines[k]| ==> out[k] == lines[k])
    {
      StripLength(lines[k]);
    }
    ConcatShorter(out, lines);
  }

  /** The fixer leaves a text as it is exactly when it reports no change. */
  lemma FixTextIff(text: string)
    ensures FixText(text) == text <==> CountChanged(SplitLinesKeepEnds(text)) == 0
  {
    var lines := SplitLinesKeepEnds(text);
    NoChangeIff(lines);
    StripAllLength(lines);
  }

  /** The lines of "a \r  \n" are "a \r" and "  \n". */
  lemma ExampleLinesBefore()
    ensures SplitLinesKeepEnds("a \r  \n") == ["a \r", "  \n"]
  {
    var ls := ["a \r", "  \n"];
    assert BodyLength("a \r") == 2 by {
      BodyLengthUnique("a \r", 2);
    }
    assert BodyLength("  \n") == 2 by {
      BodyLengthUnique("  \n", 2);
    }
    assert WellSplit(ls);
    assert Concat(ls) == "a \r  \n" by {
      assert Concat(ls[1..]) == "  \n" + Concat([]);
    }
    SplitLinesUnique(ls);
  }

  /** "a \r\n" is one line. */
  lemma ExampleLinesAfter()
    ensures SplitLinesKeepEnds("a \r\n") == ["a \r\n"]
  {
    var ls := ["a \r\n"];
    assert BodyLength("a \r\n") == 2 by {
      BodyLengthUnique("a \r\n", 2);
    }
    assert "a \r\n"[2..] == "\r\n";
    assert IsLine(ls[0]);
    assert WellSplit(ls);
    assert ls[1..] == [];
    assert Concat(ls) == ls[0] + Concat(ls[1..]);
    assert Concat(ls) == "a \r\n";
    SplitLinesUnique(ls);
  }

  /** How the three example lines are stripped: nothing before a lone "\r",
      the blanks before "\n" and before "\r\n". */
  lemma ExampleStrips()
    ensures StripTrailing("a \r") == "a \r"
    ensures StripTrailing("  \n") == "\n"
    ensures StripTrailing("a \r\n") == "a\r\n"
  {
    var l0 := "a \r";
    assert TailLength(l0) == 0;
    TrimBlanksNoop(l0);
    assert l0[..|l0|] == l0 && l0[|l0|..] == [];
    var l1 := "  \n";
    assert TailLength(l1) == 1;
    assert l1[..2] == "  " && l1[2..] == "\n";
    assert TrimBlanks("  ") == "";
    var u := "a \r\n";
    assert TailLength(u) == 2;
    assert u[..2] == "a " && u[2..] == "\r\n";
    assert TrimBlanks("a ") == "a";
  }

  /** Joining two lines. */
  lemma ConcatPair(a: string, b: string)
    ensures Concat([a, b]) == a + b
  {
    assert [a, b][1..] == [b] && [b][1..] == [];
    assert Concat([b]) == b + Concat([b][1..]);
  }

  /** Stripping the two lines of the example one by one. */
  lemma ExampleStripAll()
    ensures StripAll(["a \r", "  \n"]) == ["a \r", "\n"]
  {
    ExampleStrips();
  }

  /** "a \r  \n" is fixed to "a \r\n". */
  lemma ExampleFix()
    ensures FixText("a \r  \n") == "a \r\n"
  {
    ExampleLinesBefore();
    ExampleStripAll();
    ConcatPair("a \r", "\n");
  }

  /** "a \r\n" has one line to fix. */
  lemma ExampleRefix()
    ensures CountChanged(SplitLinesKeepEnds("a \r\n")) == 1
  {
    ExampleLinesAfter();
    ExampleStrips();
    var u := "a \r\n";
    assert Changed(u);
    var one: seq<string> := [u];
    assert one[..0] == [];
  }

  /** A file fixed once can still have something to fix: "a \r  \n" is
      fixed to "a \r\n", whose single line "a \r\n" is fixed again. */
  lemma FixTwiceDiffers()
    ensures FixText("a \r  \n") == "a \r\n"
    ensures CountChanged(SplitLinesKeepEnds(FixText("a \r  \n"))) == 1
  {
    ExampleFix();
    ExampleRefix();
  }

  /** A file as the checker finds it. `Binary` stands for a file with a NUL
      byte among its first 8192 bytes, `Unreadable` for one whose read raises
      `OSError`; `writable` says whether writing it back succeeds. */
  datatype Content = Binary | Unreadable | Text(text: string)
  datatype FileState = FileState(content: Content, writable: bool)

  /** `Result(file, changed_lines)`. */
  datatype Report = Report(file: string, changedLines: nat)

  /** What checking or fixing one file reports, and what the file holds
      afterwards. */
  function CheckOrFix(path: string, entry: FileState, fix: bool): (Option<Report>, FileState) {
    match entry.content
    case Text(text) =>
      var changed := CountChanged(SplitLinesKeepEnds(text));
      if changed == 0 then (None, entry)
      else if fix && !entry.writable then (None, entry)
      else if fix then (Some(Report(path, changed)), FileState(Text(FixText(text)), true))
      else (Some(Report(path, changed)), entry)
    case _ => (None, entry)
  }

  /** Counting one more line of a prefix. */
  lemma CountPrefix(lines: seq<string>, i: nat)
    requires i < |lines|
    ensures CountChanged(lines[..i + 1]) == CountChanged(lines[..i]) + if Changed(lines[i]) then 1 else 0
  {
    assert lines[..i + 1][..i] == lines[..i];
  }

  /** Stripping one more line of a prefix. */
  lemma StripPrefix(lines: seq<string>, i: nat)
    requires i < |lines|
    ensures StripAll(lines[..i + 1]) == StripAll(lines[..i]) + [StripTrailing(lines[i])]
  {
    var a := StripAll(lines[..i + 1]);
    var b := StripAll(lines[..i]) + [StripTrailing(lines[i])];
    forall k | 0 <= k < i + 1 ensures a[k] == b[k] {
      if k < i {
        assert lines[..i + 1][k] == lines[..i][k];
      }
    }
  }

  /** The loop of `check_or_fix_file`: strips each line and counts the ones
      that changed. */
  method StripLines(lines: seq<string>) returns (changed: nat, newLines: seq<string>)
    ensures changed == CountChanged(lines)
    ensures newLines == StripAll(lines)
  {
    changed := 0;
    newLines := [];
    for i := 0 to |lines|
      invariant changed == CountChanged(lines[..i])
      invariant newLines == StripAll(lines[..i])
    {
      var newLine := StripTrailing(lines[i]);
      CountPrefix(lines, i);
      StripPrefix(lines, i);
      if newLine != lines[i] {
        changed := changed + 1;
      }
      newLines := newLines + [newLine];
    }
    assert lines[..|lines|] == lines;
  }

  /** `check_or_fix_file`: strips each line, counts the changed ones, and in
      fix mode writes the stripped lines back. */
  method CheckOrFixFile(path: string, entry: FileState, fix: bool) returns (r: Option<Report>, after: FileState)
    ensures (r, after) == CheckOrFix(path, entry, fix)
  {
    if !entry.content.Text? {
      return None, entry;
    }
    var lines := SplitLinesKeepEnds(entry.content.text);
    var changed, newLines := StripLines(lines);
    assert Concat(newLines) == FixText(entry.content.text);
    if changed == 0 {
      return None, entry;
    }
    after := entry;
    if fix {
      if !entry.writable {
        return None, entry;
      }
      after := FileState(Text(Concat(newLines)), true);
    }
    r := Some(Report(path, changed));
  }

  /** A reported file is the text file checked, with at least one changed
      line. */
  lemma CheckOrFixReport(path: string, entry: FileState, fix: bool)
    ensures var r := CheckOrFix(path, entry, fix).0;
      r.Some? ==> r.value.file == path && r.value.changedLines >= 1 && entry.content.Text?
  {
  }

  /** A file is rewritten only in fix mode, only when reported, and then
      holds the fixed text, which differs from the old one. */
  lemma CheckOrFixWrites(path: string, entry: FileState, fix: bool)
    ensures var after := CheckOrFix(path, entry, fix).1;
      && (after != entry ==> fix && CheckOrFix(path, entry, fix).0.Some?
                             && after.content == Text(FixText(entry.content.text)))
      && (!fix ==> after == entry)
  {
    match entry.content
    case Text(text) =>
      FixTextIff(text);
    case _ =>
  }

  // -------------------------------------------------------------- exclusion

  /** `s` without the dots that start it (`lstrip(".")`). */
  function TrimDots(s: string): (r: string)
    ensures |r| <= |s|
    decreases |s|
  {
    if s != [] && s[0] == '.' then TrimDots(s[1..]) else s
  }

  /** What is left is a tail of `s` that does not start with a dot, and all
      that was dropped is dots. */
  lemma {:induction false} TrimDotsShape(s: string)
    ensures var r := TrimDots(s);
      && r == s[|s| - |r|..]
      && (r != [] ==> r[0] != '.')
      && forall j :: 0 <= j < |s| - |r| ==> s[j] == '.'
    decreases |s|
  {
    if s != [] && s[0] == '.' {
      TrimDotsShape(s[1..]);
      forall j | 1 <= j < |s| - |TrimDots(s)| ensures s[j] == '.' {
        assert s[j] == s[1..][j - 1];
      }
    }
  }

  /** The last path component (`Path.name`). */
  function Name(path: string): (r: string)
    ensures |r| <= |path| && r == path[|path| - |r|..]
    ensures forall j :: 0 <= j < |r| ==> r[j] != '/'
    ensures |r| < |path| ==> path[|path| - |r| - 1] == '/'
    decreases |path|
  {
    if path == [] || path[|path| - 1] == '/' then []
    else Name(path[..|path| - 1]) + [path[|path| - 1]]
  }

  /** The index of the last "." in `s`, or -1 when there is none
      (`str.rfind`). */
  function LastDot(s: string): (i: int)
    ensures -1 <= i < |s|
    decreases |s|
  {
    if s == [] then -1
    else if s[|s| - 1] == '.' then |s| - 1
    else LastDot(s[..|s| - 1])
  }

  /** `LastDot` finds a dot with none after it, and -1 only when there is no
      dot at all. */
  lemma {:induction false} LastDotShape(s: string)
    ensures var i := LastDot(s);
      && (i >= 0 ==> s[i] == '.')
      && forall j :: i < j < |s| ==> s[j] != '.'
    decreases |s|
  {
    if s != [] && s[|s| - 1] != '.' {
      var init := s[..|s| - 1];
      LastDotShape(init);
      forall j | LastDot(s) < j < |s| - 1 ensures s[j] != '.' {
        assert s[j] == init[j];
      }
    }
  }

  /** `Path.suffix` of a name: from its last "." on, unless that dot is the
      first or the last character. */
  function Suffix(name: string): (r: string)
    ensures |r| <= |name|
  {
    var i := LastDot(name);
    if 0 < i < |name| - 1 then name[i..] else []
  }

  /** The suffix of a name starts at its last dot when that dot is neither
      its first nor its last character, and there is none otherwise. */
  lemma SuffixAt(name: string, d: nat)
    requires d < |name| && name[d] == '.'
    requires forall j :: d < j < |name| ==> name[j] != '.'
    ensures Suffix(name) == if 0 < d < |name| - 1 then name[d..] else []
  {
    LastDotShape(name);
  }

  /** A name without a dot after its first character has no suffix. */
  lemma NoDotNoSuffix(name: string)
    requires forall j :: 0 < j < |name| ==> name[j] != '.'
    ensures Suffix(name) == []
  {
    LastDotShape(name);
  }

  /** An extension as `main` normalises it: lower case, leading dots removed. */
  function NormalizeExt(e: string): string {
    TrimDots(Lower(e))
  }

  /** The exclusion set: "md" and every `--exclude-ext` value, normalised. */
  function ExcludeSet(extra: seq<string>): set<string> {
    set e | e in ["md"] + extra :: NormalizeExt(e)
  }

  /** `should_exclude`: the last suffix, normalised, is in the set. */
  predicate ShouldExclude(path: string, exclude: set<string>) {
    NormalizeExt(Suffix(Name(path))) in exclude
  }

  /** The suffix of `<stem>.<x>` is ".<x>" for a non-empty stem and a
      non-empty extension without dots. */
  lemma SuffixOf(stem: string, x: string)
    requires stem != [] && x != [] && forall j :: 0 <= j < |x| ==> x[j] != '.'
    ensures Suffix(stem + "." + x) == "." + x
  {
    DotJoin(stem, x);
    SuffixAt(stem + "." + x, |stem|);
  }

  /** In `<stem>.<x>` the dot after the stem is the last one. */
  lemma DotJoin(stem: string, x: string)
    requires forall j :: 0 <= j < |x| ==> x[j] != '.'
    ensures var name := stem + "." + x;
      && name[|stem|] == '.' && name[|stem|..] == "." + x
      && forall j :: |stem| < j < |name| ==> name[j] != '.'
  {
    var name := stem + "." + x;
    var d := |stem|;
    forall j | d < j < |name| ensures name[j] != '.' {
      assert name[j] == x[j - d - 1];
    }
    assert name[d..] == "." + x;
  }

  /** Normalising ".<x>" gives `x` in lower case when `x` does not start with
      a dot. */
  lemma NormalizeDotExt(x: string)
    requires x != [] && x[0] != '.'
    ensures NormalizeExt("." + x) == Lower(x)
  {
    var y := "." + x;
    var ly := Lower(y);
    assert ly[1..] == Lower(x) by {
      forall k | 0 <= k < |x| ensures ly[1..][k] == Lower(x)[k] {
        assert y[k + 1] == x[k];
      }
    }
    assert ly[0] == '.';
    assert TrimDots(ly) == TrimDots(ly[1..]);
  }

  /** A file `<dir><stem>.<x>` is excluded exactly when its extension, lower
      case, is in the set: the directory and the stem do not matter. */
  lemma ExtensionDecides(dir: string, stem: string, x: string, exclude: set<string>)
    requires dir == [] || dir[|dir| - 1] == '/'
    requires stem != [] && forall j :: 0 <= j < |stem| ==> stem[j] != '/'
    requires x != [] && forall j :: 0 <= j < |x| ==> x[j] != '.' && x[j] != '/'
    ensures ShouldExclude(dir + stem + "." + x, exclude) <==> Lower(x) in exclude
  {
    var name := stem + "." + x;
    assert forall j :: 0 <= j < |name| ==> name[j] != '/' by {
      forall j | 0 <= j < |name| ensures name[j] != '/' {
        if j > |stem| {
          assert name[j] == x[j - |stem| - 1];
        }
      }
    }
    assert dir + stem + "." + x == dir + name;
    NameAfterDir(dir, name);
    SuffixOf(stem, x);
    NormalizeDotExt(x);
  }

  /** The name of `<dir><name>` is `name` when `name` holds no "/". */
  lemma NameAfterDir(dir: string, name: string)
    requires dir == [] || dir[|dir| - 1] == '/'
    requires forall j :: 0 <= j < |name| ==> name[j] != '/'
    ensures Name(dir + name) == name
  {
    var s := dir + name;
    assert s[|dir|..] == name;
  }

  /** Markdown files are always excluded, whatever `--exclude-ext` adds, in
      any letter case. */
  lemma MarkdownAlwaysExcluded(dir: string, stem: string, x: string, extra: seq<string>)
    requires dir == [] || dir[|dir| - 1] == '/'
    requires stem != [] && forall j :: 0 <= j < |stem| ==> stem[j] != '/'
    requires |x| == 2 && (x[0] == 'm' || x[0] == 'M') && (x[1] == 'd' || x[1] == 'D')
    ensures ShouldExclude(dir + stem + "." + x, ExcludeSet(extra))
  {
    ExtensionDecides(dir, stem, x, ExcludeSet(extra));
    LowerMd(x);
    MdExcluded(extra);
  }

  /** "md", "MD", "Md" and "mD" all lower-case to "md". */
  lemma LowerMd(x: string)
    requires |x| == 2 && (x[0] == 'm' || x[0] == 'M') && (x[1] == 'd' || x[1] == 'D')
    ensures Lower(x) == "md"
  {
    var md := "md";
    assert Lower(x)[0] == md[0] && Lower(x)[1] == md[1];
  }

  /** The exclusion set always holds "md". */
  lemma MdExcluded(extra: seq<string>)
    ensures "md" in ExcludeSet(extra)
  {
    var md := "md";
    assert NormalizeExt(md) == md by {
      LowerMd(md);
    }
    assert md in ["md"] + extra;
  }

  /** An `--exclude-ext` value excludes the files whose extension matches it
      up to letter case and leading dots: `--exclude-ext .TXT` excludes
      "notes.txt". */
  lemma ExcludeExtApplies(e: string, extra: seq<string>, dir: string, stem: string, x: string)
    requires e in extra
    requires dir == [] || dir[|dir| - 1] == '/'
    requires stem != [] && forall j :: 0 <= j < |stem| ==> stem[j] != '/'
    requires x != [] && forall j :: 0 <= j < |x| ==> x[j] != '.' && x[j] != '/'
    requires Lower(x) == NormalizeExt(e)
    ensures ShouldExclude(dir + stem + "." + x, ExcludeSet(extra))
  {
    ExtensionDecides(dir, stem, x, ExcludeSet(extra));
    assert e in ["md"] + extra;
  }

  /** A name without a suffix ("Makefile", ".bashrc") is excluded only when
      the set holds the empty extension, which `--exclude-ext .` adds. */
  lemma NoSuffixExcludedIff(path: string, exclude: set<string>)
    requires Suffix(Name(path)) == []
    ensures ShouldExclude(path, exclude) <==> "" in exclude
  {
    assert Lower([]) == [];
  }

  // ----------------------------------------------------------------- paths

  /** `Path.is_absolute` on POSIX. */
  predicate IsAbsolute(p: string) {
    p != [] && p[0] == '/'
  }

  /** One path after `_normalize_paths`: an absolute path is made relative to
      the working directory when `relativize` (standing for
      `relative_to(Path.cwd())`) succeeds, and kept otherwise. */
  function NormalizeOne(s: string, relativize: string -> Option<string>): string {
    if IsAbsolute(s) then
      match relativize(s)
      case Some(q) => q
      case None => s
    else s
  }

  /** `_normalize_paths` as a function of its input. */
  function NormalizedPaths(items: seq<string>, relativize: string -> Option<string>): seq<string>
    decreases |items|
  {
    if items == [] then []
    else
      var last := items[|items| - 1];
      NormalizedPaths(items[..|items| - 1], relativize)
        + (if last == [] then [] else [NormalizeOne(last, relativize)])
  }

  /** `_normalize_paths`: drops empty strings and normalises the rest. */
  method NormalizePaths(items: seq<string>, relativize: string -> Option<string>) returns (paths: seq<string>)
    ensures paths == NormalizedPaths(items, relativize)
  {
    paths := [];
    for i := 0 to |items|
      invariant paths == NormalizedPaths(items[..i], relativize)
    {
      var s := items[i];
      assert items[..i + 1][..i] == items[..i];
      if s != [] {
        var p := s;
        if IsAbsolute(p) {
          match relativize(p)
          case Some(q) => p := q;
          case None =>
        }
        paths := paths + [p];
      }
    }
    assert items[..|items|] == items;
  }

  /** Normalising two lists one after the other is normalising them joined:
      the order of the inputs is kept. */
  lemma {:induction false} NormalizedPathsAppend(a: seq<string>, b: seq<string>, relativize: string -> Option<string>)
    ensures NormalizedPaths(a + b, relativize) == NormalizedPaths(a, relativize) + NormalizedPaths(b, relativize)
    decreases |b|
  {
    if b == [] {
      assert a + b == a;
    } else {
      var m := |b| - 1;
      NormalizedPathsAppend(a, b[..m], relativize);
      assert (a + b)[..|a + b| - 1] == a + b[..m];
    }
  }

  /** The non-empty strings of a list, in order. */
  function NonEmpty(items: seq<string>): seq<string>
    decreases |items|
  {
    if items == [] then []
    else NonEmpty(items[..|items| - 1]) + (if items[|items| - 1] == [] then [] else [items[|items| - 1]])
  }

  /** Normalisation maps each non-empty input to one path, in order, and
      leaves relative paths as they are. */
  lemma {:induction false} NormalizedPathsShape(items: seq<string>, relativize: string -> Option<string>)
    ensures |NormalizedPaths(items, relativize)| == |NonEmpty(items)|
    ensures forall k :: 0 <= k < |NonEmpty(items)| ==>
      NormalizedPaths(items, relativize)[k] == NormalizeOne(NonEmpty(items)[k], relativize)
    ensures (forall k :: 0 <= k < |items| ==> !IsAbsolute(items[k])) ==>
      NormalizedPaths(items, relativize) == NonEmpty(items)
    decreases |items|
  {
    if items != [] {
      var m := |items| - 1;
      NormalizedPathsShape(items[..m], relativize);
    }
  }

  // ------------------------------------------------------------------- main

  /** The paths given to `main`: the arguments, then (with `--stdin`) the
      stripped lines of standard input, each normalised. */
  function Given(files: seq<string>, stdin: Option<string>, relativize: string -> Option<string>): seq<string> {
    NormalizedPaths(files, relativize)
      + match stdin
        case Some(text) => NormalizedPaths(StripEach(SplitLines(text)), relativize)
        case None => []
  }

  /** The candidate list: the given paths or, when there are none, the files
      git lists; `None` when git fails. */
  function Candidates(files: seq<string>, stdin: Option<string>, git: Option<seq<string>>,
                      relativize: string -> Option<string>): Option<seq<string>> {
    var given := Given(files, stdin, relativize);
    if given != [] then Some(given) else git
  }

  /** `line.strip()` for each line. */
  function StripEach(lines: seq<string>): (r: seq<string>)
    ensures |r| == |lines| && forall k :: 0 <= k < |lines| ==> r[k] == Strip(lines[k])
  {
    seq(|lines|, k requires 0 <= k < |lines| => Strip(lines[k]))
  }

  /** The reports so far and the files as they now are. */
  type Progress = (seq<Report>, map<string, FileState>)

  /** One candidate: skipped when it is not a regular file or is excluded,
      else checked or fixed, its report appended and its new state kept. */
  function Step(acc: Progress, path: string, fix: bool, exclude: set<string>): Progress {
    if path !in acc.1 || ShouldExclude(path, exclude) then acc
    else
      var outcome := CheckOrFix(path, acc.1[path], fix);
      (acc.0 + (if outcome.0.Some? then [outcome.0.value] else []), acc.1[path := outcome.1])
  }

  /** The candidates processed in order. A path listed twice is processed
      twice, the second time on what the first pass left. */
  function Process(candidates: seq<string>, fs: map<string, FileState>, fix: bool, exclude: set<string>): Progress
    decreases |candidates|
  {
    if candidates == [] then ([], fs)
    else Step(Process(candidates[..|candidates| - 1], fs, fix, exclude), candidates[|candidates| - 1], fix, exclude)
  }

  lemma ProcessPrefix(candidates: seq<string>, i: nat, fs: map<string, FileState>, fix: bool, exclude: set<string>)
    requires i < |candidates|
    ensures Process(candidates[..i + 1], fs, fix, exclude)
         == Step(Process(candidates[..i], fs, fix, exclude), candidates[i], fix, exclude)
  {
    assert candidates[..i + 1][..i] == candidates[..i];
  }

  /** The exit status: 0 in fix mode, else 1 when some file was reported. */
  function ExitCode(fix: bool, reports: seq<Report>): int {
    if fix then 0 else if reports != [] then 1 else 0
  }

  /** One pass of the loop in `main`: a candidate that exists and is not
      excluded is checked or fixed, and its report, if any, appended. */
  method Visit(reports: seq<Report>, fs: map<string, FileState>, path: string, fix: bool, exclude: set<string>)
    returns (reportsAfter: seq<Report>, fsAfter: map<string, FileState>)
    ensures (reportsAfter, fsAfter) == Step((reports, fs), path, fix, exclude)
  {
    reportsAfter, fsAfter := reports, fs;
    if path in fs && !ShouldExclude(path, exclude) {
      var r, after := CheckOrFixFile(path, fs[path], fix);
      StepChecked((reports, fs), path, fix, exclude, r, after);
      if r.Some? {
        reportsAfter := reports + [r.value];
      }
      fsAfter := fs[path := after];
      assert reportsAfter == reports + (if r.Some? then [r.value] else []);
    } else {
      StepSkipped((reports, fs), path, fix, exclude);
    }
  }

  /** The main loop of `main`: each candidate in order, checked or fixed
      when it is an existing, non-excluded file. */
  method ProcessAll(candidates: seq<string>, fs: map<string, FileState>, fix: bool, exclude: set<string>)
    returns (reports: seq<Report>, fsAfter: map<string, FileState>)
    ensures (reports, fsAfter) == Process(candidates, fs, fix, exclude)
  {
    reports := [];
    fsAfter := fs;
    for i := 0 to |candidates|
      invariant (reports, fsAfter) == Process(candidates[..i], fs, fix, exclude)
    {
      ProcessPrefix(candidates, i, fs, fix, exclude);
      reports, fsAfter := Visit(reports, fsAfter, candidates[i], fix, exclude);
    }
    assert candidates[..|candidates|] == candidates;
  }

  /** A candidate that exists and is not excluded adds its report, if any,
      and its new state. */
  lemma StepChecked(acc: Progress, path: string, fix: bool, exclude: set<string>, r: Option<Report>, after: FileState)
    requires path in acc.1 && !ShouldExclude(path, exclude)
    requires (r, after) == CheckOrFix(path, acc.1[path], fix)
    ensures Step(acc, path, fix, exclude) == (acc.0 + (if r.Some? then [r.value] else []), acc.1[path := after])
  {
  }

  /** Any other candidate changes nothing. */
  lemma StepSkipped(acc: Progress, path: string, fix: bool, exclude: set<string>)
    requires path !in acc.1 || ShouldExclude(path, exclude)
    ensures Step(acc, path, fix, exclude) == acc
  {
  }

  /** `main` after argument parsing: builds the candidates, checks or fixes
      each existing, non-excluded file, and returns the exit status, the
      reports it prints, and the files afterwards. */
  method Run(files: seq<string>, stdin: Option<string>, fix: bool, excludeExt: seq<string>,
             git: Option<seq<string>>, relativize: string -> Option<string>, fs: map<string, FileState>)
    returns (code: int, reports: seq<Report>, fsAfter: map<string, FileState>)
    ensures Candidates(files, stdin, git, relativize).None? ==> code == 2 && reports == [] && fsAfter == fs
    ensures Candidates(files, stdin, git, relativize).Some? ==>
      && (reports, fsAfter) == Process(Candidates(files, stdin, git, relativize).value, fs, fix, ExcludeSet(excludeExt))
      && code == ExitCode(fix, reports)
  {
    var exclude := ExcludeSet(excludeExt);
    var candidates := NormalizePaths(files, relativize);
    if stdin.Some? {
      var more := NormalizePaths(StripEach(SplitLines(stdin.value)), relativize);
      candidates := candidates + more;
    }
    assert candidates == Given(files, stdin, relativize);
    if candidates == [] {
      if git.None? {
        return 2, [], fs;
      }
      candidates := git.value;
    }
    reports, fsAfter := ProcessAll(candidates, fs, fix, exclude);
    code := if fix then 0 else if reports != [] then 1 else 0;
  }

  /** A candidate that check mode reports: an existing, non-excluded text
      file with at least one line that stripping changes. */
  predicate Dirty(path: string, fs: map<string, FileState>, exclude: set<string>) {
    && path in fs
    && !ShouldExclude(path, exclude)
    && fs[path].content.Text?
    && CountChanged(SplitLinesKeepEnds(fs[path].content.text)) != 0
  }

  /** Checking a file never changes it, and reports it exactly when it is a
      text file with a changed line. */
  lemma CheckLeavesFile(path: string, entry: FileState)
    ensures CheckOrFix(path, entry, false).1 == entry
    ensures CheckOrFix(path, entry, false).0.Some? <==>
      entry.content.Text? && CountChanged(SplitLinesKeepEnds(entry.content.text)) != 0
  {
  }

  /** A candidate that exists and is not excluded is checked or fixed. */
  lemma StepVisits(acc: Progress, path: string, fix: bool, exclude: set<string>)
    requires path in acc.1 && !ShouldExclude(path, exclude)
    ensures Step(acc, path, fix, exclude).1 == acc.1[path := CheckOrFix(path, acc.1[path], fix).1]
  {
    var outcome := CheckOrFix(path, acc.1[path], fix);
    assert Step(acc, path, fix, exclude) ==
      (acc.0 + (if outcome.0.Some? then [outcome.0.value] else []), acc.1[path := outcome.1]);
  }

  /** Checking leaves the map of files as it is. */
  lemma CheckKeepsMap(fs: map<string, FileState>, path: string)
    requires path in fs
    ensures fs[path := CheckOrFix(path, fs[path], false).1] == fs
  {
    CheckLeavesFile(path, fs[path]);
    assert fs[path := fs[path]] == fs;
  }

  /** One candidate in check mode leaves the files as they are. */
  lemma StepCheckKeepsFiles(acc: Progress, path: string, exclude: set<string>)
    ensures Step(acc, path, false, exclude).1 == acc.1
  {
    if path in acc.1 && !ShouldExclude(path, exclude) {
      StepVisits(acc, path, false, exclude);
      CheckKeepsMap(acc.1, path);
    }
  }

  /** One candidate in check mode adds a report exactly when it is dirty. */
  lemma StepCheckReports(acc: Progress, path: string, exclude: set<string>)
    ensures Step(acc, path, false, exclude).0 != [] <==> acc.0 != [] || Dirty(path, acc.1, exclude)
  {
    if path in acc.1 && !ShouldExclude(path, exclude) {
      CheckLeavesFile(path, acc.1[path]);
    }
  }

  /** Check mode writes nothing. */
  lemma {:induction false} ProcessCheckKeepsFiles(candidates: seq<string>, fs: map<string, FileState>, exclude: set<string>)
    ensures Process(candidates, fs, false, exclude).1 == fs
    decreases |candidates|
  {
    if candidates != [] {
      var init := candidates[..|candidates| - 1];
      ProcessCheckKeepsFiles(init, fs, exclude);
      StepCheckKeepsFiles(Process(init, fs, false, exclude), candidates[|candidates| - 1], exclude);
    }
  }

  /** Check mode reports something exactly when some candidate is dirty. */
  lemma {:induction false} ProcessCheckReports(candidates: seq<string>, fs: map<string, FileState>, exclude: set<string>)
    ensures Process(candidates, fs, false, exclude).0 != [] <==>
      exists p :: p in candidates && Dirty(p, fs, exclude)
    decreases |candidates|
  {
    if candidates != [] {
      var init := candidates[..|candidates| - 1];
      var path := candidates[|candidates| - 1];
      ProcessCheckReports(init, fs, exclude);
      ProcessCheckKeepsFiles(init, fs, exclude);
      var acc := Process(init, fs, false, exclude);
      assert Process(candidates, fs, false, exclude) == Step(acc, path, false, exclude);
      StepCheckReports(acc, path, exclude);
      assert candidates == init + [path];
    }
  }

  /** Processing keeps the set of files. */
  lemma {:induction false} ProcessKeys(candidates: seq<string>, fs: map<string, FileState>, fix: bool, exclude: set<string>)
    ensures Process(candidates, fs, fix, exclude).1.Keys == fs.Keys
    decreases |candidates|
  {
    if candidates != [] {
      var init := candidates[..|candidates| - 1];
      ProcessKeys(init, fs, fix, exclude);
    }
  }

  /** Every report names a candidate that exists, is not excluded and has at
      least one changed line. */
  lemma {:induction false} ProcessReportsNamed(candidates: seq<string>, fs: map<string, FileState>, fix: bool, exclude: set<string>)
    ensures forall r :: r in Process(candidates, fs, fix, exclude).0 ==>
      r.file in candidates && r.file in fs && !ShouldExclude(r.file, exclude) && r.changedLines >= 1
    decreases |candidates|
  {
    if candidates != [] {
      var init := candidates[..|candidates| - 1];
      var path := candidates[|candidates| - 1];
      ProcessReportsNamed(init, fs, fix, exclude);
      ProcessKeys(init, fs, fix, exclude);
      var acc := Process(init, fs, fix, exclude);
      StepReports(acc, path, fix, exclude);
      assert forall p :: p in init ==> p in candidates by {
        assert candidates == init + [path];
      }
      assert path in candidates by {
        assert candidates[|candidates| - 1] == path;
      }
    }
  }

  /** One candidate adds at most its own report, with a changed line, and only
      when it exists and is not excluded. */
  lemma StepReports(acc: Progress, path: string, fix: bool, exclude: set<string>)
    ensures forall r :: r in Step(acc, path, fix, exclude).0 ==>
      r in acc.0 || (r.file == path && path in acc.1 && !ShouldExclude(path, exclude) && r.changedLines >= 1)
  {
    if path in acc.1 && !ShouldExclude(path, exclude) {
      var r := CheckOrFix(path, acc.1[path], fix).0;
      CheckOrFixReport(path, acc.1[path], fix);
      assert Step(acc, path, fix, exclude).0 == acc.0 + if r.Some? then [r.value] else [];
    } else {
      assert Step(acc, path, fix, exclude) == acc;
    }
  }

  /** A file that is not a candidate, or is excluded, is left as it was. */
  lemma {:induction false} ProcessLeavesOthers(candidates: seq<string>, fs: map<string, FileState>, fix: bool, exclude: set<string>, p: string)
    requires p in fs && (p !in candidates || ShouldExclude(p, exclude))
    ensures p in Process(candidates, fs, fix, exclude).1
    ensures Process(candidates, fs, fix, exclude).1[p] == fs[p]
    decreases |candidates|
  {
    if candidates != [] {
      var init := candidates[..|candidates| - 1];
      var path := candidates[|candidates| - 1];
      assert candidates == init + [path];
      ProcessLeavesOthers(init, fs, fix, exclude, p);
      var acc := Process(init, fs, fix, exclude);
      assert Process(candidates, fs, fix, exclude) == Step(acc, path, fix, exclude);
      StepLeaves(acc, path, fix, exclude, p);
    }
  }

  /** One candidate changes no other file, and no excluded one. */
  lemma StepLeaves(acc: Progress, path: string, fix: bool, exclude: set<string>, p: string)
    requires p in acc.1 && (p != path || ShouldExclude(p, exclude))
    ensures p in Step(acc, path, fix, exclude).1
    ensures Step(acc, path, fix, exclude).1[p] == acc.1[p]
  {
  }

  /** In check mode `main` exits with 1 exactly when some candidate is dirty,
      and with 0 otherwise; in fix mode it exits with 0. */
  lemma CheckExitCode(candidates: seq<string>, fs: map<string, FileState>, fix: bool, exclude: set<string>)
    ensures fix ==> ExitCode(fix, Process(candidates, fs, fix, exclude).0) == 0
    ensures !fix ==> (ExitCode(fix, Process(candidates, fs, fix, exclude).0) == 1 <==>
      exists p :: p in candidates && Dirty(p, fs, exclude))
    ensures !fix ==> ExitCode(fix, Process(candidates, fs, fix, exclude).0) in {0, 1}
  {
    if !fix {
      ProcessCheckReports(candidates, fs, exclude);
    }
  }
}
