/** The emoji checker: which characters are forbidden, where they occur in a
    file, and the exit status over a list of files. */
module EmojiCheck {
  import opened Wrappers
  import opened PyText
  import opened LineSplit

  // ------------------------------------------------------- forbidden chars

  /** The emoji blocks, as inclusive code point ranges. */
  const EmojiRanges: seq<(int, int)> := [
    (0x1F1E6, 0x1F1FF),
    (0x1F300, 0x1F5FF),
    (0x1F600, 0x1F64F),
    (0x1F680, 0x1F6FF),
    (0x1F700, 0x1F77F),
    (0x1F780, 0x1F7FF),
    (0x1F800, 0x1F8FF),
    (0x1F900, 0x1F9FF),
    (0x1FA00, 0x1FAFF),
    (0x2600, 0x26FF),
    (0x2700, 0x27BF)
  ]

  /** Decorative symbols forbidden one by one. */
  const ForbiddenPoints: set<int> := {0x2B50, 0x2605, 0x2606, 0x2713, 0x2714, 0x2705}

  const ZeroWidthJoiner: int := 0x200D

  predicate InEmojiRange(cp: int) {
    exists k :: 0 <= k < |EmojiRanges| && EmojiRanges[k].0 <= cp <= EmojiRanges[k].1
  }

  /** `is_forbidden_char`: a variation selector, the zero width joiner, a
      code point in an emoji block, or one of the listed symbols. */
  predicate IsForbidden(c: char) {
    var cp := c as int;
    || 0xFE00 <= cp <= 0xFE0F
    || cp == ZeroWidthJoiner
    || InEmojiRange(cp)
    || cp in ForbiddenPoints
  }

  /** The listed symbols other than U+2B50 already lie in the blocks, so the
      forbidden characters are exactly these. */
  lemma ForbiddenIff(c: char)
    ensures IsForbidden(c) <==>
      var cp := c as int;
      || 0xFE00 <= cp <= 0xFE0F
      || cp == 0x200D
      || 0x1F1E6 <= cp <= 0x1F1FF
      || 0x1F300 <= cp <= 0x1F64F
      || 0x1F680 <= cp <= 0x1FAFF
      || 0x2600 <= cp <= 0x27BF
      || cp == 0x2B50
  {
    var cp := c as int;
    if 0x1F300 <= cp <= 0x1F5FF { assert EmojiRanges[1].0 <= cp <= EmojiRanges[1].1; }
    if 0x1F600 <= cp <= 0x1F64F { assert EmojiRanges[2].0 <= cp <= EmojiRanges[2].1; }
    if 0x1F680 <= cp <= 0x1F6FF { assert EmojiRanges[3].0 <= cp <= EmojiRanges[3].1; }
    if 0x1F700 <= cp <= 0x1F77F { assert EmojiRanges[4].0 <= cp <= EmojiRanges[4].1; }
    if 0x1F780 <= cp <= 0x1F7FF { assert EmojiRanges[5].0 <= cp <= EmojiRanges[5].1; }
    if 0x1F800 <= cp <= 0x1F8FF { assert EmojiRanges[6].0 <= cp <= EmojiRanges[6].1; }
    if 0x1F900 <= cp <= 0x1F9FF { assert EmojiRanges[7].0 <= cp <= EmojiRanges[7].1; }
    if 0x1FA00 <= cp <= 0x1FAFF { assert EmojiRanges[8].0 <= cp <= EmojiRanges[8].1; }
    if 0x2600 <= cp <= 0x26FF { assert EmojiRanges[9].0 <= cp <= EmojiRanges[9].1; }
    if 0x2700 <= cp <= 0x27BF { assert EmojiRanges[10].0 <= cp <= EmojiRanges[10].1; }
    if 0x1F1E6 <= cp <= 0x1F1FF { assert EmojiRanges[0].0 <= cp <= EmojiRanges[0].1; }
  }

  /** Every character below the zero width joiner is allowed, ASCII among
      them. */
  lemma BelowJoinerAllowed(c: char)
    requires (c as int) < 0x200D
    ensures !IsForbidden(c)
  {
    ForbiddenIff(c);
  }

  /** No forbidden character ends a line, so splitting into lines loses none. */
  lemma ForbiddenNotBoundary(c: char)
    requires IsForbidden(c)
    ensures !IsLineBoundary(c)
  {
    ForbiddenIff(c);
  }

  // -------------------------------------------------------------- findings

  /** What a finding is about: a forbidden character, or a file that is not
      valid UTF-8. */
  datatype Subject = Char(ch: char) | Undecodable

  /** `Finding`: the file, the 1-based line and column, and what was found.
      Its `codepoint` and `char_repr` texts are determined by the subject and
      are the members below. */
  datatype Finding = Finding(path: string, line: nat, col: nat, subject: Subject) {
    /** `f"U+{ord(ch):04X}"`, or "N/A". */
    function Codepoint(): string {
      match subject
      case Char(ch) => "U+" + Hex4(ch as int)
      case Undecodable => "N/A"
    }

    /** `repr(ch)`, or "non-utf8". */
    function CharRepr(): string {
      match subject
      case Char(ch) => Repr(ch)
      case Undecodable => "non-utf8"
    }
  }

  /** `repr` of a forbidden character: quoted, with the zero width joiner,
      which Python does not print, escaped. */
  function Repr(c: char): string {
    if c as int == ZeroWidthJoiner then "'\\u200d'" else "'" + [c] + "'"
  }

  function MakeFinding(path: string, lineNo: nat, colNo: nat, c: char): Finding {
    Finding(path, lineNo, colNo, Char(c))
  }

  /** The single finding for a file that is not valid UTF-8. */
  function NotUtf8(path: string): Finding {
    Finding(path, 1, 1, Undecodable)
  }

  /** The findings of line `lineNo`, one per forbidden character, left to
      right. */
  function LineFindings(path: string, lineNo: nat, line: string): (r: seq<Finding>)
    ensures forall k :: 0 <= k < |r| ==>
      && r[k].line == lineNo
      && 1 <= r[k].col <= |line|
      && IsForbidden(line[r[k].col - 1])
      && r[k] == MakeFinding(path, lineNo, r[k].col, line[r[k].col - 1])
    ensures forall a, b :: 0 <= a < b < |r| ==> r[a].col < r[b].col
    decreases |line|
  {
    if line == [] then []
    else
      var init := line[..|line| - 1];
      var c := line[|line| - 1];
      var r0 := LineFindings(path, lineNo, init);
      assert forall k :: 0 <= k < |r0| ==> line[r0[k].col - 1] == init[r0[k].col - 1];
      r0 + (if IsForbidden(c) then [MakeFinding(path, lineNo, |line|, c)] else [])
  }

  /** Reading order: by line, then by column. */
  predicate Precedes(f: Finding, g: Finding) {
    f.line < g.line || (f.line == g.line && f.col < g.col)
  }

  /** The findings of all lines in order, uncapped. */
  function AllFindings(path: string, lines: seq<string>): seq<Finding>
    decreases |lines|
  {
    if lines == [] then []
    else AllFindings(path, lines[..|lines| - 1]) + LineFindings(path, |lines|, lines[|lines| - 1])
  }

  /** How many findings `scan_file` keeps: it tests the cap only after adding
      a finding, so a cap below 1 still keeps the first. */
  function Cap(maxFindings: int): nat {
    if maxFindings < 1 then 1 else maxFindings
  }

  /** The first `Cap(maxFindings)` findings. */
  function Capped(all: seq<Finding>, maxFindings: int): (r: seq<Finding>)
    ensures r <= all
  {
    if |all| <= Cap(maxFindings) then all else all[..Cap(maxFindings)]
  }

  /** What `scan_file` returns for a file whose decoded text is `text`
      (`None` when it is not valid UTF-8). */
  function ScanResult(path: string, text: Option<string>, maxFindings: int): seq<Finding> {
    match text
    case None => [NotUtf8(path)]
    case Some(t) => Capped(AllFindings(path, SplitLines(t)), maxFindings)
  }

  // ------------------------------------------------ properties of findings

  /** Every finding points at a forbidden character of the text: its line and
      column are 1-based indexes, and it carries that character's code point. */
  lemma {:induction false} FindingsSound(path: string, lines: seq<string>)
    ensures forall f :: f in AllFindings(path, lines) ==>
      && 1 <= f.line <= |lines|
      && 1 <= f.col <= |lines[f.line - 1]|
      && IsForbidden(lines[f.line - 1][f.col - 1])
      && f == MakeFinding(path, f.line, f.col, lines[f.line - 1][f.col - 1])
    decreases |lines|
  {
    if lines != [] {
      var init := lines[..|lines| - 1];
      FindingsSound(path, init);
      forall f | f in AllFindings(path, init)
        ensures lines[f.line - 1] == init[f.line - 1]
      {
      }
    }
  }

  /** Every forbidden character of the text has its finding. */
  lemma {:induction false} FindingsComplete(path: string, lines: seq<string>, k: nat, j: nat)
    requires k < |lines| && j < |lines[k]| && IsForbidden(lines[k][j])
    ensures MakeFinding(path, k + 1, j + 1, lines[k][j]) in AllFindings(path, lines)
    decreases |lines|
  {
    var init := lines[..|lines| - 1];
    if k < |lines| - 1 {
      assert init[k] == lines[k];
      FindingsComplete(path, init, k, j);
    } else {
      LineComplete(path, k + 1, lines[k], j);
    }
  }

  lemma {:induction false} LineComplete(path: string, lineNo: nat, line: string, j: nat)
    requires j < |line| && IsForbidden(line[j])
    ensures MakeFinding(path, lineNo, j + 1, line[j]) in LineFindings(path, lineNo, line)
    decreases |line|
  {
    var init := line[..|line| - 1];
    if j < |line| - 1 {
      assert init[j] == line[j];
      LineComplete(path, lineNo, init, j);
    }
  }

  /** The findings come in reading order. */
  lemma {:induction false} FindingsInOrder(path: string, lines: seq<string>)
    ensures forall a, b :: 0 <= a < b < |AllFindings(path, lines)| ==>
      Precedes(AllFindings(path, lines)[a], AllFindings(path, lines)[b])
    decreases |lines|
  {
    if lines != [] {
      var init := lines[..|lines| - 1];
      FindingsInOrder(path, init);
      FindingsSound(path, init);
      var r0 := AllFindings(path, init);
      var r1 := LineFindings(path, |lines|, lines[|lines| - 1]);
      var r := r0 + r1;
      forall a, b | 0 <= a < b < |r| ensures Precedes(r[a], r[b]) {
        if b < |r0| {
          assert r[a] == r0[a] && r[b] == r0[b];
        } else if a < |r0| {
          assert r[a] == r0[a] && r0[a] in r0;
          assert r[b] == r1[b - |r0|];
        } else {
          assert r[a] == r1[a - |r0|] && r[b] == r1[b - |r0|];
        }
      }
    }
  }

  /** Splitting into lines keeps every forbidden character. */
  lemma LinesKeepForbidden(text: string)
    ensures (exists p :: 0 <= p < |text| && IsForbidden(text[p])) <==>
      exists k, j :: 0 <= k < |SplitLines(text)| && 0 <= j < |SplitLines(text)[k]| && IsForbidden(SplitLines(text)[k][j])
  {
    forall c | IsForbidden(c) ensures !IsLineBoundary(c) {
      ForbiddenNotBoundary(c);
    }
    SplitLinesKeepChars(text, IsForbidden);
  }

  /** Lines yield findings exactly when they hold a forbidden character. */
  lemma FindingsIffForbiddenLines(path: string, lines: seq<string>)
    ensures AllFindings(path, lines) != [] <==>
      exists k, j :: 0 <= k < |lines| && 0 <= j < |lines[k]| && IsForbidden(lines[k][j])
  {
    if AllFindings(path, lines) != [] {
      FindingsSound(path, lines);
      var f := AllFindings(path, lines)[0];
      assert f in AllFindings(path, lines);
      assert IsForbidden(lines[f.line - 1][f.col - 1]);
    }
    if k, j :| 0 <= k < |lines| && 0 <= j < |lines[k]| && IsForbidden(lines[k][j]) {
      FindingsComplete(path, lines, k, j);
    }
  }

  /** A text yields findings exactly when it holds a forbidden character. */
  lemma FindingsIffForbidden(path: string, text: string)
    ensures AllFindings(path, SplitLines(text)) != [] <==>
      exists p :: 0 <= p < |text| && IsForbidden(text[p])
  {
    LinesKeepForbidden(text);
    FindingsIffForbiddenLines(path, SplitLines(text));
  }

  /** The code point text is "U+" and at least four upper-case hex digits
      spelling the character's code point; without a character it is "N/A". */
  lemma CodePointFormat(f: Finding)
    ensures var s := f.Codepoint();
      match f.subject
      case Char(ch) =>
        && |s| >= 6 && s[..2] == "U+"
        && AllHexDigits(s[2..]) && HexValue(s[2..]) == ch as int
        && (|s| == 6 || s[2] != '0')
      case Undecodable => s == "N/A"
  {
    if f.subject.Char? {
      assert f.Codepoint()[2..] == Hex4(f.subject.ch as int);
    }
  }

  /** `scan_file` keeps a prefix of the findings, at most `Cap(maxFindings)`
      of them, and all of them when there are no more than that. */
  lemma ScanCapped(path: string, text: string, maxFindings: int)
    ensures var all := AllFindings(path, SplitLines(text));
      var r := ScanResult(path, Some(text), maxFindings);
      && r <= all
      && |r| <= Cap(maxFindings)
      && (maxFindings >= 1 ==> |r| <= maxFindings)
      && (|all| <= Cap(maxFindings) ==> r == all)
      && (|all| > Cap(maxFindings) ==> |r| == Cap(maxFindings))
  {
  }

  /** `scan_file` returns something exactly when the file is not UTF-8 or
      holds a forbidden character. */
  lemma ScanNonEmptyIff(path: string, text: Option<string>, maxFindings: int)
    ensures ScanResult(path, text, maxFindings) != [] <==>
      text.None? || exists p :: 0 <= p < |text.value| && IsForbidden(text.value[p])
  {
    if text.Some? {
      FindingsIffForbidden(path, text.value);
    }
  }

  // ------------------------------------------------------------- scan_file

  /** Adding one more character of a line. */
  lemma LinePrefix(path: string, lineNo: nat, line: string, j: nat)
    requires j < |line|
    ensures LineFindings(path, lineNo, line[..j + 1])
         == LineFindings(path, lineNo, line[..j])
            + if IsForbidden(line[j]) then [MakeFinding(path, lineNo, j + 1, line[j])] else []
  {
    assert line[..j + 1][..j] == line[..j];
  }

  /** Adding one more line. */
  lemma AllPrefix(path: string, lines: seq<string>, i: nat)
    requires i < |lines|
    ensures AllFindings(path, lines[..i + 1]) == AllFindings(path, lines[..i]) + LineFindings(path, i + 1, lines[i])
  {
    assert lines[..i + 1][..i] == lines[..i];
  }

  /** The findings of a prefix of a line come first among the line's. */
  lemma {:induction false} LinePrefixFirst(path: string, lineNo: nat, line: string, j: nat)
    requires j <= |line|
    ensures LineFindings(path, lineNo, line[..j]) <= LineFindings(path, lineNo, line)
    decreases |line|
  {
    if j < |line| {
      var init := line[..|line| - 1];
      assert line[..j] == init[..j];
      LinePrefixFirst(path, lineNo, init, j);
      assert init[..|init|] == init;
    } else {
      assert line[..j] == line;
    }
  }

  /** The findings of the first lines come first among the text's. */
  lemma {:induction false} AllPrefixFirst(path: string, lines: seq<string>, i: nat)
    requires i <= |lines|
    ensures AllFindings(path, lines[..i]) <= AllFindings(path, lines)
    decreases |lines|
  {
    if i < |lines| {
      var init := lines[..|lines| - 1];
      assert lines[..i] == init[..i];
      AllPrefixFirst(path, init, i);
      assert init[..|init|] == init;
    } else {
      assert lines[..i] == lines;
    }
  }

  /** What the loops of `scan_file` have collected at line `i`, column `j` is a
      prefix of all the findings. */
  lemma CollectedFirst(path: string, lines: seq<string>, i: nat, j: nat)
    requires i < |lines| && j <= |lines[i]|
    ensures AllFindings(path, lines[..i]) + LineFindings(path, i + 1, lines[i][..j]) <= AllFindings(path, lines)
  {
    LinePrefixFirst(path, i + 1, lines[i], j);
    AllPrefix(path, lines, i);
    AllPrefixFirst(path, lines, i + 1);
  }

  /** A prefix of the findings as long as the cap is what the cap keeps. */
  lemma CappedPrefix(all: seq<Finding>, found: seq<Finding>, maxFindings: int)
    requires found <= all && |found| == Cap(maxFindings)
    ensures Capped(all, maxFindings) == found
  {
  }

  /** `scan_file`: walks the lines and their characters, collecting a
      finding per forbidden character, and stops once the cap is reached. */
  method ScanFile(path: string, text: Option<string>, maxFindings: int) returns (findings: seq<Finding>)
    ensures findings == ScanResult(path, text, maxFindings)
  {
    if text.None? {
      return [NotUtf8(path)];
    }
    var lines := SplitLines(text.value);
    findings := [];
    for i := 0 to |lines|
      invariant findings == AllFindings(path, lines[..i])
      invariant |findings| < Cap(maxFindings)
    {
      var line := lines[i];
      for j := 0 to |line|
        invariant findings == AllFindings(path, lines[..i]) + LineFindings(path, i + 1, line[..j])
        invariant |findings| < Cap(maxFindings)
      {
        var c := line[j];
        LinePrefix(path, i + 1, line, j);
        if IsForbidden(c) {
          findings := findings + [MakeFinding(path, i + 1, j + 1, c)];
          if |findings| >= maxFindings {
            CollectedFirst(path, lines, i, j + 1);
            CappedPrefix(AllFindings(path, lines), findings, maxFindings);
            return findings;
          }
        }
      }
      assert line[..|line|] == line;
      AllPrefix(path, lines, i);
    }
    assert lines[..|lines|] == lines;
  }

  // ------------------------------------------------------------------ main

  /** The most findings `main` asks of one file. */
  const PerFile: int := 20

  /** The most findings `main` prints one by one. */
  const Shown: nat := 50

  /** `argv[1:]`. */
  function Rest(argv: seq<string>): seq<string> {
    if argv == [] then [] else argv[1..]
  }

  /** `[p for p in argv[1:] if p]`. */
  function Args(argv: seq<string>): (r: seq<string>)
    ensures forall a :: a in r <==> a in Rest(argv) && a != ""
    decreases |argv|
  {
    if |argv| <= 1 then []
    else
      var r0 := Args(argv[..|argv| - 1]);
      assert argv[..|argv| - 1][1..] == argv[1..|argv| - 1];
      assert argv[1..] == argv[1..|argv| - 1] + [argv[|argv| - 1]];
      r0 + if argv[|argv| - 1] != "" then [argv[|argv| - 1]] else []
  }

  /** The positions of the non-empty strings of `items`, in increasing
      order. */
  function NonEmptyPositions(items: seq<string>): (idx: seq<nat>)
    ensures forall k :: 0 <= k < |idx| ==> idx[k] < |items| && items[idx[k]] != ""
    ensures forall a, b :: 0 <= a < b < |idx| ==> idx[a] < idx[b]
    ensures forall j :: 0 <= j < |items| && items[j] != "" ==> j in idx
    decreases |items|
  {
    if items == [] then []
    else
      var last := |items| - 1;
      var idx0 := NonEmptyPositions(items[..last]);
      idx0 + if items[last] != "" then [last] else []
  }

  /** The paths are the non-empty arguments after the program name, in their
      order and with their repeats. */
  lemma {:induction false} ArgsInOrder(argv: seq<string>)
    ensures var idx := NonEmptyPositions(Rest(argv));
      && |Args(argv)| == |idx|
      && forall k :: 0 <= k < |idx| ==> Args(argv)[k] == Rest(argv)[idx[k]]
    decreases |argv|
  {
    if |argv| > 1 {
      var init := argv[..|argv| - 1];
      var rest := Rest(argv);
      var last := |rest| - 1;
      ArgsInOrder(init);
      ArgsStep(argv);
      PositionsStep(rest);
      ExtendPositions(rest[..last], Args(init), NonEmptyPositions(rest[..last]), rest[last]);
    }
  }

  /** One more argument: the paths of the arguments before it, then the
      argument itself when it is not empty. */
  lemma ArgsStep(argv: seq<string>)
    requires |argv| > 1
    ensures var rest := Rest(argv);
      && Rest(argv[..|argv| - 1]) == rest[..|rest| - 1]
      && rest == rest[..|rest| - 1] + [rest[|rest| - 1]]
      && Args(argv) == Args(argv[..|argv| - 1]) + if rest[|rest| - 1] != "" then [rest[|rest| - 1]] else []
  {
  }

  lemma PositionsStep(items: seq<string>)
    requires items != []
    ensures var last := |items| - 1;
      NonEmptyPositions(items) == NonEmptyPositions(items[..last]) + if items[last] != "" then [last] else []
  {
  }

  /** Appending one item keeps a list of picked items matched with their
      positions. */
  lemma ExtendPositions(items: seq<string>, picked: seq<string>, idx: seq<nat>, x: string)
    requires |picked| == |idx|
    requires forall k :: 0 <= k < |idx| ==> idx[k] < |items| && picked[k] == items[idx[k]]
    ensures var picked' := picked + if x != "" then [x] else [];
      var idx' := idx + if x != "" then [|items|] else [];
      && |picked'| == |idx'|
      && forall k :: 0 <= k < |idx'| ==> picked'[k] == (items + [x])[idx'[k]]
  {
  }

  /** `main` scans as many paths as there are non-empty arguments, each
      path as often as it is given. */
  lemma {:induction false} ArgsMultiset(argv: seq<string>)
    ensures multiset(Args(argv)) == multiset(Rest(argv))["" := 0]
    decreases |argv|
  {
    if |argv| > 1 {
      var init := argv[..|argv| - 1];
      var rest := Rest(argv);
      var last := |rest| - 1;
      ArgsMultiset(init);
      ArgsStep(argv);
      assert multiset(rest) == multiset(rest[..last]) + multiset{rest[last]};
      DropEmpty(multiset(rest[..last]), rest[last]);
    }
  }

  /** Removing the empty string from a multiset with one more item. */
  lemma DropEmpty(m: multiset<string>, x: string)
    ensures (m + multiset{x})["" := 0] == m["" := 0] + if x != "" then multiset{x} else multiset{}
  {
  }

  /** The findings of the existing files among `paths`, in order. A file is
      present in `files` when it exists, with its decoded text or `None`. */
  function AllScans(paths: seq<string>, files: map<string, Option<string>>): seq<Finding>
    decreases |paths|
  {
    if paths == [] then []
    else
      var p := paths[|paths| - 1];
      AllScans(paths[..|paths| - 1], files) + if p in files then ScanResult(p, files[p], PerFile) else []
  }

  /** The exit status: 1 when any finding was made. */
  function ExitStatus(all: seq<Finding>): int {
    if all == [] then 0 else 1
  }

  /** `main`: scans every existing file named on the command line and
      returns the exit status, the findings printed one by one, and the
      number summarised as "... and N more occurrences". */
  method Run(argv: seq<string>, files: map<string, Option<string>>)
    returns (code: int, shown: seq<Finding>, more: nat)
    ensures var all := AllScans(Args(argv), files);
      && code == ExitStatus(all)
      && shown == (if |all| <= Shown then all else all[..Shown])
      && more == (if |all| > Shown then |all| - Shown else 0)
  {
    var paths := Args(argv);
    if paths == [] {
      return 0, [], 0;
    }
    var all: seq<Finding> := [];
    for i := 0 to |paths|
      invariant all == AllScans(paths[..i], files)
    {
      var path := paths[i];
      assert paths[..i + 1][..i] == paths[..i];
      if path in files {
        var found := ScanFile(path, files[path], PerFile);
        all := all + found;
      }
    }
    assert paths[..|paths|] == paths;
    if all == [] {
      return 0, [], 0;
    }
    shown := if |all| <= Shown then all else all[..Shown];
    more := if |all| > Shown then |all| - Shown else 0;
    code := 1;
  }

  /** `main` fails exactly when some non-empty argument names an existing
      file that is not UTF-8 or holds a forbidden character. */
  lemma {:induction false} ExitStatusIff(argv: seq<string>, files: map<string, Option<string>>)
    ensures ExitStatus(AllScans(Args(argv), files)) == 1 <==>
      exists a :: a in Rest(argv) && a != "" && a in files && Flagged(files[a])
  {
    var paths := Args(argv);
    ScansIff(paths, files);
  }

  /** A decoded file that `scan_file` reports on. */
  predicate Flagged(text: Option<string>) {
    text.None? || exists p :: 0 <= p < |text.value| && IsForbidden(text.value[p])
  }

  lemma {:induction false} ScansIff(paths: seq<string>, files: map<string, Option<string>>)
    ensures AllScans(paths, files) != [] <==> exists a :: a in paths && a in files && Flagged(files[a])
    decreases |paths|
  {
    if paths != [] {
      var init := paths[..|paths| - 1];
      var p := paths[|paths| - 1];
      ScansIff(init, files);
      if p in files {
        ScanNonEmptyIff(p, files[p], PerFile);
      }
      assert paths == init + [p];
    }
  }
}
