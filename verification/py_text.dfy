/** The operations of Python's `str` that the mock server and the two lint
    scripts rely on, stated over Dafny strings (sequences of Unicode scalar
    values). Each operation is pinned down by its own contract or by a lemma
    next to it: `strip()` by `StripPadded`, `int()` by `ParseIntNumeral` and
    `ParseIntOnlyNumerals`, and the underscore removal by
    `DropUnderscoresConcat` with `DropUnderscoresChar`. */
module PyText {
  import opened Wrappers

  // ------------------------------------------------------------ searching

  /** `p` occurs in `s` starting at index `i`. */
  predicate OccursAt(s: string, p: string, i: nat) {
    i + |p| <= |s| && s[i..i + |p|] == p
  }

  lemma OccursAtShift(s: string, p: string, j: nat)
    requires s != []
    ensures OccursAt(s, p, j + 1) <==> OccursAt(s[1..], p, j)
  {
    if j + 1 + |p| <= |s| {
      assert s[1..][j..j + |p|] == s[j + 1..j + 1 + |p|];
    }
  }

  /** `s.startswith(p)`, compared character by character. */
  predicate StartsWith(s: string, p: string)
    decreases |p|
  {
    p == [] || (s != [] && s[0] == p[0] && StartsWith(s[1..], p[1..]))
  }

  /** `startswith` is the sequence-prefix relation. */
  lemma {:induction false} StartsWithIsPrefix(s: string, p: string)
    ensures StartsWith(s, p) <==> p <= s
    decreases |p|
  {
    if p != [] && s != [] {
      StartsWithIsPrefix(s[1..], p[1..]);
      if p <= s {
        assert p[1..] <= s[1..];
      }
    }
  }

  /** Every text starts with what is put in front of it. */
  lemma StartsWithConcat(p: string, e: string)
    ensures StartsWith(p + e, p)
  {
    StartsWithIsPrefix(p + e, p);
  }

  /** The index of the first occurrence of `p` in `s` (`str.find`, with `None`
      standing for -1). */
  function Find(s: string, p: string): (r: Option<nat>)
    ensures r.Some? ==> OccursAt(s, p, r.value)
    ensures r.Some? ==> forall j: nat :: j < r.value ==> !OccursAt(s, p, j)
    ensures r.None? ==> forall j: nat :: !OccursAt(s, p, j)
    decreases |s|
  {
    if p <= s then Some(0)
    else if s == [] then None
    else
      assert !OccursAt(s, p, 0);
      match Find(s[1..], p)
      case Some(i) =>
        assert forall j: nat :: j < i + 1 ==> !OccursAt(s, p, j) by {
          forall j: nat | j < i + 1 ensures !OccursAt(s, p, j) {
            if j > 0 { OccursAtShift(s, p, j - 1); }
          }
        }
        OccursAtShift(s, p, i);
        Some(i + 1)
      case None =>
        assert forall j: nat :: !OccursAt(s, p, j) by {
          forall j: nat ensures !OccursAt(s, p, j) {
            if j > 0 { OccursAtShift(s, p, j - 1); }
          }
        }
        None
  }

  /** Python's `p in s`. */
  predicate Contains(s: string, p: string) {
    Find(s, p).Some?
  }

  lemma ContainsIff(s: string, p: string, i: nat)
    requires OccursAt(s, p, i)
    ensures Contains(s, p)
  {
  }

  lemma OccursInPrefix(s: string, k: nat, p: string, j: nat)
    requires k <= |s| && OccursAt(s[..k], p, j)
    ensures OccursAt(s, p, j)
  {
    assert s[..k][j..j + |p|] == s[j..j + |p|];
  }

  /** `s.split(sep)[0]`: the text before the first occurrence of `sep`, or all
      of `s` when `sep` does not occur. */
  function Before(s: string, sep: string): (r: string)
    requires sep != []
    ensures r <= s
    ensures r == s <==> !Contains(s, sep)
    ensures r != s ==> sep <= s[|r|..] && Find(s, sep) == Some(|r|)
    ensures !Contains(r, sep)
  {
    match Find(s, sep)
    case Some(i) =>
      var r := s[..i];
      assert !Contains(r, sep) by {
        if Contains(r, sep) {
          var k := Find(r, sep).value;
          OccursInPrefix(s, i, sep, k);
        }
      }
      r
    case None => s
  }

  /** `s.split(sep)[1]`: the text between the first and the second occurrence
      of `sep`, or up to the end of `s`; `None` where Python raises
      `IndexError` because `sep` does not occur at all. */
  function SecondField(s: string, sep: string): (r: Option<string>)
    requires sep != []
    ensures r.None? <==> !Contains(s, sep)
    ensures r.Some? ==> !Contains(r.value, sep)
    ensures r.Some? ==>
      var i := Find(s, sep).value + |sep|;
      && i <= |s| && r.value <= s[i..]
      && (Find(s[i..], sep) == Some(|r.value|) || (!Contains(s[i..], sep) && i + |r.value| == |s|))
  {
    match Find(s, sep)
    case Some(i) => Some(Before(s[i + |sep|..], sep))
    case None => None
  }

  /** After a leading `sep`, the second field is everything up to the next
      `sep`, and all of the rest when the rest holds no `sep`. */
  lemma SecondFieldAfterPrefix(sep: string, e: string)
    requires sep != []
    ensures SecondField(sep + e, sep) == Some(Before(e, sep))
    ensures !Contains(e, sep) ==> SecondField(sep + e, sep) == Some(e)
  {
    assert sep <= sep + e;
    assert (sep + e)[|sep|..] == e;
  }

  /** Where the first `sep` follows `a`, the second field is the text after
      it up to the next `sep`. */
  lemma SecondFieldAfterFirst(a: string, sep: string, e: string)
    requires sep != []
    requires forall j: nat :: j < |a| ==> !OccursAt(a + sep + e, sep, j)
    ensures SecondField(a + sep + e, sep) == Some(Before(e, sep))
  {
    var s := a + sep + e;
    assert s[|a|..|a| + |sep|] == sep;
    assert OccursAt(s, sep, |a|);
    assert Find(s, sep) == Some(|a|);
    assert s[|a| + |sep|..] == e;
  }

  // ------------------------------------------------------------- trimming

  /** `s` without its longest prefix of characters satisfying `drop`
      (`str.lstrip`). */
  function TrimStart(s: string, drop: char -> bool): (r: string)
    ensures |r| <= |s| && r == s[|s| - |r|..]
    ensures r != [] ==> !drop(r[0])
    ensures forall j :: 0 <= j < |s| - |r| ==> drop(s[j])
    decreases |s|
  {
    if s != [] && drop(s[0]) then TrimStart(s[1..], drop) else s
  }

  /** `s` without its longest suffix of characters satisfying `drop`
      (`str.rstrip`). */
  function TrimEnd(s: string, drop: char -> bool): (r: string)
    ensures r <= s
    ensures r != [] ==> !drop(r[|r| - 1])
    ensures forall j :: |r| <= j < |s| ==> drop(s[j])
    decreases |s|
  {
    if s != [] && drop(s[|s| - 1]) then TrimEnd(s[..|s| - 1], drop) else s
  }

  lemma TrimStartNoop(s: string, drop: char -> bool)
    requires s == [] || !drop(s[0])
    ensures TrimStart(s, drop) == s
  {
  }

  lemma TrimEndNoop(s: string, drop: char -> bool)
    requires s == [] || !drop(s[|s| - 1])
    ensures TrimEnd(s, drop) == s
  {
  }

  /** `str.isspace` for one character. */
  predicate IsSpace(c: char) {
    ('\t' <= c <= '\r') || ('\U{1C}' <= c <= ' ') || c == '\U{85}' || c == '\U{A0}'
    || c == '\U{1680}' || ('\U{2000}' <= c <= '\U{200A}') || c == '\U{2028}'
    || c == '\U{2029}' || c == '\U{202F}' || c == '\U{205F}' || c == '\U{3000}'
  }

  predicate AllSpace(s: string) {
    forall j :: 0 <= j < |s| ==> IsSpace(s[j])
  }

  /** `str.strip()` with no argument: empty exactly for blank text, and
      otherwise starting and ending with a non-space. `StripPadded` says which
      part of the text it is. */
  function Strip(s: string): (r: string)
    ensures |r| <= |s|
    ensures r == [] <==> AllSpace(s)
    ensures r != [] ==> !IsSpace(r[0]) && !IsSpace(r[|r| - 1])
  {
    TrimEnd(TrimStart(s, IsSpace), IsSpace)
  }

  /** Blanks around a text that starts and ends with a non-space are what
      `strip()` removes. */
  lemma StripPadded(a: string, m: string, b: string)
    requires AllSpace(a) && AllSpace(b)
    requires m == [] || (!IsSpace(m[0]) && !IsSpace(m[|m| - 1]))
    ensures Strip(a + m + b) == m
  {
    var s := a + m + b;
    if m == [] {
      assert AllSpace(s) by {
        forall j | 0 <= j < |s| ensures IsSpace(s[j]) {
          if j < |a| { assert s[j] == a[j]; } else { assert s[j] == b[j - |a|]; }
        }
      }
    } else {
      TrimStartPadded(a, m + b);
      assert s == a + (m + b);
      TrimEndPadded(m, b);
    }
  }

  lemma TrimStartPadded(a: string, rest: string)
    requires AllSpace(a) && rest != [] && !IsSpace(rest[0])
    ensures TrimStart(a + rest, IsSpace) == rest
  {
    var s := a + rest;
    var t := TrimStart(s, IsSpace);
    assert t == s[|a|..] == rest;
  }

  lemma TrimEndPadded(m: string, b: string)
    requires AllSpace(b) && m != [] && !IsSpace(m[|m| - 1])
    ensures TrimEnd(m + b, IsSpace) == m
  {
    var s := m + b;
    var r := TrimEnd(s, IsSpace);
    assert r == s[..|m|] == m;
  }

  /** `str.lower` for one ASCII letter; every other character is kept. */
  function LowerChar(c: char): (r: char)
    ensures 'A' <= c <= 'Z' ==> 'a' <= r <= 'z' && r as int - 'a' as int == c as int - 'A' as int
    ensures !('A' <= c <= 'Z') ==> r == c
  {
    if 'A' <= c <= 'Z' then (c as int + 32) as char else c
  }

  /** `str.lower` on ASCII letters: each character lower-cased in place, so no
      upper-case ASCII letter is left. */
  function Lower(s: string): (r: string)
    ensures |r| == |s|
    ensures forall j :: 0 <= j < |s| ==> r[j] == LowerChar(s[j])
    ensures forall j :: 0 <= j < |r| ==> !('A' <= r[j] <= 'Z')
  {
    seq(|s|, j requires 0 <= j < |s| => LowerChar(s[j]))
  }

  // ------------------------------------------------------------- integers

  predicate IsDigit(c: char) {
    '0' <= c <= '9'
  }

  predicate AllDigits(s: string) {
    forall j :: 0 <= j < |s| ==> IsDigit(s[j])
  }

  function DigitChar(k: nat): char
    requires k < 10
  {
    ('0' as int + k) as char
  }

  /** The value of a string of decimal digits (leading zeros allowed). */
  function DigitsValue(d: string): nat
    requires AllDigits(d)
    decreases |d|
  {
    if d == [] then 0 else DigitsValue(d[..|d| - 1]) * 10 + (d[|d| - 1] as int - '0' as int)
  }

  /** `str(n)` for a natural number: its decimal digits, without leading zeros. */
  function DecimalText(n: nat): (r: string)
    ensures r != [] && AllDigits(r)
    ensures DigitsValue(r) == n
    ensures |r| == 1 || r[0] != '0'
    decreases n
  {
    if n < 10 then [DigitChar(n)]
    else
      var r := DecimalText(n / 10) + [DigitChar(n % 10)];
      assert r[..|r| - 1] == DecimalText(n / 10);
      assert n == (n / 10) * 10 + n % 10;
      r
  }

  /** `str(i)` for an integer: a minus sign exactly for a negative `i`, then
      the digits of its magnitude without a leading zero. */
  function IntText(i: int): (r: string)
    ensures r != [] && (r[0] == '-' <==> i < 0)
    ensures var d := if i < 0 then r[1..] else r;
      && d != [] && AllDigits(d) && (|d| == 1 || d[0] != '0')
      && DigitsValue(d) == if i < 0 then -i else i
  {
    if i < 0 then
      var r := "-" + DecimalText(-i);
      assert r[1..] == DecimalText(-i);
      r
    else DecimalText(i)
  }

  /** Decimal digits with single underscores between digits, the digit part
      that `int()` accepts. */
  predicate IsDigitGroups(t: string) {
    && t != []
    && IsDigit(t[0])
    && IsDigit(t[|t| - 1])
    && forall j :: 0 <= j < |t| ==> IsDigit(t[j]) || IsSeparator(t, j)
  }

  /** An underscore with a digit on each side. */
  predicate IsSeparator(t: string, j: int)
    requires 0 <= j < |t|
  {
    t[j] == '_' && 0 < j < |t| - 1 && IsDigit(t[j - 1]) && IsDigit(t[j + 1])
  }

  /** `t` with every underscore removed; `DropUnderscoresConcat` says that
      the other characters stay, in order. */
  function DropUnderscores(t: string): (r: string)
    ensures |r| <= |t| && forall j :: 0 <= j < |r| ==> r[j] != '_'
    ensures (forall j :: 0 <= j < |t| ==> IsDigit(t[j]) || t[j] == '_') ==> AllDigits(r)
    ensures AllDigits(t) ==> r == t
    decreases |t|
  {
    if t == [] then []
    else (if t[0] == '_' then [] else [t[0]]) + DropUnderscores(t[1..])
  }

  /** Underscores are dropped piece by piece: the pieces of a text are
      joined in order, and `DropUnderscoresChar` says what happens to each
      character. */
  lemma {:induction false} DropUnderscoresConcat(a: string, b: string)
    ensures DropUnderscores(a + b) == DropUnderscores(a) + DropUnderscores(b)
    decreases |a|
  {
    if a == [] {
      assert a + b == b;
    } else {
      var c := a[0];
      assert (a + b)[0] == c && (a + b)[1..] == a[1..] + b;
      DropUnderscoresConcat(a[1..], b);
      calc {
        DropUnderscores(a + b);
        (if c == '_' then [] else [c]) + DropUnderscores(a[1..] + b);
        (if c == '_' then [] else [c]) + (DropUnderscores(a[1..]) + DropUnderscores(b));
        ((if c == '_' then [] else [c]) + DropUnderscores(a[1..])) + DropUnderscores(b);
      }
    }
  }

  /** A lone underscore is dropped and any other character is kept. */
  lemma DropUnderscoresChar(c: char)
    ensures DropUnderscores([c]) == if c == '_' then [] else [c]
  {
    assert [c][1..] == [];
  }

  /** The most digits `int()` converts from text (`sys.get_int_max_str_digits()`
      at its default); a longer numeral raises `ValueError`. */
  const MaxStrDigits: nat := 4300

  /** `int(s)` for a string; `None` where Python raises `ValueError`. Only ASCII
      digits are modelled. */
  function ParseInt(s: string): Option<int> {
    ParseStripped(Strip(s))
  }

  /** `int` on text without surrounding whitespace. */
  function ParseStripped(t: string): Option<int> {
    var signed := t != [] && (t[0] == '+' || t[0] == '-');
    var u := if signed then t[1..] else t;
    if IsDigitGroups(u) && |DropUnderscores(u)| <= MaxStrDigits then
      DigitGroupsChars(u);
      var n: int := DigitsValue(DropUnderscores(u));
      Some(if signed && t[0] == '-' then -n else n)
    else None
  }

  lemma DigitGroupsChars(t: string)
    requires IsDigitGroups(t)
    ensures forall j :: 0 <= j < |t| ==> IsDigit(t[j]) || t[j] == '_'
  {
    forall j | 0 <= j < |t| ensures IsDigit(t[j]) || t[j] == '_' {
      assert IsDigit(t[j]) || IsSeparator(t, j);
    }
  }

  /** Text that starts and ends with a non-space is its own `strip()`. */
  lemma StripNoop(s: string)
    requires s != [] && !IsSpace(s[0]) && !IsSpace(s[|s| - 1])
    ensures Strip(s) == s
  {
    TrimStartNoop(s, IsSpace);
    TrimEndNoop(s, IsSpace);
  }

  lemma DigitNotSpace(c: char)
    requires IsDigit(c) || c == '-' || c == '+'
    ensures !IsSpace(c)
  {
  }

  /** The digit part of `int()` reads a decimal numeral back as its value. */
  lemma DecimalTextGroups(n: nat)
    ensures IsDigitGroups(DecimalText(n))
    ensures DigitsValue(DropUnderscores(DecimalText(n))) == n
  {
  }

  /** `int()` of text that is already stripped and whose digit part, after an
      optional sign, is well formed. */
  lemma ParseIntGroups(s: string, signed: bool)
    requires signed <==> s != [] && (s[0] == '+' || s[0] == '-')
    requires IsDigitGroups(if signed then s[1..] else s)
    requires |DropUnderscores(if signed then s[1..] else s)| <= MaxStrDigits
    ensures ParseStripped(s) == Some(
      var n: int := DigitsValue(DropUnderscores(if signed then s[1..] else s));
      if signed && s[0] == '-' then -n else n)
  {
  }

  /** `int()` reads a decimal numeral back as its value. */
  lemma ParseDecimalText(n: nat)
    requires |DecimalText(n)| <= MaxStrDigits
    ensures ParseStripped(DecimalText(n)) == Some(n)
  {
    var d := DecimalText(n);
    DecimalTextGroups(n);
    ParseIntGroups(d, false);
  }

  /** `int()` reads a negated decimal numeral back as its value. */
  lemma ParseNegatedText(n: nat)
    requires |DecimalText(n)| <= MaxStrDigits
    ensures ParseStripped("-" + DecimalText(n)) == Some(-(n as int))
  {
    var d := DecimalText(n);
    var s := "-" + d;
    DecimalTextGroups(n);
    assert s[1..] == d;
    ParseIntGroups(s, true);
  }

  /** The integers whose decimal numeral `int()` accepts: at most
      `MaxStrDigits` digits. */
  predicate WithinDigitLimit(i: int) {
    |DecimalText(if i < 0 then -i else i)| <= MaxStrDigits
  }

  /** `int(str(i)) == i`: the integer parser reads back what `str` writes,
      for every integer within the digit limit. */
  lemma ParseIntText(i: int)
    requires WithinDigitLimit(i)
    ensures ParseInt(IntText(i)) == Some(i)
  {
    IntTextStripped(i);
    if i < 0 {
      ParseNegatedText(-i);
    } else {
      ParseDecimalText(i);
    }
  }

  /** `str(i)` has no surrounding whitespace. */
  lemma IntTextStripped(i: int)
    ensures Strip(IntText(i)) == IntText(i)
  {
    var n: nat := if i < 0 then -i else i;
    var d := DecimalText(n);
    var s := IntText(i);
    DigitNotSpace(d[|d| - 1]);
    if i < 0 {
      assert s == "-" + d && s[|s| - 1] == d[|d| - 1];
      DigitNotSpace(s[0]);
    } else {
      DigitNotSpace(d[0]);
    }
    StripNoop(s);
  }

  /** A numeral of ASCII digits is an integer for `int()` exactly when it has
      at most `MaxStrDigits` digits. */
  lemma ParseIntDigitLimit(t: string)
    requires t != [] && AllDigits(t)
    ensures ParseInt(t).Some? <==> |t| <= MaxStrDigits
  {
    assert IsDigitGroups(t);
    assert "" + "" + t + "" == t;
    ParseIntNumeral("", "", t, "");
  }

  /** What `int()` makes of a numeral: blanks around it are ignored, a sign
      may lead, and single underscores may separate digits; leading zeros are
      allowed. It is the value of the digits, negated after a minus sign, when
      there are at most `MaxStrDigits` of them, and `ValueError` otherwise. */
  lemma ParseIntNumeral(a: string, sign: string, t: string, b: string)
    requires AllSpace(a) && AllSpace(b)
    requires sign == "" || sign == "+" || sign == "-"
    requires IsDigitGroups(t)
    ensures var d := DropUnderscores(t);
      ParseInt(a + sign + t + b) ==
        if |d| <= MaxStrDigits then
          var n: int := DigitsValue(d);
          Some(if sign == "-" then -n else n)
        else None
  {
    NumeralStripped(a, sign, t, b);
    ParseSignedNumeral(sign, t);
  }

  lemma NumeralStripped(a: string, sign: string, t: string, b: string)
    requires AllSpace(a) && AllSpace(b)
    requires sign == "" || sign == "+" || sign == "-"
    requires IsDigitGroups(t)
    ensures Strip(a + sign + t + b) == sign + t
  {
    var m := sign + t;
    assert m[|m| - 1] == t[|t| - 1];
    DigitNotSpace(m[|m| - 1]);
    assert m[0] == if sign == "" then t[0] else sign[0];
    DigitNotSpace(m[0]);
    assert a + sign + t + b == a + m + b;
    StripPadded(a, m, b);
  }

  lemma ParseSignedNumeral(sign: string, t: string)
    requires sign == "" || sign == "+" || sign == "-"
    requires IsDigitGroups(t)
    ensures var d := DropUnderscores(t);
      ParseStripped(sign + t) ==
        if |d| <= MaxStrDigits then
          var n: int := DigitsValue(d);
          Some(if sign == "-" then -n else n)
        else None
  {
    var m := sign + t;
    var signed := sign != "";
    if signed {
      assert m[0] == sign[0] && m[1..] == t;
    } else {
      assert m == t;
    }
    if |DropUnderscores(t)| <= MaxStrDigits {
      ParseIntGroups(m, signed);
    } else {
      ParseStrippedTooLong(m, signed);
    }
  }

  /** `int()` accepts nothing else: text it reads as an integer strips to an
      optional sign followed by digit groups, within the digit limit. */
  lemma ParseIntOnlyNumerals(s: string)
    requires ParseInt(s).Some?
    ensures var u := Strip(s);
      && u != []
      && var sign := if u[0] == '+' || u[0] == '-' then u[..1] else "";
      && u == sign + u[|sign|..]
      && IsDigitGroups(u[|sign|..])
      && |DropUnderscores(u[|sign|..])| <= MaxStrDigits
  {
  }

  /** The integers beyond the digit limit do not survive `int(str(i))`:
      `int()` rejects their numeral. */
  lemma ParseIntTextTooLong(i: int)
    requires !WithinDigitLimit(i)
    ensures ParseInt(IntText(i)) == None
  {
    var n: nat := if i < 0 then -i else i;
    var d := DecimalText(n);
    var s := IntText(i);
    IntTextStripped(i);
    assert DropUnderscores(d) == d;
    if i < 0 {
      assert s == "-" + d && s[1..] == d;
      ParseStrippedTooLong(s, true);
    } else {
      ParseStrippedTooLong(s, false);
    }
  }

  /** Stripped text whose digit part, after an optional sign, has more than
      `MaxStrDigits` digits is rejected. */
  lemma ParseStrippedTooLong(s: string, signed: bool)
    requires signed <==> s != [] && (s[0] == '+' || s[0] == '-')
    requires |DropUnderscores(if signed then s[1..] else s)| > MaxStrDigits
    ensures ParseStripped(s) == None
  {
  }

  // ----------------------------------------------------------- hexadecimal

  predicate IsHexDigit(c: char) {
    IsDigit(c) || 'A' <= c <= 'F'
  }

  predicate AllHexDigits(s: string) {
    forall j :: 0 <= j < |s| ==> IsHexDigit(s[j])
  }

  function HexDigitValue(c: char): nat
    requires IsHexDigit(c)
  {
    if IsDigit(c) then c as int - '0' as int else c as int - 'A' as int + 10
  }

  function HexDigit(k: nat): (c: char)
    requires k < 16
    ensures IsHexDigit(c) && HexDigitValue(c) == k
  {
    if k < 10 then DigitChar(k) else ('A' as int + k - 10) as char
  }

  /** The value of a string of upper-case hexadecimal digits. */
  function HexValue(h: string): nat
    requires AllHexDigits(h)
    decreases |h|
  {
    if h == [] then 0 else HexValue(h[..|h| - 1]) * 16 + HexDigitValue(h[|h| - 1])
  }

  /** `format(n, "X")`: upper-case hexadecimal digits without leading zeros. */
  function HexText(n: nat): (r: string)
    ensures r != [] && AllHexDigits(r)
    ensures HexValue(r) == n
    ensures |r| == 1 || r[0] != '0'
    decreases n
  {
    if n < 16 then [HexDigit(n)]
    else
      var r := HexText(n / 16) + [HexDigit(n % 16)];
      assert r[..|r| - 1] == HexText(n / 16);
      r
  }

  function Zeros(k: nat): (z: string)
    ensures |z| == k && forall j :: 0 <= j < k ==> z[j] == '0'
  {
    seq(k, _ => '0')
  }

  lemma {:induction false} LeadingZerosValue(z: string, h: string)
    requires forall j :: 0 <= j < |z| ==> z[j] == '0'
    requires AllHexDigits(h)
    ensures AllHexDigits(z + h) && HexValue(z + h) == HexValue(h)
    decreases |h|
  {
    assert forall j :: 0 <= j < |z + h| ==> IsHexDigit((z + h)[j]) by {
      forall j | 0 <= j < |z + h| ensures IsHexDigit((z + h)[j]) {
        if j < |z| { assert (z + h)[j] == z[j]; } else { assert (z + h)[j] == h[j - |z|]; }
      }
    }
    if h == [] {
      assert z + h == z;
      ZerosValue(z);
    } else {
      assert (z + h)[..|z + h| - 1] == z + h[..|h| - 1];
      LeadingZerosValue(z, h[..|h| - 1]);
    }
  }

  lemma {:induction false} ZerosValue(z: string)
    requires forall j :: 0 <= j < |z| ==> z[j] == '0'
    ensures AllHexDigits(z) && HexValue(z) == 0
    decreases |z|
  {
    if z != [] {
      ZerosValue(z[..|z| - 1]);
    }
  }

  /** `f"{n:04X}"`: upper-case hexadecimal, padded with zeros to at least four
      digits; reading the digits back gives `n`, and no zero is added beyond
      the four-digit minimum. */
  function Hex4(n: nat): (r: string)
    ensures |r| >= 4 && AllHexDigits(r)
    ensures HexValue(r) == n
    ensures |r| == 4 || r[0] != '0'
  {
    var h := HexText(n);
    if |h| < 4 then
      LeadingZerosValue(Zeros(4 - |h|), h);
      Zeros(4 - |h|) + h
    else h
  }
}
