/** The fragments of ECMAScript string semantics the adapter relies on:
    `indexOf`, `replace` with a string pattern (including its `$` replacement
    patterns), `split` on a one-character separator, `parseInt(s, 10)`, the
    decimal rendering of an integer number, and lower-casing. */
module JsStrings {
  import opened Wrappers

  // ---------------------------------------------------------------------------
  // Searching
  // ---------------------------------------------------------------------------

  /** `pat` occurs in `s` at offset `i`. */
  predicate OccursAt(s: string, pat: string, i: int) {
    0 <= i && i + |pat| <= |s| && s[i..i + |pat|] == pat
  }

  predicate StartsWith(s: string, prefix: string) {
    |prefix| <= |s| && s[..|prefix|] == prefix
  }

  /** `s.indexOf(pat, from)`: the first offset at or after `from` where `pat`
      occurs, or -1 when there is none. */
  function IndexOfFrom(s: string, pat: string, from: nat): (r: int)
    ensures r == -1 || from <= r <= |s| - |pat|
    ensures r >= 0 ==> OccursAt(s, pat, r)
    ensures forall j :: from <= j && (r < 0 || j < r) ==> !OccursAt(s, pat, j)
    decreases |s| - from
  {
    if from + |pat| > |s| then -1
    else if s[from..from + |pat|] == pat then from
    else IndexOfFrom(s, pat, from + 1)
  }

  /** `s.indexOf(pat)`. */
  function IndexOf(s: string, pat: string): (r: int)
    ensures r >= -1
    ensures r == -1 <==> forall j :: !OccursAt(s, pat, j)
    ensures r >= 0 ==> OccursAt(s, pat, r) && forall j :: j < r ==> !OccursAt(s, pat, j)
  {
    IndexOfFrom(s, pat, 0)
  }

  /** `s.indexOf(pat) !== -1`. */
  predicate Contains(s: string, pat: string) {
    IndexOf(s, pat) != -1
  }

  /** The first occurrence is at offset 0 exactly when `s` starts with `pat`. */
  lemma IndexOfZeroIffStartsWith(s: string, pat: string)
    ensures IndexOf(s, pat) == 0 <==> StartsWith(s, pat)
  {
    if StartsWith(s, pat) {
      assert OccursAt(s, pat, 0);
    }
  }

  // ---------------------------------------------------------------------------
  // Replacing
  // ---------------------------------------------------------------------------

  /** The expansion of a replacement template for a match found by a string
      pattern (so there are no capture groups): `$$` stands for `$`, `$&` for
      the matched text, `` $` `` for the text before the match and `$'` for the
      text after it; every other `$` is literal. */
  function ExpandReplacement(template: string, matched: string, before: string, after: string): (r: string)
    ensures '$' !in template ==> r == template
    decreases |template|
  {
    if |template| == 0 then ""
    else if template[0] == '$' && |template| >= 2 && template[1] in "$&`'" then
      var piece :=
        if template[1] == '$' then "$"
        else if template[1] == '&' then matched
        else if template[1] == '`' then before
        else after;
      piece + ExpandReplacement(template[2..], matched, before, after)
    else
      [template[0]] + ExpandReplacement(template[1..], matched, before, after)
  }

  /** `s.replace(pat, replacement)` with a string `pat`: only the first
      occurrence is replaced. */
  function ReplaceFirst(s: string, pat: string, replacement: string): (r: string)
    ensures IndexOf(s, pat) == -1 ==> r == s
    ensures IndexOf(s, pat) >= 0 && '$' !in replacement ==>
              r == s[..IndexOf(s, pat)] + replacement + s[IndexOf(s, pat) + |pat|..]
  {
    var i := IndexOf(s, pat);
    if i < 0 then s
    else s[..i] + ExpandReplacement(replacement, pat, s[..i], s[i + |pat|..]) + s[i + |pat|..]
  }

  // ---------------------------------------------------------------------------
  // Splitting
  // ---------------------------------------------------------------------------

  /** `parts.join(sep)`. */
  function Join(parts: seq<string>, sep: char): string {
    if |parts| == 0 then ""
    else if |parts| == 1 then parts[0]
    else parts[0] + [sep] + Join(parts[1..], sep)
  }

  /** `s.split(sep)` for a one-character separator: the maximal separator-free
      pieces, one more than there are separators, whose join is `s` again. */
  function Split(s: string, sep: char): (parts: seq<string>)
    ensures |parts| >= 1
    ensures forall i :: 0 <= i < |parts| ==> sep !in parts[i]
    ensures Join(parts, sep) == s
    decreases |s|
  {
    if |s| == 0 then [""]
    else if s[0] == sep then [""] + Split(s[1..], sep)
    else
      var rest := Split(s[1..], sep);
      assert s == [s[0]] + s[1..];
      [[s[0]] + rest[0]] + rest[1..]
  }

  // ---------------------------------------------------------------------------
  // Numbers
  // ---------------------------------------------------------------------------

  predicate IsDigit(c: char) {
    '0' <= c <= '9'
  }

  predicate AllDigits(s: string) {
    forall i :: 0 <= i < |s| ==> IsDigit(s[i])
  }

  function DigitChar(d: nat): (c: char)
    requires d < 10
    ensures IsDigit(c) && (c as int) - ('0' as int) == d
  {
    ('0' as int + d) as char
  }

  /** The value of a decimal digit string, most significant digit first. */
  function DigitsValue(s: string): nat
    requires AllDigits(s)
  {
    if |s| == 0 then 0
    else DigitsValue(s[..|s| - 1]) * 10 + ((s[|s| - 1] as int) - ('0' as int))
  }

  /** The decimal rendering of a natural number, without leading zeros. */
  function NatToString(n: nat): (r: string)
    ensures |r| >= 1 && AllDigits(r)
    ensures r[0] == '0' ==> n == 0
  {
    if n < 10 then [DigitChar(n)]
    else NatToString(n / 10) + [DigitChar(n % 10)]
  }

  /** `String(n)` for an integer-valued number. */
  function IntToString(n: int): (r: string)
    ensures |r| >= 1
    ensures n < 0 <==> r[0] == '-'
  {
    if n < 0 then "-" + NatToString(-n) else NatToString(n)
  }

  /** The characters `parseInt` skips before the number: ECMAScript's
      WhiteSpace (TAB, VT, FF, ZWNBSP and every space separator) and
      LineTerminator (LF, CR, LS, PS). */
  predicate IsJsWhitespace(c: char) {
    var n := c as int;
    n == 0x09 || n == 0x0A || n == 0x0B || n == 0x0C || n == 0x0D || n == 0x20
    || n == 0xA0 || n == 0x1680 || (0x2000 <= n <= 0x200A) || n == 0x2028 || n == 0x2029
    || n == 0x202F || n == 0x205F || n == 0x3000 || n == 0xFEFF
  }

  /** `s` with its leading whitespace removed. */
  function TrimStart(s: string): (r: string)
    ensures |r| <= |s| && r == s[|s| - |r|..]
    ensures |r| == 0 || !IsJsWhitespace(r[0])
  {
    if |s| > 0 && IsJsWhitespace(s[0]) then TrimStart(s[1..]) else s
  }

  /** The length of the longest all-digit prefix of `s`. */
  function DigitRunLength(s: string): (n: nat)
    ensures n <= |s| && AllDigits(s[..n])
    ensures n == |s| || !IsDigit(s[n])
  {
    if |s| > 0 && IsDigit(s[0]) then
      var k := DigitRunLength(s[1..]);
      assert s[..k + 1] == [s[0]] + s[1..][..k];
      k + 1
    else 0
  }

  /** The value of the longest all-digit prefix of `u`, or `None` when `u`
      does not start with a digit. */
  function ReadDigits(u: string): (r: Option<int>)
    ensures r.Some? <==> |u| > 0 && IsDigit(u[0])
    ensures r.Some? ==> r.value >= 0
  {
    var n := DigitRunLength(u);
    if n == 0 then None else Some(DigitsValue(u[..n]) as int)
  }

  function Negate(v: Option<int>): Option<int> {
    match v
    case None => None
    case Some(n) => Some(-n)
  }

  /** `parseInt` after the whitespace: one sign is accepted, and the longest
      run of decimal digits after it is read; anything after that run is
      ignored. */
  function ParseSigned(t: string): (r: Option<int>)
    ensures r.Some? ==> |t| >= 1
  {
    if |t| > 0 && t[0] == '-' then Negate(ReadDigits(t[1..]))
    else if |t| > 0 && t[0] == '+' then ReadDigits(t[1..])
    else ReadDigits(t)
  }

  /** `parseInt(s, 10)`, with `None` for `NaN`: leading whitespace is skipped
      first. */
  function ParseInt(s: string): (r: Option<int>)
    ensures r.Some? ==> |s| >= 1
  {
    ParseSigned(TrimStart(s))
  }

  /** One character lower-cased: the ASCII capitals map to their small
      letters, every other character to itself. */
  function LowerChar(c: char): char {
    if 'A' <= c <= 'Z' then (c as int + 32) as char else c
  }

  /** `s.toLocaleLowerCase()` restricted to the ASCII letters. */
  function ToLower(s: string): (r: string)
    ensures |r| == |s|
    ensures forall i :: 0 <= i < |s| ==> r[i] == LowerChar(s[i])
  {
    if |s| == 0 then ""
    else [LowerChar(s[0])] + ToLower(s[1..])
  }

  // ---------------------------------------------------------------------------
  // Round trips
  // ---------------------------------------------------------------------------

  /** A `$` not followed by `$`, `&`, `` ` `` or `'` is copied literally and
      the expansion goes on after it. */
  lemma ExpandLiteralDollar(t: string, matched: string, before: string, after: string)
    requires |t| == 0 || t[0] !in "$&`'"
    ensures ExpandReplacement(['$'] + t, matched, before, after)
              == ['$'] + ExpandReplacement(t, matched, before, after)
  {
    assert (['$'] + t)[1..] == t;
  }

  /** A template whose only `$` is a leading one not followed by a pattern
      character expands to itself. */
  lemma {:induction false} ExpandLeadingLiteralDollar(template: string, matched: string, before: string, after: string)
    requires |template| >= 1 && template[0] == '$' && '$' !in template[1..]
    requires |template| == 1 || template[1] !in "$&`'"
    ensures ExpandReplacement(template, matched, before, after) == template
  {
    assert template == [template[0]] + template[1..];
  }

  /** A separator-free string splits into itself alone. */
  lemma {:induction false} SplitWithoutSeparator(x: string, sep: char)
    requires sep !in x
    ensures Split(x, sep) == [x]
    decreases |x|
  {
    if |x| > 0 {
      SplitWithoutSeparator(x[1..], sep);
      assert x == [x[0]] + x[1..];
    }
  }

  /** Splitting peels off a separator-free first piece. */
  lemma {:induction false} SplitFirstPiece(x: string, y: string, sep: char)
    requires sep !in x
    ensures Split(x + [sep] + y, sep) == [x] + Split(y, sep)
    decreases |x|
  {
    var s := x + [sep] + y;
    if |x| == 0 {
      assert s[1..] == y;
    } else {
      assert s[1..] == x[1..] + [sep] + y;
      SplitFirstPiece(x[1..], y, sep);
      assert x == [x[0]] + x[1..];
    }
  }

  /** `split` inverts `join` on separator-free pieces (and `join` inverts
      `split` on every string, by the contract of `Split`). */
  lemma {:induction false} SplitJoin(parts: seq<string>, sep: char)
    requires |parts| >= 1
    requires forall i :: 0 <= i < |parts| ==> sep !in parts[i]
    ensures Split(Join(parts, sep), sep) == parts
    decreases |parts|
  {
    if |parts| == 1 {
      SplitWithoutSeparator(parts[0], sep);
    } else {
      SplitJoin(parts[1..], sep);
      SplitFirstPiece(parts[0], Join(parts[1..], sep), sep);
      assert parts == [parts[0]] + parts[1..];
    }
  }

  /** Reading back the decimal rendering of `n` gives `n`. */
  lemma {:induction false} DigitsValueOfNatToString(n: nat)
    ensures DigitsValue(NatToString(n)) == n
  {
    var s := NatToString(n);
    if n >= 10 {
      assert s[..|s| - 1] == NatToString(n / 10);
      DigitsValueOfNatToString(n / 10);
    }
  }

  /** The digit run of a digit string followed by a non-digit is that string. */
  lemma {:induction false} DigitRunOfDigitsThen(d: string, rest: string)
    requires AllDigits(d)
    requires |rest| == 0 || !IsDigit(rest[0])
    ensures DigitRunLength(d + rest) == |d|
    decreases |d|
  {
    if |d| > 0 {
      assert (d + rest)[1..] == d[1..] + rest;
      DigitRunOfDigitsThen(d[1..], rest);
    }
  }

  /** Text that starts with a digit or a minus sign is parsed without trimming. */
  lemma ParseIntUntrimmed(s: string)
    requires |s| > 0 && (IsDigit(s[0]) || s[0] == '-')
    ensures ParseInt(s) == ParseSigned(s)
  {
    assert !IsJsWhitespace(s[0]);
  }

  /** Reading a digit string followed by a non-digit yields the string's value. */
  lemma ReadDigitsThen(d: string, rest: string)
    requires |d| >= 1 && AllDigits(d)
    requires |rest| == 0 || !IsDigit(rest[0])
    ensures ReadDigits(d + rest) == Some(DigitsValue(d) as int)
  {
    DigitRunOfDigitsThen(d, rest);
    assert (d + rest)[..|d|] == d;
  }

  /** `parseInt` reads an unsigned digit string followed by a non-digit. */
  lemma ParseIntOfDigitsThen(d: string, rest: string)
    requires |d| >= 1 && AllDigits(d)
    requires |rest| == 0 || !IsDigit(rest[0])
    ensures ParseInt(d + rest) == Some(DigitsValue(d) as int)
  {
    var s := d + rest;
    assert s[0] == d[0] && IsDigit(s[0]);
    ParseIntUntrimmed(s);
    assert ParseSigned(s) == ReadDigits(s);
    ReadDigitsThen(d, rest);
  }

  /** `parseInt` of a minus sign and `u` is the negation of what `u` reads as. */
  lemma ParseIntOfMinus(u: string)
    ensures ParseInt(['-'] + u) == Negate(ReadDigits(u))
  {
    var s := ['-'] + u;
    ParseIntUntrimmed(s);
    assert s[1..] == u;
  }

  /** The digit run at the start of a rendering followed by a non-digit is
      the rendered number. */
  lemma ReadDigitsOfNatToString(m: nat, rest: string)
    requires |rest| == 0 || !IsDigit(rest[0])
    ensures ReadDigits(NatToString(m) + rest) == Some(m as int)
  {
    DigitsValueOfNatToString(m);
    ReadDigitsThen(NatToString(m), rest);
  }

  /** `parseInt` reads back the rendering of a non-negative number. */
  lemma ParseIntOfNatToString(n: nat, rest: string)
    requires |rest| == 0 || !IsDigit(rest[0])
    ensures ParseInt(NatToString(n) + rest) == Some(n)
  {
    DigitsValueOfNatToString(n);
    ParseIntOfDigitsThen(NatToString(n), rest);
  }

  /** `parseInt` reads back a minus sign and the rendering of a number. */
  lemma ParseIntOfMinusNatToString(m: nat, rest: string)
    requires |rest| == 0 || !IsDigit(rest[0])
    ensures ParseInt(['-'] + (NatToString(m) + rest)) == Some(-(m as int))
  {
    ReadDigitsOfNatToString(m, rest);
    ParseIntOfMinus(NatToString(m) + rest);
  }

  /** The rendering of a negative number is a minus sign and the rendering of
      its magnitude. */
  lemma IntToStringNegative(n: int, rest: string)
    requires n < 0
    ensures IntToString(n) + rest == ['-'] + (NatToString(-n) + rest)
  {
    var x := NatToString(-n);
    assert IntToString(n) == ['-'] + x;
    assert (['-'] + x) + rest == ['-'] + (x + rest);
  }

  lemma ParseIntOfNegativeToString(n: int, rest: string)
    requires n < 0
    requires |rest| == 0 || !IsDigit(rest[0])
    ensures ParseInt(IntToString(n) + rest) == Some(n)
  {
    var m: nat := -n;
    var a := IntToString(n) + rest;
    var b := ['-'] + (NatToString(m) + rest);
    IntToStringNegative(n, rest);
    assert a == b;
    ParseIntOfMinusNatToString(m, rest);
    assert ParseInt(b) == Some(n);
  }

  lemma ParseIntOfNonNegativeToString(n: int, rest: string)
    requires n >= 0
    requires |rest| == 0 || !IsDigit(rest[0])
    ensures ParseInt(IntToString(n) + rest) == Some(n)
  {
    assert IntToString(n) == NatToString(n);
    ParseIntOfNatToString(n, rest);
  }

  /** `parseInt` reads back `String(n)`, whatever non-digit text follows it. */
  lemma ParseIntOfIntToString(n: int, rest: string)
    requires |rest| == 0 || !IsDigit(rest[0])
    ensures ParseInt(IntToString(n) + rest) == Some(n)
  {
    if n < 0 {
      ParseIntOfNegativeToString(n, rest);
    } else {
      ParseIntOfNonNegativeToString(n, rest);
    }
  }

  /** A number rendered between a prefix and a non-digit is read back by
      `parseInt` from the end of the prefix on. */
  lemma ParseIntAfterPrefix(prefix: string, n: int, rest: string)
    requires |rest| == 0 || !IsDigit(rest[0])
    ensures ParseInt((prefix + IntToString(n) + rest)[|prefix|..]) == Some(n)
  {
    var u := prefix + IntToString(n) + rest;
    assert u[|prefix|..] == IntToString(n) + rest;
    ParseIntOfIntToString(n, rest);
  }
}
