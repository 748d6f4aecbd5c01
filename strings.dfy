/**
 * Character and string helpers with the meaning of the Rust standard library
 * operations the repository calls: `char::is_whitespace`, `str::trim`,
 * `str::lines`, `str::split_whitespace`, `u32::to_string` and `str::parse::<u32>`.
 * Strings are sequences of Unicode scalar values (`seq<char>`).
 */
module Strings {
  import opened Wrappers

  /** One byte of a `Vec<u8>` or `&[u8]`. */
  type byte = b: int | 0 <= b < 256

  const U32_MAX: nat := 0xFFFF_FFFF
  const U16_MAX: nat := 0xFFFF

  /** The characters with the Unicode White_Space property. */
  const WhitespaceChars: set<char> := {
    '\t', '\n', '\U{B}', '\U{C}', '\r', ' ', '\U{85}', '\U{A0}', '\U{1680}',
    '\U{2000}', '\U{2001}', '\U{2002}', '\U{2003}', '\U{2004}', '\U{2005}', '\U{2006}',
    '\U{2007}', '\U{2008}', '\U{2009}', '\U{200A}', '\U{2028}', '\U{2029}', '\U{202F}',
    '\U{205F}', '\U{3000}'}

  /** Rust's `char::is_whitespace`: the Unicode White_Space property. */
  predicate IsWhitespace(c: char)
  {
    c in WhitespaceChars
  }

  predicate IsAsciiDigit(c: char) { '0' <= c <= '9' }
  predicate IsAsciiUpper(c: char) { 'A' <= c <= 'Z' }
  predicate IsAsciiLower(c: char) { 'a' <= c <= 'z' }
  predicate IsAsciiAlphanumeric(c: char) { IsAsciiDigit(c) || IsAsciiUpper(c) || IsAsciiLower(c) }

  /** Rust's `char::to_ascii_lowercase`. */
  function AsciiLower(c: char): (r: char)
    ensures IsAsciiUpper(c) ==> IsAsciiLower(r)
    ensures !IsAsciiUpper(c) ==> r == c
  {
    if IsAsciiUpper(c) then (c as int + 32) as char else c
  }

  /** Rust's `str::to_ascii_lowercase`. */
  function AsciiLowerStr(s: string): (r: string)
    ensures |r| == |s|
    ensures forall i :: 0 <= i < |s| ==> r[i] == AsciiLower(s[i])
  {
    seq(|s|, i requires 0 <= i < |s| => AsciiLower(s[i]))
  }

  /** Rust's `eq_ignore_ascii_case`. */
  predicate EqIgnoreAsciiCase(a: string, b: string)
  {
    AsciiLowerStr(a) == AsciiLowerStr(b)
  }

  predicate StartsWith(s: string, prefix: string)
  {
    |prefix| <= |s| && s[..|prefix|] == prefix
  }

  predicate EndsWith(s: string, suffix: string)
  {
    |suffix| <= |s| && s[|s| - |suffix|..] == suffix
  }

  predicate NoWhitespace(s: string)
  {
    forall i :: 0 <= i < |s| ==> !IsWhitespace(s[i])
  }

  /** Rust's `str::trim_start`: drops the leading whitespace. */
  function TrimStart(s: string): (r: string)
    ensures |r| <= |s|
    ensures r == [] || !IsWhitespace(r[0])
  {
    if s != [] && IsWhitespace(s[0]) then TrimStart(s[1..]) else s
  }

  /** `trim_start` keeps a suffix and drops only whitespace. */
  lemma {:induction false} TrimStartSuffix(s: string)
    ensures var r := TrimStart(s);
      r == s[|s| - |r|..] && forall i :: 0 <= i < |s| - |r| ==> IsWhitespace(s[i])
  {
    if s != [] && IsWhitespace(s[0]) {
      TrimStartSuffix(s[1..]);
    }
  }

  /** Rust's `str::trim_end`: drops the trailing whitespace. */
  function TrimEnd(s: string): (r: string)
    ensures |r| <= |s|
    ensures r == [] || !IsWhitespace(r[|r| - 1])
  {
    if s != [] && IsWhitespace(s[|s| - 1]) then TrimEnd(s[..|s| - 1]) else s
  }

  /** `trim_end` keeps a prefix and drops only whitespace. */
  lemma {:induction false} TrimEndPrefix(s: string)
    ensures var r := TrimEnd(s);
      r == s[..|r|] && forall i :: |r| <= i < |s| ==> IsWhitespace(s[i])
  {
    if s != [] && IsWhitespace(s[|s| - 1]) {
      TrimEndPrefix(s[..|s| - 1]);
    }
  }

  /** Rust's `str::trim_start_matches` with a character: drops the leading `c`s. */
  function TrimStartMatches(s: string, c: char): (r: string)
    ensures |r| <= |s|
    ensures r == [] || r[0] != c
  {
    if s != [] && s[0] == c then TrimStartMatches(s[1..], c) else s
  }

  /** `trim_start_matches` keeps a suffix and drops only `c`s. */
  lemma {:induction false} TrimStartMatchesSuffix(s: string, c: char)
    ensures var r := TrimStartMatches(s, c);
      r == s[|s| - |r|..] && forall i :: 0 <= i < |s| - |r| ==> s[i] == c
  {
    if s != [] && s[0] == c {
      TrimStartMatchesSuffix(s[1..], c);
    }
  }

  /** Rust's `str::trim_end_matches` with a character: drops the trailing `c`s. */
  function TrimEndMatches(s: string, c: char): (r: string)
    ensures |r| <= |s|
    ensures r == [] || r[|r| - 1] != c
  {
    if s != [] && s[|s| - 1] == c then TrimEndMatches(s[..|s| - 1], c) else s
  }

  /** `trim_end_matches` keeps a prefix and drops only `c`s. */
  lemma {:induction false} TrimEndMatchesPrefix(s: string, c: char)
    ensures var r := TrimEndMatches(s, c);
      r == s[..|r|] && forall i :: |r| <= i < |s| ==> s[i] == c
  {
    if s != [] && s[|s| - 1] == c {
      var t := s[..|s| - 1];
      TrimEndMatchesPrefix(t, c);
      assert s[..|TrimEndMatches(t, c)|] == t[..|TrimEndMatches(t, c)|];
    }
  }

  /** Rust's `str::trim`. */
  function Trim(s: string): string
  {
    TrimEnd(TrimStart(s))
  }

  /** Trimming never lengthens, and neither end of a trimmed string is whitespace. */
  lemma TrimEdges(s: string)
    ensures |Trim(s)| <= |s| && Trimmed(Trim(s))
  {
    TrimEndPrefix(TrimStart(s));
  }

  lemma {:induction false} TrimStartOfNonWhite(s: string)
    requires s == [] || !IsWhitespace(s[0])
    ensures TrimStart(s) == s
  {
  }

  lemma {:induction false} TrimEndOfNonWhite(s: string)
    requires s == [] || !IsWhitespace(s[|s| - 1])
    ensures TrimEnd(s) == s
  {
  }

  /** No whitespace at either end. */
  predicate Trimmed(s: string)
  {
    s == [] || (!IsWhitespace(s[0]) && !IsWhitespace(s[|s| - 1]))
  }

  lemma TrimOfTrimmed(s: string)
    requires Trimmed(s)
    ensures Trim(s) == s
  {
    TrimStartOfNonWhite(s);
    TrimEndOfNonWhite(s);
  }

  /** Trimming and ASCII lowercasing bring in no character that is not an ASCII letter. */
  lemma TrimLowerKeepsOut(s: string, c: char)
    requires c !in s && !IsAsciiLower(c)
    ensures c !in Trim(s) && c !in AsciiLowerStr(Trim(s))
  {
    TrimStartKeepsOut(s, c);
    TrimEndKeepsOut(TrimStart(s), c);
    LowerKeepsOut(Trim(s), c);
  }

  lemma {:induction false} TrimStartKeepsOut(s: string, c: char)
    requires c !in s
    ensures c !in TrimStart(s)
  {
    if s != [] && IsWhitespace(s[0]) {
      assert s == [s[0]] + s[1..];
      TrimStartKeepsOut(s[1..], c);
    }
  }

  lemma {:induction false} TrimEndKeepsOut(s: string, c: char)
    requires c !in s
    ensures c !in TrimEnd(s)
  {
    if s != [] && IsWhitespace(s[|s| - 1]) {
      assert s == s[..|s| - 1] + [s[|s| - 1]];
      TrimEndKeepsOut(s[..|s| - 1], c);
    }
  }

  lemma LowerKeepsOut(s: string, c: char)
    requires c !in s && !IsAsciiLower(c)
    ensures c !in AsciiLowerStr(s)
  {
    var r := AsciiLowerStr(s);
    forall i | 0 <= i < |r| ensures r[i] != c {
      assert s[i] in s;
    }
  }

  /** Trimming is idempotent. */
  lemma TrimIdempotent(s: string)
    ensures Trim(Trim(s)) == Trim(s)
  {
    TrimEdges(s);
    TrimOfTrimmed(Trim(s));
  }

  /** True when the trimmed line is empty: Rust's `line.trim().is_empty()`. */
  predicate IsBlank(s: string)
  {
    Trim(s) == []
  }

  /** The first index of `c` in `s`. */
  function IndexOf(s: string, c: char): (r: Option<nat>)
    ensures r.Some? ==> r.value < |s| && s[r.value] == c && c !in s[..r.value]
    ensures r.None? ==> c !in s
  {
    if s == [] then None
    else if s[0] == c then Some(0)
    else match IndexOf(s[1..], c)
      case None => None
      case Some(i) => Some(i + 1)
  }

  /** True when `pat` occurs in `s` at index `i`. */
  predicate MatchAt(s: string, pat: string, i: nat)
  {
    i + |pat| <= |s| && s[i..i + |pat|] == pat
  }

  /** The first index at which `pat` occurs in `s` at or after `from`. */
  function FindFrom(s: string, pat: string, from: nat): (r: Option<nat>)
    requires |pat| > 0
    ensures r.Some? ==> from <= r.value && MatchAt(s, pat, r.value)
    ensures r.Some? ==> forall i :: from <= i < r.value ==> !MatchAt(s, pat, i)
    ensures r.None? ==> forall i :: from <= i ==> !MatchAt(s, pat, i)
    decreases |s| - from
  {
    if from + |pat| > |s| then None
    else if MatchAt(s, pat, from) then Some(from)
    else FindFrom(s, pat, from + 1)
  }

  /** `FindFrom` finds the first match: a match with none before it is the answer. */
  lemma {:induction false} FindFromFirst(s: string, pat: string, from: nat, m: nat)
    requires |pat| > 0 && from <= m && MatchAt(s, pat, m)
    requires forall i :: from <= i < m ==> !MatchAt(s, pat, i)
    ensures FindFrom(s, pat, from) == Some(m)
    decreases m - from
  {
    if from < m {
      FindFromFirst(s, pat, from + 1, m);
    }
  }

  /** Concatenation regroups freely. */
  lemma AppendAssoc<T>(a: seq<T>, b: seq<T>, c: seq<T>)
    ensures (a + b) + c == a + (b + c)
  {
  }

  lemma AppendEmpty(a: string)
    ensures a + "" == a
  {
  }

  /** The concatenation of a sequence of strings (Rust's `concat` / `join("")`). */
  function Concat(ss: seq<string>): string
  {
    if ss == [] then [] else Concat(ss[..|ss| - 1]) + ss[|ss| - 1]
  }

  lemma {:induction false} ConcatAppend(a: seq<string>, b: seq<string>)
    ensures Concat(a + b) == Concat(a) + Concat(b)
    decreases |b|
  {
    if b == [] {
      assert a + b == a;
    } else {
      assert (a + b)[..|a + b| - 1] == a + b[..|b| - 1];
      ConcatAppend(a, b[..|b| - 1]);
      AppendAssoc(Concat(a), Concat(b[..|b| - 1]), b[|b| - 1]);
    }
  }

  // ---- Decimal numbers ------------------------------------------------------

  function DigitChar(d: nat): (c: char)
    requires d < 10
    ensures IsAsciiDigit(c)
  {
    ('0' as int + d) as char
  }

  function DigitValue(c: char): nat
    requires IsAsciiDigit(c)
  {
    c as int - '0' as int
  }

  predicate AllDigits(s: string)
  {
    forall i :: 0 <= i < |s| ==> IsAsciiDigit(s[i])
  }

  /** The decimal text of `n`, as Rust's `Display` for unsigned integers writes it. */
  function NatToString(n: nat): (r: string)
    ensures r != [] && AllDigits(r)
  {
    if n < 10 then [DigitChar(n)] else NatToString(n / 10) + [DigitChar(n % 10)]
  }

  /** The value of a string of decimal digits. */
  function DigitsValue(s: string): nat
    requires AllDigits(s)
  {
    if s == [] then 0 else DigitsValue(s[..|s| - 1]) * 10 + DigitValue(s[|s| - 1])
  }

  lemma {:induction false} DigitsValueOfNatToString(n: nat)
    ensures DigitsValue(NatToString(n)) == n
  {
    if n >= 10 {
      var s := NatToString(n);
      assert s[..|s| - 1] == NatToString(n / 10);
      DigitsValueOfNatToString(n / 10);
    }
  }

  /** Distinct numbers have distinct decimal texts. */
  lemma NatToStringInjective(m: nat, n: nat)
    requires NatToString(m) == NatToString(n)
    ensures m == n
  {
    DigitsValueOfNatToString(m);
    DigitsValueOfNatToString(n);
  }

  /**
   * Rust's `str::parse::<u32>`: an optional '+', then one or more ASCII digits
   * whose value fits in 32 bits.
   */
  function ParseU32(s: string): (r: Option<nat>)
    ensures r.Some? ==> r.value <= U32_MAX
  {
    var digits := if |s| > 0 && s[0] == '+' then s[1..] else s;
    if digits != [] && AllDigits(digits) && DigitsValue(digits) <= U32_MAX
    then Some(DigitsValue(digits))
    else None
  }

  /** Every 32-bit value parses back from its decimal text. */
  lemma ParseU32OfNatToString(n: nat)
    requires n <= U32_MAX
    ensures ParseU32(NatToString(n)) == Some(n)
  {
    DigitsValueOfNatToString(n);
  }

  /** Rust's `str::parse::<usize>` on a 64-bit target. */
  function ParseUsize(s: string): (r: Option<nat>)
    ensures r.Some? ==> r.value < 0x1_0000_0000_0000_0000
  {
    var digits := if |s| > 0 && s[0] == '+' then s[1..] else s;
    if digits != [] && AllDigits(digits) && DigitsValue(digits) < 0x1_0000_0000_0000_0000
    then Some(DigitsValue(digits))
    else None
  }

  // ---- Splitting ------------------------------------------------------------

  /** The index of the first whitespace character of `s`, or |s|. */
  function TokenEnd(s: string): (k: nat)
    ensures k <= |s| && NoWhitespace(s[..k])
    ensures k < |s| ==> IsWhitespace(s[k])
    ensures s != [] && !IsWhitespace(s[0]) ==> k >= 1
  {
    if s == [] || IsWhitespace(s[0]) then 0 else 1 + TokenEnd(s[1..])
  }

  /** Rust's `str::split_whitespace`: the maximal runs of non-whitespace characters. */
  function SplitWhitespace(s: string): (r: seq<string>)
    decreases |s|
  {
    var t := TrimStart(s);
    if t == [] then [] else
      var k := TokenEnd(t);
      [t[..k]] + SplitWhitespace(t[k..])
  }

  lemma {:induction false} TokenEndOfWord(a: string, rest: string)
    requires NoWhitespace(a)
    requires rest == [] || IsWhitespace(rest[0])
    ensures TokenEnd(a + rest) == |a|
    decreases |a|
  {
    if a != [] {
      assert (a + rest)[1..] == a[1..] + rest;
      TokenEndOfWord(a[1..], rest);
    }
  }

  /** A word followed by whitespace splits into the word and the splitting of the rest. */
  lemma {:induction false} SplitWhitespaceOfWord(a: string, sep: char, rest: string)
    requires a != [] && NoWhitespace(a) && IsWhitespace(sep)
    ensures SplitWhitespace(a + [sep] + rest) == [a] + SplitWhitespace([sep] + rest)
  {
    var s := a + [sep] + rest;
    assert s[0] == a[0];
    TrimStartOfNonWhite(s);
    assert s == a + ([sep] + rest);
    TokenEndOfWord(a, [sep] + rest);
    assert s[..|a|] == a;
    assert s[|a|..] == [sep] + rest;
  }

  // ---- Lines ----------------------------------------------------------------

  function StripCarriageReturn(s: string): string
  {
    if s != [] && s[|s| - 1] == '\r' then s[..|s| - 1] else s
  }

  /**
   * Rust's `str::lines`: split after each '\n', drop the "\n" or "\r\n" ending;
   * a final line ending does not start an empty line.
   */
  function Lines(s: string): (r: seq<string>)
    ensures s == [] <==> r == []
    decreases |s|
  {
    if s == [] then []
    else match IndexOf(s, '\n')
      case None => [s]
      case Some(i) => [StripCarriageReturn(s[..i])] + Lines(s[i + 1..])
  }
}
