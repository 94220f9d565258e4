/**
 * The JavaScript string primitives the widgets rely on: `trim`,
 * `toLowerCase`/`toUpperCase` (restricted to ASCII letters), `includes`,
 * a global replace of a literal pattern, and decimal rendering of integers.
 */
module Strings {

  /** The characters `String.prototype.trim` removes: WhiteSpace and LineTerminator. */
  predicate IsJsWhitespace(c: char) {
    c == '\t' || c == '\n' || c == '\U{000B}' || c == '\U{000C}' || c == '\r' || c == ' '
    || c == '\U{00A0}' || c == '\U{1680}' || ('\U{2000}' <= c <= '\U{200A}')
    || c == '\U{2028}' || c == '\U{2029}' || c == '\U{202F}' || c == '\U{205F}'
    || c == '\U{3000}' || c == '\U{FEFF}'
  }

  /** `s` with its leading whitespace removed. */
  function TrimStart(s: string): (r: string)
    ensures |r| <= |s| && r == s[|s| - |r|..]
    ensures r == [] || !IsJsWhitespace(r[0])
    ensures forall i :: 0 <= i < |s| - |r| ==> IsJsWhitespace(s[i])
  {
    if s != [] && IsJsWhitespace(s[0]) then TrimStart(s[1..]) else s
  }

  /** `s` with its trailing whitespace removed. */
  function TrimEnd(s: string): (r: string)
    ensures |r| <= |s| && r == s[..|r|]
    ensures r == [] || !IsJsWhitespace(r[|r| - 1])
    ensures forall i :: |r| <= i < |s| ==> IsJsWhitespace(s[i])
  {
    if s != [] && IsJsWhitespace(s[|s| - 1]) then TrimEnd(s[..|s| - 1]) else s
  }

  /** `String.prototype.trim`. */
  function Trim(s: string): (r: string)
    ensures |r| <= |s| && forall c :: c in r ==> c in s
    ensures r == [] || (!IsJsWhitespace(r[0]) && !IsJsWhitespace(r[|r| - 1]))
  {
    var t := TrimStart(s);
    var r := TrimEnd(t);
    assert forall c :: c in r ==> c in t;
    r
  }

  /** `s` neither starts nor ends with whitespace, so trimming leaves it alone. */
  predicate IsTrimmed(s: string) {
    s == [] || (!IsJsWhitespace(s[0]) && !IsJsWhitespace(s[|s| - 1]))
  }

  /** No printable ASCII character other than the space is whitespace. */
  lemma PrintableNotWhitespace(c: char)
    requires '!' <= c <= '~'
    ensures !IsJsWhitespace(c)
  {
  }

  /** A text that does not start with whitespace has none to lose at its start. */
  lemma TrimStartUnchanged(s: string)
    requires s == [] || !IsJsWhitespace(s[0])
    ensures TrimStart(s) == s
  {
  }

  /** A string made only of whitespace trims to the empty string, and back. */
  lemma TrimEmptyIffBlank(s: string)
    ensures Trim(s) == [] <==> forall i :: 0 <= i < |s| ==> IsJsWhitespace(s[i])
  {
    var t := TrimStart(s);
    assert t != [] ==> t[0] == s[|s| - |t|];
    var r := TrimEnd(t);
    assert t != [] ==> IsJsWhitespace(t[0]) || r != [];

  }

  /** Trimming a string that has no surrounding whitespace leaves it unchanged. */
  lemma TrimUnchanged(s: string)
    requires s == [] || (!IsJsWhitespace(s[0]) && !IsJsWhitespace(s[|s| - 1]))
    ensures Trim(s) == s
  {
  }

  function LowerChar(c: char): (d: char)
    ensures 'A' <= c <= 'Z' ==> d as int == c as int + 32
    ensures !('A' <= c <= 'Z') ==> d == c
  {
    if 'A' <= c <= 'Z' then (c as int + 32) as char else c
  }

  function UpperChar(c: char): (d: char)
    ensures 'a' <= c <= 'z' ==> d as int == c as int - 32
    ensures !('a' <= c <= 'z') ==> d == c
  {
    if 'a' <= c <= 'z' then (c as int - 32) as char else c
  }

  /** `String.prototype.toLowerCase`, for ASCII letters. */
  function ToLower(s: string): (r: string)
    ensures |r| == |s| && forall i :: 0 <= i < |s| ==> r[i] == LowerChar(s[i])
  {
    seq(|s|, i requires 0 <= i < |s| => LowerChar(s[i]))
  }

  /** `String.prototype.toUpperCase`, for ASCII letters. */
  function ToUpper(s: string): (r: string)
    ensures |r| == |s| && forall i :: 0 <= i < |s| ==> r[i] == UpperChar(s[i])
  {
    seq(|s|, i requires 0 <= i < |s| => UpperChar(s[i]))
  }

  /** Lower-casing never leaves an upper-case ASCII letter, so it is idempotent. */
  lemma ToLowerIdempotent(s: string)
    ensures ToLower(ToLower(s)) == ToLower(s)
    ensures forall i :: 0 <= i < |s| ==> !('A' <= ToLower(s)[i] <= 'Z')
  {
  }

  /** A text without lower-case ASCII letters is its own upper-case form. */
  lemma ToUpperNoLower(s: string)
    requires forall i :: 0 <= i < |s| ==> !('a' <= s[i] <= 'z')
    ensures ToUpper(s) == s
  {
    assert forall i :: 0 <= i < |s| ==> ToUpper(s)[i] == s[i];
  }

  /** Lower-casing keeps whitespace and non-whitespace apart. */
  lemma LowerCharWhitespace(c: char)
    ensures IsJsWhitespace(LowerChar(c)) <==> IsJsWhitespace(c)
  {
  }

  /**
   * `String(x).trim().toLowerCase()` is a fixed point of both trimming and
   * lower-casing: applying either again changes nothing.
   */
  lemma LowerTrimNormal(x: string)
    ensures Trim(ToLower(Trim(x))) == ToLower(Trim(x))
    ensures ToLower(ToLower(Trim(x))) == ToLower(Trim(x))
  {
    var t := Trim(x);
    var h := ToLower(t);
    if h != [] {
      LowerCharWhitespace(t[0]);
      LowerCharWhitespace(t[|t| - 1]);
    }
    TrimUnchanged(h);
    ToLowerIdempotent(t);
  }

  /** A text without upper-case ASCII letters is its own lower-case form. */
  lemma ToLowerNoUpper(s: string)
    requires forall i :: 0 <= i < |s| ==> !('A' <= s[i] <= 'Z')
    ensures ToLower(s) == s
  {
    assert forall i :: 0 <= i < |s| ==> ToLower(s)[i] == s[i];
  }

  /** `s` holds no upper-case ASCII letter. */
  predicate IsLowerText(s: string) {
    forall i :: 0 <= i < |s| ==> !('A' <= s[i] <= 'Z')
  }

  /** `String(x).trim().toLowerCase()` neither starts nor ends with whitespace and has no upper-case letter. */
  lemma LowerTrimShape(x: string)
    ensures IsTrimmed(ToLower(Trim(x))) && IsLowerText(ToLower(Trim(x)))
  {
    var t := Trim(x);
    if t != [] {
      LowerCharWhitespace(t[0]);
      LowerCharWhitespace(t[|t| - 1]);
    }
  }

  /** A word of lower-case ASCII letters is already trimmed and lower-cased. */
  lemma LowerWordNormal(w: string)
    requires forall i :: 0 <= i < |w| ==> 'a' <= w[i] <= 'z'
    ensures Trim(w) == w && ToLower(w) == w
  {
    if w != [] {
      var first, last := w[0], w[|w| - 1];
      assert 'a' <= first <= 'z' && 'a' <= last <= 'z';
      PrintableNotWhitespace(first);
      PrintableNotWhitespace(last);
      TrimUnchanged(w);
    }
    LowerLettersFixed(w);
  }

  /** A word of lower-case ASCII letters neither starts nor ends with whitespace and has no upper-case letter. */
  lemma LowerWordShape(w: string)
    requires forall i :: 0 <= i < |w| ==> 'a' <= w[i] <= 'z'
    ensures IsTrimmed(w) && IsLowerText(w)
  {
    if w != [] {
      var first, last := w[0], w[|w| - 1];
      assert 'a' <= first <= 'z' && 'a' <= last <= 'z';
      PrintableNotWhitespace(first);
      PrintableNotWhitespace(last);
    }
  }

  lemma LowerLettersFixed(w: string)
    requires forall i :: 0 <= i < |w| ==> 'a' <= w[i] <= 'z'
    ensures ToLower(w) == w
  {
    assert forall i :: 0 <= i < |w| ==> ToLower(w)[i] == w[i];
  }

  /** `x` and `y` differ at most in the case of ASCII letters. */
  predicate SameUpToCase(x: string, y: string) {
    |x| == |y| && forall i :: 0 <= i < |x| ==> UpperChar(x[i]) == UpperChar(y[i])
  }

  lemma ToUpperSameUpToCase(x: string, y: string)
    ensures ToUpper(x) == ToUpper(y) <==> SameUpToCase(x, y)
  {
    if SameUpToCase(x, y) {
      assert forall i :: 0 <= i < |x| ==> ToUpper(x)[i] == ToUpper(y)[i];
    }
  }

  /** Texts that differ only in case have the same lower-case form. */
  lemma ToLowerSameUpToCase(x: string, y: string)
    requires SameUpToCase(x, y)
    ensures ToLower(x) == ToLower(y)
  {
    assert forall i :: 0 <= i < |x| ==> ToLower(x)[i] == ToLower(y)[i];
  }

  predicate IsAsciiLetter(c: char) {
    'a' <= c <= 'z' || 'A' <= c <= 'Z'
  }

  /** Where two texts differ only in case, a character that is not a letter is the same on both sides. */
  lemma NonLetterAt(x: string, y: string, i: int)
    requires SameUpToCase(x, y) && 0 <= i < |x|
    ensures IsAsciiLetter(x[i]) <==> IsAsciiLetter(y[i])
    ensures !IsAsciiLetter(x[i]) ==> x[i] == y[i]
  {
  }

  lemma {:induction false} TrimStartSameUpToCase(x: string, y: string)
    requires SameUpToCase(x, y)
    ensures SameUpToCase(TrimStart(x), TrimStart(y))
  {
    if x != [] {
      NonLetterAt(x, y, 0);
      if IsJsWhitespace(x[0]) {
        TrimStartSameUpToCase(x[1..], y[1..]);
      }
    }
  }

  /** `s.includes(sub)`. */
  predicate Contains(s: string, sub: string) {
    sub <= s || (s != [] && Contains(s[1..], sub))
  }

  /** Every string contains itself. */
  lemma ContainsSelf(s: string)
    ensures Contains(s, s)
  {
  }

  /** `s.replace(/pat/g, rep)` for a pattern without metacharacters: left to right, without overlap. */
  function ReplaceAll(s: string, pat: string, rep: string): (r: string)
    requires pat != []
    ensures !Contains(s, pat) ==> r == s
    decreases |s|
  {
    if |s| < |pat| then s
    else if s[..|pat|] == pat then rep + ReplaceAll(s[|pat|..], pat, rep)
    else
      [s[0]] + ReplaceAll(s[1..], pat, rep)
  }

  /** A replacement never introduces a character that neither the input nor the replacement holds. */
  lemma {:induction false} ReplaceAllChars(s: string, pat: string, rep: string, c: char)
    requires pat != []
    requires c !in s && c !in rep
    ensures c !in ReplaceAll(s, pat, rep)
    decreases |s|
  {
    if |s| < |pat| {
    } else if s[..|pat|] == pat {
      ReplaceAllChars(s[|pat|..], pat, rep, c);
    } else {
      ReplaceAllChars(s[1..], pat, rep, c);
    }
  }

  /** Removal of every character of `cs`, as `s.replace(/[cs]/g, '')` does. */
  function RemoveChars(s: string, cs: set<char>): (r: string)
    ensures forall c :: c in r ==> c in s && c !in cs
    ensures forall i :: 0 <= i < |s| && s[i] !in cs ==> s[i] in r
  {
    if s == [] then []
    else if s[0] in cs then RemoveChars(s[1..], cs)
    else [s[0]] + RemoveChars(s[1..], cs)
  }

  /** Removing characters a string does not hold changes nothing. */
  lemma {:induction false} RemoveCharsNone(s: string, cs: set<char>)
    requires forall i :: 0 <= i < |s| ==> s[i] !in cs
    ensures RemoveChars(s, cs) == s
  {
    if s != [] {
      RemoveCharsNone(s[1..], cs);
    }
  }

  /** `parts.join(sep)`. */
  function Join(parts: seq<string>, sep: string): string {
    if |parts| == 0 then ""
    else if |parts| == 1 then parts[0]
    else parts[0] + sep + Join(parts[1..], sep)
  }

  function DigitChar(d: nat): (c: char)
    requires d < 10
    ensures '0' <= c <= '9'
  {
    ('0' as int + d) as char
  }

  /** Decimal rendering of a natural number, without leading zeros. */
  function NatToDecimal(n: nat): (r: string)
    ensures |r| > 0 && forall i :: 0 <= i < |r| ==> '0' <= r[i] <= '9'
    ensures |r| > 1 ==> r[0] != '0'
  {
    if n < 10 then [DigitChar(n)] else NatToDecimal(n / 10) + [DigitChar(n % 10)]
  }

  /** An optional minus sign followed by at least one decimal digit. */
  predicate IsDecimalText(t: string) {
    && |t| > 0
    && (t[0] == '-' ==> |t| > 1)
    && (t[0] == '-' || '0' <= t[0] <= '9')
    && forall i :: 1 <= i < |t| ==> '0' <= t[i] <= '9'
  }

  /** `String(n)` for an integer `n`. */
  function IntToDecimal(n: int): (r: string)
    ensures |r| > 0
    ensures r[0] == '-' <==> n < 0
    ensures IsDecimalText(r)
  {
    if n < 0 then "-" + NatToDecimal(-n) else NatToDecimal(n)
  }
}
