/**
 * The individual report's text helpers: turning line breaks into `<br>`
 * tags, and shortening a text to a maximum length with an ellipsis.
 */
module TextUtils {
  import opened Wrappers
  import opened Strings
  import opened JsValues

  /** The number of occurrences of `c` in `s`. */
  function Count(s: string, c: char): nat {
    if s == [] then 0 else (if s[0] == c then 1 else 0) + Count(s[1..], c)
  }

  /** `s.replace(/\n/g, '<br>')`. */
  function BreakLines(s: string): string {
    ReplaceAll(s, "\n", "<br>")
  }

  /** Every line break is replaced, and each replacement lengthens the text by three. */
  lemma {:induction false} BreakLinesFacts(s: string)
    ensures '\n' !in BreakLines(s)
    ensures |BreakLines(s)| == |s| + 3 * Count(s, '\n')
    decreases |s|
  {
    if s != [] {
      BreakLinesFacts(s[1..]);
      assert s[..1] == [s[0]];
    }
  }

  /** A text without `c` does not contain the one-character pattern `[c]`. */
  lemma {:induction false} NoCharNoPattern(s: string, c: char)
    requires c !in s
    ensures !Contains(s, [c])
  {
    if s != [] {
      assert s[0] in s;
      assert forall x :: x in s[1..] ==> x in s;
      NoCharNoPattern(s[1..], c);
    }
  }

  /**
   * Turning `<br>` back into line breaks recovers the original text, as
   * long as the text held no `<` of its own.
   */
  lemma {:induction false} BreakLinesRoundTrip(s: string)
    requires '<' !in s
    ensures ReplaceAll(BreakLines(s), "<br>", "\n") == s
    decreases |s|
  {
    if s != [] {
      assert '<' !in s[1..] by {
        assert forall x :: x in s[1..] ==> x in s;
      }
      BreakLinesRoundTrip(s[1..]);
      var rest := BreakLines(s[1..]);
      if s[0] == '\n' {
        assert s[..1] == "\n";
        assert BreakLines(s) == "<br>" + rest;
        assert ("<br>" + rest)[..4] == "<br>" && ("<br>" + rest)[4..] == rest;
      } else {
        assert s[..1] != "\n";
        assert BreakLines(s) == [s[0]] + rest;
        var t := [s[0]] + rest;
        assert t[1..] == rest;
        if |t| >= 4 {
          assert t[..4] != "<br>" by {
            assert t[0] == s[0] && s[0] != '<';
          }
        } else {
          assert ReplaceAll(rest, "<br>", "\n") == rest;
        }
      }
    }
  }

  /** `nl2br(text)`: "" unless `text` is a non-empty string. */
  function Nl2br(text: JsVal): (r: string)
    ensures !(text.Str? && text.s != "") ==> r == ""
    ensures '\n' !in r
    ensures text.Str? && '\n' !in text.s ==> r == text.s
    ensures text.Str? ==> |r| == |text.s| + 3 * Count(text.s, '\n')
  {
    if !Truthy(text) || !text.Str? then ""
    else
      BreakLinesFacts(text.s);
      if '\n' !in text.s then NoCharNoPattern(text.s, '\n'); BreakLines(text.s)
      else BreakLines(text.s)
  }

  /** The default `maxLength` of `truncate`. */
  const DefaultMaxLength := 100

  /** `text.substring(0, n)`: a negative end counts as 0, one past the text as its length. */
  function Substring0(s: string, n: int): (r: string)
    ensures r <= s && |r| == if n < 0 then 0 else if n > |s| then |s| else n
  {
    if n < 0 then [] else if n > |s| then s else s[..n]
  }

  /**
   * `truncate(text, maxLength)`, with `None` for an omitted `maxLength`:
   * "" unless `text` is a non-empty string, the text itself when it fits,
   * and otherwise its first `maxLength` characters, trimmed, followed by "...".
   */
  function Truncate(text: JsVal, maxLength: Option<int>): (r: string)
    ensures !(text.Str? && text.s != "") ==> r == ""
    ensures text.Str? && |text.s| <= maxLength.GetOr(DefaultMaxLength) ==> r == text.s
    ensures text.Str? && text.s != "" && |text.s| > maxLength.GetOr(DefaultMaxLength) ==>
              |r| >= 3 && r[|r| - 3..] == "..."
  {
    var m := maxLength.GetOr(DefaultMaxLength);
    if !Truthy(text) || !text.Str? then ""
    else if |text.s| <= m then text.s
    else Trim(Substring0(text.s, m)) + "..."
  }

  /** The length `substring(0, maxLength)` keeps. */
  function Kept(m: int): nat {
    if m < 0 then 0 else m
  }

  /**
   * What `truncate` promises about its result: "" for anything but a
   * non-empty string, the text itself when it fits, and otherwise the
   * trimmed first `maxLength` characters and "...", at most three
   * characters longer than the limit.
   */
  lemma TruncateFacts(text: JsVal, maxLength: Option<int>)
    ensures !(text.Str? && text.s != "") ==> Truncate(text, maxLength) == ""
    ensures text.Str? && |text.s| <= maxLength.GetOr(DefaultMaxLength) ==> Truncate(text, maxLength) == text.s
    ensures var m := maxLength.GetOr(DefaultMaxLength);
            text.Str? && text.s != "" && |text.s| > m ==>
              && Truncate(text, maxLength) == Trim(text.s[..Kept(m)]) + "..."
              && |Truncate(text, maxLength)| <= Kept(m) + 3
    ensures text.Str? ==> |Truncate(text, maxLength)| <= |text.s| + 3
  {
    var m := maxLength.GetOr(DefaultMaxLength);
    if text.Str? && text.s != "" && |text.s| > m {
      assert Substring0(text.s, m) == text.s[..Kept(m)];
    }
  }

  /** With no `maxLength` given, texts of up to 100 characters come back whole and longer ones are cut to at most 103. */
  lemma TruncateDefault(text: JsVal)
    requires text.Str?
    ensures |text.s| <= 100 ==> Truncate(text, None) == text.s
    ensures |Truncate(text, None)| <= 103
  {
    TruncateFacts(text, None);
  }
}
