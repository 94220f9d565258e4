/**
 * Field formatting of the academic profile: cleaning a Knack field value
 * for display (`sanitizeField`), recognising Knack record IDs
 * (`isValidKnackId`) and pulling a record ID out of the shapes Knack stores
 * connections in (`extractRecordId`).
 */
module Formatting {
  import opened Strings
  import opened JsValues
  import opened Wrappers

  // ---- sanitizeField ----

  /** The position of the first '>' in `s`, or `|s|` when there is none. */
  function CloseIndex(s: string): (i: nat)
    ensures i <= |s| && (i < |s| ==> s[i] == '>')
    ensures forall j :: 0 <= j < i ==> s[j] != '>'
  {
    if s == [] || s[0] == '>' then 0 else 1 + CloseIndex(s[1..])
  }

  /**
   * `s.replace(/<[^>]*>/g, '')`: from left to right, a '<' with a '>' somewhere
   * after it is removed together with everything up to the first such '>'.
   */
  function StripTags(s: string): (r: string)
    ensures forall c :: c in r ==> c in s
    ensures '<' !in s ==> r == s
    ensures forall i, j :: 0 <= i < j < |r| && r[i] == '<' ==> r[j] != '>'
    decreases |s|
  {
    if s == [] then []
    else if s[0] == '<' && CloseIndex(s[1..]) < |s| - 1 then
      StripTags(s[CloseIndex(s[1..]) + 2..])
    else
      var rest := StripTags(s[1..]);
      assert s[0] == '<' ==> '>' !in s[1..];
      [s[0]] + rest
  }

  /** The characters `str.replace(/[_~`#]/g, '')` removes. */
  const MarkdownChars: set<char> := {'_', '~', '`', '#'}

  /** The six entity replacements, in the order they are applied. */
  const Entities: seq<(string, string)> :=
    [("&amp;", "&"), ("&lt;", "<"), ("&gt;", ">"), ("&quot;", "\""), ("&#039;", "'"), ("&nbsp;", " ")]

  /** The characters an entity replacement can produce. */
  predicate IsDecodedChar(c: char) {
    c == '&' || c == '<' || c == '>' || c == '"' || c == '\'' || c == ' '
  }

  /** The chain of `.replace(/entity/g, char)` calls, from the first entity on. */
  function DecodeFrom(s: string, k: nat): (r: string)
    requires k <= |Entities|
    ensures forall c :: c !in s && !IsDecodedChar(c) ==> c !in r
    decreases |Entities| - k
  {
    if k == |Entities| then s
    else
      var (pat, rep) := Entities[k];
      var t := ReplaceAll(s, pat, rep);
      forall c | c !in s && !IsDecodedChar(c)
        ensures c !in t
      {
        ReplaceAllChars(s, pat, rep, c);
      }
      DecodeFrom(t, k + 1)
  }

  function DecodeEntities(s: string): string {
    DecodeFrom(s, 0)
  }

  /** `sanitizeField(value)` as written: `String(value)` cleaned by `SanitizeText`. */
  function SanitizeField(value: JsVal): (r: string)
    ensures (value.Null? || value.Undefined?) ==> r == ""
    ensures forall c :: c in MarkdownChars ==> c !in r
    ensures r == [] || (!IsJsWhitespace(r[0]) && !IsJsWhitespace(r[|r| - 1]))
  {
    if value.Null? || value.Undefined? then "" else SanitizeText(ToJsString(value))
  }

  /** Tags, then markdown characters, then entities, then `trim`. */
  function SanitizeText(s: string): (r: string)
    ensures forall c :: c in MarkdownChars ==> c !in r
    ensures r == [] || (!IsJsWhitespace(r[0]) && !IsJsWhitespace(r[|r| - 1]))
  {
    var stripped := RemoveChars(StripTags(s), MarkdownChars);
    var decoded := DecodeEntities(stripped);
    DecodeKeepsMarkdownOut(stripped);
    Trim(decoded)
  }

  lemma DecodeKeepsMarkdownOut(s: string)
    requires forall c :: c in MarkdownChars ==> c !in s
    ensures forall c :: c in MarkdownChars ==> c !in DecodeEntities(s)
  {
    assert forall c :: c in MarkdownChars ==> !IsDecodedChar(c);
  }

  /** Where no '#' is left, the apostrophe entity cannot occur. */
  lemma {:induction false} NoHashNoEntity(s: string)
    requires '#' !in s
    ensures !Contains(s, "&#039;")
    ensures ReplaceAll(s, "&#039;", "'") == s
  {
    if s != [] {
      if |s| >= 2 {
        assert s[1] in s;
      }
      NoHashNoEntity(s[1..]);
    }
  }

  /** No entity before `&#039;` decodes to '#', so that step meets no '#' and no apostrophe entity. */
  lemma {:induction false} DecodeAddsNoApostrophe(s: string, k: nat)
    requires k <= |Entities|
    requires '\'' !in s && '#' !in s
    ensures '\'' !in DecodeFrom(s, k)
    decreases |Entities| - k
  {
    if k < |Entities| {
      var (pat, rep) := Entities[k];
      var t := ReplaceAll(s, pat, rep);
      if k == 4 {
        NoHashNoEntity(s);
        assert t == s;
      } else {
        assert '\'' !in rep && '#' !in rep;
        ReplaceAllChars(s, pat, rep, '\'');
        ReplaceAllChars(s, pat, rep, '#');
      }
      DecodeAddsNoApostrophe(t, k + 1);
    }
  }

  /**
   * `&#039;` is never decoded: its '#' goes with the markdown characters one
   * step before, so an apostrophe comes out only if one went in.
   */
  lemma ApostropheNeverDecoded(value: JsVal)
    requires '\'' !in ToJsString(value)
    ensures '\'' !in SanitizeField(value)
  {
    if !value.Null? && !value.Undefined? {
      var stripped := RemoveChars(StripTags(ToJsString(value)), MarkdownChars);
      DecodeAddsNoApostrophe(stripped, 0);
      assert SanitizeField(value) == Trim(DecodeEntities(stripped));
    }
  }

  /** The order evidently intended: entities are decoded before the markdown characters go. */
  function SanitizeFieldFixed(value: JsVal): (r: string)
    ensures (value.Null? || value.Undefined?) ==> r == ""
    ensures forall c :: c in MarkdownChars ==> c !in r
    ensures r == [] || (!IsJsWhitespace(r[0]) && !IsJsWhitespace(r[|r| - 1]))
  {
    if value.Null? || value.Undefined? then "" else SanitizeTextFixed(ToJsString(value))
  }

  function SanitizeTextFixed(s: string): (r: string)
    ensures forall c :: c in MarkdownChars ==> c !in r
    ensures r == [] || (!IsJsWhitespace(r[0]) && !IsJsWhitespace(r[|r| - 1]))
  {
    Trim(RemoveChars(DecodeEntities(StripTags(s)), MarkdownChars))
  }

  /** With that order `&#039;` decodes to an apostrophe. */
  lemma ApostropheEntityFixed(t: string)
    requires t == "&#039;"
    ensures SanitizeFieldFixed(Str(t)) == "'"
  {
    assert StripTags(t) == t;
    var d := DecodeApostrophe(t);
    KeepOne(d);
  }

  lemma KeepOne(d: string)
    requires d == "'"
    ensures Trim(RemoveChars(d, MarkdownChars)) == d
  {
    assert RemoveChars(d, MarkdownChars) == d;
    PrintableNotWhitespace(d[0]);
    TrimUnchanged(d);
  }

  lemma NoLeadingEntity(t: string, k: nat)
    requires t == "&#039;" && k < 4
    ensures ReplaceAll(t, Entities[k].0, Entities[k].1) == t
  {
    var pat := Entities[k].0;
    assert pat == "&amp;" || pat == "&lt;" || pat == "&gt;" || pat == "&quot;";
    assert pat[1] != t[1];
    NoAmpersand(t[1..], pat);
  }

  lemma DecodeApostrophe(t: string) returns (d: string)
    requires t == "&#039;"
    ensures d == "'" && DecodeEntities(t) == d
  {
    forall k | 0 <= k < 4
      ensures ReplaceAll(t, Entities[k].0, Entities[k].1) == t
    {
      NoLeadingEntity(t, k);
    }
    DecodeFromSteps(t, 0, 4);
    d := ReplaceAll(t, "&#039;", "'");
    assert d == "'";
    assert ReplaceAll(d, "&nbsp;", " ") == d;
  }

  lemma {:induction false} NoAmpersand(s: string, pat: string)
    requires '&' !in s && pat != [] && pat[0] == '&'
    ensures !Contains(s, pat)
  {
    if s != [] {
      NoAmpersand(s[1..], pat);
    }
  }

  /** Text without an '&' holds no entity, so the decoding leaves it alone. */
  lemma DecodeWithoutAmpersand(t: string)
    requires '&' !in t
    ensures DecodeEntities(t) == t
  {
    forall j | 0 <= j < |Entities|
      ensures ReplaceAll(t, Entities[j].0, Entities[j].1) == t
    {
      NoAmpersand(t, Entities[j].0);
    }
    DecodeFromSteps(t, 0, |Entities|);
  }

  /**
   * Without an '&' the entity step does nothing: the result is the text with
   * its tags stripped and its markdown characters removed, then trimmed.
   */
  lemma SanitizeWithoutEntities(s: string)
    requires '&' !in s
    ensures SanitizeText(s) == Trim(RemoveChars(StripTags(s), MarkdownChars))
  {
    DecodeWithoutAmpersand(RemoveChars(StripTags(s), MarkdownChars));
  }

  /**
   * Text with nothing to clean (no '<', no '&', no markdown character and no
   * surrounding whitespace) comes back unchanged.
   */
  lemma SanitizePlainText(s: string)
    requires '<' !in s && '&' !in s
    requires forall i :: 0 <= i < |s| ==> s[i] !in MarkdownChars
    requires s == [] || (!IsJsWhitespace(s[0]) && !IsJsWhitespace(s[|s| - 1]))
    ensures SanitizeText(s) == s
  {
    SanitizeWithoutEntities(s);
    RemoveCharsNone(s, MarkdownChars);
    TrimUnchanged(s);
  }

  /** A string field with nothing to clean is displayed as it is. */
  lemma SanitizePlainField(s: string)
    requires '<' !in s && '&' !in s
    requires forall i :: 0 <= i < |s| ==> s[i] !in MarkdownChars
    requires s == [] || (!IsJsWhitespace(s[0]) && !IsJsWhitespace(s[|s| - 1]))
    ensures SanitizeField(Str(s)) == s
  {
    SanitizePlainText(s);
  }

  lemma {:induction false} DecodeFromSteps(t: string, k: nat, m: nat)
    requires k <= m <= |Entities|
    requires forall j :: k <= j < m ==> ReplaceAll(t, Entities[j].0, Entities[j].1) == t
    ensures DecodeFrom(t, k) == DecodeFrom(t, m)
    decreases m - k
  {
    if k < m {
      DecodeFromSteps(t, k + 1, m);
    }
  }

  /** A string of fewer characters than every entity is left alone by the decoding. */
  lemma {:induction false} DecodeShort(t: string, k: nat)
    requires k <= |Entities| && |t| < 4
    ensures DecodeFrom(t, k) == t
    decreases |Entities| - k
  {
    if k < |Entities| {
      DecodeShort(t, k + 1);
    }
  }

  /** `&amp;` is decoded first and the result is scanned again by the later entities, so `&amp;lt;` becomes '<'. */
  lemma AmpersandFirst(t: string)
    requires t == "&amp;lt;"
    ensures SanitizeField(Str(t)) == "<"
  {
    AmpersandFirstText(t);
  }

  lemma AmpersandFirstText(t: string)
    requires t == "&amp;lt;"
    ensures SanitizeText(t) == "<"
  {
    assert StripTags(t) == t;
    RemoveCharsNone(t, MarkdownChars);
    var w := DecodeAmpersandLt(t);
    PrintableNotWhitespace(w[0]);
    TrimUnchanged(w);
  }

  lemma DecodeAmpersandLt(t: string) returns (w: string)
    requires t == "&amp;lt;"
    ensures w == "<" && DecodeEntities(t) == w
  {
    var u := ReplaceAll(t, "&amp;", "&");
    assert u == "&lt;" by {
      assert t[..5] == "&amp;" && t[5..] == "lt;";
      assert ReplaceAll(t[5..], "&amp;", "&") == "lt;";
    }
    w := ReplaceAll(u, "&lt;", "<");
    assert w == "<" by {
      assert u[..4] == "&lt;" && u[4..] == [];
      assert ReplaceAll(u[4..], "&lt;", "<") == [];
    }
    DecodeShort(w, 2);
  }

  // ---- isValidKnackId ----

  predicate IsHexDigit(c: char) {
    '0' <= c <= '9' || 'a' <= c <= 'f' || 'A' <= c <= 'F'
  }

  /** `/^[0-9a-f]{24}$/i`: exactly 24 hexadecimal digits, in either case. */
  predicate IsKnackIdText(s: string) {
    |s| == 24 && forall i :: 0 <= i < |s| ==> IsHexDigit(s[i])
  }

  /** `isValidKnackId(id)`: falsy values and non-strings are never IDs. */
  predicate IsValidKnackId(id: JsVal)
    ensures IsValidKnackId(id) <==> id.Str? && IsKnackIdText(id.s)
  {
    Truthy(id) && id.Str? && IsKnackIdText(id.s)
  }

  /** An ID is recognised whatever the case of its letters, and nothing but a 24-character string is one. */
  lemma KnackIdCaseInsensitive(s: string)
    ensures IsValidKnackId(Str(s)) <==> IsValidKnackId(Str(ToLower(s)))
    ensures IsValidKnackId(Str(s)) <==> IsValidKnackId(Str(ToUpper(s)))
    ensures IsValidKnackId(Str(s)) ==> |s| == 24
  {
    assert IsValidKnackId(Str(s)) <==> IsKnackIdText(s);
    assert ToLower(s) != [] <==> s != [];
    assert ToUpper(s) != [] <==> s != [];
  }

  lemma NonStringsAreNotIds(id: JsVal)
    requires !id.Str? || id.s == ""
    ensures !IsValidKnackId(id)
  {
  }

  // ---- extractRecordId ----

  /** A JavaScript call that either returns a value or throws a `TypeError`. */
  datatype Completion<T> = Normal(value: T) | TypeError

  /** The first element's `.id`, reached only when the element's `typeof` is 'object'. */
  function FirstIdAsWritten(first: JsVal): Completion<Option<string>>
    requires IsTypeofObject(first)
  {
    if first.Null? then TypeError
    else
      var fid := Prop(first, "id");
      if IsValidKnackId(fid) then Normal(Some(fid.s)) else Normal(None)
  }

  /**
   * `extractRecordId(value)` as written: `typeof first === 'object'` holds for
   * `null`, and reading `.id` of it throws.
   */
  function ExtractRecordIdAsWritten(value: JsVal): (r: Completion<Option<string>>)
    ensures !Truthy(value) ==> r == Normal(None)
    ensures r.TypeError? <==> value.Arr? && |value.elems| > 0 && value.elems[0].Null?
    ensures r.Normal? && r.value.Some? ==> IsKnackIdText(r.value.value)
  {
    if !Truthy(value) then Normal(None)
    else if value.Str? && IsValidKnackId(value) then Normal(Some(value.s))
    else if IsTypeofObject(value) && !value.Null? then
      var id := Prop(value, "id");
      var identifier := Prop(value, "identifier");
      if IsValidKnackId(id) then Normal(Some(id.s))
      else if IsValidKnackId(identifier) then Normal(Some(identifier.s))
      else if value.Arr? && |value.elems| > 0 then
        var first := value.elems[0];
        if first.Str? && IsValidKnackId(first) then Normal(Some(first.s))
        else if IsTypeofObject(first) then FirstIdAsWritten(first)
        else Normal(None)
      else Normal(None)
    else Normal(None)
  }

  /** `extractRecordId` with the `null` first element skipped, as the `value !== null` guard above it evidently intends. */
  function ExtractRecordId(value: JsVal): (r: Option<string>)
    ensures !Truthy(value) ==> r == None
    ensures r.Some? ==> IsKnackIdText(r.value)
  {
    if !Truthy(value) then None
    else if value.Str? && IsValidKnackId(value) then Some(value.s)
    else if IsTypeofObject(value) && !value.Null? then
      var id := Prop(value, "id");
      var identifier := Prop(value, "identifier");
      if IsValidKnackId(id) then Some(id.s)
      else if IsValidKnackId(identifier) then Some(identifier.s)
      else if value.Arr? && |value.elems| > 0 then
        var first := value.elems[0];
        if first.Str? && IsValidKnackId(first) then Some(first.s)
        else if first.Obj? && IsValidKnackId(Prop(first, "id")) then Some(Prop(first, "id").s)
        else None
      else None
    else None
  }

  /** The code as written throws exactly for a non-empty array whose first element is `null`, and otherwise agrees. */
  lemma ExtractThrowsOnlyOnNullFirst(value: JsVal)
    ensures ExtractRecordIdAsWritten(value).TypeError?
        <==> value.Arr? && |value.elems| > 0 && value.elems[0].Null?
    ensures !ExtractRecordIdAsWritten(value).TypeError?
        ==> ExtractRecordIdAsWritten(value) == Normal(ExtractRecordId(value))
  {
  }

  /**
   * The places `extractRecordId` looks for an ID, in the order it looks:
   * the value itself when it is a string; `.id` and `.identifier` of an
   * object or array; then an array's first element and, when that is an
   * object, its `.id`.
   */
  function IdCandidates(value: JsVal): seq<JsVal> {
    match value
    case Str(_) => [value]
    case Obj(_) => [Prop(value, "id"), Prop(value, "identifier")]
    case Arr(xs) =>
      [Prop(value, "id"), Prop(value, "identifier")]
      + (if xs == [] then []
         else [xs[0]] + (if xs[0].Obj? then [Prop(xs[0], "id")] else []))
    case _ => []
  }

  /** The first candidate that is a valid Knack ID. */
  function FirstValidId(cs: seq<JsVal>): (r: Option<string>)
    ensures r.Some? <==> exists i :: 0 <= i < |cs| && IsValidKnackId(cs[i])
    ensures r.Some? ==> exists i :: 0 <= i < |cs| && IsValidKnackId(cs[i]) && cs[i] == Str(r.value)
                                       && forall j :: 0 <= j < i ==> !IsValidKnackId(cs[j])
  {
    if cs == [] then None
    else if IsValidKnackId(cs[0]) then Some(cs[0].s)
    else
      var r := FirstValidId(cs[1..]);
      assert forall i :: 1 <= i < |cs| ==> cs[i] == cs[1..][i - 1];
      if r.Some? then
        var i :| 0 <= i < |cs[1..]| && IsValidKnackId(cs[1..][i]) && cs[1..][i] == Str(r.value)
                 && forall j :: 0 <= j < i ==> !IsValidKnackId(cs[1..][j]);
        assert forall j :: 0 <= j < i + 1 ==> !IsValidKnackId(cs[j]) by {
          forall j | 0 <= j < i + 1 ensures !IsValidKnackId(cs[j]) {
            if j > 0 { assert cs[j] == cs[1..][j - 1]; }
          }
        }
        r
      else r
  }

  /**
   * `extractRecordId` returns the first valid ID among its candidates, and
   * `null` exactly when none of them is a valid ID.
   */
  lemma ExtractIsFirstCandidate(value: JsVal)
    ensures ExtractRecordId(value) == FirstValidId(IdCandidates(value))
  {
    match value
    case Str(_) =>
      FirstValidIdCons(value, []);
    case Obj(m) =>
      ExtractObjectCandidates(m);
    case Arr(xs) =>
      ExtractArrayCandidates(xs);
    case _ =>
  }

  lemma ExtractObjectCandidates(m: map<string, JsVal>)
    ensures ExtractRecordId(Obj(m)) == FirstValidId(IdCandidates(Obj(m)))
  {
    var v := Obj(m);
    FirstValidIdCons(Prop(v, "id"), [Prop(v, "identifier")]);
    FirstValidIdCons(Prop(v, "identifier"), []);
  }

  lemma ExtractArrayCandidates(xs: seq<JsVal>)
    ensures ExtractRecordId(Arr(xs)) == FirstValidId(IdCandidates(Arr(xs)))
  {
    var tail := if xs == [] then [] else [xs[0]] + (if xs[0].Obj? then [Prop(xs[0], "id")] else []);
    assert IdCandidates(Arr(xs)) == [Undefined] + ([Undefined] + tail);
    FirstValidIdCons(Undefined, [Undefined] + tail);
    FirstValidIdCons(Undefined, tail);
    if xs != [] {
      var rest := if xs[0].Obj? then [Prop(xs[0], "id")] else [];
      FirstValidIdCons(xs[0], rest);
      if xs[0].Obj? {
        FirstValidIdCons(Prop(xs[0], "id"), []);
      }
    }
  }

  lemma FirstValidIdCons(c: JsVal, cs: seq<JsVal>)
    ensures FirstValidId([c] + cs) == if IsValidKnackId(c) then Some(c.s) else FirstValidId(cs)
  {
    assert ([c] + cs)[1..] == cs;
  }

  /** The ID comes from the first shape that holds one: the string itself, `.id`, `.identifier`, then the first element. */
  lemma ExtractPrecedence(value: JsVal)
    ensures value.Str? ==> ExtractRecordId(value) == (if IsKnackIdText(value.s) then Some(value.s) else None)
    ensures value.Obj? && IsValidKnackId(Prop(value, "id")) ==> ExtractRecordId(value) == Some(Prop(value, "id").s)
    ensures value.Obj? && !IsValidKnackId(Prop(value, "id")) && IsValidKnackId(Prop(value, "identifier"))
            ==> ExtractRecordId(value) == Some(Prop(value, "identifier").s)
    ensures value.Arr? && |value.elems| > 0 && value.elems[0].Str? && IsKnackIdText(value.elems[0].s)
            ==> ExtractRecordId(value) == Some(value.elems[0].s)
    ensures value.Arr? && |value.elems| > 0 && value.elems[0].Obj? && IsValidKnackId(Prop(value.elems[0], "id"))
               && !(value.elems[0].Str?)
            ==> ExtractRecordId(value) == Some(Prop(value.elems[0], "id").s)
    ensures value.Null? || value.Undefined? || value.Bool? || value.Num? ==> ExtractRecordId(value) == None
  {
  }
}
