/**
 * The value-level logic of the academic-profile API client: the coercion of
 * structured CMS values into display strings, the in-place normalisation of
 * the student record a profile response carries, and the three ways the
 * write calls choose the `X-User-Role` header they send.
 */
module AcademicProfileApi {
  import opened Wrappers
  import opened Strings
  import opened JsValues

  // ---------------------------------------------------------------------
  // coerceText
  // ---------------------------------------------------------------------

  /** The object fields `coerceText` consults, in order of precedence. */
  const TextKeys: seq<string> := ["identifier", "name", "text", "label", "value"]

  /** `v && v[k]` for an object `m`: the field exists and is truthy. */
  predicate TruthyField(m: map<string, JsVal>, k: string) {
    k in m && Truthy(m[k])
  }

  /**
   * The trimmed text of the first key of `keys` naming a truthy field of
   * `m`, or `None` when no key does.
   */
  function FieldText(m: map<string, JsVal>, keys: seq<string>): (r: Option<string>)
    ensures r.Some? ==> IsTrimmed(r.value)
  {
    if keys == [] then None
    else if TruthyField(m, keys[0]) then TrimmedText(m[keys[0]])
    else FieldText(m, keys[1..])
  }

  /** `FieldText` finds a text exactly when some key names a truthy field, and then it is the first one's. */
  lemma {:induction false} FieldTextFirstMatch(m: map<string, JsVal>, keys: seq<string>, i: int)
    requires 0 <= i < |keys| && TruthyField(m, keys[i])
    requires forall j :: 0 <= j < i ==> !TruthyField(m, keys[j])
    ensures FieldText(m, keys) == TrimmedText(m[keys[i]])
  {
    if i > 0 {
      assert !TruthyField(m, keys[0]);
      FieldTextFirstMatch(m, keys[1..], i - 1);
    }
  }

  lemma {:induction false} FieldTextSome(m: map<string, JsVal>, keys: seq<string>)
    ensures FieldText(m, keys).Some? <==> exists j :: 0 <= j < |keys| && TruthyField(m, keys[j])
  {
    if keys != [] {
      FieldTextSome(m, keys[1..]);
      if !TruthyField(m, keys[0]) {
        assert forall j :: 1 <= j < |keys| ==> keys[j] == keys[1..][j - 1];
      }
    }
  }

  /**
   * What `coerceText(v)` returns, `None` standing for `null`: nothing for
   * `null` and `undefined`, the first element's coercion for an array, the
   * first truthy field among `TextKeys` for an object, and the trimmed text
   * of any other value.
   */
  function CoercedText(v: JsVal): (r: Option<string>)
    ensures (v.Null? || v.Undefined?) ==> r.None?
    ensures r.Some? ==> IsTrimmed(r.value)
    decreases v
  {
    match v
    case Null => None
    case Undefined => None
    case Arr(xs) => if |xs| == 0 then None else CoercedText(xs[0])
    case Obj(m) => FieldText(m, TextKeys)
    case _ => TrimmedText(v)
  }

  /** `String(v).trim()`. */
  function TrimmedText(v: JsVal): (r: Option<string>)
    ensures r.Some? && IsTrimmed(r.value)
  {
    Some(Trim(ToJsString(v)))
  }

  /** `coerceText`: recursion into the first array element, then a first-match loop over the object keys. */
  method CoerceText(v: JsVal) returns (r: Option<string>)
    ensures r == CoercedText(v)
    decreases v
  {
    if v.Null? || v.Undefined? {
      return None;
    }
    if v.Arr? {
      if |v.elems| == 0 {
        return None;
      }
      r := CoerceText(v.elems[0]);
      return;
    }
    if v.Obj? {
      var k := 0;
      while k < |TextKeys|
        invariant 0 <= k <= |TextKeys|
        invariant FieldText(v.fields, TextKeys) == FieldText(v.fields, TextKeys[k..])
      {
        var key := TextKeys[k];
        assert TextKeys[k..][0] == key && TextKeys[k..][1..] == TextKeys[k + 1..];
        if key in v.fields && Truthy(v.fields[key]) {
          return Some(Trim(ToJsString(v.fields[key])));
        }
        k := k + 1;
      }
      return None;
    }
    return Some(Trim(ToJsString(v)));
  }

  /**
   * An object coerces to a text exactly when one of the five keys names a
   * truthy field, and the text is that of the first such field; no later
   * key is consulted once one is truthy, even when its text trims to "".
   */
  lemma CoerceObjectFirstMatch(m: map<string, JsVal>)
    ensures CoercedText(Obj(m)).Some? <==> exists i :: 0 <= i < |TextKeys| && TruthyField(m, TextKeys[i])
    ensures forall i :: 0 <= i < |TextKeys| && TruthyField(m, TextKeys[i])
              && (forall j :: 0 <= j < i ==> !TruthyField(m, TextKeys[j]))
              ==> CoercedText(Obj(m)) == Some(Trim(ToJsString(m[TextKeys[i]])))
  {
    FieldTextSome(m, TextKeys);
    forall i | 0 <= i < |TextKeys| && TruthyField(m, TextKeys[i])
              && (forall j :: 0 <= j < i ==> !TruthyField(m, TextKeys[j]))
      ensures CoercedText(Obj(m)) == Some(Trim(ToJsString(m[TextKeys[i]])))
    {
      FieldTextFirstMatch(m, TextKeys, i);
    }
  }

  /** `{identifier: "Acme School"}` coerces to "Acme School". */
  lemma CoerceIdentifierExample(school: string)
    requires school == "Acme School"
    ensures CoercedText(Obj(map["identifier" := Str(school)])) == Some(school)
  {
    var m := map["identifier" := Str(school)];
    assert TruthyField(m, TextKeys[0]);
    FieldTextFirstMatch(m, TextKeys, 0);
    PrintableNotWhitespace(school[0]);
    PrintableNotWhitespace(school[|school| - 1]);
    TrimUnchanged(school);
  }

  /** A whitespace-only `identifier` wins: the result is "" even when `name` holds a text. */
  lemma CoerceBlankWinnerExample(blank: string, name: string)
    requires blank == "  " && name == "Jo"
    ensures CoercedText(Obj(map["identifier" := Str(blank), "name" := Str(name)])) == Some("")
  {
    var m := map["identifier" := Str(blank), "name" := Str(name)];
    assert m[TextKeys[0]] == Str(blank);
    FieldTextFirstMatch(m, TextKeys, 0);
    BlankTrimsAway(blank);
  }

  lemma BlankTrimsAway(blank: string)
    requires blank == "  "
    ensures TrimmedText(Str(blank)) == Some("")
  {
    TrimEmptyIffBlank(blank);
  }

  /** A text `coerceText` produced coerces to itself again. */
  lemma CoerceStable(v: JsVal)
    requires CoercedText(v).Some?
    ensures CoercedText(Str(CoercedText(v).value)) == CoercedText(v)
  {
    CoerceTrimmedString(CoercedText(v).value);
  }

  lemma CoerceTrimmedString(t: string)
    requires IsTrimmed(t)
    ensures CoercedText(Str(t)) == Some(t)
  {
    assert ToJsString(Str(t)) == t;
    TrimUnchanged(t);
  }

  // ---------------------------------------------------------------------
  // Student display normalisation
  // ---------------------------------------------------------------------

  /** The student fields the profile fetch rewrites for display. */
  const DisplayKeys: seq<string> := ["name", "school", "yearGroup", "tutorGroup"]

  /** A `coerceText` result as the JavaScript value it is (`null` or a string). */
  function AsJs(c: Option<string>): JsVal {
    match c
    case None => Null
    case Some(s) => Str(s)
  }

  /** `coerceText(v) || v`. */
  function DisplayValue(v: JsVal): (r: JsVal)
    ensures r == v || (r.Str? && CoercedText(v) == Some(r.s) && r.s != "")
    ensures Truthy(v) ==> Truthy(r)
  {
    Or(AsJs(CoercedText(v)), v)
  }

  /**
   * The display value is the coerced text when that text is not empty, and
   * the original value otherwise; a truthy value stays truthy, and
   * normalising twice is normalising once.
   */
  lemma DisplayValueFacts(v: JsVal)
    ensures CoercedText(v).Some? && CoercedText(v).value != "" ==> DisplayValue(v) == Str(CoercedText(v).value)
    ensures CoercedText(v).None? || CoercedText(v).value == "" ==> DisplayValue(v) == v
    ensures Truthy(v) ==> Truthy(DisplayValue(v))
    ensures DisplayValue(DisplayValue(v)) == DisplayValue(v)
  {
    var c := CoercedText(v);
    if c.Some? && c.value != "" {
      assert Truthy(AsJs(c));
      assert DisplayValue(v) == Str(c.value);
      CoerceStable(v);
      assert DisplayValue(Str(c.value)) == Str(c.value);
    } else {
      assert !Truthy(AsJs(c));
    }
  }

  /** A structured value with a non-blank text field is shown as that text, never as "[object Object]". */
  lemma DisplayValueOfObject(m: map<string, JsVal>)
    requires CoercedText(Obj(m)).Some? && CoercedText(Obj(m)).value != ""
    ensures DisplayValue(Obj(m)).Str? && DisplayValue(Obj(m)).s == CoercedText(Obj(m)).value
  {
  }

  /** `m` with the field `k` replaced by `f` of its content (`undefined` when missing). */
  function Rewritten(m: map<string, JsVal>, k: string, f: JsVal -> JsVal): map<string, JsVal> {
    m[k := f(Prop(Obj(m), k))]
  }

  /** `m` with the field `k` replaced by its display value. */
  function WithDisplayValue(m: map<string, JsVal>, k: string): map<string, JsVal> {
    Rewritten(m, k, DisplayValue)
  }

  /** The rewrite of four keys `a`, `b`, `c` and `d`, in that order. */
  function FourRewritten(m: map<string, JsVal>, a: string, b: string, c: string, d: string, f: JsVal -> JsVal): map<string, JsVal> {
    Rewritten(Rewritten(Rewritten(Rewritten(m, a, f), b, f), c, f), d, f)
  }

  /** The student fields after the four display rewrites, applied in the source's order. */
  function NormalisedFields(m: map<string, JsVal>): map<string, JsVal> {
    WithDisplayValue(WithDisplayValue(WithDisplayValue(WithDisplayValue(m, "name"), "school"), "yearGroup"), "tutorGroup")
  }

  /** One rewrite adds its key, sets it to `f` of the old content, and leaves every other field alone. */
  lemma RewrittenFacts(m: map<string, JsVal>, k: string, f: JsVal -> JsVal)
    ensures Rewritten(m, k, f).Keys == m.Keys + {k}
    ensures Rewritten(m, k, f)[k] == f(Prop(Obj(m), k))
    ensures forall j :: j in m && j != k ==> Rewritten(m, k, f)[j] == m[j]
    ensures forall j :: j != k ==> Prop(Obj(Rewritten(m, k, f)), j) == Prop(Obj(m), j)
  {
  }

  /** Two rewrites of distinct keys, each reading the field as it was before either rewrite. */
  lemma TwoRewrites(m: map<string, JsVal>, a: string, b: string, f: JsVal -> JsVal)
    requires a != b
    ensures Rewritten(Rewritten(m, a, f), b, f).Keys == m.Keys + {a, b}
    ensures Rewritten(Rewritten(m, a, f), b, f)[a] == f(Prop(Obj(m), a))
    ensures Rewritten(Rewritten(m, a, f), b, f)[b] == f(Prop(Obj(m), b))
    ensures forall j :: j in m && j != a && j != b ==> Rewritten(Rewritten(m, a, f), b, f)[j] == m[j]
    ensures forall j :: j != a && j != b ==> Prop(Obj(Rewritten(Rewritten(m, a, f), b, f)), j) == Prop(Obj(m), j)
  {
    RewrittenFacts(m, a, f);
    RewrittenFacts(Rewritten(m, a, f), b, f);
  }

  /** Four rewrites of distinct keys, each reading the field as it was before any rewrite. */
  lemma FourRewrites(m: map<string, JsVal>, a: string, b: string, c: string, d: string, f: JsVal -> JsVal)
    requires a != b && a != c && a != d && b != c && b != d && c != d
    ensures FourRewritten(m, a, b, c, d, f).Keys == m.Keys + {a, b, c, d}
    ensures FourRewritten(m, a, b, c, d, f)[a] == f(Prop(Obj(m), a))
    ensures FourRewritten(m, a, b, c, d, f)[b] == f(Prop(Obj(m), b))
    ensures FourRewritten(m, a, b, c, d, f)[c] == f(Prop(Obj(m), c))
    ensures FourRewritten(m, a, b, c, d, f)[d] == f(Prop(Obj(m), d))
    ensures forall j :: j in m && j != a && j != b && j != c && j != d ==> FourRewritten(m, a, b, c, d, f)[j] == m[j]
  {
    var h := Rewritten(Rewritten(m, a, f), b, f);
    TwoRewrites(m, a, b, f);
    TwoRewrites(h, c, d, f);
    assert Prop(Obj(h), c) == Prop(Obj(m), c);
    assert Prop(Obj(h), d) == Prop(Obj(m), d);
  }

  /** Rewriting four keys twice with an idempotent `f` is rewriting them once. */
  lemma FourRewritesIdempotent(m: map<string, JsVal>, a: string, b: string, c: string, d: string, f: JsVal -> JsVal)
    requires a != b && a != c && a != d && b != c && b != d && c != d
    requires forall x :: f(f(x)) == f(x)
    ensures FourRewritten(FourRewritten(m, a, b, c, d, f), a, b, c, d, f) == FourRewritten(m, a, b, c, d, f)
  {
    var n := FourRewritten(m, a, b, c, d, f);
    var n2 := FourRewritten(n, a, b, c, d, f);
    FourRewrites(m, a, b, c, d, f);
    FourRewrites(n, a, b, c, d, f);
    assert Prop(Obj(n), a) == n[a] && Prop(Obj(n), b) == n[b];
    assert Prop(Obj(n), c) == n[c] && Prop(Obj(n), d) == n[d];
    assert n2.Keys == n.Keys;
    forall j | j in n
      ensures n2[j] == n[j]
    {
      if j == a || j == b || j == c || j == d {
        assert n2[j] == f(n[j]);
      }
    }
  }

  /** The display rewrite is the generic four-key rewrite with `DisplayValue`. */
  lemma NormalisedFieldsRewritten(m: map<string, JsVal>)
    ensures NormalisedFields(m) == FourRewritten(m, "name", "school", "yearGroup", "tutorGroup", DisplayValue)
  {
  }

  /**
   * Normalisation adds the four display keys (with `undefined` where a key
   * was missing and coercion found nothing), gives each the display value of
   * its original content, and leaves every other field as it was.
   */
  lemma NormalisedFieldsFacts(m: map<string, JsVal>)
    ensures NormalisedFields(m).Keys == m.Keys + {"name", "school", "yearGroup", "tutorGroup"}
    ensures forall k :: k in DisplayKeys ==> NormalisedFields(m)[k] == DisplayValue(Prop(Obj(m), k))
    ensures forall k :: k in m && k !in DisplayKeys ==> NormalisedFields(m)[k] == m[k]
  {
    NormalisedFieldsRewritten(m);
    FourRewrites(m, "name", "school", "yearGroup", "tutorGroup", DisplayValue);
  }

  /** A missing display key comes back as `undefined`, since `coerceText(undefined) || undefined` is `undefined`. */
  lemma MissingDisplayKeyBecomesUndefined(m: map<string, JsVal>, k: string)
    requires k in DisplayKeys && k !in m
    ensures NormalisedFields(m)[k] == Undefined
  {
    NormalisedFieldsFacts(m);
  }

  /** Normalising an already normalised record changes nothing. */
  lemma NormaliseIdempotent(m: map<string, JsVal>)
    ensures NormalisedFields(NormalisedFields(m)) == NormalisedFields(m)
  {
    forall x
      ensures DisplayValue(DisplayValue(x)) == DisplayValue(x)
    {
      DisplayValueFacts(x);
    }
    NormalisedFieldsRewritten(m);
    NormalisedFieldsRewritten(NormalisedFields(m));
    FourRewritesIdempotent(m, "name", "school", "yearGroup", "tutorGroup", DisplayValue);
  }

  /** The `data.student` object of a profile response, whose fields the fetch rewrites in place. */
  class StudentRecord {
    var fields: map<string, JsVal>

    constructor (initial: map<string, JsVal>)
      ensures fields == initial
    {
      fields := initial;
    }

    /** `data.student.k = coerceText(data.student.k) || data.student.k` for one display key `k`. */
    method NormaliseField(k: string)
      modifies this
      ensures fields == WithDisplayValue(old(fields), k)
    {
      var c := CoerceText(Prop(Obj(fields), k));
      fields := fields[k := Or(AsJs(c), Prop(Obj(fields), k))];
    }

    /** The four display rewrites of the profile fetch, in order. */
    method NormaliseDisplayFields()
      modifies this
      ensures fields == NormalisedFields(old(fields))
      ensures fields.Keys == old(fields).Keys + {"name", "school", "yearGroup", "tutorGroup"}
      ensures forall k :: k in DisplayKeys ==> fields[k] == DisplayValue(Prop(Obj(old(fields)), k))
      ensures forall k :: k in old(fields) && k !in DisplayKeys ==> fields[k] == old(fields)[k]
    {
      NormalisedFieldsFacts(fields);
      NormaliseField("name");
      NormaliseField("school");
      NormaliseField("yearGroup");
      NormaliseField("tutorGroup");
    }
  }

  // ---------------------------------------------------------------------
  // The X-User-Role header
  // ---------------------------------------------------------------------

  /** `(r && r.name === 'Student') || (typeof r === 'string' && r.toLowerCase().includes('student'))`. */
  predicate IsStudentRole(r: JsVal) {
    (Truthy(r) && Prop(r, "name") == Str("Student"))
    || (r.Str? && Contains(ToLower(r.s), "student"))
  }

  /**
   * A role object counts only when its name is exactly 'Student'; the
   * case-insensitive match applies to role strings alone.
   */
  lemma RoleObjectNameIsExact(upper: string, lower: string)
    requires upper == "Student" && lower == "student"
    ensures IsStudentRole(Obj(map["name" := Str(upper)]))
    ensures !IsStudentRole(Obj(map["name" := Str(lower)]))
    ensures IsStudentRole(Str(lower))
  {
    var role := Obj(map["name" := Str(lower)]);
    assert Prop(role, "name") == Str(lower);
    assert Str(lower) != Str("Student") by {
      assert lower[0] != "Student"[0];
    }
    StudentStringIsStudent(lower);
  }

  lemma StudentStringIsStudent(w: string)
    requires w == "student"
    ensures Contains(ToLower(w), "student")
  {
    LowerWordNormal(w);
    ContainsSelf(w);
  }

  /** `roles.some(IsStudentRole)`. */
  predicate HasStudentRole(roles: seq<JsVal>) {
    exists i :: 0 <= i < |roles| && IsStudentRole(roles[i])
  }

  /**
   * The roles list `Knack.getUserRoles() || []` when the page has Knack with
   * `getUserRoles` and the result is an array; `None` when there is no such
   * call, or when its truthy result is no array, so that `roles.some` throws
   * and the surrounding `try` swallows the error.
   */
  function KnackRoles(host: KnackHost): (r: Option<seq<JsVal>>)
    ensures host.NoKnack? || host.userRoles.None? ==> r.None?
    ensures host.Knack? && host.userRoles.Some? ==>
              && (!Truthy(host.userRoles.value) ==> r == Some([]))
              && (host.userRoles.value.Arr? ==> r == Some(host.userRoles.value.elems))
              && (Truthy(host.userRoles.value) && !host.userRoles.value.Arr? ==> r.None?)
  {
    if host.NoKnack? || host.userRoles.None? then None
    else
      var roles := Or(host.userRoles.value, Arr([]));
      if roles.Arr? then Some(roles.elems) else None
  }

  /** The role derived from Knack: `isStudent ? 'student' : 'staff'` when the roles could be read. */
  function DerivedRole(host: KnackHost): (r: Option<string>)
    ensures r.None? <==> KnackRoles(host).None?
    ensures r == Some("student") <==> KnackRoles(host).Some? && HasStudentRole(KnackRoles(host).value)
    ensures r == Some("staff") <==> KnackRoles(host).Some? && !HasStudentRole(KnackRoles(host).value)
  {
    match KnackRoles(host)
    case None => None
    case Some(roles) => Some(if HasStudentRole(roles) then "student" else "staff")
  }

  /** When `getUserRoles` returns nothing truthy, the roles list is empty and the role is 'staff'. */
  lemma NoRolesMeansStaff(host: KnackHost)
    requires host.Knack? && host.userRoles.Some? && !Truthy(host.userRoles.value)
    ensures DerivedRole(host) == Some("staff")
  {
    assert KnackRoles(host) == Some([]);
  }

  /**
   * The header of the Knack-only writers (`updateSubjectGrade`,
   * `updateUniversityOffers`); `None` means no header is sent.
   */
  method KnackRoleHeader(host: KnackHost) returns (header: Option<string>)
    ensures header.None? <==> KnackRoles(host).None?
    ensures host.NoKnack? ==> header.None?
    ensures header == Some("student") <==> KnackRoles(host).Some? && HasStudentRole(KnackRoles(host).value)
    ensures header == Some("staff") <==> KnackRoles(host).Some? && !HasStudentRole(KnackRoles(host).value)
  {
    var roleHeader: Option<string> := None;
    if host.Knack? && host.userRoles.Some? {
      var roles := Or(host.userRoles.value, Arr([]));
      if roles.Arr? {
        var isStudent := HasStudentRole(roles.elems);
        roleHeader := Some(if isStudent then "student" else "staff");
      }
    }
    header := if roleHeader.Some? && roleHeader.value != "" then roleHeader else None;
  }

  /** The two derived roles are already in the normal form a hint is brought to. */
  lemma DerivedRoleNormal(host: KnackHost)
    ensures DerivedRole(host).Some? ==> IsTrimmed(DerivedRole(host).value) && IsLowerText(DerivedRole(host).value)
  {
    if DerivedRole(host).Some? {
      LowerWordShape(DerivedRole(host).value);
    }
  }

  /** `String(hint).trim().toLowerCase()`. */
  function HintText(hint: JsVal): string {
    ToLower(Trim(ToJsString(hint)))
  }

  /** `carrier && typeof carrier === 'object' ? carrier[key] : null`. */
  function OverrideHint(carrier: JsVal, key: string): (r: JsVal)
    ensures !(carrier.Arr? || carrier.Obj?) ==> r == Null
    ensures carrier.Obj? && key !in carrier.fields ==> r == Undefined
  {
    if Truthy(carrier) && IsTypeofObject(carrier) then Prop(carrier, key) else Null
  }

  /** The option key `saveUcasApplication`, `generateUcasFeedback` and `addVirtualTutorComment` read the hint from. */
  const RoleHintKey := "roleHint"
  /** The payload key `addUcasApplicationComment` reads the hint from. */
  const CommentRoleHintKey := "__roleHint"

  /**
   * The header of the writers that accept an explicit hint: a truthy hint
   * whose trimmed, lower-cased text is not empty wins; otherwise the
   * Knack-derived role is used, and without one no header is sent.
   */
  method OverrideRoleHeader(hint: JsVal, host: KnackHost) returns (header: Option<string>)
    ensures Truthy(hint) && HintText(hint) != "" ==> header == Some(HintText(hint))
    ensures !(Truthy(hint) && HintText(hint) != "") ==> header == DerivedRole(host)
    ensures header.Some? ==> header.value != ""
    ensures header.Some? ==> IsTrimmed(header.value) && IsLowerText(header.value)
  {
    var roleHeader: Option<string> := None;
    if Truthy(hint) {
      roleHeader := Some(HintText(hint));
      LowerTrimShape(ToJsString(hint));
    }
    if host.Knack? && host.userRoles.Some? {
      var roles := Or(host.userRoles.value, Arr([]));
      if roles.Arr? {
        var isStudent := HasStudentRole(roles.elems);
        if roleHeader.None? || roleHeader.value == "" {
          roleHeader := Some(if isStudent then "student" else "staff");
        }
      }
    }
    header := if roleHeader.Some? && roleHeader.value != "" then roleHeader else None;
    DerivedRoleNormal(host);
  }

  /** An object `carrier` whose field `key` holds a hint with non-blank text. */
  predicate GivesHint(carrier: JsVal, key: string) {
    carrier.Obj? && key in carrier.fields && Truthy(carrier.fields[key]) && HintText(carrier.fields[key]) != ""
  }

  /** The hint read from `carrier` has non-blank text exactly when `carrier` gives one, and it is then the field. */
  lemma OverrideHintGives(carrier: JsVal, key: string)
    ensures Truthy(OverrideHint(carrier, key)) && HintText(OverrideHint(carrier, key)) != "" <==> GivesHint(carrier, key)
    ensures GivesHint(carrier, key) ==> OverrideHint(carrier, key) == carrier.fields[key]
  {
  }

  /**
   * The header of `saveUcasApplication`, `generateUcasFeedback` and
   * `addVirtualTutorComment`: their `options.roleHint` when it gives a
   * hint, and otherwise the Knack-derived role.
   */
  method OptionsRoleHeader(options: JsVal, host: KnackHost) returns (header: Option<string>)
    ensures GivesHint(options, RoleHintKey) ==> header == Some(HintText(options.fields[RoleHintKey]))
    ensures !GivesHint(options, RoleHintKey) ==> header == DerivedRole(host)
  {
    var hint := OverrideHint(options, RoleHintKey);
    OverrideHintGives(options, RoleHintKey);
    header := OverrideRoleHeader(hint, host);
  }

  /** The header of `addUcasApplicationComment`, whose hint travels in the payload's `__roleHint`. */
  method PayloadRoleHeader(payload: JsVal, host: KnackHost) returns (header: Option<string>)
    ensures GivesHint(payload, CommentRoleHintKey) ==> header == Some(HintText(payload.fields[CommentRoleHintKey]))
    ensures !GivesHint(payload, CommentRoleHintKey) ==> header == DerivedRole(host)
  {
    var hint := OverrideHint(payload, CommentRoleHintKey);
    OverrideHintGives(payload, CommentRoleHintKey);
    header := OverrideRoleHeader(hint, host);
  }

  /** `options && options.roleHint`: a hint is given. */
  predicate HasHint(options: JsVal) {
    Truthy(options) && Truthy(Prop(options, RoleHintKey))
  }

  /**
   * The header of the reference calls:
   * `(options && options.roleHint) ? String(options.roleHint).trim().toLowerCase() : fallback`.
   * It is always sent, even when the hint trims to "".
   */
  function FixedRoleHeader(options: JsVal, fallback: string): (h: string)
    ensures !HasHint(options) ==> h == fallback
    ensures HasHint(options) ==> Trim(h) == h && ToLower(h) == h
  {
    if HasHint(options) then
      LowerTrimNormal(ToJsString(Prop(options, RoleHintKey)));
      HintText(Prop(options, RoleHintKey))
    else fallback
  }

  const InviteDefaultRole := "student"
  const ReferenceFullDefaultRole := "staff"
  const ContributionDefaultRole := "staff"
  const StatementCompleteDefaultRole := "student"

  /** `createReferenceInvite`'s header. */
  function CreateReferenceInviteRole(options: JsVal): string { FixedRoleHeader(options, InviteDefaultRole) }
  /** `fetchReferenceFull`'s header. */
  function FetchReferenceFullRole(options: JsVal): string { FixedRoleHeader(options, ReferenceFullDefaultRole) }
  /** `saveReferenceContribution`'s header. */
  function SaveReferenceContributionRole(options: JsVal): string { FixedRoleHeader(options, ContributionDefaultRole) }
  /** `markUcasStatementComplete`'s header. */
  function MarkUcasStatementCompleteRole(options: JsVal): string { FixedRoleHeader(options, StatementCompleteDefaultRole) }

  /** Without a hint, the invite and statement-complete calls claim 'student' and the two reference calls 'staff'. */
  lemma FixedDefaults(options: JsVal)
    requires !HasHint(options)
    ensures CreateReferenceInviteRole(options) == "student"
    ensures MarkUcasStatementCompleteRole(options) == "student"
    ensures FetchReferenceFullRole(options) == "staff"
    ensures SaveReferenceContributionRole(options) == "staff"
  {
  }

  /** A hint overrides every default alike: the four calls then send the same header. */
  lemma HintOverridesDefaults(options: JsVal)
    requires HasHint(options)
    ensures CreateReferenceInviteRole(options) == FetchReferenceFullRole(options)
            == SaveReferenceContributionRole(options) == MarkUcasStatementCompleteRole(options)
            == HintText(Prop(options, RoleHintKey))
  {
  }

  /**
   * A whitespace-only hint is treated differently by the two families: the
   * reference calls send an empty header, while the hint-accepting writers
   * fall back to the Knack-derived role.
   */
  lemma BlankHintDivergence(blank: string)
    requires blank == " "
    ensures FixedRoleHeader(Obj(map[RoleHintKey := Str(blank)]), "staff") == ""
    ensures HintText(Str(blank)) == ""
  {
    BlankHintText(blank);
    var options := Obj(map[RoleHintKey := Str(blank)]);
    assert Prop(options, RoleHintKey) == Str(blank);
    assert HasHint(options);
    assert FixedRoleHeader(options, "staff") == HintText(Str(blank));
  }

  lemma BlankHintText(blank: string)
    requires blank == " "
    ensures HintText(Str(blank)) == ""
  {
    TrimEmptyIffBlank(blank);
    assert Trim(ToJsString(Str(blank))) == "";
    assert |ToLower("")| == 0;
  }
}
