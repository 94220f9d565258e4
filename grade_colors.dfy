/**
 * The grade comparison classifier of the academic profile
 * (`getGradeColorClass`): a current or target grade is compared with the
 * expected grade (MEG/STG) and mapped to one of six comparison classes, or to
 * no class at all. Three grading schemes are tried in order (A-level letters,
 * numeric GCSE grades, vocational points) before a plain equality fallback.
 */
module GradeColors {
  import opened Strings
  import opened JsValues
  import opened Wrappers

  /** The comparison classes; `NoClass` is the empty CSS class name. */
  datatype GradeClass =
    | NoClass
    | SignificantlyAbove
    | Above
    | Matching
    | OneBelow
    | TwoBelow
    | FarBelow
  {
    /** The CSS class name returned to the widget. */
    function Css(): string {
      match this
      case NoClass => ""
      case SignificantlyAbove => "grade-significantly-above"
      case Above => "grade-above"
      case Matching => "grade-matching"
      case OneBelow => "grade-one-below"
      case TwoBelow => "grade-two-below"
      case FarBelow => "grade-far-below"
    }
  }

  /** The six classes have six distinct CSS names, all different from the empty one. */
  lemma CssInjective(c: GradeClass, d: GradeClass)
    ensures c.Css() == d.Css() <==> c == d
    ensures c.Css() == "" <==> c == NoClass
  {
  }

  /** A-level grades from best to worst (A* = 0, U = 6). */
  const ALevelOrder: seq<string> := ["A*", "A", "B", "C", "D", "E", "U"]

  /** Points of the vocational grades (D*, D, M, P and their combinations). */
  const VocationalPoints: map<string, int> := map[
    "D*" := 4, "D*D*" := 8, "D*D*D*" := 12,
    "D" := 3, "DD" := 6, "DDD" := 9,
    "M" := 2, "MM" := 4, "MMM" := 6,
    "P" := 1, "PP" := 2, "PPP" := 3,
    "D*D" := 7, "D*DD" := 10, "DM" := 5, "DMM" := 7,
    "MP" := 3, "MPP" := 4
  ]

  /** `xs.indexOf(x)`: the first position of `x`, or -1. */
  function IndexOf(xs: seq<string>, x: string): (i: int)
    ensures i == -1 <==> x !in xs
    ensures i != -1 ==> 0 <= i < |xs| && xs[i] == x && x !in xs[..i]
  {
    if xs == [] then -1
    else if xs[0] == x then 0
    else
      var j := IndexOf(xs[1..], x);
      assert xs[1..][..if j == -1 then 0 else j] == xs[1..1 + if j == -1 then 0 else j];
      if j == -1 then -1 else j + 1
  }

  /** The if-chain on a difference: `diff >= 2`, `1`, `0`, `-1`, `-2`, `diff <= -3`. */
  function ClassifyDiff(diff: int): GradeClass {
    if diff >= 2 then SignificantlyAbove
    else if diff == 1 then Above
    else if diff == 0 then Matching
    else if diff == -1 then OneBelow
    else if diff == -2 then TwoBelow
    else FarBelow
  }

  /** Every integer difference lands in exactly one of the six bands, never in `NoClass`. */
  lemma ClassifyDiffBands(diff: int)
    ensures ClassifyDiff(diff) != NoClass
    ensures ClassifyDiff(diff) == SignificantlyAbove <==> diff >= 2
    ensures ClassifyDiff(diff) == Above <==> diff == 1
    ensures ClassifyDiff(diff) == Matching <==> diff == 0
    ensures ClassifyDiff(diff) == OneBelow <==> diff == -1
    ensures ClassifyDiff(diff) == TwoBelow <==> diff == -2
    ensures ClassifyDiff(diff) == FarBelow <==> diff <= -3
  {
  }

  /** How the class of one comparison relates to the class of the swapped comparison. */
  predicate Mirrored(c: GradeClass, d: GradeClass) {
    && (c == NoClass <==> d == NoClass)
    && (c == Matching <==> d == Matching)
    && (c == Above <==> d == OneBelow)
    && (c == OneBelow <==> d == Above)
    && (c == SignificantlyAbove <==> (d == TwoBelow || d == FarBelow))
    && ((c == TwoBelow || c == FarBelow) <==> d == SignificantlyAbove)
  }

  lemma ClassifyDiffMirror(diff: int)
    ensures Mirrored(ClassifyDiff(diff), ClassifyDiff(-diff))
  {
  }

  // ---- parseFloat on the trimmed grade text ----

  /**
   * What `parseFloat` yields, as far as the classifier needs it: no number,
   * an integer that a double holds exactly, an infinity, or a value this
   * model does not track (a fraction, an exponent, or an integer above 2^53).
   */
  datatype FloatParse = NotANumber | Integer(value: int) | PlusInfinity | MinusInfinity | Inexact

  const MaxExactInteger: int := 9007199254740992

  predicate IsDigit(c: char) {
    '0' <= c <= '9'
  }

  /** The longest prefix of decimal digits. */
  function LeadingDigits(s: string): (d: string)
    ensures d <= s && forall i :: 0 <= i < |d| ==> IsDigit(d[i])
    ensures |d| < |s| ==> !IsDigit(s[|d|])
  {
    if s != [] && IsDigit(s[0]) then [s[0]] + LeadingDigits(s[1..]) else []
  }

  /** The value of a string of decimal digits. */
  function DigitsValue(d: string): (n: nat)
    requires forall i :: 0 <= i < |d| ==> IsDigit(d[i])
  {
    if d == [] then 0
    else
      var last := d[|d| - 1];
      assert IsDigit(last);
      DigitsValue(d[..|d| - 1]) * 10 + (last as int - '0' as int)
  }

  /** An exponent part `e5`, `E+5`, `e-5` at the start of `s`. */
  predicate StartsWithExponent(s: string) {
    |s| >= 2 && (s[0] == 'e' || s[0] == 'E')
    && (IsDigit(s[1]) || (|s| >= 3 && (s[1] == '+' || s[1] == '-') && IsDigit(s[2])))
  }

  /**
   * `parseFloat(s)`: leading whitespace is skipped, an optional sign is read,
   * then `Infinity` or the longest decimal literal prefix.
   */
  function ParseFloat(s: string): FloatParse {
    var t := TrimStart(s);
    if t != [] && t[0] == '-' then Negate(ParseUnsigned(t[1..]))
    else if t != [] && t[0] == '+' then ParseUnsigned(t[1..])
    else ParseUnsigned(t)
  }

  function Negate(p: FloatParse): FloatParse {
    match p
    case Integer(v) => Integer(-v)
    case PlusInfinity => MinusInfinity
    case MinusInfinity => PlusInfinity
    case _ => p
  }

  /** The number at the start of `body`, which carries no sign. */
  function ParseUnsigned(body: string): FloatParse {
    if "Infinity" <= body then PlusInfinity
    else
      var d := LeadingDigits(body);
      if d == [] then
        (if |body| >= 2 && body[0] == '.' && IsDigit(body[1]) then Inexact else NotANumber)
      else ParseIntegerPart(d, body[|d|..])
  }

  /** A literal that starts with the digits `d`, followed by `rest`. */
  function ParseIntegerPart(d: string, rest: string): FloatParse
    requires d != [] && forall i :: 0 <= i < |d| ==> IsDigit(d[i])
  {
    if |rest| >= 2 && rest[0] == '.' && IsDigit(rest[1]) then Inexact
    else
      var afterPoint := if rest != [] && rest[0] == '.' then rest[1..] else rest;
      if StartsWithExponent(afterPoint) then Inexact
      else if DigitsValue(d) > MaxExactInteger then Inexact
      else Integer(DigitsValue(d))
  }

  lemma {:induction false} DecimalDigitsValue(n: nat)
    ensures LeadingDigits(NatToDecimal(n)) == NatToDecimal(n)
    ensures DigitsValue(NatToDecimal(n)) == n
  {
    var r := NatToDecimal(n);
    if n >= 10 {
      DecimalDigitsValue(n / 10);
      assert r[..|r| - 1] == NatToDecimal(n / 10);
    }
    LeadingDigitsAll(r);
  }

  lemma {:induction false} LeadingDigitsAll(s: string)
    requires forall i :: 0 <= i < |s| ==> IsDigit(s[i])
    ensures LeadingDigits(s) == s
  {
    if s != [] {
      LeadingDigitsAll(s[1..]);
    }
  }

  lemma ParseUnsignedDecimal(a: nat)
    requires a <= MaxExactInteger
    ensures ParseUnsigned(NatToDecimal(a)) == Integer(a)
  {
    var d := NatToDecimal(a);
    DecimalDigitsValue(a);
    DigitsNotInfinity(d);
    assert d[|d|..] == [];
    DigitsAlone(d);
    assert ParseUnsigned(d) == ParseIntegerPart(d, []);
  }

  lemma DigitsNotInfinity(d: string)
    requires d != [] && IsDigit(d[0])
    ensures !("Infinity" <= d)
  {
    assert d[0] != "Infinity"[0];
  }

  /** Digits with nothing after them are an integer literal. */
  lemma DigitsAlone(d: string)
    requires d != [] && forall i :: 0 <= i < |d| ==> IsDigit(d[i])
    requires DigitsValue(d) <= MaxExactInteger
    ensures ParseIntegerPart(d, []) == Integer(DigitsValue(d))
  {
  }

  lemma TrimStartDecimal(n: int)
    ensures TrimStart(IntToDecimal(n)) == IntToDecimal(n)
  {
    var t := IntToDecimal(n);
    PrintableNotWhitespace(t[0]);
    TrimStartUnchanged(t);
  }

  /** `parseFloat(String(n))` gives `n` back for every integer a double holds exactly. */
  lemma ParseFloatOfDecimal(n: int)
    requires -MaxExactInteger <= n <= MaxExactInteger
    ensures ParseFloat(IntToDecimal(n)) == Integer(n)
  {
    var a: nat := if n < 0 then -n else n;
    ParseUnsignedDecimal(a);
    TrimStartDecimal(n);
    var t := IntToDecimal(n);
    if n < 0 {
      assert t[1..] == NatToDecimal(a);
    } else {
      assert t[0] != '-' && t[0] != '+';
    }
  }

  // ---- the classifier ----

  /** The text a grade is compared by: `String(grade).trim()`. */
  function GradeText(v: JsVal): string {
    Trim(ToJsString(v))
  }

  /** The guard of the first line: both grades present and neither exactly 'N/A'. */
  predicate Comparable(grade: JsVal, expected: JsVal) {
    Truthy(grade) && Truthy(expected) && grade != Str("N/A") && expected != Str("N/A")
  }

  /** The numeric branch only ever sees numbers the model tracks (or a NaN on one side). */
  predicate TextsModelled(g: string, e: string) {
    var p := ParseFloat(g);
    var q := ParseFloat(e);
    (p.Inexact? ==> q.NotANumber?) && (q.Inexact? ==> p.NotANumber?)
  }

  predicate NumericallyModelled(grade: JsVal, expected: JsVal) {
    TextsModelled(GradeText(grade), GradeText(expected))
  }

  /**
   * The numeric branch: `None` when it does not return (a NaN operand, or a
   * NaN difference of two equal infinities), so that the vocational table is tried.
   */
  function NumericClass(p: FloatParse, q: FloatParse): Option<GradeClass>
    requires (p.Inexact? ==> q.NotANumber?) && (q.Inexact? ==> p.NotANumber?)
  {
    if p.NotANumber? || q.NotANumber? then None
    else if p.Integer? && q.Integer? then Some(ClassifyDiff(p.value - q.value))
    else if p == q then None
    else if p.PlusInfinity? || q.MinusInfinity? then Some(SignificantlyAbove)
    else Some(FarBelow)
  }

  /** The position of an upper-cased grade in the A-level order, or -1. */
  function ALevelIndex(g: string): int {
    IndexOf(ALevelOrder, ToUpper(g))
  }

  /** The points of an upper-cased vocational grade; 0 (falsy, as `undefined` is) when it has none. */
  function VocationalValue(g: string): nat {
    var u := ToUpper(g);
    if u in VocationalPoints then VocationalPoints[u] else 0
  }

  /** The comparison of two trimmed grade texts, scheme by scheme. */
  function ClassifyTexts(g: string, e: string): GradeClass
    requires TextsModelled(g, e)
  {
    var gi := ALevelIndex(g);
    var ei := ALevelIndex(e);
    if gi != -1 && ei != -1 then ClassifyDiff(ei - gi)
    else
      var numeric := NumericClass(ParseFloat(g), ParseFloat(e));
      if numeric.Some? then numeric.value
      else if VocationalValue(g) != 0 && VocationalValue(e) != 0 then
        ClassifyDiff(VocationalValue(g) - VocationalValue(e))
      else if ToUpper(g) == ToUpper(e) then Matching
      else NoClass
  }

  /** `getGradeColorClass(grade, expectedGrade)`. */
  function GradeColorClass(grade: JsVal, expected: JsVal): (r: GradeClass)
    requires Comparable(grade, expected) ==> NumericallyModelled(grade, expected)
    ensures !Truthy(grade) || !Truthy(expected) || grade == Str("N/A") || expected == Str("N/A") ==> r == NoClass
  {
    if !Comparable(grade, expected) then NoClass
    else ClassifyTexts(GradeText(grade), GradeText(expected))
  }

  /** The CSS class name `getGradeColorClass` returns. */
  function GetGradeColorClass(grade: JsVal, expected: JsVal): (css: string)
    requires Comparable(grade, expected) ==> NumericallyModelled(grade, expected)
    ensures css == "" <==> GradeColorClass(grade, expected) == NoClass
  {
    CssInjective(GradeColorClass(grade, expected), NoClass);
    GradeColorClass(grade, expected).Css()
  }

  // ---- properties ----

  /** A missing or empty grade on either side, or exactly 'N/A', gives no class. */
  lemma MissingGradeGivesNoClass(grade: JsVal, expected: JsVal)
    requires !Truthy(grade) || !Truthy(expected) || grade == Str("N/A") || expected == Str("N/A")
    ensures GradeColorClass(grade, expected) == NoClass
  {
  }

  lemma {:induction false} LeadingDigitsSameUpToCase(x: string, y: string)
    requires SameUpToCase(x, y)
    ensures LeadingDigits(x) == LeadingDigits(y)
  {
    if x != [] {
      NonLetterAt(x, y, 0);
      if IsDigit(x[0]) {
        LeadingDigitsSameUpToCase(x[1..], y[1..]);
      }
    }
  }

  lemma ExponentSameUpToCase(x: string, y: string)
    requires SameUpToCase(x, y)
    ensures StartsWithExponent(x) == StartsWithExponent(y)
  {
    if |x| >= 2 {
      NonLetterAt(x, y, 1);
    }
    if |x| >= 3 {
      NonLetterAt(x, y, 2);
    }
  }

  lemma ParseIntegerPartSameUpToCase(d: string, x: string, y: string)
    requires d != [] && forall i :: 0 <= i < |d| ==> IsDigit(d[i])
    requires SameUpToCase(x, y)
    ensures ParseIntegerPart(d, x) == ParseIntegerPart(d, y)
  {
    if |x| >= 1 {
      NonLetterAt(x, y, 0);
    }
    if |x| >= 2 {
      NonLetterAt(x, y, 1);
    }
    var ax := if x != [] && x[0] == '.' then x[1..] else x;
    var ay := if y != [] && y[0] == '.' then y[1..] else y;
    assert SameUpToCase(ax, ay);
    ExponentSameUpToCase(ax, ay);
  }

  lemma ParseUnsignedSameUpToCase(x: string, y: string)
    requires SameUpToCase(x, y)
    ensures ParseUnsigned(x).NotANumber? || ParseUnsigned(y).NotANumber? || ParseUnsigned(x) == ParseUnsigned(y)
  {
    LeadingDigitsSameUpToCase(x, y);
    var d := LeadingDigits(x);
    if |x| >= 1 {
      NonLetterAt(x, y, 0);
    }
    if |x| >= 2 {
      NonLetterAt(x, y, 1);
    }
    if d != [] {
      assert SameUpToCase(x[|d|..], y[|d|..]);
      ParseIntegerPartSameUpToCase(d, x[|d|..], y[|d|..]);
    }
  }

  /** Texts that differ only in letter case parse to the same number, unless one of them is no number at all. */
  lemma ParseFloatSameUpToCase(x: string, y: string)
    requires SameUpToCase(x, y)
    ensures ParseFloat(x).NotANumber? || ParseFloat(y).NotANumber? || ParseFloat(x) == ParseFloat(y)
  {
    TrimStartSameUpToCase(x, y);
    var tx, ty := TrimStart(x), TrimStart(y);
    if tx != [] {
      NonLetterAt(tx, ty, 0);
      assert SameUpToCase(tx[1..], ty[1..]);
      ParseUnsignedSameUpToCase(tx[1..], ty[1..]);
      ParseUnsignedSameUpToCase(tx, ty);
    }
  }

  /** Operands that are equal, or not both numbers, leave the numeric branch with a match or without a result. */
  lemma NumericClassOfEqual(p: FloatParse, q: FloatParse)
    requires (p.Inexact? ==> q.NotANumber?) && (q.Inexact? ==> p.NotANumber?)
    requires p.NotANumber? || q.NotANumber? || p == q
    ensures NumericClass(p, q).None? || NumericClass(p, q) == Some(Matching)
  {
  }

  lemma SameUpperTextsMatch(g: string, e: string)
    requires TextsModelled(g, e)
    requires ToUpper(g) == ToUpper(e)
    ensures ClassifyTexts(g, e) == Matching
  {
    ToUpperSameUpToCase(g, e);
    ParseFloatSameUpToCase(g, e);
    NumericClassOfEqual(ParseFloat(g), ParseFloat(e));
    assert ALevelIndex(g) == ALevelIndex(e);
    assert VocationalValue(g) == VocationalValue(e);
  }

  /**
   * Both grades are trimmed and upper-cased before they are compared: two
   * grades that agree after that always match, whatever scheme they are in.
   */
  lemma SameNormalisedGradeMatches(grade: JsVal, expected: JsVal)
    requires Comparable(grade, expected) && NumericallyModelled(grade, expected)
    requires ToUpper(GradeText(grade)) == ToUpper(GradeText(expected))
    ensures GradeColorClass(grade, expected) == Matching
  {
    SameUpperTextsMatch(GradeText(grade), GradeText(expected));
  }

  /** Every A-level grade starts with a capital letter other than `I`. */
  lemma ALevelKeys(u: string)
    requires u in ALevelOrder
    ensures u != [] && 'A' <= u[0] <= 'Z' && u[0] != 'I'
  {
  }

  lemma ALevelText(g: string)
    requires ALevelIndex(g) != -1
    ensures ParseFloat(g).NotANumber?
  {
    ALevelKeys(ToUpper(g));
    assert UpperChar(g[0]) == ToUpper(g)[0];
    LetterStartIsNaN(g);
  }

  lemma ALevelPair(g: string, e: string)
    requires ALevelIndex(g) != -1 && ALevelIndex(e) != -1
    ensures TextsModelled(g, e) && ClassifyTexts(g, e) == ClassifyDiff(ALevelIndex(e) - ALevelIndex(g))
  {
    ALevelText(g);
    ALevelText(e);
  }

  /** Two A-level grades are classified by the difference of their positions alone, before any other scheme. */
  lemma ALevelByPosition(grade: JsVal, expected: JsVal)
    requires Comparable(grade, expected)
    requires ToUpper(GradeText(grade)) in ALevelOrder && ToUpper(GradeText(expected)) in ALevelOrder
    ensures NumericallyModelled(grade, expected)
         && GradeColorClass(grade, expected)
         == ClassifyDiff(ALevelIndex(GradeText(expected)) - ALevelIndex(GradeText(grade)))
  {
    ALevelPair(GradeText(grade), GradeText(expected));
  }

  lemma NumericClassMirror(p: FloatParse, q: FloatParse)
    requires (p.Inexact? ==> q.NotANumber?) && (q.Inexact? ==> p.NotANumber?)
    ensures NumericClass(p, q).None? <==> NumericClass(q, p).None?
    ensures NumericClass(p, q).Some? ==> Mirrored(NumericClass(p, q).value, NumericClass(q, p).value)
  {
    if p.Integer? && q.Integer? {
      ClassifyDiffMirror(p.value - q.value);
    }
  }

  lemma ClassifyTextsMirror(g: string, e: string)
    requires TextsModelled(g, e)
    ensures Mirrored(ClassifyTexts(g, e), ClassifyTexts(e, g))
  {
    var gi, ei := ALevelIndex(g), ALevelIndex(e);
    if gi != -1 && ei != -1 {
      ClassifyDiffMirror(ei - gi);
    } else {
      NumericClassMirror(ParseFloat(g), ParseFloat(e));
      if NumericClass(ParseFloat(g), ParseFloat(e)).None? {
        ClassifyDiffMirror(VocationalValue(g) - VocationalValue(e));
      }
    }
  }

  /** Swapping the two grades mirrors the class: above becomes below by the same amount. */
  lemma MirrorSymmetry(grade: JsVal, expected: JsVal)
    requires Comparable(grade, expected) ==> NumericallyModelled(grade, expected)
    ensures Mirrored(GradeColorClass(grade, expected), GradeColorClass(expected, grade))
  {
    if Comparable(grade, expected) {
      ClassifyTextsMirror(GradeText(grade), GradeText(expected));
    }
  }

  lemma DecimalText(t: string)
    requires IsDecimalText(t)
    ensures GradeText(Str(t)) == t
  {
    TrimUnchanged(t);
  }

  lemma DecimalNotNA(t: string)
    requires IsDecimalText(t)
    ensures Str(t) != Str("N/A")
  {
    assert t[0] != 'N';
  }

  lemma DecimalNotALevel(t: string)
    requires IsDecimalText(t)
    ensures ALevelIndex(t) == -1
  {
    var u := ToUpper(t);
    assert u[0] == t[0];
    assert u !in ALevelOrder by {
      forall x | x in ALevelOrder ensures x != u {
        assert 'A' <= x[0] <= 'Z';
      }
    }
  }

  lemma NumericTexts(g: string, e: string, a: int, b: int)
    requires IsDecimalText(g) && IsDecimalText(e)
    requires ParseFloat(g) == Integer(a) && ParseFloat(e) == Integer(b)
    ensures NumericallyModelled(Str(g), Str(e))
    ensures GradeColorClass(Str(g), Str(e)) == ClassifyDiff(a - b)
  {
    DecimalText(g);
    DecimalText(e);
    DecimalNotNA(g);
    DecimalNotNA(e);
    assert Comparable(Str(g), Str(e));
    DecimalNotALevel(g);
    DecimalNotALevel(e);
    ClassifyIntegerTexts(g, e, a, b);
  }

  lemma ClassifyIntegerTexts(g: string, e: string, a: int, b: int)
    requires ALevelIndex(g) == -1
    requires ParseFloat(g) == Integer(a) && ParseFloat(e) == Integer(b)
    ensures TextsModelled(g, e) && ClassifyTexts(g, e) == ClassifyDiff(a - b)
  {
  }

  /** Integer grades are classified by `grade - expected`. */
  lemma NumericByDifference(a: int, b: int)
    requires -MaxExactInteger <= a <= MaxExactInteger && -MaxExactInteger <= b <= MaxExactInteger
    ensures NumericallyModelled(Str(IntToDecimal(a)), Str(IntToDecimal(b)))
         && GradeColorClass(Str(IntToDecimal(a)), Str(IntToDecimal(b))) == ClassifyDiff(a - b)
  {
    ParseFloatOfDecimal(a);
    ParseFloatOfDecimal(b);
    NumericTexts(IntToDecimal(a), IntToDecimal(b), a, b);
  }

  /** A text that starts with a letter other than `I` (which could begin `Infinity`) is no number. */
  lemma LetterStartIsNaN(t: string)
    requires t != [] && IsAsciiLetter(t[0]) && UpperChar(t[0]) != 'I'
    ensures ParseFloat(t).NotANumber?
  {
    PrintableNotWhitespace(t[0]);
    TrimStartUnchanged(t);
    assert LeadingDigits(t) == [];
  }

  /** Every vocational grade starts with D, M or P and is worth at least one point. */
  lemma VocationalKeys(u: string)
    requires u in VocationalPoints
    ensures u != [] && (u[0] == 'D' || u[0] == 'M' || u[0] == 'P')
    ensures VocationalPoints[u] > 0
  {
  }

  lemma VocationalText(g: string)
    requires ToUpper(g) in VocationalPoints
    ensures ParseFloat(g).NotANumber?
    ensures VocationalValue(g) == VocationalPoints[ToUpper(g)] > 0
  {
    VocationalKeys(ToUpper(g));
    assert UpperChar(g[0]) == ToUpper(g)[0];
    LetterStartIsNaN(g);
  }

  lemma VocationalTexts(g: string, e: string)
    requires ToUpper(g) in VocationalPoints && ToUpper(e) in VocationalPoints
    requires !(ToUpper(g) in ALevelOrder && ToUpper(e) in ALevelOrder)
    ensures TextsModelled(g, e)
         && ClassifyTexts(g, e) == ClassifyDiff(VocationalValue(g) - VocationalValue(e))
  {
    VocationalText(g);
    VocationalText(e);
    NotBothALevel(g, e);
    ClassifyTextsVocational(g, e);
  }

  lemma NotBothALevel(g: string, e: string)
    requires !(ToUpper(g) in ALevelOrder && ToUpper(e) in ALevelOrder)
    ensures ALevelIndex(g) == -1 || ALevelIndex(e) == -1
  {
  }

  lemma ClassifyTextsVocational(g: string, e: string)
    requires ParseFloat(g).NotANumber? && ParseFloat(e).NotANumber?
    requires ALevelIndex(g) == -1 || ALevelIndex(e) == -1
    requires VocationalValue(g) > 0 && VocationalValue(e) > 0
    ensures TextsModelled(g, e) && ClassifyTexts(g, e) == ClassifyDiff(VocationalValue(g) - VocationalValue(e))
  {
  }

  /** Two vocational grades that are not both A-level grades are classified by their points. */
  lemma VocationalByPoints(grade: JsVal, expected: JsVal)
    requires Comparable(grade, expected)
    requires ToUpper(GradeText(grade)) in VocationalPoints && ToUpper(GradeText(expected)) in VocationalPoints
    requires !(ToUpper(GradeText(grade)) in ALevelOrder && ToUpper(GradeText(expected)) in ALevelOrder)
    ensures NumericallyModelled(grade, expected)
         && GradeColorClass(grade, expected)
         == ClassifyDiff(VocationalValue(GradeText(grade)) - VocationalValue(GradeText(expected)))
  {
    VocationalTexts(GradeText(grade), GradeText(expected));
  }

  lemma UnrecognisedTexts(g: string, e: string)
    requires TextsModelled(g, e)
    requires !(ToUpper(g) in ALevelOrder && ToUpper(e) in ALevelOrder)
    requires ParseFloat(g).NotANumber? || ParseFloat(e).NotANumber?
    requires !(ToUpper(g) in VocationalPoints && ToUpper(e) in VocationalPoints)
    requires ToUpper(g) != ToUpper(e)
    ensures ClassifyTexts(g, e) == NoClass
  {
  }

  /** Distinct grades that no scheme recognises on both sides get no class. */
  lemma UnrecognisedDistinctGivesNoClass(grade: JsVal, expected: JsVal)
    requires Comparable(grade, expected) && NumericallyModelled(grade, expected)
    requires !(ToUpper(GradeText(grade)) in ALevelOrder && ToUpper(GradeText(expected)) in ALevelOrder)
    requires ParseFloat(GradeText(grade)).NotANumber? || ParseFloat(GradeText(expected)).NotANumber?
    requires !(ToUpper(GradeText(grade)) in VocationalPoints && ToUpper(GradeText(expected)) in VocationalPoints)
    requires ToUpper(GradeText(grade)) != ToUpper(GradeText(expected))
    ensures GradeColorClass(grade, expected) == NoClass
  {
    UnrecognisedTexts(GradeText(grade), GradeText(expected));
  }

  /** A text of printable characters that does not start or end with a space is its own grade text. */
  lemma PlainGradeText(t: string)
    requires t != [] && '!' <= t[0] <= '~' && '!' <= t[|t| - 1] <= '~'
    ensures GradeText(Str(t)) == t
  {
    PrintableNotWhitespace(t[0]);
    PrintableNotWhitespace(t[|t| - 1]);
    TrimUnchanged(t);
  }

  // Each worked case names its grade texts in its requires and states the
  // class the two texts receive.

  /** Case and surrounding spaces are ignored: 'a' matches ' A '. */
  lemma ExampleCaseAndSpace(g: string, e: string)
    requires g == "a" && e == " A "
    ensures NumericallyModelled(Str(g), Str(e)) && GradeColorClass(Str(g), Str(e)) == Matching
  {
    PlainGradeText(g);
    var a := SpacedGradeText(e);
    ExampleCaseTexts(g, a);
    GradesByTexts(Str(g), Str(e), g, a);
  }

  lemma ExampleCaseTexts(g: string, e: string)
    requires g == "a" && e == "A"
    ensures TextsModelled(g, e) && ClassifyTexts(g, e) == Matching
  {
    LetterStartIsNaN(g);
    LetterStartIsNaN(e);
    assert SameUpToCase(g, e);
    ToUpperSameUpToCase(g, e);
    SameUpperTextsMatch(g, e);
  }

  /** Comparable grades whose texts are known are classified by those texts. */
  lemma GradesByTexts(grade: JsVal, expected: JsVal, g: string, e: string)
    requires Comparable(grade, expected)
    requires GradeText(grade) == g && GradeText(expected) == e
    requires TextsModelled(g, e)
    ensures NumericallyModelled(grade, expected) && GradeColorClass(grade, expected) == ClassifyTexts(g, e)
  {
  }

  lemma SpacedGradeText(e: string) returns (a: string)
    requires e == " A "
    ensures a == "A" && GradeText(Str(e)) == a
  {
    var u := e[1..];
    assert TrimStart(e) == u;
    PrintableNotWhitespace(u[0]);
    assert TrimEnd(u) == u[..1];
    a := u[..1];
  }

  /** Grades given as plain texts (printable at both ends, not 'N/A') are classified by their texts. */
  lemma PlainGrades(g: string, e: string)
    requires g != [] && '!' <= g[0] <= '~' && '!' <= g[|g| - 1] <= '~' && g != "N/A"
    requires e != [] && '!' <= e[0] <= '~' && '!' <= e[|e| - 1] <= '~' && e != "N/A"
    requires TextsModelled(g, e)
    ensures NumericallyModelled(Str(g), Str(e)) && GradeColorClass(Str(g), Str(e)) == ClassifyTexts(g, e)
  {
    PlainGradeText(g);
    PlainGradeText(e);
  }

  lemma ExampleALevelTexts(g: string, e: string)
    requires g == "D" && e == "E"
    ensures TextsModelled(g, e) && ClassifyTexts(g, e) == Above
  {
    ToUpperNoLower(g);
    ToUpperNoLower(e);
    assert IndexOf(ALevelOrder, "D") == 4;
    assert IndexOf(ALevelOrder, "E") == 5;
    ALevelPair(g, e);
  }

  /** An A-level D against an expected E is one grade above. */
  lemma ExampleALevel(g: string, e: string)
    requires g == "D" && e == "E"
    ensures NumericallyModelled(Str(g), Str(e)) && GradeColorClass(Str(g), Str(e)) == Above
  {
    ExampleALevelTexts(g, e);
    PlainGrades(g, e);
  }

  /** D* (4 points) matches MM (4 points). */
  lemma ExampleVocationalMatch(g: string, e: string)
    requires g == "D*" && e == "MM"
    ensures NumericallyModelled(Str(g), Str(e)) && GradeColorClass(Str(g), Str(e)) == Matching
  {
    ExampleVocationalMatchTexts(g, e);
    PlainGrades(g, e);
  }

  lemma ExampleVocationalMatchTexts(g: string, e: string)
    requires g == "D*" && e == "MM"
    ensures TextsModelled(g, e) && ClassifyTexts(g, e) == Matching
  {
    ToUpperNoLower(g);
    ToUpperNoLower(e);
    assert VocationalPoints["D*"] == 4 && VocationalPoints["MM"] == 4;
    VocationalTexts(g, e);
  }

  lemma ExampleMixedSchemesTexts(g: string, e: string)
    requires g == "D" && e == "D*"
    ensures TextsModelled(g, e) && ClassifyTexts(g, e) == OneBelow
  {
    ToUpperNoLower(g);
    ToUpperNoLower(e);
    assert VocationalPoints["D"] == 3 && VocationalPoints["D*"] == 4;
    VocationalTexts(g, e);
  }

  /** D, an A-level letter worth 3 vocational points, is one below D* (4 points). */
  lemma ExampleMixedSchemes(g: string, e: string)
    requires g == "D" && e == "D*"
    ensures NumericallyModelled(Str(g), Str(e)) && GradeColorClass(Str(g), Str(e)) == OneBelow
  {
    ExampleMixedSchemesTexts(g, e);
    PlainGrades(g, e);
  }

  /** GCSE grade 7 against an expected 5 is significantly above. */
  lemma ExampleNumeric(g: string, e: string)
    requires g == "7" && e == "5"
    ensures NumericallyModelled(Str(g), Str(e)) && GradeColorClass(Str(g), Str(e)) == SignificantlyAbove
  {
    NumericByDifference(7, 5);
    assert IntToDecimal(7) == g && IntToDecimal(5) == e;
  }
}
