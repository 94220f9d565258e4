/**
 * The individual report's colour rules: one colour per VESPA category
 * (vision, effort, systems, practice, attitude), looked up without regard
 * to case, and one colour per score band.
 */
module VespaColors {
  import opened Wrappers
  import opened Strings
  import opened JsValues

  /** The `vespaColors` table. */
  const CategoryColors: map<string, string> := map[
    "vision" := "#ff8f00",
    "effort" := "#86b4f0",
    "systems" := "#72cb44",
    "practice" := "#7f31a4",
    "attitude" := "#f032e6"
  ]

  const UnknownCategoryColor := "#ccc"
  const MissingScoreColor := "#eee"

  /** No category colour is the fallback colour, or empty. */
  lemma CategoryColorsDistinctFromFallback()
    ensures forall k :: k in CategoryColors ==> CategoryColors[k] != UnknownCategoryColor && CategoryColors[k] != ""
  {
  }

  /** What `vespaColors[category.toLowerCase()] || '#ccc'` evaluates to. */
  datatype CategoryValue = Colour(hex: string) | InheritedMember(name: string)

  /**
   * `getCategoryColor` as written: the lower-cased name indexes a plain
   * object, so "constructor" and "__proto__" find the members every object
   * inherits, which are truthy and are returned in place of a colour.
   */
  function GetCategoryColorAsWritten(category: string): (r: CategoryValue)
    ensures r.InheritedMember? <==> ToLower(category) !in CategoryColors && ToLower(category) in ObjectPrototypeKeys
    ensures r.InheritedMember? ==> r.name == ToLower(category)
    ensures r.Colour? ==> r.hex == GetCategoryColor(category)
  {
    CategoryColorsDistinctFromFallback();
    match IndexPlainObject(CategoryColors, ToLower(category))
    case OwnEntry(c) => Colour(if c != "" then c else UnknownCategoryColor)
    case PrototypeMember(k) => InheritedMember(k)
    case NoEntry => Colour(UnknownCategoryColor)
  }

  /** "Constructor", in any case, yields the inherited constructor rather than a colour. */
  lemma InheritedCategoryIsNoColour(category: string)
    requires category == "Constructor"
    ensures GetCategoryColorAsWritten(category) == InheritedMember("constructor")
  {
    LowerConstructor(category);
  }

  lemma LowerConstructor(category: string)
    requires category == "Constructor"
    ensures ToLower(category) == "constructor" && "constructor" !in CategoryColors
  {
    var l := ToLower(category);
    assert forall i :: 0 <= i < |l| ==> l[i] == "constructor"[i];
  }

  /**
   * `getCategoryColor` as evidently intended: the category's own colour,
   * and '#ccc' for every other name.
   */
  function GetCategoryColor(category: string): (r: string)
    ensures ToLower(category) in CategoryColors ==> r == CategoryColors[ToLower(category)]
    ensures r == UnknownCategoryColor <==> ToLower(category) !in CategoryColors
  {
    CategoryColorsDistinctFromFallback();
    var key := ToLower(category);
    if key in CategoryColors then CategoryColors[key] else UnknownCategoryColor
  }

  /** The two agree on every name that is no inherited member once lower-cased. */
  lemma AsWrittenAgreesOffPrototype(category: string)
    requires ToLower(category) !in ObjectPrototypeKeys
    ensures GetCategoryColorAsWritten(category) == Colour(GetCategoryColor(category))
  {
    CategoryColorsDistinctFromFallback();
  }

  /** Only "constructor" and "__proto__" can reach the prototype: the other inherited names hold upper-case letters. */
  lemma OnlyLowerCaseMembersReachable(category: string)
    ensures ToLower(category) in ObjectPrototypeKeys ==> ToLower(category) in {"constructor", "__proto__"}
  {
    ToLowerIdempotent(category);
    var l := ToLower(category);
    if l in ObjectPrototypeKeys && l !in {"constructor", "__proto__"} {
      UpperCaseMember(l);
    }
  }

  lemma UpperCaseMember(k: string)
    requires k in ObjectPrototypeKeys && k !in {"constructor", "__proto__"}
    ensures exists i :: 0 <= i < |k| && 'A' <= k[i] <= 'Z'
  {
    var i := if k == "hasOwnProperty" then 3
             else if k == "isPrototypeOf" || k == "toString" || k == "toLocaleString" then 2
             else if k == "valueOf" then 5
             else 8;
    assert 'A' <= k[i] <= 'Z';
  }

  /** Category names that differ only in case get the same colour. */
  lemma CategoryColorCaseInsensitive(a: string, b: string)
    requires SameUpToCase(a, b)
    ensures GetCategoryColor(a) == GetCategoryColor(b)
  {
    ToLowerSameUpToCase(a, b);
  }

  /** 'VISION' is coloured as 'vision'. */
  lemma UpperCaseVision(category: string)
    requires category == "VISION"
    ensures GetCategoryColor(category) == "#ff8f00"
  {
    var l := ToLower(category);
    assert forall i :: 0 <= i < |l| ==> l[i] == "vision"[i];
    assert l == "vision";
  }

  /** `getScoreColor(score)`, with `None` for `null` and `undefined`. */
  function GetScoreColor(score: Option<real>): (r: string)
    ensures r == MissingScoreColor <==> score.None?
    ensures score.Some? ==> 0 <= BandRank(r) <= 4
  {
    match score
    case None => MissingScoreColor
    case Some(s) =>
      if s >= 9.0 then "#4caf50"
      else if s >= 7.0 then "#8bc34a"
      else if s >= 5.0 then "#ffeb3b"
      else if s >= 3.0 then "#ff9800"
      else "#f44336"
  }

  /** Each band colour is given exactly to the scores of its band. */
  lemma ScoreBands(s: real)
    ensures GetScoreColor(Some(s)) == "#4caf50" <==> s >= 9.0
    ensures GetScoreColor(Some(s)) == "#8bc34a" <==> 7.0 <= s < 9.0
    ensures GetScoreColor(Some(s)) == "#ffeb3b" <==> 5.0 <= s < 7.0
    ensures GetScoreColor(Some(s)) == "#ff9800" <==> 3.0 <= s < 5.0
    ensures GetScoreColor(Some(s)) == "#f44336" <==> s < 3.0
    ensures GetScoreColor(Some(s)) != MissingScoreColor
  {
  }

  /** The position of a score colour from the lowest band (0) to the highest (4). */
  function BandRank(colour: string): int {
    if colour == "#f44336" then 0
    else if colour == "#ff9800" then 1
    else if colour == "#ffeb3b" then 2
    else if colour == "#8bc34a" then 3
    else if colour == "#4caf50" then 4
    else -1
  }

  /** Raising a score never moves it to a lower band. */
  lemma ScoreColorMonotone(a: real, b: real)
    requires a <= b
    ensures 0 <= BandRank(GetScoreColor(Some(a))) <= BandRank(GetScoreColor(Some(b)))
  {
    ScoreBands(a);
    ScoreBands(b);
  }
}
