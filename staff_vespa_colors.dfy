/**
 * The staff overview's own copy of the VESPA colour rules. It keeps its
 * own table and functions, written as in that widget, and is proved to
 * agree with the individual report's copy on every input.
 */
module StaffVespaColors {
  import opened Wrappers
  import opened Strings
  import opened JsValues
  import VespaColors

  /** The staff overview's `vespaColors` table. */
  const CategoryColors: map<string, string> := map[
    "vision" := "#ff8f00",
    "effort" := "#86b4f0",
    "systems" := "#72cb44",
    "practice" := "#7f31a4",
    "attitude" := "#f032e6"
  ]

  /**
   * `getCategoryColor` as written, with the same inherited-member lookup
   * as the individual report's copy.
   */
  function GetCategoryColorAsWritten(category: string): (r: VespaColors.CategoryValue)
    ensures r.InheritedMember? <==> ToLower(category) !in CategoryColors && ToLower(category) in ObjectPrototypeKeys
    ensures r.InheritedMember? ==> r.name == ToLower(category)
    ensures r.Colour? ==> r.hex == GetCategoryColor(category)
  {
    assert forall k :: k in CategoryColors ==> CategoryColors[k] != "";
    match IndexPlainObject(CategoryColors, ToLower(category))
    case OwnEntry(c) => VespaColors.Colour(if c != "" then c else "#ccc")
    case PrototypeMember(k) => VespaColors.InheritedMember(k)
    case NoEntry => VespaColors.Colour("#ccc")
  }

  /** `getCategoryColor` as evidently intended: own entries only, '#ccc' otherwise. */
  function GetCategoryColor(category: string): (r: string)
    ensures ToLower(category) in CategoryColors ==> r == CategoryColors[ToLower(category)]
    ensures r == "#ccc" <==> ToLower(category) !in CategoryColors
  {
    var key := ToLower(category);
    if key in CategoryColors then CategoryColors[key] else "#ccc"
  }

  /** `getScoreColor(score)`, with `None` for `null` and `undefined`. */
  function GetScoreColor(score: Option<real>): (r: string)
    ensures r == "#eee" <==> score.None?
    ensures score.Some? ==> 0 <= VespaColors.BandRank(r) <= 4
  {
    match score
    case None => "#eee"
    case Some(s) =>
      if s >= 9.0 then "#4caf50"
      else if s >= 7.0 then "#8bc34a"
      else if s >= 5.0 then "#ffeb3b"
      else if s >= 3.0 then "#ff9800"
      else "#f44336"
  }

  /** The two widgets' tables are the same table. */
  lemma TablesAgree()
    ensures CategoryColors == VespaColors.CategoryColors
  {
  }

  /** Both copies give every score and every category the same colour, and fail alike on inherited names. */
  lemma CopiesAgree(score: Option<real>, category: string)
    ensures GetScoreColor(score) == VespaColors.GetScoreColor(score)
    ensures GetCategoryColor(category) == VespaColors.GetCategoryColor(category)
    ensures GetCategoryColorAsWritten(category) == VespaColors.GetCategoryColorAsWritten(category)
  {
    TablesAgree();
  }

  /** The staff copy's bands, inherited from the agreement: thresholds at 9, 7, 5 and 3, rising with the score. */
  lemma StaffScoreBands(a: real, b: real)
    requires a <= b
    ensures GetScoreColor(None) == "#eee"
    ensures GetScoreColor(Some(a)) == "#4caf50" <==> a >= 9.0
    ensures GetScoreColor(Some(a)) == "#f44336" <==> a < 3.0
    ensures 0 <= VespaColors.BandRank(GetScoreColor(Some(a))) <= VespaColors.BandRank(GetScoreColor(Some(b)))
  {
    CopiesAgree(Some(a), "");
    CopiesAgree(Some(b), "");
    VespaColors.ScoreBands(a);
    VespaColors.ScoreColorMonotone(a, b);
  }

  /** The staff copy is case-insensitive and returns the inherited constructor for "Constructor" just as the other does. */
  lemma StaffCategoryFacts(a: string, b: string, c: string)
    requires SameUpToCase(a, b) && c == "Constructor"
    ensures GetCategoryColor(a) == GetCategoryColor(b)
    ensures GetCategoryColorAsWritten(c) == VespaColors.InheritedMember("constructor")
  {
    CopiesAgree(None, a);
    CopiesAgree(None, b);
    CopiesAgree(None, c);
    VespaColors.CategoryColorCaseInsensitive(a, b);
    VespaColors.InheritedCategoryIsNoColour(c);
  }
}
