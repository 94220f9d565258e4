/**
 * The individual report's links into the VESPA activities page of Knack:
 * a fixed table from activity name to Knack record identifier, and the
 * URL that opens one activity.
 */
module ActivityLinks {
  import opened Wrappers
  import opened Strings
  import opened JsValues
  import Formatting

  /** The vision activities. */
  const VisionActivities: map<string, string> := map[
    "20 Questions" := "5fcb62a903d876001c5e1fcf",
    "Getting Dreams Done" := "5fcccf1303d876001c5f371e",
    "21st Birthday" := "5fcd2a08a8369b001b9f8883",
    "Perfect Day" := "5fcd3fa0a8369b001b9fa1cf",
    "Fake It!" := "5fcd49ed0e734a001db4166f",
    "Fix your dashboard" := "5fcd517ba74fa2001bd48dad",
    "SMART Goals" := "5fcd52390dcf37001c0cc901",
    "Mental Contrasting" := "5fcd52daa8369b001b9fb551",
    "Motivation Diamond" := "5ffdfaed86917a001be07f6f",
    "Personal Compass" := "5ffdfc0d1e82a6001e41e96e",
    "What\'s Stopping You" := "5ffdfd68226f20001b05eb8f",
    "Roadmap" := "5ffdffb386917a001be0853a",
    "Five Roads" := "5ffe00e19ff689001bcb12ce",
    "Now vs Most" := "5ffe01865c1cca001b161e42",
    "Rule of 3" := "5ffe02d95d4ee5001c30f11d"
  ]

  /** The effort activities. */
  const EffortActivities: map<string, string> := map[
    "One to Ten" := "5fcf4ac1e54816001f9c60ce",
    "Recognising your blockers" := "5fd01084e2bca3001bbe0283",
    "Frogs & Bannisters" := "5fd4ed8929b5fa001b3567a5",
    "10min Rule" := "5fd50afe5dbce5001b882d67",
    "Inner Story Telling" := "5fd5197510f706001b0465d6",
    "Power of If" := "5fd5217af9fddc001cf453e5",
    "Working Weeks" := "5fd52773ccb3a3002350961d",
    "3R\'s of Habit" := "5fd626af3f7ed1001b80b269",
    "25min Sprints" := "5ffe054a5d4ee5001c30f3a1",
    "Mission & Medal" := "5ffe05c11e82a6001e41f2c5",
    "Looking under Rocks" := "5ffe06d11e82a6001e41f3eb",
    "Packing Bags" := "5ffe07ef1e82a6001e41f4cf",
    "Independent Work" := "5ffe0876226f20001b05f671",
    "Pre-Made Decisions" := "5ffe09425c1cca001b16253e",
    "Effort Thermometer" := "5ffe09d15d4ee5001c30f799"
  ]

  /** The systems activities. */
  const SystemsActivities: map<string, string> := map[
    "Energy Line" := "5fd68bf12fb80d001b8fdff5",
    "Breakfast Club" := "5fdbaedfdb58e5001be744a1",
    "Snack Don\'t Binge" := "5fdfe9bbae492f001c04a05c",
    "2-4-8 Rule" := "5fe08034a529d3001b2b5b29",
    "The Lead Domino" := "5fe0dcf4590766001ba431cf",
    "STQR" := "5fe0ec9d45b5d5001bb535f8",
    "Project Progress Chart" := "5fe28f3c514b63001bb3a768",
    "Eisenhower Matrix" := "5fe2940aafeba3001dcc5f77",
    "Revision Questionnaire" := "5fe38371c76bfd001b459923",
    "Weekly Planner" := "5ffe0b461e82a6001e41f77d",
    "Priority Matrix" := "5ffe0bec5d4ee5001c30f992",
    "The Bottom Left" := "5ffe0d2186917a001be091a6",
    "Types of Attention" := "5ffe0dd186917a001be0923d",
    "Chunking Steps" := "5ffe0eb05d4ee5001c30fbdb"
  ]

  /** The practice activities. */
  const PracticeActivities: map<string, string> := map[
    "Leitner Box" := "5fe8ca680c7c48001bd7db56",
    "Right-Wrong-Right" := "5fe8d54dc4627e001b8ccd12",
    "Graphic Organisers" := "5feb62388fd0f4001b0e9d04",
    "Learn from Mistakes" := "5fec5dc532f5b1001bb756bf",
    "2 Slow, 1 Fast" := "5fecf758845cf7001bd26679",
    "Know the Skills" := "5fed8f7f8ff75c001b6ebd5f",
    "Mechanical vs Flexible" := "5fedaf2e19a8b7001c29cace",
    "Practice Questionnaire" := "5ffe0fa4aaec95001b10f70b",
    "Spaced Practice" := "5ffe101f226f20001b05fcd4",
    "Will vs Skill" := "5ffe108e5c1cca001b162b8c",
    "9 Box Grid" := "5ffe111a1e82a6001e41fe2b",
    "High Flow Spaces" := "5ffe11ac86917a001be095b6",
    "Independent Learning" := "5ffe12545d4ee5001c30fefa",
    "Time to Teach" := "5ffe12c89ff689001bcb2281",
    "Test Yourself" := "5ffe134d1e82a6001e41ffe7"
  ]

  /** The attitude activities. */
  const AttitudeActivities: map<string, string> := map[
    "Change Curve" := "5fedc39cf3be06001b6ddbe3",
    "Vampire Test" := "5fef592f648880001c1b7296",
    "There and Back" := "5ff1f0b28a0c35001c57fb89",
    "Force Field" := "5ff36ee0f46ecd001bcafaa4",
    "Success Leaves Clues" := "5ff3841848789d001c52ed81",
    "Kill Your Critic" := "5ffc7453482dc4001cf6730d",
    "Problem Solving" := "5ffe13feaaec95001b10fa95",
    "Growth Mindset" := "5ffe1476226f20001b060044",
    "Network Audits" := "5ffe15505c1cca001b162f4b",
    "The Battery" := "5ffe15ccf6034a001b98b749",
    "The First Aid Kit" := "5ffe16205c1cca001b162fe2",
    "Benefit Finding" := "5ffe169f656c5e001c712382",
    "Managing Reactions" := "5ffe1700f6034a001b98b834",
    "Failing Forwards" := "6005d84a236fdb001eb25437",
    "Stand Tall" := "6005de7c1e85bf001c4c451e",
    "Stopping Negative Thoughts" := "6005f0b6041501001c676cb8"
  ]

  /**
   * The `activityLinks` table: the five groups in the order they are
   * written, so a name written twice keeps its later identifier.
   */
  const ActivityIds: map<string, string> :=
    VisionActivities + EffortActivities + SystemsActivities + PracticeActivities + AttitudeActivities

  /** The activities page; every link starts with it. */
  const BaseUrl := "https://vespaacademy.knack.com/vespa-academy#my-vespa-activities"

  /** The action `getActivityUrl` uses when none is given. */
  const DefaultAction := "start"

  /** The action a call asks for: `action = 'start'` applies only when the argument is `undefined`. */
  function ActionText(action: JsVal): string {
    if action.Undefined? then DefaultAction else ToJsString(action)
  }

  /** The link to one activity with one action. */
  function LinkFor(id: string, act: string): string {
    BaseUrl + "?activity=" + id + "&action=" + act
  }

  /** `s` split at its first `c`: the part before it and the part after it, or `None` without a `c`. */
  function SplitAt(s: string, c: char): (r: Option<(string, string)>)
    ensures r.Some? ==> s == r.value.0 + [c] + r.value.1 && c !in r.value.0
    ensures r.None? <==> c !in s
  {
    if s == [] then None
    else if s[0] == c then Some(([], s[1..]))
    else match SplitAt(s[1..], c)
      case None => None
      case Some(p) => Some(([s[0]] + p.0, p.1))
  }

  /** Splitting `a + [c] + b` at `c` gives back `a` and `b` when `a` holds no `c`. */
  lemma {:induction false} SplitAtConcat(a: string, b: string, c: char)
    requires c !in a
    ensures SplitAt(a + [c] + b, c) == Some((a, b))
  {
    if a == [] {
      assert a + [c] + b == [c] + b;
    } else {
      assert (a + [c] + b)[0] == a[0] && a[0] != c by {
        assert a[0] in a;
      }
      assert (a + [c] + b)[1..] == a[1..] + [c] + b;
      assert c !in a[1..] by {
        assert forall x :: x in a[1..] ==> x in a;
      }
      SplitAtConcat(a[1..], b, c);
      assert [a[0]] + a[1..] == a;
    }
  }

  /** Reads the activity identifier and the action back out of a link. */
  function ParseLink(url: string): Option<(string, string)> {
    var p := BaseUrl + "?activity=";
    if p <= url then
      match SplitAt(url[|p|..], '&')
      case None => None
      case Some(parts) =>
        if "action=" <= parts.1 then Some((parts.0, parts.1[7..])) else None
    else None
  }

  /** A link names exactly the identifier and the action it was made from. */
  lemma LinkRoundTrip(id: string, act: string)
    requires '&' !in id
    ensures ParseLink(LinkFor(id, act)) == Some((id, act))
  {
    var p := BaseUrl + "?activity=";
    var url := LinkFor(id, act);
    assert url == p + (id + "&action=" + act);
    assert url[|p|..] == id + ['&'] + ("action=" + act);
    SplitAtConcat(id, "action=" + act, '&');
    assert ("action=" + act)[7..] == act;
  }

  /** Every link starts with the base page, is longer than it, and reads back when the identifier holds no '&'. */
  lemma LinkExtendsBase(id: string, act: string)
    ensures BaseUrl < LinkFor(id, act)
    ensures '&' !in id ==> ParseLink(LinkFor(id, act)) == Some((id, act))
  {
    assert LinkFor(id, act) == BaseUrl + ("?activity=" + id + "&action=" + act);
    if '&' !in id {
      LinkRoundTrip(id, act);
    }
  }

  /** The base page is no link to an activity. */
  lemma BaseUrlIsNoLink()
    ensures ParseLink(BaseUrl).None?
  {
    assert |BaseUrl + "?activity="| > |BaseUrl|;
  }

  /** What `getActivityUrl` returns: a link, or an inherited member where an activity identifier belongs. */
  datatype LinkValue = Url(url: string) | InheritedMemberUrl(member: string, action: string)

  /**
   * `getActivityUrl(activityName, action)` as written, over the table
   * `links`: the name indexes a plain object, so "constructor", "toString"
   * and the other inherited names find a function, which is truthy, and
   * the link is built around that function's text instead of an identifier.
   */
  function ActivityUrlAsWritten(links: map<string, string>, activityName: string, action: JsVal): (r: LinkValue)
    ensures activityName !in links && activityName in ObjectPrototypeKeys ==>
              r == InheritedMemberUrl(activityName, ActionText(action))
  {
    match IndexPlainObject(links, activityName)
    case OwnEntry(id) => Url(if id == "" then BaseUrl else LinkFor(id, ActionText(action)))
    case PrototypeMember(k) => InheritedMemberUrl(k, ActionText(action))
    case NoEntry => Url(BaseUrl)
  }

  /** `getActivityUrl` as written, over the `activityLinks` table. */
  function GetActivityUrlAsWritten(activityName: string, action: JsVal): (r: LinkValue)
    ensures activityName in ActivityIds || activityName !in ObjectPrototypeKeys ==>
              r == Url(GetActivityUrl(activityName, action))
    ensures activityName !in ActivityIds && activityName in ObjectPrototypeKeys ==>
              r == InheritedMemberUrl(activityName, ActionText(action))
  {
    if activityName in ActivityIds then
      AsWrittenAgreesOnListedNames(ActivityIds, activityName, action);
      ActivityUrlAsWritten(ActivityIds, activityName, action)
    else if activityName !in ObjectPrototypeKeys then
      AsWrittenAgreesOffPrototype(ActivityIds, activityName, action);
      ActivityUrlAsWritten(ActivityIds, activityName, action)
    else
      ActivityUrlAsWritten(ActivityIds, activityName, action)
  }

  /**
   * `getActivityUrl` as evidently intended, over the table `links`: the
   * activity's own identifier with the action, or the base page when the
   * name has no identifier; the link reads back as that identifier and action.
   */
  function ActivityUrl(links: map<string, string>, activityName: string, action: JsVal): (r: string)
    ensures BaseUrl <= r
    ensures r == BaseUrl <==> activityName !in links || links[activityName] == ""
    ensures activityName in links && '&' !in links[activityName] && links[activityName] != "" ==>
              ParseLink(r) == Some((links[activityName], ActionText(action)))
  {
    if activityName in links && links[activityName] != "" then
      var id := links[activityName];
      LinkExtendsBase(id, ActionText(action));
      LinkFor(id, ActionText(action))
    else BaseUrl
  }

  /** `getActivityUrl` as evidently intended, over the `activityLinks` table. */
  function GetActivityUrl(activityName: string, action: JsVal): (r: string)
    ensures BaseUrl <= r
    ensures r == BaseUrl <==> activityName !in ActivityIds || ActivityIds[activityName] == ""
  {
    ActivityUrl(ActivityIds, activityName, action)
  }

  /** A listed name with an identifier gets the link to that identifier. */
  lemma ListedNameLink(links: map<string, string>, activityName: string, action: JsVal)
    requires activityName in links && links[activityName] != ""
    ensures ActivityUrl(links, activityName, action) == LinkFor(links[activityName], ActionText(action))
  {
  }

  /** The two agree on every name that is no inherited member. */
  lemma AsWrittenAgreesOffPrototype(links: map<string, string>, activityName: string, action: JsVal)
    requires activityName !in ObjectPrototypeKeys
    ensures ActivityUrlAsWritten(links, activityName, action) == Url(ActivityUrl(links, activityName, action))
  {
  }

  /** The two agree on every name the table lists, inherited or not. */
  lemma AsWrittenAgreesOnListedNames(links: map<string, string>, activityName: string, action: JsVal)
    requires activityName in links
    ensures ActivityUrlAsWritten(links, activityName, action) == Url(ActivityUrl(links, activityName, action))
  {
  }

  /** A name is in the table exactly when it is in one of its groups. */
  lemma MergedMembership(a: map<string, string>, b: map<string, string>, c: map<string, string>,
                         d: map<string, string>, e: map<string, string>, name: string)
    ensures name in a + b + c + d + e <==> name in a || name in b || name in c || name in d || name in e
    ensures name in a && name !in b && name !in c && name !in d && name !in e ==> (a + b + c + d + e)[name] == a[name]
  {
  }

  lemma ExampleNamesInVisionActivities(name: string)
    requires name == "constructor" || name == "20 questions" || name == "20 Questions"
    ensures name in VisionActivities <==> name == "20 Questions"
    ensures name == "20 Questions" ==> VisionActivities[name] == "5fcb62a903d876001c5e1fcf"
  {
  }

  lemma ExampleNamesInEffortActivities(name: string)
    requires name == "constructor" || name == "20 questions" || name == "20 Questions"
    ensures name in EffortActivities <==> false
  {
  }

  lemma ExampleNamesInSystemsActivities(name: string)
    requires name == "constructor" || name == "20 questions" || name == "20 Questions"
    ensures name in SystemsActivities <==> false
  {
  }

  lemma ExampleNamesInPracticeActivities(name: string)
    requires name == "constructor" || name == "20 questions" || name == "20 Questions"
    ensures name in PracticeActivities <==> false
  {
  }

  lemma ExampleNamesInAttitudeActivities(name: string)
    requires name == "constructor" || name == "20 questions" || name == "20 Questions"
    ensures name in AttitudeActivities <==> false
  {
  }

  /** No activity is called 'constructor'. */
  lemma ConstructorIsNoActivity(name: string)
    requires name == "constructor"
    ensures name !in ActivityIds
  {
    MergedMembership(VisionActivities, EffortActivities, SystemsActivities, PracticeActivities, AttitudeActivities, name);
    ExampleNamesInVisionActivities(name);
    ExampleNamesInEffortActivities(name);
    ExampleNamesInSystemsActivities(name);
    ExampleNamesInPracticeActivities(name);
    ExampleNamesInAttitudeActivities(name);
  }

  /** No activity is called '20 questions'. */
  lemma LowerCaseNameIsNoActivity(name: string)
    requires name == "20 questions"
    ensures name !in ActivityIds
  {
    MergedMembership(VisionActivities, EffortActivities, SystemsActivities, PracticeActivities, AttitudeActivities, name);
    ExampleNamesInVisionActivities(name);
    ExampleNamesInEffortActivities(name);
    ExampleNamesInSystemsActivities(name);
    ExampleNamesInPracticeActivities(name);
    ExampleNamesInAttitudeActivities(name);
  }

  /** '20 Questions' is listed once, with identifier 5fcb62a903d876001c5e1fcf. */
  lemma TwentyQuestionsIsListed(name: string)
    requires name == "20 Questions"
    ensures name in ActivityIds && ActivityIds[name] == "5fcb62a903d876001c5e1fcf"
  {
    MergedMembership(VisionActivities, EffortActivities, SystemsActivities, PracticeActivities, AttitudeActivities, name);
    ExampleNamesInVisionActivities(name);
    ExampleNamesInEffortActivities(name);
    ExampleNamesInSystemsActivities(name);
    ExampleNamesInPracticeActivities(name);
    ExampleNamesInAttitudeActivities(name);
  }

  /** As written, `getActivityUrl('constructor')` builds no activity link at all. */
  lemma InheritedNameGivesNoLink(activityName: string)
    requires activityName == "constructor"
    ensures GetActivityUrlAsWritten(activityName, Undefined) == InheritedMemberUrl("constructor", "start")
  {
    ConstructorIsNoActivity(activityName);
  }

  /** The corrected lookup sends 'constructor' to the base page. */
  lemma InheritedNameGetsBasePage(activityName: string, action: JsVal)
    requires activityName == "constructor"
    ensures GetActivityUrl(activityName, action) == BaseUrl
  {
    ConstructorIsNoActivity(activityName);
  }

  /** '20 Questions' opens activity 5fcb62a903d876001c5e1fcf with the default action. */
  lemma TwentyQuestionsLink(activityName: string)
    requires activityName == "20 Questions"
    ensures GetActivityUrl(activityName, Undefined) == LinkFor("5fcb62a903d876001c5e1fcf", "start")
  {
    TwentyQuestionsIsListed(activityName);
    ListedNameLink(ActivityIds, activityName, Undefined);
  }

  /** Names are matched exactly: '20 questions' is no activity and gets the base page. */
  lemma NamesAreCaseSensitive(activityName: string)
    requires activityName == "20 questions"
    ensures GetActivityUrl(activityName, Str("view")) == BaseUrl
  {
    LowerCaseNameIsNoActivity(activityName);
  }
}
