# VESPA widgets: a verified model of the client-side rules

The VESPA Academy widgets run inside the Knack platform. Every widget makes
the same small, value-level decisions, and this project models and proves
those decisions:

- **Grade comparison** (`getGradeColorClass`, academic profile). A grade and an expected grade
  get one of six CSS classes. The classes are tried in a fixed order: A-level letter order,
  then numeric grades, then the vocational points table, then plain equality.
- **Knack field clean-up** (formatting helpers, academic profile):
  - `sanitizeField` strips tags and markdown characters, decodes entities and trims;
  - `isValidKnackId` recognises 24-hex-digit record IDs;
  - `extractRecordId` takes a record ID from a string, an object or an array.
- **The academic profile API client**:
  - `coerceText` reduces a CMS value to one text;
  - the display fields of a fetched student record are rewritten in place;
  - the `X-User-Role` header hint comes from Knack roles, from an explicit override, or from
    a fixed default.
- **Staff detection** (`knackAuth`, staff overview):
  - role tokens are normalised from strings and role objects;
  - tokens are matched against fixed object IDs and name hints;
  - `getUser`, `isStaff` and `getUserEmail` build the user record.
- **Text helpers** (individual report): `nl2br` and `truncate`.
- **VESPA colours**: a colour per category and a colour per score band. The individual report
  and the staff overview each keep their own copy.
- **Activity links** (individual report): the activity-name table and `getActivityUrl`.

JavaScript values are modelled by one datatype, `JsValues.JsVal`: `null`, `undefined`, booleans,
integer numbers, strings, arrays and plain objects. JavaScript's truthiness, `String(v)` and
property reads are functions on that datatype. The Knack page globals (`Knack.getUserRoles`,
`Knack.getUserAttributes`) are an input value, `JsValues.KnackHost`. That value records whether
Knack is present and what each call returns.

The modules follow the source files:

| module | source file |
|---|---|
| `Wrappers`, `Strings`, `JsValues` | shared helpers: `Option`, JavaScript string operations, JavaScript values |
| `GradeColors` | academic-profile/src/utils/gradeColors.js |
| `Formatting` | academic-profile/src/utils/formatting.js |
| `AcademicProfileApi` | academic-profile/src/services/api.js |
| `KnackAuth` | staff-overview/src/services/knackAuth.js |
| `TextUtils` | individual-report/src/utils/textUtils.js |
| `VespaColors` | individual-report/src/data/vespaColors.js |
| `StaffVespaColors` | staff-overview/src/data/vespaColors.js |
| `ActivityLinks` | individual-report/src/data/activityLinks.js |

Where the source mutates state, the model does too. `AcademicProfileApi.StudentRecord` is a class
whose methods rewrite the student record's fields in place. The loop of `coerceText` over its text
keys is the method `AcademicProfileApi.CoerceText`, proved against the function that specifies it.
Code that builds a value by updating a local variable is modelled by methods as well:
- the pushes of the `flatMap` callback in `normalizeRoleTokens` (`KnackAuth.RoleTokenCandidates`);
- the `let roleHeader` updates of the API writers (`AcademicProfileApi.KnackRoleHeader`,
  `OverrideRoleHeader`, `OptionsRoleHeader` and `PayloadRoleHeader`).

Each of these methods is proved against a function. The rest of the source is expressions over
values, so it is modelled by functions and lemmas.

## Model

| member | source | states |
|---|---|---|
| GradeColors.GetGradeColorClass | academic-profile/src/utils/gradeColors.js:12-81 | The class name is empty exactly when the comparison yields no class |
| GradeColors.GradeColorClass | academic-profile/src/utils/gradeColors.js:12-81 | A falsy grade or expected grade, or either being exactly 'N/A', gives no class |
| GradeColors.MissingGradeGivesNoClass | academic-profile/src/utils/gradeColors.js:13-15 | A falsy grade or expected grade, or either being exactly 'N/A', gives no class |
| GradeColors.CssInjective | academic-profile/src/utils/gradeColors.js:28-33 | The six classes have six distinct CSS names, and only "no class" has the empty name |
| GradeColors.ClassifyDiffBands | academic-profile/src/utils/gradeColors.js:28-33 | Differences of at least 2, then 1, 0, -1 and -2, and at most -3 map to the six classes; every integer gets exactly one class |
| GradeColors.ClassifyDiffMirror | academic-profile/src/utils/gradeColors.js:28-33 | Negating the difference mirrors the class: above becomes one below, significantly above becomes two or far below, and matching stays |
| GradeColors.ALevelByPosition | academic-profile/src/utils/gradeColors.js:21-34 | Two A-level letters are classified by the difference of their positions in the letter order |
| GradeColors.ExampleALevel | academic-profile/src/utils/gradeColors.js:25-64 | 'D' against 'E' is classified by letter order, as 'grade-above', although 'D' is also a vocational grade |
| GradeColors.ParseFloatOfDecimal | academic-profile/src/utils/gradeColors.js:37-38 | `parseFloat` of an integer's decimal text gives back that integer, within the exactly representable range |
| GradeColors.ParseFloatSameUpToCase | academic-profile/src/utils/gradeColors.js:17-38 | Upper-casing never changes the number `parseFloat` reads, unless one of the two texts reads as no number |
| GradeColors.LetterStartIsNaN | academic-profile/src/utils/gradeColors.js:37-40 | A text that starts with a letter other than 'I' reads as no number |
| GradeColors.NumericByDifference | academic-profile/src/utils/gradeColors.js:37-49 | Two integer grades are classified by grade minus expected |
| GradeColors.ExampleNumeric | academic-profile/src/utils/gradeColors.js:37-49 | 7 against 5 is 'grade-significantly-above' |
| GradeColors.VocationalKeys | academic-profile/src/utils/gradeColors.js:52-59 | Every vocational grade starts with D, M or P and is worth a positive number of points |
| GradeColors.VocationalByPoints | academic-profile/src/utils/gradeColors.js:61-73 | Two vocational grades that are not both A-level letters are classified by the difference of their points |
| GradeColors.ExampleVocationalMatch | academic-profile/src/utils/gradeColors.js:52-73 | 'D*' (4 points) against 'MM' (4 points) is 'grade-matching' |
| GradeColors.ExampleMixedSchemes | academic-profile/src/utils/gradeColors.js:52-73 | 'D' (3 points) against 'D*' (4 points) is 'grade-one-below' |
| GradeColors.SameNormalisedGradeMatches | academic-profile/src/utils/gradeColors.js:17-78 | Two grades that are equal once trimmed and upper-cased always give 'grade-matching', whichever branch decides |
| GradeColors.UnrecognisedDistinctGivesNoClass | academic-profile/src/utils/gradeColors.js:76-80 | Distinct grades that no branch recognises give no class |
| GradeColors.ExampleCaseAndSpace | academic-profile/src/utils/gradeColors.js:17-23 | 'a' against ' A ' is 'grade-matching' |
| GradeColors.PlainGrades | academic-profile/src/utils/gradeColors.js:13-18 | A grade text without surrounding white space, other than 'N/A', reaches the comparison unchanged |
| GradeColors.MirrorSymmetry | academic-profile/src/utils/gradeColors.js:21-80 | Swapping grade and expected grade mirrors the class in every branch |
| GradeColors.ClassifyTextsMirror | academic-profile/src/utils/gradeColors.js:21-80 | The branch-ordered comparison of two texts is mirror-symmetric |
| GradeColors.NumericClassMirror | academic-profile/src/utils/gradeColors.js:37-49 | The numeric branch applies to both argument orders or to neither, with mirrored classes |
| GradeColors.IndexOf | academic-profile/src/utils/gradeColors.js:22-23 | `indexOf` gives -1 exactly for a missing letter, and otherwise the first position holding it |
| Formatting.SanitizeField | academic-profile/src/utils/formatting.js:25-46 | `null` and `undefined` give ''; the result holds none of the markdown characters and has no white space at either end |
| Formatting.SanitizeText | academic-profile/src/utils/formatting.js:31-45 | The clean-up of a text holds no markdown character and is trimmed |
| Formatting.SanitizeWithoutEntities | academic-profile/src/utils/formatting.js:31-45 | A text with no '&' has nothing decoded: the result is the text with its tags stripped and its markdown characters removed, then trimmed |
| Formatting.SanitizePlainText | academic-profile/src/utils/formatting.js:31-45 | A text with no '<', no '&', no markdown character and no white space at either end comes back unchanged |
| Formatting.SanitizePlainField | academic-profile/src/utils/formatting.js:25-46 | Such a text, as a string field, is displayed as it is |
| Formatting.DecodeWithoutAmpersand | academic-profile/src/utils/formatting.js:37-43 | Decoding leaves a text without '&' unchanged |
| Formatting.StripTags | academic-profile/src/utils/formatting.js:31 | Tag removal adds no character, leaves text without '<' alone and leaves no '<' followed later by '>' |
| Formatting.DecodeKeepsMarkdownOut | academic-profile/src/utils/formatting.js:37-43 | Entity decoding produces no markdown character |
| Formatting.AmpersandFirst | academic-profile/src/utils/formatting.js:37-43 | '&amp;lt;' sanitises to '<', because '&amp;' is decoded first |
| Formatting.DecodeShort | academic-profile/src/utils/formatting.js:37-43 | A text shorter than every entity comes out of decoding unchanged |
| Formatting.ApostropheNeverDecoded | academic-profile/src/utils/formatting.js:34-42 | As written, no apostrophe ever appears in the output unless the input held one |
| Formatting.SanitizeFieldFixed | academic-profile/src/utils/formatting.js:25-46 | The corrected clean-up keeps all of `sanitizeField`'s guarantees |
| Formatting.ApostropheEntityFixed | academic-profile/src/utils/formatting.js:42 | With the correction, '&#039;' becomes an apostrophe |
| Formatting.IsValidKnackId | academic-profile/src/utils/formatting.js:53-56 | A value is a Knack ID exactly when it is a string of 24 hexadecimal digits |
| Formatting.KnackIdCaseInsensitive | academic-profile/src/utils/formatting.js:53-56 | Knack-ID validity ignores case, and a valid ID has 24 characters |
| Formatting.NonStringsAreNotIds | academic-profile/src/utils/formatting.js:53-55 | Non-strings and the empty string are never valid IDs |
| Formatting.ExtractRecordId | academic-profile/src/utils/formatting.js:63-85 | A falsy value gives `null`; any ID returned is a valid Knack ID |
| Formatting.ExtractIsFirstCandidate | academic-profile/src/utils/formatting.js:63-85 | The result is the first valid ID among the string itself, `.id`, `.identifier`, the first array element and that element's `.id`; it is `null` exactly when none of those is a valid ID |
| Formatting.ExtractPrecedence | academic-profile/src/utils/formatting.js:67-84 | The order is the string itself, then `.id`, then `.identifier`, then the first array element as a string or its `.id`; other scalars give `null` |
| Formatting.ExtractRecordIdAsWritten | academic-profile/src/utils/formatting.js:63-85 | As written, a falsy value gives `null`, the call throws exactly for an array whose first element is `null`, and any ID returned is valid |
| Formatting.ExtractThrowsOnlyOnNullFirst | academic-profile/src/utils/formatting.js:77-80 | As written, the call throws exactly for an array whose first element is `null` |
| AcademicProfileApi.CoerceText | academic-profile/src/services/api.js:18-28 | The loop over the five text keys computes exactly `CoercedText` |
| AcademicProfileApi.CoercedText | academic-profile/src/services/api.js:18-28 | `null` and `undefined` give `null`, and every text result is trimmed |
| AcademicProfileApi.FieldTextFirstMatch | academic-profile/src/services/api.js:22-24 | The first truthy field in key order decides, and later keys are never consulted |
| AcademicProfileApi.FieldTextSome | academic-profile/src/services/api.js:22-25 | The key search succeeds exactly when some key names a truthy field |
| AcademicProfileApi.CoerceObjectFirstMatch | academic-profile/src/services/api.js:21-25 | An object coerces to a text exactly when one of identifier, name, text, label or value is truthy, and then to the trimmed text of the first such field |
| AcademicProfileApi.CoerceIdentifierExample | academic-profile/src/services/api.js:21-24 | {identifier: 'Acme School'} gives 'Acme School' |
| AcademicProfileApi.CoerceBlankWinnerExample | academic-profile/src/services/api.js:21-24 | A blank winning field gives '' and does not fall through to `name` |
| AcademicProfileApi.CoerceStable | academic-profile/src/services/api.js:18-28 | Coercing a coerced text again changes nothing |
| AcademicProfileApi.DisplayValue | academic-profile/src/services/api.js:66-69 | A field's display value is the value itself or its non-empty coerced text, and a truthy value stays truthy |
| AcademicProfileApi.DisplayValueFacts | academic-profile/src/services/api.js:66-69 | A field takes its non-empty coerced text, and otherwise keeps its value; truthiness is kept and applying the rule twice changes nothing |
| AcademicProfileApi.NormalisedFieldsFacts | academic-profile/src/services/api.js:65-70 | Only name, school, yearGroup and tutorGroup are rewritten (and added when missing); every other field keeps its value |
| AcademicProfileApi.MissingDisplayKeyBecomesUndefined | academic-profile/src/services/api.js:66-69 | A display field the record lacks is set to `undefined` |
| AcademicProfileApi.NormaliseIdempotent | academic-profile/src/services/api.js:65-70 | Normalising an already normalised record changes nothing |
| AcademicProfileApi.StudentRecord.constructor | academic-profile/src/services/api.js:65 | The record starts with the fetched fields |
| AcademicProfileApi.StudentRecord.NormaliseField | academic-profile/src/services/api.js:66-69 | One assignment rewrites that one field with its display value |
| AcademicProfileApi.StudentRecord.NormaliseDisplayFields | academic-profile/src/services/api.js:65-70 | The four assignments leave the record normalised: the display fields rewritten and every other field unchanged |
| AcademicProfileApi.RoleObjectNameIsExact | academic-profile/src/services/api.js:135 | A role object counts as student only when its name is exactly 'Student'; a role string matches 'student' in any case |
| AcademicProfileApi.KnackRoles | academic-profile/src/services/api.js:133-135 | No roles without Knack or `getUserRoles`; a falsy result counts as an empty list, an array is the list, and any other truthy result makes `roles.some` throw |
| AcademicProfileApi.DerivedRole | academic-profile/src/services/api.js:131-138 | No role without readable Knack roles, 'student' exactly when some role is a student role, and 'staff' otherwise |
| AcademicProfileApi.NoRolesMeansStaff | academic-profile/src/services/api.js:134-136 | A falsy roles result counts as an empty list and gives 'staff' |
| AcademicProfileApi.KnackRoleHeader | academic-profile/src/services/api.js:131-144 | The Knack-only writers send no header without Knack, 'student' for a student role and 'staff' otherwise |
| AcademicProfileApi.OverrideHint | academic-profile/src/services/api.js:273 | The override (`options.roleHint`, and `payload.__roleHint` at line 321) is `null` unless the carrier is an object, and `undefined` when the object lacks the key |
| AcademicProfileApi.OverrideRoleHeader | academic-profile/src/services/api.js:272-283 | A hint with a non-empty trimmed text wins, and otherwise the Knack-derived role applies; any header sent is non-empty, trimmed and lower-case |
| AcademicProfileApi.OverrideHintGives | academic-profile/src/services/api.js:273-275 | The hint read from the options has non-blank text exactly when the options are an object with such a hint, and it is then that field |
| AcademicProfileApi.OptionsRoleHeader | academic-profile/src/services/api.js:272-283 | The writers with `options.roleHint` send the hint's trimmed lower-case text when it is non-blank, and otherwise the Knack-derived role |
| AcademicProfileApi.PayloadRoleHeader | academic-profile/src/services/api.js:320-331 | `addUcasApplicationComment` does the same with the payload's `__roleHint` |
| AcademicProfileApi.FixedRoleHeader | academic-profile/src/services/api.js:479-549 | With no hint the fixed default is used, and a hint is sent trimmed and lower-cased |
| AcademicProfileApi.FixedDefaults | academic-profile/src/services/api.js:479-549 | The invite and statement-complete calls default to 'student'; the full-reference and contribution calls default to 'staff' |
| AcademicProfileApi.HintOverridesDefaults | academic-profile/src/services/api.js:479-503 | Given a hint, calls with different defaults send the same header |
| AcademicProfileApi.BlankHintDivergence | academic-profile/src/services/api.js:479 | A blank hint is sent as an empty header by the fixed-default calls, where the override writers fall back to Knack |
| KnackAuth.RoleCandidates | staff-overview/src/services/knackAuth.js:12-19 | Every candidate is truthy; a falsy role gives none and a string role gives itself |
| KnackAuth.RoleTokenCandidates | staff-overview/src/services/knackAuth.js:12-19 | The pushes compute exactly `RoleCandidates` |
| KnackAuth.TruthyFieldsMembers | staff-overview/src/services/knackAuth.js:16-18 | A value is collected exactly when one of the keys names it as a truthy field |
| KnackAuth.RoleKeysUnrolled | staff-overview/src/services/knackAuth.js:15-18 | The truthy fields of a role are its identifier, id, key and name fields, each kept only when truthy, in that order |
| KnackAuth.ObjectRoleCandidates | staff-overview/src/services/knackAuth.js:15-18 | A role object contributes its truthy identifier, id, key and name fields, in that order, and a value is a candidate exactly when one of those fields holds it |
| KnackAuth.CandidatesMembers | staff-overview/src/services/knackAuth.js:11-20 | The candidate list is the union of every role's candidates |
| KnackAuth.NormaliseTokens | staff-overview/src/services/knackAuth.js:21 | Each candidate is stringified, trimmed and lower-cased, one for one |
| KnackAuth.NonEmptyTextsMembers | staff-overview/src/services/knackAuth.js:22 | The filter keeps exactly the non-empty texts |
| KnackAuth.NormaliseAll | staff-overview/src/services/knackAuth.js:21-22 | Every surviving token is non-empty, trimmed and lower-case |
| KnackAuth.NormaliseAllMembers | staff-overview/src/services/knackAuth.js:21-22 | A text survives exactly when it is non-empty and some candidate normalises to it |
| KnackAuth.NormalizeRoleTokens | staff-overview/src/services/knackAuth.js:7-23 | A non-array gives no tokens; every token is non-empty, trimmed and lower-case |
| KnackAuth.RoleTokenMembers | staff-overview/src/services/knackAuth.js:7-23 | A text is a token exactly when it is non-empty and some role's candidate normalises to it |
| KnackAuth.IsStaffFromRoles | staff-overview/src/services/knackAuth.js:25-33 | Staff exactly when some token equals one of the staff object IDs or contains one of the name hints; only a non-empty role array can make staff |
| KnackAuth.StaffIdsAreLower | staff-overview/src/services/knackAuth.js:27 | Lower-casing the staff object IDs changes nothing |
| KnackAuth.NoRolesNotStaff | staff-overview/src/services/knackAuth.js:25-32 | A non-array or an empty role list is never staff |
| KnackAuth.StaffByIdentifier | staff-overview/src/services/knackAuth.js:27-30 | A token equal to object_5, object_7, object_18 or object_78 makes the user staff |
| KnackAuth.StaffByNameHint | staff-overview/src/services/knackAuth.js:31 | A token containing tutor, staff, admin, head, teacher or subject makes the user staff |
| KnackAuth.StaffIdentifierAnyCase | staff-overview/src/services/knackAuth.js:21-30 | 'OBJECT_5' is matched whatever its case |
| KnackAuth.StudentOnlyNotStaff | staff-overview/src/services/knackAuth.js:25-32 | A user whose only token is 'student' is not staff |
| KnackAuth.GetUser | staff-overview/src/services/knackAuth.js:40-71 | No user without Knack or its attributes call; otherwise a user exactly when the attributes and their email are truthy, with the roles `getUserRoles` returns (or [] without it) and the tokens and staff flag taken from those roles |
| KnackAuth.GetUserNameFallback | staff-overview/src/services/knackAuth.js:61 | The name falls back from name to full_name to '' |
| KnackAuth.NoRolesApiNotStaff | staff-overview/src/services/knackAuth.js:48-57 | Without `getUserRoles` the user has no tokens and is not staff |
| KnackAuth.IsStaff | staff-overview/src/services/knackAuth.js:77-80 | True exactly when there is a user and the page's roles make them staff |
| KnackAuth.IsStaffFromHost | staff-overview/src/services/knackAuth.js:40-80 | Staff exactly when Knack and its attributes call are present, the attributes and their email are truthy, and the page's roles mark a staff member |
| KnackAuth.GetUserEmail | staff-overview/src/services/knackAuth.js:86-89 | An email exactly when there is a user, and it is the attributes' truthy email |
| TextUtils.Nl2br | individual-report/src/utils/textUtils.js:46-49 | '' for anything but a non-empty string; no line break remains; text without one is unchanged; each break adds three characters |
| TextUtils.BreakLinesFacts | individual-report/src/utils/textUtils.js:48 | Every line break is replaced by the four characters of '<br>' |
| TextUtils.BreakLinesRoundTrip | individual-report/src/utils/textUtils.js:48 | Replacing '<br>' by line breaks again restores any text that held no '<' |
| TextUtils.Substring0 | individual-report/src/utils/textUtils.js:60 | `substring(0, n)` is a prefix of length n, clamped to 0 and to the text's length |
| TextUtils.Truncate | individual-report/src/utils/textUtils.js:57-61 | '' for anything but a non-empty string; a text that fits comes back unchanged; a longer one ends in '...' |
| TextUtils.TruncateFacts | individual-report/src/utils/textUtils.js:57-61 | '' for anything but a non-empty string; a text that fits comes back unchanged; a longer one becomes its trimmed prefix plus '...', at most three characters over the limit |
| TextUtils.TruncateDefault | individual-report/src/utils/textUtils.js:57 | With the default limit of 100, texts up to 100 characters return whole and no result exceeds 103 |
| VespaColors.CategoryColorsDistinctFromFallback | individual-report/src/data/vespaColors.js:14-20 | No category colour is empty or the grey fallback |
| VespaColors.GetCategoryColor | individual-report/src/data/vespaColors.js:22-25 | A known category, in any case, gets its colour; the grey '#ccc' is given exactly to the other names |
| VespaColors.GetCategoryColorAsWritten | individual-report/src/data/vespaColors.js:22-25 | As written, an inherited member answers exactly for a lower-cased name outside the table that names one; every colour it gives is the corrected colour |
| VespaColors.InheritedCategoryIsNoColour | individual-report/src/data/vespaColors.js:23-24 | As written, 'Constructor' finds the object's inherited constructor instead of a colour |
| VespaColors.AsWrittenAgreesOffPrototype | individual-report/src/data/vespaColors.js:22-25 | For every name that is no inherited member once lower-cased, the code as written gives the corrected colour |
| VespaColors.OnlyLowerCaseMembersReachable | individual-report/src/data/vespaColors.js:24 | Only 'constructor' and '__proto__' can reach an inherited member after lower-casing |
| VespaColors.CategoryColorCaseInsensitive | individual-report/src/data/vespaColors.js:24 | Names that differ only in case get the same colour |
| VespaColors.UpperCaseVision | individual-report/src/data/vespaColors.js:22-25 | 'VISION' gets '#ff8f00' |
| VespaColors.GetScoreColor | individual-report/src/data/vespaColors.js:27-34 | The grey '#eee' is given exactly to a missing score, and every score gets one of the five band colours |
| VespaColors.ScoreBands | individual-report/src/data/vespaColors.js:27-34 | Each band colour is given exactly to its band: at least 9, [7,9), [5,7), [3,5) and below 3; no score gets the missing-score grey |
| VespaColors.ScoreColorMonotone | individual-report/src/data/vespaColors.js:29-33 | Raising a score never moves it to a lower band |
| StaffVespaColors.GetCategoryColor | staff-overview/src/data/vespaColors.js:19-22 | A known category, in any case, gets its colour; '#ccc' is given exactly to the other names |
| StaffVespaColors.GetCategoryColorAsWritten | staff-overview/src/data/vespaColors.js:19-22 | As written, an inherited member answers exactly for a lower-cased name outside the table that names one; every colour it gives is the corrected colour |
| StaffVespaColors.GetScoreColor | staff-overview/src/data/vespaColors.js:24-31 | '#eee' is given exactly to a missing score, and every score gets one of the five band colours |
| StaffVespaColors.TablesAgree | staff-overview/src/data/vespaColors.js:11-17 | The staff overview's table equals the individual report's |
| StaffVespaColors.CopiesAgree | staff-overview/src/data/vespaColors.js:19-31 | Both copies give every score and every category the same colour, as written and as corrected |
| StaffVespaColors.StaffScoreBands | staff-overview/src/data/vespaColors.js:24-31 | A missing score gets '#eee'; the same thresholds at 9 and 3; the bands rise with the score |
| StaffVespaColors.StaffCategoryFacts | staff-overview/src/data/vespaColors.js:19-22 | Category lookup ignores case, and as written 'Constructor' finds the inherited constructor |
| ActivityLinks.ActivityUrl | individual-report/src/data/activityLinks.js:98-107 | Every URL starts with the activities page; it is that page alone exactly for an unknown name or an empty ID; otherwise it carries the activity's ID and the action, which read back from the URL |
| ActivityLinks.ActivityUrlAsWritten | individual-report/src/data/activityLinks.js:98-107 | As written, an unlisted name that is an inherited member builds a link from that member |
| ActivityLinks.GetActivityUrl | individual-report/src/data/activityLinks.js:98-107 | Over the activity table, every URL starts with the activities page, and is that page alone exactly for an unlisted name or an empty ID |
| ActivityLinks.GetActivityUrlAsWritten | individual-report/src/data/activityLinks.js:98-107 | Over the activity table, the code as written gives the corrected URL for every listed name and every name that is no inherited member, and an inherited member otherwise |
| ActivityLinks.AsWrittenAgreesOffPrototype | individual-report/src/data/activityLinks.js:99-106 | Off the inherited names, the code as written gives the corrected URL |
| ActivityLinks.AsWrittenAgreesOnListedNames | individual-report/src/data/activityLinks.js:99-106 | On every listed activity, the code as written gives the corrected URL |
| ActivityLinks.LinkRoundTrip | individual-report/src/data/activityLinks.js:106 | The activity ID and the action can be read back from a built link when the ID holds no '&' |
| ActivityLinks.LinkExtendsBase | individual-report/src/data/activityLinks.js:103-106 | Every built link strictly extends the base page URL |
| ActivityLinks.BaseUrlIsNoLink | individual-report/src/data/activityLinks.js:103 | The base page URL carries no activity query |
| ActivityLinks.TwentyQuestionsIsListed | individual-report/src/data/activityLinks.js:7 | '20 Questions' is listed, with ID 5fcb62a903d876001c5e1fcf |
| ActivityLinks.TwentyQuestionsLink | individual-report/src/data/activityLinks.js:98-106 | '20 Questions' with the default action links to its ID with action 'start' |
| ActivityLinks.NamesAreCaseSensitive | individual-report/src/data/activityLinks.js:99-104 | '20 questions' is unknown and gets the base page |
| ActivityLinks.ConstructorIsNoActivity | individual-report/src/data/activityLinks.js:5-90 | 'constructor' is not one of the table's own names |
| ActivityLinks.InheritedNameGivesNoLink | individual-report/src/data/activityLinks.js:99-106 | As written, 'constructor' builds a link from the inherited constructor |
| ActivityLinks.InheritedNameGetsBasePage | individual-report/src/data/activityLinks.js:99-104 | Corrected, 'constructor' gets the base page like any unknown name |
| JsValues.Or | academic-profile/src/services/api.js:134 | `a \|\| b` is truthy exactly when one of its operands is |

## Left out

- Network and host plumbing: `fetch`, response and 404 handling, JSON parsing, URL query building, request headers other than `X-User-Role`, and console logging. The Knack globals are an input value (`KnackHost`), not calls.
- The server-side reference and application workflow. Only its HTTP callers live in these files, and the model uses them just for their `X-User-Role` defaults.
- `stripHtml` (it needs a DOM parser) and `formatPercentage` (floating-point rounding).
- User-interface components, app mounting and build configuration.
- Strings.ToLower: maps ASCII letters only; JavaScript's Unicode case mapping of other letters is not modelled. The same applies to `Strings.ToUpper` and to every place that uses them.
- TextUtils.Truncate: counts lengths in characters, where JavaScript counts UTF-16 code units.
- GradeColors.GetGradeColorClass: requires that a comparable pair lie in the modelled part of `parseFloat`. That part is integer prefixes within ±2^53 and texts that read as no number. Decimals such as '4.5', exponents, 'Infinity' and larger integers are outside it. The same requires sits on `GradeColors.GradeColorClass`.
- JsValues.JsVal: numbers are integers only, so NaN, fractions and negative zero do not appear. `String(n)` is written out in full for every integer, whereas JavaScript prints magnitudes of 10^21 and more in exponent form and loses precision beyond 2^53. Scores are `Option<real>`, with `None` for `null` and `undefined`.
- VespaColors.GetScoreColor: non-number and NaN scores are not modelled. Those compare through JavaScript's coercions. The same applies to `StaffVespaColors.GetScoreColor`.
- VespaColors.GetCategoryColor: the category is a string. A non-string argument throws in `toLowerCase`, and that case is out of the model. The same applies to the staff copy.
- AcademicProfileApi.StudentRecord: the model rewrites the record's field map. It does not model the `data && data.student` guard, a non-object `student`, or other references that alias the same object.
- AcademicProfileApi.CoercedText: object fields are looked up as own fields. None of the five text keys names an `Object.prototype` member, so that loses nothing.
- KnackAuth.GetUser: exceptions thrown by the Knack calls inside its `try`, and the console warning, are not modelled. `getUserRoles` always answers when present.
- ActivityLinks.ActivityUrl: the activity name is a string. JavaScript would coerce any other key to a string first, and that coercion is not modelled.
- ActivityLinks.ActivityUrlAsWritten: the text an inherited function would put into the URL is represented by `InheritedMemberUrl` rather than written out.
- The activity table's IDs are copied as written. That every ID is 24 hexadecimal digits is not proved table-wide, so `ActivityLinks.ActivityUrl` reads the ID back only when it holds no '&'.
- JavaScript's `String(v)` of an object is modelled as '[object Object]'. Objects with their own `toString` do not occur in JSON data.

## Findings

| source | as written | input that shows it | evidently intended | confidence | as-written member | corrected member |
|---|---|---|---|---|---|---|
| academic-profile/src/utils/formatting.js:34-42 | '#' is removed with the markdown characters before entities are decoded, so the '&#039;' replacement can never match | sanitizeField('&#039;') gives '&039;' | '&#039;' decodes to an apostrophe | not executed | Formatting.ApostropheNeverDecoded | Formatting.ApostropheEntityFixed |
| academic-profile/src/utils/formatting.js:77-80 | `typeof null === 'object'`, so a `null` first element reaches `first.id` | extractRecordId([null]) throws a TypeError | an array with a `null` first element gives `null` | not executed | Formatting.ExtractThrowsOnlyOnNullFirst | Formatting.ExtractRecordId |
| individual-report/src/data/vespaColors.js:24 | the lower-cased name indexes a plain object, so inherited members answer | getCategoryColor('Constructor') returns the Object constructor | every name outside the table gives '#ccc' | not executed | VespaColors.InheritedCategoryIsNoColour | VespaColors.GetCategoryColor |
| staff-overview/src/data/vespaColors.js:21 | the same plain-object lookup as the individual report's copy | getCategoryColor('Constructor') returns the Object constructor | every name outside the table gives '#ccc' | not executed | StaffVespaColors.StaffCategoryFacts | StaffVespaColors.GetCategoryColor |
| individual-report/src/data/activityLinks.js:99-106 | the table is a plain object, so an inherited member counts as a known activity | getActivityUrl('constructor') builds a link from the text of the inherited constructor | an unknown name gets the base activities page | not executed | ActivityLinks.InheritedNameGivesNoLink | ActivityLinks.InheritedNameGetsBasePage |
