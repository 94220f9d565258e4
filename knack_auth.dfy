/**
 * The staff overview's view of the logged-in Knack user: role tokens
 * normalised from role strings or role objects, staff detection by fixed
 * role identifiers and name hints, and the user record built from the
 * page's attributes and roles.
 */
module KnackAuth {
  import opened Wrappers
  import opened Strings
  import opened JsValues

  /** The Knack object identifiers of the staff roles. */
  const StaffRoleIds: seq<string> := ["object_5", "object_7", "object_18", "object_78"]
  /** Substrings that mark a role name as a staff role. */
  const StaffRoleNameHints: seq<string> := ["tutor", "staff", "admin", "head", "teacher", "subject"]
  /** The fields of a role object that contribute tokens, in order. */
  const RoleFieldKeys: seq<string> := ["identifier", "id", "key", "name"]

  // ---------------------------------------------------------------------
  // normalizeRoleTokens
  // ---------------------------------------------------------------------

  /** The truthy fields of `r` named by `keys`, in the order of `keys`. */
  function TruthyFields(r: JsVal, keys: seq<string>): (ts: seq<JsVal>)
    requires !r.Null? && !r.Undefined?
    ensures |ts| <= |keys|
    ensures forall i :: 0 <= i < |ts| ==> Truthy(ts[i])
  {
    if keys == [] then []
    else
      var t := Prop(r, keys[0]);
      (if Truthy(t) then [t] else []) + TruthyFields(r, keys[1..])
  }

  /**
   * A value is among the truthy fields exactly when one of the keys names
   * a truthy field holding it.
   */
  lemma {:induction false} TruthyFieldsMembers(r: JsVal, keys: seq<string>, t: JsVal)
    requires !r.Null? && !r.Undefined?
    ensures t in TruthyFields(r, keys) <==> exists i :: 0 <= i < |keys| && Truthy(Prop(r, keys[i])) && Prop(r, keys[i]) == t
  {
    if keys != [] {
      TruthyFieldsMembers(r, keys[1..], t);
      assert forall i :: 1 <= i < |keys| ==> keys[i] == keys[1..][i - 1];
      if t in TruthyFields(r, keys[1..]) {
        var i :| 0 <= i < |keys[1..]| && Truthy(Prop(r, keys[1..][i])) && Prop(r, keys[1..][i]) == t;
        assert Truthy(Prop(r, keys[i + 1])) && Prop(r, keys[i + 1]) == t;
      }
    }
  }

  /** The tokens the `flatMap` callback returns for one role, before normalisation. */
  function RoleCandidates(r: JsVal): (ts: seq<JsVal>)
    ensures forall i :: 0 <= i < |ts| ==> Truthy(ts[i])
    ensures !Truthy(r) ==> ts == []
    ensures r.Str? && Truthy(r) ==> ts == [r]
  {
    if !Truthy(r) then []
    else if r.Str? then [r]
    else TruthyFields(r, RoleFieldKeys)
  }

  /**
   * The `flatMap` callback: nothing for a falsy role, the role itself for a
   * string, and otherwise the truthy `identifier`, `id`, `key` and `name`
   * fields pushed in that order.
   */
  method RoleTokenCandidates(r: JsVal) returns (tokens: seq<JsVal>)
    ensures tokens == RoleCandidates(r)
  {
    if !Truthy(r) {
      return [];
    }
    if r.Str? {
      return [r];
    }
    RoleKeysUnrolled(r);
    tokens := [];
    var identifier := Prop(r, "identifier");
    if Truthy(identifier) {
      tokens := tokens + [identifier];
    }
    assert tokens == FieldIf(r, "identifier");
    var id := Prop(r, "id");
    if Truthy(id) {
      tokens := tokens + [id];
    }
    assert tokens == FieldIf(r, "identifier") + FieldIf(r, "id");
    var key := Prop(r, "key");
    if Truthy(key) {
      tokens := tokens + [key];
    }
    assert tokens == FieldIf(r, "identifier") + FieldIf(r, "id") + FieldIf(r, "key");
    var name := Prop(r, "name");
    if Truthy(name) {
      tokens := tokens + [name];
    }
  }

  /** `[r[k]]` when that field is truthy, `[]` otherwise. */
  function FieldIf(r: JsVal, k: string): seq<JsVal>
    requires !r.Null? && !r.Undefined?
  {
    if Truthy(Prop(r, k)) then [Prop(r, k)] else []
  }

  /** One step of `TruthyFields` from position `k` of `keys`. */
  lemma TruthyFieldsStep(r: JsVal, keys: seq<string>, k: int)
    requires !r.Null? && !r.Undefined? && 0 <= k < |keys|
    ensures TruthyFields(r, keys[k..]) == FieldIf(r, keys[k]) + TruthyFields(r, keys[k + 1..])
  {
    assert keys[k..][1..] == keys[k + 1..];
  }

  /** `TruthyFields` over four keys, written out. */
  lemma FourKeysUnrolled(r: JsVal, k0: string, k1: string, k2: string, k3: string)
    requires !r.Null? && !r.Undefined?
    ensures TruthyFields(r, [k0, k1, k2, k3]) == FieldIf(r, k0) + FieldIf(r, k1) + FieldIf(r, k2) + FieldIf(r, k3)
  {
    var ks := [k0, k1, k2, k3];
    var f0, f1, f2, f3 := FieldIf(r, k0), FieldIf(r, k1), FieldIf(r, k2), FieldIf(r, k3);
    TruthyFieldsStep(r, ks, 3);
    assert ks[4..] == [];
    assert TruthyFields(r, ks[3..]) == f3;
    TruthyFieldsStep(r, ks, 2);
    TruthyFieldsStep(r, ks, 1);
    TruthyFieldsStep(r, ks, 0);
    assert ks[0..] == ks;
    assert TruthyFields(r, ks) == f0 + (f1 + (f2 + f3));
    ConcatFour(f0, f1, f2, f3);
  }

  lemma ConcatFour<T>(a: seq<T>, b: seq<T>, c: seq<T>, d: seq<T>)
    ensures a + (b + (c + d)) == a + b + c + d
  {
  }

  /** `TruthyFields` over the four role keys, written out. */
  lemma RoleKeysUnrolled(r: JsVal)
    requires !r.Null? && !r.Undefined?
    ensures TruthyFields(r, RoleFieldKeys)
            == FieldIf(r, "identifier") + FieldIf(r, "id") + FieldIf(r, "key") + FieldIf(r, "name")
  {
    FourKeysUnrolled(r, "identifier", "id", "key", "name");
  }

  /** `roles.flatMap(RoleCandidates)`. */
  function Candidates(roles: seq<JsVal>): (ts: seq<JsVal>)
    ensures forall i :: 0 <= i < |ts| ==> Truthy(ts[i])
  {
    if roles == [] then [] else RoleCandidates(roles[0]) + Candidates(roles[1..])
  }

  lemma {:induction false} CandidatesMembers(roles: seq<JsVal>, t: JsVal)
    ensures t in Candidates(roles) <==> exists i :: 0 <= i < |roles| && t in RoleCandidates(roles[i])
  {
    if roles != [] {
      CandidatesMembers(roles[1..], t);
      assert forall i :: 1 <= i < |roles| ==> roles[i] == roles[1..][i - 1];
      if t in Candidates(roles[1..]) {
        var i :| 0 <= i < |roles[1..]| && t in RoleCandidates(roles[1..][i]);
        assert t in RoleCandidates(roles[i + 1]);
      }
    }
  }

  /** `String(t).trim().toLowerCase()`. */
  function NormaliseToken(t: JsVal): string {
    ToLower(Trim(ToJsString(t)))
  }

  /** `.map(NormaliseToken)`. */
  function NormaliseTokens(ts: seq<JsVal>): (r: seq<string>)
    ensures |r| == |ts| && forall i :: 0 <= i < |ts| ==> r[i] == NormaliseToken(ts[i])
    ensures forall i :: 0 <= i < |r| ==> IsTrimmed(r[i]) && IsLowerText(r[i])
  {
    NormaliseTokensShape(ts);
    seq(|ts|, i requires 0 <= i < |ts| => NormaliseToken(ts[i]))
  }

  lemma NormaliseTokensShape(ts: seq<JsVal>)
    ensures forall i :: 0 <= i < |ts| ==> IsTrimmed(NormaliseToken(ts[i])) && IsLowerText(NormaliseToken(ts[i]))
  {
    forall i | 0 <= i < |ts|
      ensures IsTrimmed(NormaliseToken(ts[i])) && IsLowerText(NormaliseToken(ts[i]))
    {
      LowerTrimShape(ToJsString(ts[i]));
    }
  }

  /** `.filter(Boolean)` on texts: the non-empty ones, in order. */
  function NonEmptyTexts(ss: seq<string>): (r: seq<string>)
    ensures forall i :: 0 <= i < |r| ==> r[i] != "" && r[i] in ss
  {
    if ss == [] then []
    else
      var rest := NonEmptyTexts(ss[1..]);
      assert forall x :: x in ss[1..] ==> x in ss;
      if ss[0] != "" then [ss[0]] + rest else rest
  }

  lemma {:induction false} NonEmptyTextsMembers(ss: seq<string>, s: string)
    ensures s in NonEmptyTexts(ss) <==> s != "" && s in ss
  {
    if ss != [] {
      NonEmptyTextsMembers(ss[1..], s);
      assert ss == [ss[0]] + ss[1..];
    }
  }

  /** A normalised role token: not empty, trimmed and lower-case. */
  predicate IsRoleToken(t: string) {
    t != "" && IsTrimmed(t) && IsLowerText(t)
  }

  /** `.map(NormaliseToken).filter(Boolean)`. */
  function NormaliseAll(ts: seq<JsVal>): (r: seq<string>)
    ensures forall i :: 0 <= i < |r| ==> IsRoleToken(r[i])
  {
    var ns := NormaliseTokens(ts);
    var r := NonEmptyTexts(ns);
    assert forall i :: 0 <= i < |r| ==> r[i] in ns;
    r
  }

  lemma NormaliseAllMembers(ts: seq<JsVal>, s: string)
    ensures s in NormaliseAll(ts) <==> s != "" && exists i :: 0 <= i < |ts| && NormaliseToken(ts[i]) == s
  {
    var ns := NormaliseTokens(ts);
    NonEmptyTextsMembers(ns, s);
    if s in ns {
      var i :| 0 <= i < |ns| && ns[i] == s;
      assert NormaliseToken(ts[i]) == s;
    }
    if exists i :: 0 <= i < |ts| && NormaliseToken(ts[i]) == s {
      var i :| 0 <= i < |ts| && NormaliseToken(ts[i]) == s;
      assert ns[i] == s;
    }
  }

  /** `normalizeRoleTokens(roles)`. */
  function NormalizeRoleTokens(roles: JsVal): (r: seq<string>)
    ensures !roles.Arr? ==> r == []
    ensures forall i :: 0 <= i < |r| ==> IsRoleToken(r[i])
  {
    if roles.Arr? then NormaliseAll(Candidates(roles.elems)) else []
  }

  /**
   * A text is a token exactly when some role contributes a candidate whose
   * normal form it is, and it is not empty.
   */
  lemma RoleTokenMembers(roles: seq<JsVal>, s: string)
    ensures s in NormalizeRoleTokens(Arr(roles))
            <==> s != "" && exists i, t :: 0 <= i < |roles| && t in RoleCandidates(roles[i]) && NormaliseToken(t) == s
  {
    if s in NormalizeRoleTokens(Arr(roles)) {
      TokenHasSource(roles, s);
    }
    if s != "" && exists i, t :: 0 <= i < |roles| && t in RoleCandidates(roles[i]) && NormaliseToken(t) == s {
      var i, t :| 0 <= i < |roles| && t in RoleCandidates(roles[i]) && NormaliseToken(t) == s;
      SourceGivesToken(roles, i, t);
    }
  }

  lemma TokenHasSource(roles: seq<JsVal>, s: string)
    requires s in NormalizeRoleTokens(Arr(roles))
    ensures exists i, t :: 0 <= i < |roles| && t in RoleCandidates(roles[i]) && NormaliseToken(t) == s
  {
    var cs := Candidates(roles);
    NormaliseAllMembers(cs, s);
    var j :| 0 <= j < |cs| && NormaliseToken(cs[j]) == s;
    CandidatesMembers(roles, cs[j]);
  }

  lemma SourceGivesToken(roles: seq<JsVal>, i: int, t: JsVal)
    requires 0 <= i < |roles| && t in RoleCandidates(roles[i]) && NormaliseToken(t) != ""
    ensures NormaliseToken(t) in NormalizeRoleTokens(Arr(roles))
  {
    var cs := Candidates(roles);
    CandidatesMembers(roles, t);
    var j :| 0 <= j < |cs| && cs[j] == t;
    NormaliseAllMembers(cs, NormaliseToken(t));
  }

  /**
   * The candidates of an object role are exactly its truthy `identifier`,
   * `id`, `key` and `name` fields, pushed in that order.
   */
  lemma ObjectRoleCandidates(m: map<string, JsVal>, t: JsVal)
    ensures RoleCandidates(Obj(m))
            == FieldIf(Obj(m), "identifier") + FieldIf(Obj(m), "id") + FieldIf(Obj(m), "key") + FieldIf(Obj(m), "name")
    ensures t in RoleCandidates(Obj(m))
            <==> exists i :: 0 <= i < |RoleFieldKeys| && RoleFieldKeys[i] in m && Truthy(m[RoleFieldKeys[i]]) && m[RoleFieldKeys[i]] == t
  {
    RoleKeysUnrolled(Obj(m));
    TruthyFieldsMembers(Obj(m), RoleFieldKeys, t);
  }

  // ---------------------------------------------------------------------
  // isStaffFromRoles
  // ---------------------------------------------------------------------

  /** `STAFF_ROLE_IDS.map(t => t.toLowerCase())`. */
  function StaffIds(): seq<string> {
    seq(|StaffRoleIds|, i requires 0 <= i < |StaffRoleIds| => ToLower(StaffRoleIds[i]))
  }

  /** The staff identifiers are already lower-case, so lower-casing them changes nothing. */
  lemma StaffIdsAreLower()
    ensures StaffIds() == StaffRoleIds
  {
    forall i | 0 <= i < |StaffRoleIds|
      ensures ToLower(StaffRoleIds[i]) == StaffRoleIds[i]
    {
      ToLowerNoUpper(StaffRoleIds[i]);
    }
  }

  predicate MatchesStaffId(tokens: seq<string>) {
    exists i, j :: 0 <= i < |tokens| && 0 <= j < |StaffIds()| && tokens[i] == StaffIds()[j]
  }

  predicate MatchesStaffHint(tokens: seq<string>) {
    exists i, j :: 0 <= i < |tokens| && 0 <= j < |StaffRoleNameHints| && Contains(tokens[i], StaffRoleNameHints[j])
  }

  /** `isStaffFromRoles(roles)`. */
  function IsStaffFromRoles(roles: JsVal): (b: bool)
    ensures b <==> exists i :: 0 <= i < |NormalizeRoleTokens(roles)| &&
                     (NormalizeRoleTokens(roles)[i] in StaffRoleIds ||
                      exists j :: 0 <= j < |StaffRoleNameHints| && Contains(NormalizeRoleTokens(roles)[i], StaffRoleNameHints[j]))
    ensures b ==> roles.Arr? && roles.elems != []
  {
    StaffIdsAreLower();
    var tokens := NormalizeRoleTokens(roles);
    MatchesStaffId(tokens) || MatchesStaffHint(tokens)
  }

  /** Without an array of roles, or with an empty one, nobody is staff. */
  lemma NoRolesNotStaff(roles: JsVal)
    requires !roles.Arr? || roles.elems == []
    ensures !IsStaffFromRoles(roles)
  {
    assert NormalizeRoleTokens(roles) == [];
  }

  /** A token that equals one of the staff identifiers makes the user staff. */
  lemma StaffByIdentifier(roles: seq<JsVal>, i: int, t: JsVal)
    requires 0 <= i < |roles| && t in RoleCandidates(roles[i])
    requires NormaliseToken(t) in StaffRoleIds
    ensures IsStaffFromRoles(Arr(roles))
  {
    var s := NormaliseToken(t);
    StaffIdsAreLower();
    RoleTokenMembers(roles, s);
    var tokens := NormalizeRoleTokens(Arr(roles));
    var a :| 0 <= a < |tokens| && tokens[a] == s;
    var b :| 0 <= b < |StaffRoleIds| && StaffRoleIds[b] == s;
    assert tokens[a] == StaffIds()[b];
  }

  /** A token that contains one of the name hints makes the user staff. */
  lemma StaffByNameHint(roles: seq<JsVal>, i: int, t: JsVal, h: int)
    requires 0 <= i < |roles| && t in RoleCandidates(roles[i])
    requires 0 <= h < |StaffRoleNameHints| && Contains(NormaliseToken(t), StaffRoleNameHints[h])
    ensures IsStaffFromRoles(Arr(roles))
  {
    var s := NormaliseToken(t);
    assert s != "";
    RoleTokenMembers(roles, s);
    var tokens := NormalizeRoleTokens(Arr(roles));
    var a :| 0 <= a < |tokens| && tokens[a] == s;
    assert Contains(tokens[a], StaffRoleNameHints[h]);
  }

  /** Identifiers are compared after lower-casing: the role string "OBJECT_5" marks staff. */
  lemma StaffIdentifierAnyCase(role: string)
    requires role == "OBJECT_5"
    ensures IsStaffFromRoles(Arr([Str(role)]))
  {
    UpperIdLowered(role);
    StaffByIdentifier([Str(role)], 0, Str(role));
  }

  lemma UpperIdLowered(role: string)
    requires role == "OBJECT_5"
    ensures NormaliseToken(Str(role)) == StaffRoleIds[0]
  {
    PrintableNotWhitespace(role[0]);
    PrintableNotWhitespace(role[|role| - 1]);
    TrimUnchanged(role);
    assert ToJsString(Str(role)) == role;
    var l := ToLower(role);
    assert forall i :: 0 <= i < |l| ==> l[i] == StaffRoleIds[0][i];
  }

  /** The word "student" contains none of the staff hints and is no staff identifier. */
  lemma StudentWordIsNoStaffToken(w: string)
    requires w == "student"
    ensures forall j :: 0 <= j < |StaffIds()| ==> w != StaffIds()[j]
    ensures forall j :: 0 <= j < |StaffRoleNameHints| ==> !Contains(w, StaffRoleNameHints[j])
  {
    StaffIdsAreLower();
    forall j | 0 <= j < |StaffIds()|
      ensures w != StaffIds()[j]
    {
      assert w[0] != StaffRoleIds[j][0];
    }
    forall j | 0 <= j < |StaffRoleNameHints|
      ensures !Contains(w, StaffRoleNameHints[j])
    {
      NoHintInStudent(w, StaffRoleNameHints[j]);
    }
  }

  /** None of the hints occurs in "student". */
  lemma NoHintInStudent(w: string, hint: string)
    requires w == "student" && hint in StaffRoleNameHints
    ensures !Contains(w, hint)
  {
    forall k | 0 <= k <= |w|
      ensures !(hint <= w[k..])
    {
      NotPrefixAt(w, hint, k);
    }
    ContainsSuffixes(w, hint);
  }

  /** The first three letters of every hint differ from those of "student" at every position. */
  lemma NotPrefixAt(w: string, hint: string, k: int)
    requires w == "student" && hint in StaffRoleNameHints && 0 <= k <= |w|
    ensures !(hint <= w[k..])
  {
    if k + 3 <= |w| {
      assert hint[0] != w[k] || hint[1] != w[k + 1] || hint[2] != w[k + 2];
    }
  }

  /** `Contains` looks for `sub` as a prefix of every suffix. */
  lemma {:induction false} ContainsSuffixes(s: string, sub: string)
    requires forall k :: 0 <= k <= |s| ==> !(sub <= s[k..])
    ensures !Contains(s, sub)
  {
    if s != [] {
      assert forall k :: 0 <= k <= |s[1..]| ==> s[1..][k..] == s[k + 1..];
      ContainsSuffixes(s[1..], sub);
    }
    assert s[0..] == s;
  }

  /** A user whose only token is 'student' is not staff. */
  lemma StudentOnlyNotStaff(roles: JsVal, w: string)
    requires w == "student" && NormalizeRoleTokens(roles) == [w]
    ensures !IsStaffFromRoles(roles)
  {
    StudentWordIsNoStaffToken(w);
  }

  // ---------------------------------------------------------------------
  // getUser, isStaff, getUserEmail
  // ---------------------------------------------------------------------

  /** The user record `getUser` returns. */
  datatype KnackUser = KnackUser(
    email: JsVal,
    name: JsVal,
    roles: JsVal,
    roleTokens: seq<string>,
    isStaff: bool,
    attributes: JsVal)

  /**
   * `knackAuth.getUser()`: `None` (`null`) without Knack or its
   * `getUserAttributes`, or when the attributes or their email are falsy;
   * a missing `getUserRoles` reads as no roles.
   */
  /** `Knack.getUserRoles ? Knack.getUserRoles() : []`. */
  function HostRoles(host: KnackHost): JsVal
    requires host.Knack?
  {
    if host.userRoles.Some? then host.userRoles.value else Arr([])
  }

  function GetUser(host: KnackHost): (r: Option<KnackUser>)
    ensures host.NoKnack? || host.userAttributes.None? ==> r.None?
    ensures r.Some? ==> host.Knack? && r.value.roles == HostRoles(host)
    ensures host.Knack? && host.userAttributes.Some? ==>
              (r.Some? <==> Truthy(host.userAttributes.value) && Truthy(Prop(host.userAttributes.value, "email")))
    ensures r.Some? ==> Truthy(r.value.email) && r.value.attributes == host.userAttributes.value
    ensures r.Some? ==> r.value.roleTokens == NormalizeRoleTokens(r.value.roles)
                        && r.value.isStaff == IsStaffFromRoles(r.value.roles)
  {
    if host.NoKnack? || host.userAttributes.None? then None
    else
      var attrs := host.userAttributes.value;
      var roles := HostRoles(host);
      if !Truthy(attrs) || !Truthy(Prop(attrs, "email")) then None
      else
        Some(KnackUser(
          Prop(attrs, "email"),
          Or(Or(Prop(attrs, "name"), Prop(attrs, "full_name")), Str("")),
          roles,
          NormalizeRoleTokens(roles),
          IsStaffFromRoles(roles),
          attrs))
  }

  /**
   * The display name falls back from `name` to `full_name` to the empty
   * string, each taken only when truthy.
   */
  lemma GetUserNameFallback(host: KnackHost)
    requires GetUser(host).Some?
    ensures var attrs := host.userAttributes.value;
            var name := GetUser(host).value.name;
            && (Truthy(Prop(attrs, "name")) ==> name == Prop(attrs, "name"))
            && (!Truthy(Prop(attrs, "name")) && Truthy(Prop(attrs, "full_name")) ==> name == Prop(attrs, "full_name"))
            && (!Truthy(Prop(attrs, "name")) && !Truthy(Prop(attrs, "full_name")) ==> name == Str(""))
  {
  }

  /** Without `getUserRoles` the user is never staff. */
  lemma NoRolesApiNotStaff(host: KnackHost)
    requires host.Knack? && host.userRoles.None? && GetUser(host).Some?
    ensures !GetUser(host).value.isStaff && GetUser(host).value.roleTokens == []
  {
    NoRolesNotStaff(Arr([]));
  }

  /** `knackAuth.isStaff()`. */
  function IsStaff(host: KnackHost): (b: bool)
    ensures b <==> GetUser(host).Some? && IsStaffFromRoles(GetUser(host).value.roles)
    ensures b <==> GetUser(host).Some? && IsStaffFromRoles(HostRoles(host))
  {
    match GetUser(host)
    case Some(user) => user.isStaff
    case None => false
  }

  /**
   * In terms of the page alone: the user is staff exactly when Knack is
   * present, the attributes and their email are truthy, and the roles
   * `getUserRoles` returns (or `[]` without it) mark a staff member.
   */
  lemma IsStaffFromHost(host: KnackHost)
    ensures IsStaff(host) <==>
              && host.Knack? && host.userAttributes.Some?
              && Truthy(host.userAttributes.value) && Truthy(Prop(host.userAttributes.value, "email"))
              && IsStaffFromRoles(HostRoles(host))
  {
  }

  /** `knackAuth.getUserEmail()`. */
  function GetUserEmail(host: KnackHost): (r: Option<JsVal>)
    ensures r.Some? <==> GetUser(host).Some?
    ensures r.Some? ==> Truthy(r.value) && r.value == Prop(host.userAttributes.value, "email")
  {
    match GetUser(host)
    case Some(user) => Some(user.email)
    case None => None
  }
}
