/**
 * The JavaScript values the widgets receive from the hosting page and from
 * JSON responses, with the three operations of the language the code leans
 * on: truthiness, `String(v)` and reading a named property.
 * Numbers are integers; an object's `fields` are its own properties, and the
 * names it inherits from `Object.prototype` are listed in `ObjectPrototypeKeys`.
 */
module JsValues {
  import opened Strings
  import opened Wrappers

  datatype JsVal =
    | Null
    | Undefined
    | Bool(b: bool)
    | Num(n: int)
    | Str(s: string)
    | Arr(elems: seq<JsVal>)
    | Obj(fields: map<string, JsVal>)

  /** JavaScript truthiness: `null`, `undefined`, `false`, `0` and `''` are falsy. */
  predicate Truthy(v: JsVal) {
    match v
    case Null => false
    case Undefined => false
    case Bool(b) => b
    case Num(n) => n != 0
    case Str(s) => s != ""
    case Arr(_) => true
    case Obj(_) => true
  }

  /** JavaScript's `a || b`: the first operand when it is truthy, the second otherwise. */
  function Or(a: JsVal, b: JsVal): (r: JsVal)
    ensures Truthy(r) <==> Truthy(a) || Truthy(b)
  {
    if Truthy(a) then a else b
  }

  /** `typeof v === 'object'` (which includes `null` and arrays). */
  predicate IsTypeofObject(v: JsVal) {
    v.Null? || v.Arr? || v.Obj?
  }

  /**
   * `v[k]` for a named key that is not a built-in property of strings or
   * arrays: an own field of an object, `undefined` otherwise. Reading a
   * property of `null` or `undefined` throws; callers guard against it.
   */
  function Prop(v: JsVal, k: string): (r: JsVal)
    requires !v.Null? && !v.Undefined?
    ensures !v.Obj? ==> r == Undefined
    ensures v.Obj? ==> (r == if k in v.fields then v.fields[k] else Undefined)
  {
    match v
    case Obj(m) => if k in m then m[k] else Undefined
    case _ => Undefined
  }

  /** `String(v)`; array elements that are `null` or `undefined` render as empty, as `join` does. */
  function ToJsString(v: JsVal): string
    decreases v
  {
    match v
    case Null => "null"
    case Undefined => "undefined"
    case Bool(b) => if b then "true" else "false"
    case Num(n) => IntToDecimal(n)
    case Str(s) => s
    case Arr(xs) =>
      Join(seq(|xs|, i requires 0 <= i < |xs| =>
                 if xs[i].Null? || xs[i].Undefined? then "" else ToJsString(xs[i])), ",")
    case Obj(_) => "[object Object]"
  }

  /**
   * The members every plain object inherits from `Object.prototype`: an
   * index `obj[k]` with one of these names finds a function (or, for
   * `__proto__`, the prototype itself) even when `obj` has no such field.
   */
  const ObjectPrototypeKeys: set<string> := {
    "constructor", "hasOwnProperty", "isPrototypeOf", "propertyIsEnumerable",
    "toString", "toLocaleString", "valueOf", "__proto__",
    "__defineGetter__", "__defineSetter__", "__lookupGetter__", "__lookupSetter__"
  }

  /**
   * What `table[k]` finds in an object literal used as a lookup table: one
   * of its own entries, a member inherited from `Object.prototype` (which
   * is truthy), or nothing (`undefined`).
   */
  datatype Lookup<V> = OwnEntry(value: V) | PrototypeMember(name: string) | NoEntry

  function IndexPlainObject<V>(table: map<string, V>, k: string): Lookup<V> {
    if k in table then OwnEntry(table[k])
    else if k in ObjectPrototypeKeys then PrototypeMember(k)
    else NoEntry
  }

  /**
   * The `Knack` global of the hosting page, with the results of the two
   * calls the widgets make: `NoKnack` when `typeof Knack === 'undefined'`;
   * otherwise `userAttributes` is `Some(Knack.getUserAttributes())` when that
   * method exists and `None` when it does not, and likewise `userRoles`.
   */
  datatype KnackHost =
    | NoKnack
    | Knack(userAttributes: Option<JsVal>, userRoles: Option<JsVal>)

  /** `String` is the identity on strings and never yields the empty string for a non-string truthy scalar. */
  lemma ToJsStringFacts(v: JsVal)
    ensures v.Str? ==> ToJsString(v) == v.s
    ensures v.Obj? ==> ToJsString(v) == "[object Object]"
    ensures (v.Null? || v.Undefined? || v.Bool? || v.Num? || v.Obj?) ==> ToJsString(v) != ""
  {
  }
}
