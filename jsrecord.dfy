/**
 * Property lookup on a plain JavaScript object literal used as a table
 * (`Record<string, string>`). Indexing such an object finds its own
 * properties first and then the members it inherits from `Object.prototype`.
 */
module JsRecord {

  /** The value an index expression `table[key]` can produce. */
  datatype JsValue = Str(s: string) | Undefined | Inherited(member: string)

  /** Members every object literal inherits from `Object.prototype`. */
  const ObjectPrototypeMembers: set<string> := {
    "constructor", "__proto__", "hasOwnProperty", "isPrototypeOf",
    "propertyIsEnumerable", "toLocaleString", "toString", "valueOf",
    "__defineGetter__", "__defineSetter__", "__lookupGetter__", "__lookupSetter__"
  }

  /** `table[key]`: an own property, else an inherited member, else undefined. */
  function Index(table: map<string, string>, key: string): (v: JsValue)
    ensures key in table ==> v == Str(table[key])
    ensures v.Inherited? <==> key !in table && key in ObjectPrototypeMembers
    ensures v.Undefined? <==> key !in table && key !in ObjectPrototypeMembers
  {
    if key in table then Str(table[key])
    else if key in ObjectPrototypeMembers then Inherited(key)
    else Undefined
  }

  /** JavaScript truthiness: the empty string and undefined are falsy, objects truthy. */
  predicate Truthy(v: JsValue)
  {
    match v
    case Str(s) => s != ""
    case Undefined => false
    case Inherited(_) => true
  }

  /** `v || fallback`. */
  function OrElse(v: JsValue, fallback: string): (r: JsValue)
    ensures Truthy(v) ==> r == v
    ensures !Truthy(v) ==> r == Str(fallback)
  {
    if Truthy(v) then v else Str(fallback)
  }

  /**
   * `table[key] || fallback` on a table whose values are all non-empty: an
   * own entry is returned, a miss off the inherited members gives the
   * fallback, and an inherited member is returned in place of either.
   */
  lemma LookupOrElse(table: map<string, string>, key: string, fallback: string)
    requires forall k :: k in table ==> table[k] != ""
    ensures key in table ==> OrElse(Index(table, key), fallback) == Str(table[key])
    ensures key !in table && key !in ObjectPrototypeMembers ==>
      OrElse(Index(table, key), fallback) == Str(fallback)
    ensures key !in table && key in ObjectPrototypeMembers ==>
      OrElse(Index(table, key), fallback) == Inherited(key)
    ensures OrElse(Index(table, key), fallback).Str? <==> key in table || key !in ObjectPrototypeMembers
  {
    if key in table {
      assert table[key] != "";
    }
  }
}
