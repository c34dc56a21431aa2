/**
 * Property lookup on a plain object literal used as a table. Besides its own keys, such an object
 * answers for the names it inherits from `Object.prototype`, all of which are truthy.
 */
module JsObject {
  /** The property names every plain object inherits from `Object.prototype`. */
  const PrototypeMembers: set<string> := {
    "constructor", "__proto__", "hasOwnProperty", "isPrototypeOf", "propertyIsEnumerable",
    "toLocaleString", "toString", "valueOf", "__defineGetter__", "__defineSetter__",
    "__lookupGetter__", "__lookupSetter__"}

  /** The result of `table[key]`: an own entry, an inherited member (a function or the prototype), or `undefined`. */
  datatype Lookup<T> = Own(value: T) | Inherited(member: string) | Missing

  /** `table[key]` on an object literal whose own entries are `own`. */
  function LookupKey<T>(own: map<string, T>, key: string): (r: Lookup<T>)
    ensures r.Own? <==> key in own
    ensures r.Own? ==> r.value == own[key]
    ensures r.Inherited? <==> key !in own && key in PrototypeMembers
  {
    if key in own then Own(own[key])
    else if key in PrototypeMembers then Inherited(key)
    else Missing
  }
}
