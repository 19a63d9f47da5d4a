/** The names that reading `object[key]` finds on Object.prototype when the object has no such
    property of its own.  None of the values found there is a string or undefined. */
module ObjectPrototype {
  const PROTO := "__proto__"

  const INHERITED_KEYS := {"constructor", PROTO, "toString", "toLocaleString", "valueOf", "hasOwnProperty",
                           "isPrototypeOf", "propertyIsEnumerable", "__defineGetter__", "__defineSetter__",
                           "__lookupGetter__", "__lookupSetter__"}

  predicate Inherited(key: string) {
    key in INHERITED_KEYS
  }
}
