/**
 * `getTypeColor`: the badge classes for a Pokémon type, looked up
 * case-insensitively in a table of eighteen types, with a grey default.
 */
module TypeColors {
  import opened Text

  const DefaultColor: string := "bg-gray-400 text-white"

  /** The colour table, keyed by lower-case type name. */
  const TypeColorTable: map<string, string> := map[
    "normal" := "bg-gray-400 text-white",
    "fire" := "bg-red-500 text-white",
    "water" := "bg-blue-500 text-white",
    "electric" := "bg-yellow-400 text-black",
    "grass" := "bg-green-500 text-white",
    "ice" := "bg-blue-200 text-black",
    "fighting" := "bg-red-700 text-white",
    "poison" := "bg-purple-500 text-white",
    "ground" := "bg-yellow-600 text-white",
    "flying" := "bg-indigo-400 text-white",
    "psychic" := "bg-pink-500 text-white",
    "bug" := "bg-green-600 text-white",
    "rock" := "bg-yellow-800 text-white",
    "ghost" := "bg-purple-700 text-white",
    "dragon" := "bg-indigo-700 text-white",
    "dark" := "bg-gray-800 text-white",
    "steel" := "bg-gray-500 text-white",
    "fairy" := "bg-pink-400 text-white"
  ]

  /** Every class string a badge can get: the table's and the default. */
  ghost predicate IsBadgeClass(c: string)
  {
    c == DefaultColor || c in TypeColorTable.Values
  }

  /**
   * The intended lookup: the table entry for the lower-cased type, or the
   * default for any type the table does not list.
   */
  function TypeColor(t: string): (c: string)
    ensures IsBadgeClass(c)
    ensures c != ""
    ensures Lower(t) in TypeColorTable ==> c == TypeColorTable[Lower(t)]
    ensures Lower(t) !in TypeColorTable ==> c == DefaultColor
  {
    var key := Lower(t);
    if key in TypeColorTable then TypeColorTable[key] else DefaultColor
  }

  /** Types that differ only in the case of ASCII letters get the same badge. */
  lemma {:induction false} TypeColorIgnoresCase(t: string, u: string)
    requires |t| == |u|
    requires forall i :: 0 <= i < |t| ==> LowerChar(t[i]) == LowerChar(u[i])
    ensures TypeColor(t) == TypeColor(u)
  {
    assert Lower(t) == Lower(u);
  }

  lemma {:induction false} TypeColorExamples()
    ensures TypeColor("Fire") == "bg-red-500 text-white"
    ensures TypeColor("FAIRY") == "bg-pink-400 text-white"
    ensures TypeColor("shadow") == DefaultColor
  {
    assert Lower("Fire") == "fire";
    assert Lower("FAIRY") == "fairy";
    assert Lower("shadow") == "shadow";
  }

  // The source looks the key up on a plain object literal, so the lookup also
  // reaches the members every object inherits from `Object.prototype`. Of
  // those, only `constructor` and `__proto__` have all-lower-case names, so
  // only they can be reached by a lower-cased key; both are truthy non-strings.

  /** The JavaScript values the source's lookup can produce. */
  datatype JsValue = Undefined | JsString(s: string) | JsFunction(name: string) | JsObject(name: string)

  /** JavaScript truthiness, as `||` tests it. */
  predicate Truthy(v: JsValue)
  {
    match v
    case Undefined => false
    case JsString(s) => s != ""
    case _ => true
  }

  /** Property lookup on the table object: an own entry, else an inherited `Object.prototype` member, else `undefined`. */
  function PropertyLookup(key: string): (v: JsValue)
    ensures key in TypeColorTable ==> v == JsString(TypeColorTable[key])
    ensures key !in TypeColorTable && key != "constructor" && key != "__proto__" ==> v == Undefined
    ensures key == "constructor" ==> v == JsFunction("Object")
    ensures key == "__proto__" ==> v == JsObject("Object.prototype")
  {
    if key in TypeColorTable then JsString(TypeColorTable[key])
    else if key == "constructor" then JsFunction("Object")
    else if key == "__proto__" then JsObject("Object.prototype")
    else Undefined
  }

  /**
   * The lookup as written: the property found under the lower-cased type if
   * it is truthy, otherwise the default class string.
   */
  function TypeColorAsWritten(t: string): (v: JsValue)
    ensures Truthy(v)
  {
    var found := PropertyLookup(Lower(t));
    if Truthy(found) then found else JsString(DefaultColor)
  }

  /** Apart from the two inherited names, the code as written returns the intended class string. */
  lemma {:induction false} AsWrittenAgreesElsewhere(t: string)
    requires Lower(t) != "constructor" && Lower(t) != "__proto__"
    ensures TypeColorAsWritten(t) == JsString(TypeColor(t))
  {
  }

  /** A type named "Constructor" (in any case) gets the `Object` function instead of a class string. */
  lemma {:induction false} ConstructorTypeIsNotAColor()
    ensures TypeColorAsWritten("Constructor") == JsFunction("Object")
    ensures !TypeColorAsWritten("Constructor").JsString?
    ensures TypeColor("Constructor") == DefaultColor
  {
    assert Lower("Constructor") == "constructor";
    assert "constructor" !in TypeColorTable;
  }

  /** A type named "__proto__" gets the `Object.prototype` object instead of a class string. */
  lemma {:induction false} ProtoTypeIsNotAColor()
    ensures TypeColorAsWritten("__proto__") == JsObject("Object.prototype")
    ensures !TypeColorAsWritten("__proto__").JsString?
    ensures TypeColor("__proto__") == DefaultColor
  {
    assert Lower("__proto__") == "__proto__";
    assert "__proto__" !in TypeColorTable;
  }
}
