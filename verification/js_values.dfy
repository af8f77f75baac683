/** JavaScript values as the endpoint and the form see them: what JSON.parse produces, the
    number type, and the coercions Number(...) and String(...) (section 7.1 of ECMA-262).
    The parts of those built-ins that depend on number formatting, number parsing or on
    user-visible methods of objects are left as oracles, bundled in `Builtins`. */
module JsValues {
  import opened Wrappers

  /** An IEEE double seen only through the distinctions the code makes: NaN, the two
      infinities, or a finite value (taken as a mathematical real) */
  datatype JsNumber = NaN | PosInf | NegInf | Finite(r: real)

  /** A value JSON.parse can return (RFC 8259). Numbers may be infinite, because
      JSON.parse("1e400") is Infinity. Objects are maps: key order is not modelled. */
  datatype Json =
    | JNull
    | JBool(b: bool)
    | JNum(num: JsNumber)
    | JStr(s: string)
    | JArr(items: seq<Json>)
    | JObj(fields: map<string, Json>)

  /** ToBoolean (section 7.1.2 of ECMA-262) */
  predicate Truthy(v: Json) {
    match v
    case JNull => false
    case JBool(b) => b
    case JNum(n) => !(n.NaN? || n == Finite(0.0))
    case JStr(s) => s != ""
    case JArr(_) => true
    case JObj(_) => true
  }

  /** `typeof v === "object"`: null, arrays and plain objects */
  predicate IsObjectType(v: Json) {
    v.JNull? || v.JArr? || v.JObj?
  }

  /** Property read `v.key`, None standing for undefined. Only own properties of plain objects
      are found: the keys this project reads are neither indices, "length", nor names
      inherited from Object.prototype or Array.prototype. */
  function Member(v: Json, key: string): Option<Json> {
    if v.JObj? && key in v.fields then Some(v.fields[key]) else None
  }

  /** The JavaScript built-ins whose internals are not modelled */
  datatype Builtins = Builtins(
    /** JSON.parse; None when it throws a SyntaxError */
    parse: string -> Option<Json>,
    /** StringToNumber (section 7.1.4.1.1 of ECMA-262), i.e. Number(s) of a string */
    stringToNumber: string -> JsNumber,
    /** Number::toString (section 6.1.6.1.20 of ECMA-262) of a finite number */
    finiteToString: real -> string,
    /** Number(v) of an array or object: ToPrimitive followed by ToNumber; it throws when
        the object's own "valueOf" and "toString" yield no primitive */
    objectToNumber: Json -> Completion<JsNumber>,
    /** String(v) of an array or object; throws in the same circumstances */
    objectToString: Json -> Completion<string>,
    /** Buffer.from(bytes).toString("base64") (section 4 of RFC 4648) */
    base64: seq<bv8> -> string)

  /** Number::toString of any number */
  function NumberToString(x: JsNumber, b: Builtins): string {
    match x
    case NaN => "NaN"
    case PosInf => "Infinity"
    case NegInf => "-Infinity"
    case Finite(r) => b.finiteToString(r)
  }

  /** Number(v), None standing for undefined; only arrays and objects can throw */
  function ToNumber(v: Option<Json>, b: Builtins): Completion<JsNumber> {
    match v
    case None => Normal(NaN)
    case Some(JNull) => Normal(Finite(0.0))
    case Some(JBool(x)) => Normal(Finite(if x then 1.0 else 0.0))
    case Some(JNum(n)) => Normal(n)
    case Some(JStr(s)) => Normal(b.stringToNumber(s))
    case Some(JArr(_)) => b.objectToNumber(v.value)
    case Some(JObj(_)) => b.objectToNumber(v.value)
  }

  /** String(v); only arrays and objects can throw */
  function ToStr(v: Json, b: Builtins): Completion<string> {
    match v
    case JNull => Normal("null")
    case JBool(x) => Normal(if x then "true" else "false")
    case JNum(n) => Normal(NumberToString(n, b))
    case JStr(s) => Normal(s)
    case JArr(_) => b.objectToString(v)
    case JObj(_) => b.objectToString(v)
  }

  /** `String(v || "")`, the idiom both the field extraction and the summary coercion use */
  function ToStrOrEmpty(v: Option<Json>, b: Builtins): (r: Completion<string>)
    ensures v.None? ==> r == Normal("")
    ensures v.Some? && v.value.JStr? ==> r == Normal(v.value.s)
    ensures v.Some? && !(v.value.JArr? || v.value.JObj?) ==> r.Normal?
  {
    if v.None? || !Truthy(v.value) then Normal("") else ToStr(v.value, b)
  }
}
