/**
  The dynamically typed JavaScript values that the response parsers and the
  header maps inspect: just enough structure to answer `typeof`,
  `Array.isArray`, `== null`, truthiness and the prototype checks the
  source makes.
 */
module JsValues {
  import Text

  /** What `Object.getPrototypeOf` gives for a non-array object, as far as the source looks at it. */
  datatype Prototype =
    | ObjectPrototype
    | NullPrototype
      /** An instance of a class whose `constructor.name` is `name`. */
    | ClassPrototype(name: string)
      /** A prototype whose `constructor` is not a function. */
    | NoConstructor

  datatype Value =
    | Undefined
    | Null
    | Boolean(b: bool)
      /** A number holding an integer. */
    | Number(n: int)
      /** Any other number (a fraction, NaN, an infinity), by its `String()` text. */
    | OtherNumber(text: string)
    | Str(s: string)
    | Symbol
    | BigInt
    | Function
    | Array(elements: seq<Value>)
      /** An object with its own enumerable string keys, in `Object.keys` order. */
    | Object(proto: Prototype, props: seq<(string, Value)>)
      /** A Node.js `Buffer`. */
    | Buffer
      /** A promise; `river` when it is a `River` (a stream, itself a promise). */
    | Promise(river: bool)

  /** `typeof v` */
  function TypeOf(v: Value): string
  {
    match v
    case Undefined => "undefined"
    case Null => "object"
    case Boolean(_) => "boolean"
    case Number(_) => "number"
    case OtherNumber(_) => "number"
    case Str(_) => "string"
    case Symbol => "symbol"
    case BigInt => "bigint"
    case Function => "function"
    case _ => "object"
  }

  /** `v == null` */
  predicate IsNullish(v: Value)
  {
    v.Undefined? || v.Null?
  }

  /** `typeof v === 'object' && v !== null`: arrays, buffers and promises included. */
  predicate IsObject(v: Value)
  {
    v.Array? || v.Object? || v.Buffer? || v.Promise?
  }

  /** `!!v` */
  predicate Truthy(v: Value)
  {
    match v
    case Undefined => false
    case Null => false
    case Boolean(b) => b
    case Number(n) => n != 0
    case OtherNumber(text) => text != "NaN"
    case Str(s) => s != ""
    case _ => true
  }

  /** Element `i` of an array as destructuring reads it: `undefined` past the end. */
  function At(elements: seq<Value>, i: nat): Value
  {
    if i < |elements| then elements[i] else Undefined
  }

  /** `String(n)` for an integer. */
  function IntText(n: int): (s: string)
    ensures s != []
  {
    if n < 0 then "-" + Text.DecimalText(-n) else Text.DecimalText(n)
  }

  /** The text a template literal gives a number. */
  function NumberText(v: Value): string
    requires v.Number? || v.OtherNumber?
  {
    if v.Number? then IntText(v.n) else v.text
  }

  /** The kind tests agree with `typeof`; `null` is the one `"object"` that is not an object. */
  lemma TypeOfKinds(v: Value)
    ensures TypeOf(v) == "string" <==> v.Str?
    ensures TypeOf(v) == "number" <==> v.Number? || v.OtherNumber?
    ensures TypeOf(v) == "object" <==> v.Null? || IsObject(v)
    ensures IsNullish(v) ==> !Truthy(v)
  {
  }
}
