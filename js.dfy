/** JavaScript values as the controllers see them: row fields, truthiness,
    strict equality, template-literal text, and the exceptions they throw. */
module Js {

  datatype Option<T> = None | Some(value: T)

  /** The outcome of a controller routine that may throw. */
  datatype Result<T> = Success(value: T) | Failure(error: Error) {
    predicate IsFailure() { Failure? }

    function PropagateFailure<U>(): Result<U>
      requires Failure?
    {
      Failure(error)
    }

    function Extract(): T
      requires Success?
    {
      value
    }
  }

  /** What the controllers throw: the `Error`s they raise themselves, and the
      TypeError that JavaScript raises on a property read through `undefined`. */
  datatype Error =
    | TypeError
    | EntitySetNotFound(entitySet: string)
    | EntityTypeNotFound(entityType: string)
    | AssociationNotFound(relationship: string)
    | JoinKeyMissing
    | MetadataMissing
    | MetadataNotObject
    | KeyMetadataMissing(entitySet: string)

  /** A field value of an OData row. Numbers are integers here; objects and
      arrays are known only by their reference, as `===` sees them. */
  datatype Value =
    | Undefined
    | Null
    | Bool(b: bool)
    | Num(n: int)
    | NaN
    | Str(s: string)
    | Obj(ref: nat)

  /** JavaScript truthiness: null, undefined, false, 0, NaN and "" are falsy. */
  predicate Truthy(v: Value) {
    match v
    case Undefined => false
    case Null => false
    case Bool(b) => b
    case Num(n) => n != 0
    case NaN => false
    case Str(s) => s != ""
    case Obj(_) => true
  }

  /** `a === b`: NaN equals nothing, objects compare by reference. */
  predicate StrictEquals(a: Value, b: Value) {
    !a.NaN? && a == b
  }

  /** `typeof v === 'object' && v !== null` */
  predicate IsObject(v: Value) {
    v.Obj?
  }

  /** A row: a plain object from field name to value. */
  type Row = map<string, Value>

  /** `row[key]`: a missing field reads as undefined. */
  function Get(row: Row, key: string): (v: Value)
    ensures key !in row ==> v == Undefined
    ensures key in row ==> v == row[key]
  {
    if key in row then row[key] else Undefined
  }

  /** A property-name argument that a caller may leave `undefined`. */
  predicate NameTruthy(name: Option<string>) {
    name.Some? && name.value != ""
  }

  /** The field a name argument selects: `row[undefined]` reads field "undefined". */
  function KeyOf(name: Option<string>): string {
    if name.Some? then name.value else "undefined"
  }

  function DigitChar(d: nat): char
    requires d < 10
  {
    "0123456789"[d]
  }

  /** Decimal text of a natural number. */
  function NatToText(n: nat): (t: string)
    ensures |t| >= 1
    ensures forall i :: 0 <= i < |t| ==> '0' <= t[i] <= '9'
  {
    if n < 10 then [DigitChar(n)] else NatToText(n / 10) + [DigitChar(n % 10)]
  }

  /** The text `${v}` interpolates into a template literal. */
  function ToText(v: Value): string {
    match v
    case Undefined => "undefined"
    case Null => "null"
    case Bool(b) => if b then "true" else "false"
    case Num(n) => if n < 0 then "-" + NatToText(-n) else NatToText(n)
    case NaN => "NaN"
    case Str(s) => s
    case Obj(_) => "[object Object]"
  }
}
