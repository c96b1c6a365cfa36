/** Parsed JSON documents as the manifest mergers see them, and the handful of
    JavaScript operations the mergers apply to them: truthiness, `typeof`,
    `Array.isArray`, `Set` membership, object spread and `Object.entries`. */
module Json {
  import opened Common

  /** A value produced by `JSON.parse`. Numbers are kept integral (JSON text
      never yields NaN); an object is its fields in insertion order. */
  datatype Value =
    | Null
    | Bool(b: bool)
    | Num(n: int)
    | Str(s: string)
    | Arr(items: seq<Value>)
    | Obj(fields: seq<Field>)

  type Field = (string, Value)
  type Fields = Dict<string, Value>

  /** JavaScript truthiness: `null`, `false`, `0` and `""` are falsy; every
      array and object, even an empty one, is truthy. */
  predicate Truthy(v: Value)
  {
    match v
    case Null => false
    case Bool(b) => b
    case Num(n) => n != 0
    case Str(s) => s != ""
    case Arr(_) => true
    case Obj(_) => true
  }

  /** `typeof v === 'object'` (which includes `null` and arrays). */
  predicate TypeofObject(v: Value)
  {
    v.Null? || v.Arr? || v.Obj?
  }

  predicate IsScalar(v: Value)
  {
    !v.Arr? && !v.Obj?
  }

  /** `new Set(xs).has(x)` for values of one freshly parsed document against
      values of another: scalars compare by value (SameValueZero), while each
      array and object from a parse is its own reference and equals nothing
      it is compared with here. */
  predicate SetHas(xs: seq<Value>, x: Value)
  {
    IsScalar(x) && x in xs
  }

  function DigitChar(d: nat): char
    requires d < 10
  {
    "0123456789"[d]
  }

  /** The decimal property name of an array or string index. */
  function IndexKey(i: nat): string
  {
    if i < 10 then [DigitChar(i)] else IndexKey(i / 10) + [DigitChar(i % 10)]
  }

  /** The own enumerable properties of a value, as `{ ...v }` copies them:
      an object's fields, an array's or a string's indices, nothing for
      `null`, booleans and numbers. */
  function Spread(v: Value): Fields
  {
    match v
    case Obj(f) => f
    case Arr(items) => seq(|items|, i requires 0 <= i < |items| => (IndexKey(i), items[i]))
    case Str(s) => seq(|s|, i requires 0 <= i < |s| => (IndexKey(i), Str([s[i]])))
    case _ => []
  }

  /** `Object.entries(v)`: the same properties as a spread, except that
      `null` makes it throw a TypeError (`None`). */
  function Entries(v: Value): (r: Option<Fields>)
    ensures r.None? <==> v.Null?
    ensures r.Some? ==> r.value == Spread(v)
  {
    if v.Null? then None else Some(Spread(v))
  }
}
