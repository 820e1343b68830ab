/** A parsed JSON request body and the JavaScript operations the handlers apply to it. */
module Json {
  import opened Optional

  /** JSON values; numbers are kept integral. */
  datatype Value =
    | Null
    | Bool(b: bool)
    | Number(n: int)
    | Str(s: string)
    | Array(items: seq<Value>)
    | Object(members: map<string, Value>)

  /** The outcome of `await request.json()`: it throws on a body that is not JSON. */
  datatype Body = Unparseable | Parsed(value: Value)

  /**
   * One property of `const { ... } = value` for a value that is not `null` (destructuring
   * `null` throws). Only an object has the keys the handlers read; on any other value the
   * property is `undefined`, written None.
   */
  function Property(value: Value, key: string): (p: Option<Value>)
    requires !value.Null?
    ensures p.Some? <==> value.Object? && key in value.members
    ensures p.Some? ==> p.value == value.members[key]
  {
    if value.Object? && key in value.members then Some(value.members[key]) else None
  }

  /** JavaScript truthiness of a property: `undefined`, `null`, `false`, `0` and `""` are falsy. */
  predicate Truthy(p: Option<Value>)
    ensures Truthy(p) ==> p.Some? && !p.value.Null?
    ensures p.Some? && (p.value.Array? || p.value.Object?) ==> Truthy(p)
  {
    match p
    case None => false
    case Some(v) =>
      match v
      case Null => false
      case Bool(b) => b
      case Number(n) => n != 0
      case Str(s) => s != ""
      case Array(_) => true
      case Object(_) => true
  }

  /**
   * Whether converting the value to a string, as a template literal does, throws. A JSON
   * object whose own `toString` is data rather than a function leaves no callable conversion;
   * an array converts its elements in turn; every other value converts.
   */
  predicate StringConversionThrows(v: Value)
    ensures StringConversionThrows(v) ==> v.Object? || (v.Array? && v.items != [])
  {
    match v
    case Object(members) => "toString" in members
    case Array(items) => exists i :: 0 <= i < |items| && StringConversionThrows(items[i])
    case _ => false
  }
}
