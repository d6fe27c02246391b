/** The dynamically typed values that flow through the lookup helpers.

    A Python mapping is modelled as the ordered sequence of its (key, value)
    pairs, in iteration order, so that which of two colliding keys is seen
    last is explicit. Keys are strings, as the helpers' signatures declare.
 */
module Values {

  /** The Python values the helpers can meet: `None`, booleans, integers,
      strings, string-keyed mappings and lists. */
  datatype Value =
    | Null
    | Bool(b: bool)
    | Int(i: int)
    | Str(s: string)
    | Dict(entries: seq<(string, Value)>)
    | List(items: seq<Value>)

  /** A mapping in iteration order. */
  type Mapping = seq<(string, Value)>

  /** The empty mapping `{}`. */
  const EmptyDict: Value := Dict([])

  /** Python truthiness: `None`, `False`, `0`, `""`, `{}` and `[]` are falsy,
      every other value of these kinds is truthy. */
  predicate Truthy(v: Value) {
    match v
    case Null => false
    case Bool(b) => b
    case Int(i) => i != 0
    case Str(s) => |s| > 0
    case Dict(entries) => |entries| > 0
    case List(items) => |items| > 0
  }

  /** The falsy values are exactly the empty or zero value of each kind. */
  lemma FalsyValues(v: Value)
    ensures !Truthy(v) <==>
      v == Null || v == Bool(false) || v == Int(0) || v == Str("") || v == EmptyDict || v == List([])
  {
  }
}
