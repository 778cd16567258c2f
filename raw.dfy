/**
 * Loosely typed input records, as the builders receive them: Python dictionaries whose
 * values may be strings, booleans, numbers, `None`, lists or nested dictionaries.
 */
module Raw {
  import opened Text

  /** A raw Python value. */
  datatype Value =
    | Null
    | Bool(b: bool)
    | Int(i: int)
    /** A float is kept opaque: `text` is the literal Python prints for it (`repr`). */
    | Float(text: string)
    | Str(s: string)
    | List(items: seq<Value>)
    | Dict(entries: map<string, Value>)

  /** A raw record: a dictionary with string keys. */
  type Record = map<string, Value>

  /** Python truthiness, as `if v:` decides it. */
  predicate Truthy(v: Value)
    ensures !Truthy(v) <==>
      || v == Null || v == Bool(false) || v == Int(0) || v == Str("") || v == List([]) || v == Dict(map[])
      || v == Float("0.0") || v == Float("-0.0")
  {
    match v
    case Null => false
    case Bool(b) => b
    case Int(i) => i != 0
    case Float(t) => t != "0.0" && t != "-0.0"
    case Str(s) => s != ""
    case List(items) => items != []
    case Dict(entries) => entries != map[]
  }

  /** Lists and dictionaries cannot be dictionary keys (`TypeError: unhashable type`). */
  predicate Hashable(v: Value) {
    !v.List? && !v.Dict?
  }

  /** `record.get(key, default)`. */
  function Get(record: Record, key: string, default: Value): (r: Value)
    ensures key in record ==> r == record[key]
    ensures key !in record ==> r == default
  {
    if key in record then record[key] else default
  }

  /** `str(v)`, as an f-string renders a value. */
  function Render(v: Value): string {
    match v
    case Null => "None"
    case Bool(b) => if b then "True" else "False"
    case Int(i) => IntToString(i)
    case Float(t) => t
    case Str(s) => s
    case List(_) => "[...]"
    case Dict(_) => "{...}"
  }

  /** Any non-empty string is truthy, including "false": only the empty string is not. */
  lemma TruthyStrings(s: string)
    ensures Truthy(Str(s)) <==> s != ""
    ensures Truthy(Str("true")) && Truthy(Str("false")) && !Truthy(Str(""))
  {
  }
}
