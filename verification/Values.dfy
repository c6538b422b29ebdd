// Nested dictionaries, as YAML and JSON documents are held in memory.
module Values {
  import opened Wrappers
  import opened Text

  type Dict = map<string, Value>

  datatype Value =
    | Str(text: string)
    | Num(n: int)
    | List(items: seq<Value>)
    | Obj(dict: map<string, Value>)

  // The value found by following keys from dictionary to dictionary.
  function At(v: Value, path: seq<string>): Option<Value> {
    if path == [] then Some(v)
    else if v.Obj? && path[0] in v.dict then At(v.dict[path[0]], path[1..])
    else None
  }

  // Whether the printed form contains the text: some key or string does.
  predicate Mentions(v: Value, text: string) {
    match v
    case Str(t) => Contains(t, text)
    case Num(_) => false
    case List(items) => exists i | 0 <= i < |items| :: Mentions(items[i], text)
    case Obj(dict) => exists k | k in dict :: Contains(k, text) || Mentions(dict[k], text)
  }
}
