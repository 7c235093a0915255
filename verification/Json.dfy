/**
 Values that travel between the steps of a skill: what Go holds in an `interface{}` after a JSON
 decode. A nil interface, a nil map and a nil slice behave alike in most places but print
 differently, so each has its own constructor.
 */
module Json {
  import opened Text

  datatype Value =
    | Null
    | NilMap
    | NilList
    | Bool(b: bool)
    | Num(n: real)
    | Str(s: string)
    | List(items: seq<Value>)
    | Obj(fields: map<string, Value>)

  /** engine.go `toSlice`. A nil slice yields a nil slice, which callers treat as "not a list". */
  function ToSlice(v: Value): Option<seq<Value>> {
    match v
    case List(items) => Some(items)
    case _ => None
  }

  /** engine.go `toMap`: the fields offered as `.item`; JSON null decodes to a nil map. */
  function ToMap(v: Value): Option<map<string, Value>> {
    match v
    case Obj(fields) => Some(fields)
    case Null => None
    case NilMap => None
    case NilList => None
    case _ => Some(map["value" := v])
  }

  /**
   engine.go `normaliseOutput`. `parse` is `json.Unmarshal` of a text into a map: the decoded map
   (which may be nil), or None when the text is not a JSON object.
   */
  function Normalise(parse: string -> Option<Value>, v: Value): Value {
    match v
    case Str(s) => (match parse(s) case Some(m) => m case None => v)
    case Null => NilMap
    case _ => v
  }

  /** The Go slice built by appending `items` to a nil slice. */
  function Appended(items: seq<Value>): Value {
    if items == [] then NilList else List(items)
  }
}
