/** JSON record values and the coercions the store and the capacity manager apply to them. */
module Values {
  import opened Results
  import opened Text

  /** A JSON value; a list or object is known here only by its str() text. */
  datatype Value = Null | Bool(b: bool) | Int(n: int) | Str(s: string) | Other(repr: string)

  /** A decoded record. */
  type Object = map<string, Value>

  /** obj.get(key, default) */
  function Get(obj: Object, key: string, default: Value): Value {
    if key in obj then obj[key] else default
  }

  /** str(value) */
  function PyStr(value: Value): string {
    match value
    case Null => "None"
    case Bool(b) => if b then "True" else "False"
    case Int(n) => IntText(n)
    case Str(s) => s
    case Other(repr) => repr
  }

  /** The store's _as_int: null counts as 0 and a bool as 0 or 1. */
  function AsInt(value: Value): Result<int> {
    match value
    case Null => Ok(0)
    case Bool(b) => Ok(if b then 1 else 0)
    case Int(n) => Ok(n)
    case Str(s) => if IntValue(s).Some? then Ok(IntValue(s).value) else Err(ValueError)
    case Other(_) => Err(ValueError)
  }

  /** The capacity manager's _to_int: null and bool are refused; None stands for either exception. */
  function ToInt(value: Value): Option<int> {
    match value
    case Int(n) => Some(n)
    case Str(s) => IntValue(s)
    case _ => None
  }

  /** The two coercions disagree on null and bool only. */
  lemma CoercionsAgree(value: Value)
    ensures ToInt(value).Some? <==> AsInt(value).Ok? && !value.Null? && !value.Bool?
    ensures ToInt(value).Some? ==> AsInt(value) == Ok(ToInt(value).value)
  {
  }
}
