/** JSON values and the tolerant readers that look a field up under several names. */
module JsonValues {
  import opened Basics
  import opened Digits

  /** An integer the parser keeps as a 64-bit word; every other number is a fraction. */
  type JsonInteger = n: int | I64_MIN <= n <= U64_MAX

  type Object = map<string, Json>

  datatype Json =
    | Null
    | Bool(on: bool)
    | Num(n: JsonInteger)
    | Fraction
    | Str(text: string)
    | Arr(items: seq<Json>)
    | Obj(members: map<string, Json>)

  /** The names a field may go by, the canonical one first. */
  type Names = seq<string>

  // ----- Signed numbers as text -----

  /** `parse::<i64>`: digits with at most one sign in front, no overflow. */
  function ParseSigned(s: string): Option<i64>
  {
    if s != "" && s[0] == '-' then
      var digits := s[1..];
      if digits == "" || !AllDigits(digits) then None else
        var magnitude: int := DecimalValue(digits);
        if -magnitude < I64_MIN then None else Some(-magnitude)
    else
      var r := ParseUnsigned(s, I64_MAX);
      if r.Some? then Some(r.value) else None
  }

  // ----- Readers -----

  /** The value under the first name that is present, whatever its type. */
  function GetValue(obj: Object, names: Names): Option<Json>
  {
    if names == [] then None
    else if names[0] in obj then Some(obj[names[0]])
    else GetValue(obj, names[1..])
  }

  function GetText(obj: Object, names: Names): Option<string>
  {
    match GetValue(obj, names)
    case Some(Str(text)) => Some(text)
    case _ => None
  }

  function GetFlag(obj: Object, names: Names): Option<bool>
  {
    match GetValue(obj, names)
    case Some(Bool(on)) => Some(on)
    case Some(Num(n)) => if n <= I64_MAX then Some(n != 0) else None
    case Some(Str(text)) => if text == "true" then Some(true) else if text == "false" then Some(false) else None
    case _ => None
  }

  function GetI64(obj: Object, names: Names): Option<i64>
  {
    match GetValue(obj, names)
    case Some(Num(n)) => if n <= I64_MAX then Some(n) else None
    case Some(Str(text)) => ParseSigned(text)
    case _ => None
  }

  function GetI32(obj: Object, names: Names): Option<i32>
  {
    match GetI64(obj, names)
    case Some(n) => if I32_MIN <= n <= I32_MAX then Some(n) else None
    case None => None
  }

  function GetItems(obj: Object, names: Names): seq<Json>
  {
    match GetValue(obj, names)
    case Some(Arr(items)) => items
    case _ => []
  }

  function TextOf(value: Json): Option<string>
  {
    if value.Str? then Some(value.text) else None
  }

  /** The items that parse, in order; the others are dropped. */
  function FilterMap<A>(parse: Json -> Option<A>, items: seq<Json>): seq<A>
  {
    if items == [] then [] else
      var rest := FilterMap(parse, items[1..]);
      match parse(items[0])
      case Some(a) => [a] + rest
      case None => rest
  }

  function Or<A>(value: Option<A>, fallback: A): A
  {
    match value
    case Some(a) => a
    case None => fallback
  }
}
