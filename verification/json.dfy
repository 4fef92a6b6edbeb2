/** The value `response.json()` hands to the registry bot: a tree of Python
    objects as `json.loads` builds them. Objects are insertion-ordered
    dictionaries with each key once; numbers are integers. */
module Json {
  import opened Wrappers
  import opened PyDict

  datatype Json =
    | JNull
    | JBool(b: bool)
    | JInt(i: int)
    | JStr(s: string)
    | JArr(items: seq<Json>)
    | JObj(members: Dict<Json>)

  /** Python truthiness: None, False, 0 and empty containers are false. */
  predicate Truthy(j: Json) {
    match j
    case JNull => false
    case JBool(b) => b
    case JInt(i) => i != 0
    case JStr(s) => s != ""
    case JArr(items) => items != []
    case JObj(members) => members != []
  }

  /** The exceptions the flattening code can raise on an unexpected tree. */
  datatype PyError = KeyError(key: string) | TypeError | AttributeError

  /** `obj[key]`: a missing key raises KeyError, and subscripting anything but
      a dictionary with a string raises TypeError. */
  function Index(obj: Json, key: string): (r: Result<Json, PyError>)
    ensures r.Success? <==> obj.JObj? && key in Keys(obj.members)
    ensures r.Success? ==> Get(obj.members, key) == Some(r.value)
    ensures obj.JObj? && key !in Keys(obj.members) ==> r == Failure(KeyError(key))
  {
    if !obj.JObj? then Failure(TypeError)
    else match Get(obj.members, key)
      case None => Failure(KeyError(key))
      case Some(v) => Success(v)
  }

  /** `obj.get(key, default)`: only dictionaries have `get`. */
  function GetOr(obj: Json, key: string, default: Json): (r: Result<Json, PyError>)
    ensures r.Success? <==> obj.JObj?
    ensures obj.JObj? && key !in Keys(obj.members) ==> r == Success(default)
    ensures obj.JObj? && key in Keys(obj.members) ==> r == Index(obj, key)
  {
    if !obj.JObj? then Failure(AttributeError)
    else match Get(obj.members, key)
      case None => Success(default)
      case Some(v) => Success(v)
  }

  /** The strings a `for` loop or `str.join` draws from a value, or the
      TypeError for a value that cannot be iterated as strings: a list yields
      its items (which must be strings), a string its characters, and a
      dictionary its keys. */
  function StringItems(j: Json): (r: Result<seq<string>, PyError>)
    ensures j.JArr? ==> (r.Success? <==> forall i :: 0 <= i < |j.items| ==> j.items[i].JStr?)
    ensures r.Success? && j.JArr? ==>
              |r.value| == |j.items| && forall i :: 0 <= i < |j.items| ==> j.items[i] == JStr(r.value[i])
    ensures j.JStr? ==> r.Success? && |r.value| == |j.s|
                        && forall i :: 0 <= i < |j.s| ==> r.value[i] == [j.s[i]]
    ensures j.JObj? ==> r == Success(Keys(j.members))
    ensures j.JNull? || j.JBool? || j.JInt? ==> r == Failure(TypeError)
  {
    match j
    case JArr(items) =>
      if forall i :: 0 <= i < |items| ==> items[i].JStr?
      then Success(seq(|items|, i requires 0 <= i < |items| => items[i].s))
      else Failure(TypeError)
    case JStr(s) => Success(seq(|s|, i requires 0 <= i < |s| => [s[i]]))
    case JObj(members) => Success(Keys(members))
    case _ => Failure(TypeError)
  }
}
