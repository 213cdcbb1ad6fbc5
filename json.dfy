/** JSON values as the Python programs hold them after `json.load` / `request.get_json()`,
    and the few Python operations those programs apply to them: truth testing, the `in`
    operator, subscripting, `len` and string slicing. An operation Python would refuse
    yields the exception it raises, as a `Fault`. */
module Json {

  datatype Option<+T> = None | Some(value: T)

  /** A JSON value. Numbers are exact rationals: the programs only compare them for
      equality and test them against zero. */
  datatype Json =
    | JNull
    | JBool(b: bool)
    | JNum(n: real)
    | JStr(s: string)
    | JArr(items: seq<Json>)
    | JObj(fields: map<string, Json>)

  /** The operand of a Python subscript: a dictionary key or a list/string position. */
  datatype Subscript = Key(name: string) | Index(i: int)

  /** The Python exception an operation raises. */
  datatype Fault = KeyError(key: Subscript) | IndexError | TypeError

  datatype Result<+T> = Ok(value: T) | Err(fault: Fault)

  /** Python's truth value of a JSON value (`if data:` / `not data`). */
  predicate Truthy(j: Json) {
    match j
    case JNull => false
    case JBool(b) => b
    case JNum(n) => n != 0.0
    case JStr(s) => s != []
    case JArr(a) => a != []
    case JObj(m) => m != map[]
  }

  /** `k` occurs in `s` as a contiguous run of characters. */
  predicate IsSubstring(k: string, s: string) {
    exists i, j :: 0 <= i <= j <= |s| && s[i..j] == k
  }

  /** Python's `k in j` for a string `k`: key membership for a dictionary, element
      equality for a list, substring for a string; any other value is not a container. */
  function Contains(j: Json, k: string): (r: Result<bool>)
    ensures r.Err? <==> j.JNull? || j.JBool? || j.JNum?
    ensures r.Err? ==> r.fault == TypeError
    ensures j.JObj? ==> r == Ok(k in j.fields)
  {
    match j
    case JObj(m) => Ok(k in m)
    case JArr(a) => Ok(JStr(k) in a)
    case JStr(s) => Ok(IsSubstring(k, s))
    case _ => Err(TypeError)
  }

  /** Python's `j[sub]`. A list or string accepts positions in `-len .. len-1`; a
      dictionary parsed from JSON has string keys only, so a position is a missing key. */
  function Get(j: Json, sub: Subscript): (r: Result<Json>)
    ensures r.Ok? && sub.Key? ==> j.JObj? && sub.name in j.fields && r.value == j.fields[sub.name]
    ensures j.JObj? && sub.Key? && sub.name !in j.fields ==> r == Err(KeyError(sub))
  {
    match j
    case JObj(m) =>
      (match sub
       case Key(k) => if k in m then Ok(m[k]) else Err(KeyError(sub))
       case Index(_) => Err(KeyError(sub)))
    case JArr(a) =>
      (match sub
       case Index(i) =>
         if 0 <= i < |a| then Ok(a[i])
         else if -|a| <= i < 0 then Ok(a[|a| + i])
         else Err(IndexError)
       case Key(_) => Err(TypeError))
    case JStr(s) =>
      (match sub
       case Index(i) =>
         if 0 <= i < |s| then Ok(JStr([s[i]]))
         else if -|s| <= i < 0 then Ok(JStr([s[|s| + i]]))
         else Err(IndexError)
       case Key(_) => Err(TypeError))
    case _ => Err(TypeError)
  }

  /** Python's `len(j)`. */
  function Len(j: Json): (r: Result<nat>)
    ensures r.Err? <==> j.JNull? || j.JBool? || j.JNum?
  {
    match j
    case JArr(a) => Ok(|a|)
    case JStr(s) => Ok(|s|)
    case JObj(m) => Ok(|m|)
    case _ => Err(TypeError)
  }

  /** The text of a JSON string; any other value makes the string operations the
      programs apply to it (`[:45]`, `.replace`) fail. */
  function Text(j: Json): (r: Result<string>)
    ensures r.Ok? <==> j.JStr?
  {
    match j
    case JStr(s) => Ok(s)
    case _ => Err(TypeError)
  }

  /** Python's `s[:n]` for `n >= 0`. */
  function Take(s: string, n: nat): (r: string)
    ensures r <= s
    ensures |r| == if |s| <= n then |s| else n
  {
    if |s| <= n then s else s[..n]
  }
}
