/** Decoded JSON values as the Python code sees them after `json.loads`, and the two
    built-in coercions the code applies to them: `str(value)` and `int(value)`.

    Floating-point numbers are not modelled. `str()` of a list or dict is abstracted
    to a fixed bracketed placeholder: non-blank, never an integer. */
module JsonValue {
  import opened Wrappers
  import Text
  import Numbers

  datatype Json =
    | JNull
    | JBool(b: bool)
    | JInt(i: int)
    | JStr(s: string)
    | JArray(items: seq<Json>)
    | JObject(fields: map<string, Json>)

  /** Python's `d.get(key)`: a missing key reads as None. */
  function Get(fields: map<string, Json>, key: string): Json {
    if key in fields then fields[key] else JNull
  }

  /** `d.get(key)` on a value that may not be a mapping, as in
      `x.get("id") if isinstance(x, Mapping) else None`. */
  function GetIn(v: Json, key: string): Json {
    if v.JObject? then Get(v.fields, key) else JNull
  }

  /** Python's `str(value)`. */
  function PyStr(v: Json): (r: string)
    ensures v.JStr? ==> r == v.s
    ensures !v.JStr? ==> |r| > 0 && !Text.IsSpace(r[0]) && !Text.IsBlank(r)
  {
    match v
    case JNull => "None"
    case JBool(b) => if b then "True" else "False"
    case JInt(i) => Numbers.IntToString(i)
    case JStr(s) => s
    case JArray(_) => "[...]"
    case JObject(_) => "{...}"
  }

  /** Python's `int(value)`; a TypeError or ValueError is None. */
  function PyInt(v: Json): (r: Option<int>)
    ensures v.JInt? ==> r == Some(v.i)
    ensures v.JBool? ==> r == Some(if v.b then 1 else 0)
    ensures v.JStr? ==> r == Numbers.PyIntOfText(v.s)
    ensures v.JNull? || v.JArray? || v.JObject? ==> r.None?
  {
    match v
    case JInt(i) => Some(i)
    case JBool(b) => Some(if b then 1 else 0)
    case JStr(s) => Numbers.PyIntOfText(s)
    case _ => None
  }

  /** Python's `int(str(value).strip())`, which unlike `int(value)` rejects booleans. */
  function PyIntOfStr(v: Json): Option<int> {
    match v
    case JInt(i) => Some(i)
    case JStr(s) => Numbers.PyIntOfText(s)
    case _ => None
  }

  /** PyIntOfStr is `int` applied to the stripped `str()` text of the value. */
  lemma PyIntOfStrIsIntOfText(v: Json)
    ensures PyIntOfStr(v) == Numbers.PyIntOfText(PyStr(v))
  {
    if v.JInt? {
      Numbers.IntToStringParses(v.i);
      assert Text.NoEdgeSpace(Numbers.IntToString(v.i));
    } else if !v.JStr? {
      NonNumericText(PyStr(v));
    }
  }

  lemma NonNumericText(t: string)
    requires t in {"None", "True", "False", "[...]", "{...}"}
    ensures Numbers.PyIntOfText(t) == None
  {
    if t == "None" { NoSignOrDigit("None"); }
    else if t == "True" { NoSignOrDigit("True"); }
    else if t == "False" { NoSignOrDigit("False"); }
    else if t == "[...]" { NoSignOrDigit("[...]"); }
    else { NoSignOrDigit("{...}"); }
  }

  /** A trimmed text that starts with neither a sign nor a digit is no integer. */
  lemma NoSignOrDigit(t: string)
    requires |t| > 0 && !Text.IsSpace(t[0]) && !Text.IsSpace(t[|t| - 1])
    requires !Numbers.IsDigit(t[0]) && t[0] != '-' && t[0] != '+'
    ensures Numbers.PyIntOfText(t) == None
  {
    assert Text.NoEdgeSpace(t);
  }
}
