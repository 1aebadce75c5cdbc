/**
  Parsed JSON values as `json.loads` returns them, Python truthiness, and
  `parse_success`, the classifier of API response bodies
  (skills/icp-batch-skill/scripts/run_icp_batch.py:74-81).

  Parsing itself is not modelled: every operation that looks at a body takes a
  `decode` function standing for `json.loads`, with `None` for text that does not
  parse.
*/
module JsonValue {
  import opened Wrappers

  datatype Json =
    | Null
    | Bool(b: bool)
    | Int(i: int)
    | Str(s: string)
    | Arr(items: seq<Json>)
    | Obj(fields: map<string, Json>)
  {
    /** Python truthiness: `None`, `False`, `0`, `""`, `[]` and `{}` are false. */
    predicate Truthy() {
      match this
      case Null => false
      case Bool(b) => b
      case Int(i) => i != 0
      case Str(s) => s != ""
      case Arr(a) => |a| > 0
      case Obj(m) => |m| > 0
    }

    /** Python's `v == 1`, which also holds for `True`. */
    predicate EqualsOne() {
      this == Int(1) || this == Bool(true)
    }

    /** Values a spreadsheet cell can hold: `None`, booleans, integers and strings. */
    predicate IsScalar() {
      Null? || Bool? || Int? || Str?
    }
  }

  /** `d.get(key, default)` on a JSON object. */
  function Get(fields: map<string, Json>, key: string, default: Json): Json {
    if key in fields then fields[key] else default
  }

  /**
    `parse_success(body)`: `None` unless the body decodes to an object whose `code`
    equals 1; then its `data` when that is truthy, and `{}` otherwise.
  */
  function ParseSuccess(decode: string -> Option<Json>, body: string): (r: Option<Json>)
    ensures r.Some? <==> decode(body).Some? && CodeIsOne(decode(body).value)
    ensures r.Some? ==> r.value.Truthy() || r.value == Obj(map[])
  {
    match decode(body)
    case None => None
    case Some(v) =>
      if !v.Obj? || !Get(v.fields, "code", Null).EqualsOne() then None
      else
        var data := Get(v.fields, "data", Null);
        Some(if data.Truthy() then data else Obj(map[]))
  }

  /** A decoded body is an object whose `code` field equals 1. */
  predicate CodeIsOne(v: Json) {
    v.Obj? && "code" in v.fields && v.fields["code"].EqualsOne()
  }

  /**
    What every caller of `parse_success` accepts: a truthy result. Each caller
    drops `None` and `{}` alike (`if not data`, `if not parse_success(...)`).
  */
  predicate Accepted(decode: string -> Option<Json>, body: string) {
    var r := ParseSuccess(decode, body);
    r.Some? && r.value.Truthy()
  }

  /**
    The classifier accepts a body exactly when it decodes to an object with
    `code == 1` and a truthy `data`; the accepted value is that `data`. A body with
    `code: 1` and an empty or absent `data` is a failure.
  */
  lemma AcceptedIff(decode: string -> Option<Json>, body: string)
    ensures Accepted(decode, body) <==>
      decode(body).Some? && CodeIsOne(decode(body).value)
      && "data" in decode(body).value.fields && decode(body).value.fields["data"].Truthy()
    ensures Accepted(decode, body) ==> ParseSuccess(decode, body).value == decode(body).value.fields["data"]
  {
  }
}
