/** Values shared by every part of the model: optional values, raw bytes and the JSON
    documents the handlers return. */
module Common {

  datatype Option<T> = None | Some(value: T) {
    function GetOr(default: T): T {
      match this
      case Some(v) => v
      case None => default
    }
  }

  /** File content as it travels through multipart uploads and the blob directory. */
  type Bytes = seq<bv8>

  /** A JSON document as jsonify renders it. Objects are maps: jsonify writes their keys
      sorted, so the order in which a dict was built does not show. */
  datatype Json =
    | Null
    | Bool(b: bool)
    | Int(i: int)
    | Str(s: string)
    | Arr(items: seq<Json>)
    | Obj(members: map<string, Json>)

  /** `j[key]` for an object `j`; None for a missing key or a non-object. */
  function Member(j: Json, key: string): Option<Json> {
    if j.Obj? && key in j.members then Some(j.members[key]) else None
  }

  /** A nullable text column rendered to JSON: NULL becomes null. */
  function OptStr(o: Option<string>): Json {
    if o.Some? then Str(o.value) else Null
  }

  /** `t` occurs in `s` starting at position `i`. */
  predicate InfixAt<T(==)>(t: seq<T>, s: seq<T>, i: int) {
    0 <= i <= |s| - |t| && s[i..i + |t|] == t
  }

  /** `t` occurs in `s` as a contiguous run. */
  predicate IsInfix<T(==)>(t: seq<T>, s: seq<T>) {
    exists i :: 0 <= i <= |s| - |t| && InfixAt(t, s, i)
  }
}
