// Content trees as the CMS stores them: decoded JSON, with objects kept as
// association lists because the code walks a dict in insertion order.

module Wrappers {
  datatype Option<+T> = None | Some(value: T) {
    function GetOr(default: T): T {
      match this
      case Some(v) => v
      case None => default
    }
  }

  datatype Result<+T, +E> = Ok(value: T) | Fail(error: E) {
    predicate IsFailure() {
      Fail?
    }

    function PropagateFailure<U>(): Result<U, E>
      requires Fail?
    {
      Fail(error)
    }

    function Extract(): T
      requires Ok?
    {
      value
    }
  }
}

module JsonTree {
  import opened Wrappers

  datatype Json =
    | Null
    | Bool(b: bool)
    | Num(n: real)
    | Str(s: string)
    | Arr(items: seq<Json>)
    | Obj(entries: Dict)

  datatype Entry = Entry(key: string, val: Json)

  type Dict = seq<Entry>

  /** `d.get(k)`, with None for a missing key. */
  function Lookup(d: Dict, k: string): Option<Json> {
    if d == [] then None
    else if d[0].key == k then Some(d[0].val)
    else Lookup(d[1..], k)
  }

  function Keys(d: Dict): seq<string> {
    seq(|d|, i requires 0 <= i < |d| => d[i].key)
  }

  /** Truth value of a decoded JSON value. */
  predicate Truthy(j: Json) {
    match j
    case Null => false
    case Bool(b) => b
    case Num(n) => n != 0.0
    case Str(s) => s != ""
    case Arr(items) => items != []
    case Obj(entries) => entries != []
  }

  /** `content or {}`. */
  function OrEmpty(j: Json): Json {
    if Truthy(j) then j else Obj([])
  }
}
