/** JSON values as Python's json module builds them.  An object is a dictionary,
    so member order is not part of a value; OrderedJson models texts. */
module Json {

  datatype Option<+T> = None | Some(value: T)

  datatype Json =
    | Null
    | Bool(b: bool)
    | Num(n: real)
    | Str(s: string)
    | Arr(items: seq<Json>)
    | Obj(members: map<string, Json>)

  /** `mapping.get(key, default)` on a dictionary. */
  function GetOr(j: Json, key: string, default: Json): Json
    requires j.Obj?
  {
    if key in j.members then j.members[key] else default
  }

  /** `mapping.get(key)`: an absent key and an explicit null look alike. */
  function Get(j: Json, key: string): Json
    requires j.Obj?
  {
    GetOr(j, key, Null)
  }

  /** The value Python's `==` cannot tell from `j`: False and True are the integers
      0 and 1, at every depth. */
  function PyFold(j: Json): Json {
    match j
    case Bool(b) => Num(if b then 1.0 else 0.0)
    case Arr(xs) => Arr(seq(|xs|, i requires 0 <= i < |xs| => PyFold(xs[i])))
    case Obj(m) => Obj(map k | k in m :: PyFold(m[k]))
    case _ => j
  }

  /** Python's `a == b`. */
  predicate PyEq(a: Json, b: Json) {
    PyFold(a) == PyFold(b)
  }

  /** Python's `value in list`. */
  predicate PyIn(v: Json, xs: seq<Json>) {
    exists i :: 0 <= i < |xs| && PyEq(v, xs[i])
  }

  predicate AllStrings(xs: seq<Json>) {
    forall i :: 0 <= i < |xs| ==> xs[i].Str?
  }

  /** `set(xs)` of a list of strings. */
  function StringSet(xs: seq<Json>): set<string>
    requires AllStrings(xs)
  {
    set i | 0 <= i < |xs| :: xs[i].s
  }
}
