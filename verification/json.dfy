/** JSON values as the services receive them, and the few Python operations
    the handlers apply to them: truthiness, `or`, `dict.get`, subscripting,
    iteration and `==`. */
module Json {
  import opened Wrappers

  /** A parsed JSON value. Numbers are integers only (floats are not modelled).
      An object keeps its members in document (insertion) order. */
  datatype Json =
    | Null
    | Bool(b: bool)
    | Num(n: int)
    | Str(s: string)
    | Arr(items: seq<Json>)
    | Obj(members: seq<Member>)

  datatype Member = Member(key: string, value: Json)

  /** A Python dict never holds a key twice; an object parsed from JSON by
      the services is one. */
  predicate DistinctKeys(ms: seq<Member>) {
    forall i, j :: 0 <= i < j < |ms| ==> ms[i].key != ms[j].key
  }

  predicate HasKey(ms: seq<Member>, k: string) {
    exists i :: 0 <= i < |ms| && ms[i].key == k
  }

  /** The value stored under `k`, if any. */
  function Lookup(ms: seq<Member>, k: string): (r: Option<Json>)
    ensures r.Some? <==> HasKey(ms, k)
  {
    if ms == [] then None
    else if ms[0].key == k then Some(ms[0].value)
    else
      assert HasKey(ms, k) <==> HasKey(ms[1..], k) by {
        if HasKey(ms, k) {
          var i :| 0 <= i < |ms| && ms[i].key == k;
          assert ms[1..][i - 1].key == k;
        }
        if HasKey(ms[1..], k) {
          var i :| 0 <= i < |ms[1..]| && ms[1..][i].key == k;
          assert ms[i + 1].key == k;
        }
      }
      Lookup(ms[1..], k)
  }

  lemma {:induction false} LookupAt(ms: seq<Member>, i: nat)
    requires i < |ms| && DistinctKeys(ms)
    ensures Lookup(ms, ms[i].key) == Some(ms[i].value)
  {
    if i > 0 {
      assert ms[0].key != ms[i].key;
      assert ms[1..][i - 1] == ms[i];
      LookupAt(ms[1..], i - 1);
    }
  }

  /** Python truthiness of a JSON value. */
  predicate Truthy(j: Json) {
    match j
    case Null => false
    case Bool(b) => b
    case Num(n) => n != 0
    case Str(s) => s != []
    case Arr(xs) => xs != []
    case Obj(ms) => ms != []
  }

  /** Python `a or b`. */
  function Or(a: Json, b: Json): (r: Json)
    ensures Truthy(a) ==> r == a
    ensures !Truthy(a) ==> r == b
  {
    if Truthy(a) then a else b
  }

  /** `d.get(k, default)`: only a dict has `get` (AttributeError otherwise). */
  function GetOr(d: Json, k: string, default: Json): (r: Result<Json>)
    ensures r.Ok? <==> d.Obj?
    ensures d.Obj? && !HasKey(d.members, k) ==> r == Ok(default)
  {
    match d
    case Obj(ms) => (match Lookup(ms, k) case Some(v) => Ok(v) case None => Ok(default))
    case _ => Raised
  }

  /** `d.get(k)`: Python's None, for a missing key as for a JSON null. */
  function Get(d: Json, k: string): Result<Json>
  {
    GetOr(d, k, Null)
  }

  /** The value of `d.get(k)` on a dict, as a plain value. */
  function Field(ms: seq<Member>, k: string): Json
  {
    match Lookup(ms, k) case Some(v) => v case None => Null
  }

  /** `d[k]` with a string key: KeyError when missing, TypeError on a
      non-dict (a list or a str needs an integer index). */
  function Subscript(d: Json, k: string): (r: Result<Json>)
    ensures r.Ok? <==> d.Obj? && HasKey(d.members, k)
  {
    match d
    case Obj(ms) => (match Lookup(ms, k) case Some(v) => Ok(v) case None => Raised)
    case _ => Raised
  }

  /** The elements `for x in j` visits: a list's items, a dict's keys, a
      str's characters; anything else is not iterable (TypeError). */
  function Iterate(j: Json): (r: Result<seq<Json>>)
    ensures j.Arr? ==> r == Ok(j.items)
    ensures r.Ok? ==> (|r.value| == 0 <==> !Truthy(j))
  {
    match j
    case Arr(xs) => Ok(xs)
    case Obj(ms) => Ok(seq(|ms|, i requires 0 <= i < |ms| => Str(ms[i].key)))
    case Str(s) => Ok(seq(|s|, i requires 0 <= i < |s| => Str([s[i]])))
    case _ => Raised
  }

  /** Python `a == b` on parsed JSON: dicts compare without regard to key
      order, and a bool equals the number 1 or 0. */
  predicate PyEq(a: Json, b: Json) {
    match a
    case Null => b.Null?
    case Bool(x) => (b.Bool? && b.b == x) || (b.Num? && b.n == (if x then 1 else 0))
    case Num(n) => (b.Num? && b.n == n) || (b.Bool? && n == (if b.b then 1 else 0))
    case Str(s) => b.Str? && b.s == s
    case Arr(xs) =>
      b.Arr? && |xs| == |b.items| && forall i :: 0 <= i < |xs| ==> PyEq(xs[i], b.items[i])
    case Obj(ms) =>
      b.Obj? && |ms| == |b.members| &&
      forall i :: 0 <= i < |ms| ==>
        Lookup(b.members, ms[i].key).Some? && PyEq(ms[i].value, Lookup(b.members, ms[i].key).value)
  }

  /** On strings Python equality is plain equality. */
  lemma PyEqStr(a: Json, s: string)
    ensures PyEq(a, Str(s)) <==> a == Str(s)
    ensures PyEq(Str(s), a) <==> a == Str(s)
  {
  }
}
