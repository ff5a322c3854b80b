/**
 * The values `json.load` and the node's RPC responses decode to (floats
 * aside), and the handful of Python operations the checkers apply to them:
 * `==`, `in`, `len()`, and indexing by key or by position. An operation that
 * raises in Python (KeyError, IndexError, TypeError) gives None.
 */
module Json {
  import opened Wrappers

  /** A decoded JSON value. */
  datatype Value =
    | Null                        // None
    | Bool(b: bool)               // True, False
    | Int(i: int)
    | Str(s: string)
    | Array(items: seq<Value>)     // list
    | Object(fields: map<string, Value>)  // dict

  /** The number a bool or an int stands for: Python compares True and 1 as equal. */
  function Number(j: Value): int
    requires j.Bool? || j.Int?
  {
    if j.Bool? then (if j.b then 1 else 0) else j.i
  }

  /** Python `a == b` on decoded JSON values. */
  predicate PyEq(a: Value, b: Value) {
    match a
    case Null => b.Null?
    case Bool(_) => (b.Bool? || b.Int?) && Number(a) == Number(b)
    case Int(_) => (b.Bool? || b.Int?) && Number(a) == Number(b)
    case Str(s) => b.Str? && b.s == s
    case Array(xs) =>
      b.Array? && |xs| == |b.items| && forall i :: 0 <= i < |xs| ==> PyEq(xs[i], b.items[i])
    case Object(f) =>
      b.Object? && f.Keys == b.fields.Keys && forall k :: k in f ==> PyEq(f[k], b.fields[k])
  }

  /** Comparing with a string is plain equality: no other value equals a str. */
  lemma PyEqStr(a: Value, s: string)
    ensures PyEq(a, Str(s)) <==> a == Str(s)
  {
  }

  /** `needle in hay` for two strings: needle occurs as a contiguous substring. */
  predicate IsSubstring(needle: string, hay: string) {
    exists i :: 0 <= i <= |hay| && needle <= hay[i..]
  }

  /**
   * `key in container`: a substring test on a str, an element test on a
   * list, a key test on a dict; TypeError on anything else.
   */
  function Contains(container: Value, key: string): (r: Option<bool>)
    ensures r.Some? <==> container.Str? || container.Array? || container.Object?
    ensures container.Object? ==> r == Some(key in container.fields)
  {
    match container
    case Str(s) => Some(IsSubstring(key, s))
    case Array(xs) => Some(exists i :: 0 <= i < |xs| && PyEq(xs[i], Str(key)))
    case Object(f) => Some(key in f)
    case _ => None
  }

  /** `x[key]` with a str key: the value of a dict; KeyError or TypeError otherwise. */
  function Get(x: Value, key: string): (r: Option<Value>)
    ensures r.Some? <==> x.Object? && key in x.fields
    ensures r.Some? ==> r.value == x.fields[key]
  {
    if x.Object? && key in x.fields then Some(x.fields[key]) else None
  }

  /**
   * `x[i]` with a non-negative int: an element of a list, a one-character
   * str of a str; IndexError past the end, KeyError on a dict (JSON keys are
   * strings), TypeError on anything else.
   */
  function At(x: Value, i: nat): (r: Option<Value>)
    ensures x.Array? ==> (r.Some? <==> i < |x.items|) && (r.Some? ==> r.value == x.items[i])
    ensures x.Str? ==> (r.Some? <==> i < |x.s|) && (r.Some? ==> r.value == Str([x.s[i]]))
    ensures !x.Array? && !x.Str? ==> r.None?
  {
    match x
    case Array(xs) => if i < |xs| then Some(xs[i]) else None
    case Str(s) => if i < |s| then Some(Str([s[i]])) else None
    case _ => None
  }

  /** `len(x)`: characters of a str, elements of a list, keys of a dict; TypeError otherwise. */
  function Len(x: Value): (r: Option<nat>)
    ensures x.Array? ==> r == Some(|x.items|)
    ensures x.Str? ==> r == Some(|x.s|)
    ensures x.Object? ==> r == Some(|x.fields|)
    ensures x.Null? || x.Bool? || x.Int? ==> r.None?
  {
    match x
    case Str(s) => Some(|s|)
    case Array(xs) => Some(|xs|)
    case Object(f) => Some(|f|)
    case _ => None
  }

  /** `'key' in x and x['key'] == v`: holds exactly when x is a dict whose `key` entry equals v. */
  predicate FieldIs(x: Value, key: string, v: Value) {
    Contains(x, key) == Some(true) && Get(x, key).Some? && PyEq(Get(x, key).value, v)
  }

  /** The meaning of FieldIs: any other container raises at the lookup or fails the test. */
  lemma FieldIsMeans(x: Value, key: string, v: Value)
    ensures FieldIs(x, key, v) <==> x.Object? && key in x.fields && PyEq(x.fields[key], v)
  {
  }

  /** FieldIs against a string: the dict's entry is that very string. */
  lemma FieldIsStr(x: Value, key: string, s: string)
    ensures FieldIs(x, key, Str(s)) <==> x.Object? && key in x.fields && x.fields[key] == Str(s)
  {
    if x.Object? && key in x.fields {
      PyEqStr(x.fields[key], s);
    }
  }
}
