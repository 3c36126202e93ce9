/**
 * JavaScript/JSON values as the slide core sees them at run time, and the
 * handful of coercions it applies to them (`?.`, `??`, truthiness,
 * `Array.isArray`, `typeof`, `String(x)`).
 *
 * `undefined` is `None` in an `Option<Value>`; an object property that holds
 * `undefined` is the same as an absent one. Numbers are integers.
 */
module Js {
  import opened Wrappers
  import opened Text

  datatype Value =
    | Null
    | Bool(b: bool)
    | Num(n: int)
    | Str(s: string)
    | Arr(items: seq<Value>)
    | Obj(fields: map<string, Value>)

  /** `v?.key`: undefined unless v is a (non-array) object holding key. */
  function Get(v: Option<Value>, key: string): (r: Option<Value>)
    ensures r.Some? <==> v.Some? && v.value.Obj? && key in v.value.fields
    ensures r.Some? ==> r.value == v.value.fields[key]
  {
    if v.Some? && v.value.Obj? && key in v.value.fields then Some(v.value.fields[key]) else None
  }

  /** Two objects with the same properties are equal. */
  lemma ObjectExt(a: Value, b: Value)
    requires a.Obj? && b.Obj?
    requires forall key :: Get(Some(a), key) == Get(Some(b), key)
    ensures a == b
  {
    forall key | key in a.fields ensures key in b.fields && a.fields[key] == b.fields[key] {
      assert Get(Some(a), key) == Get(Some(b), key);
    }
    forall key | key in b.fields ensures key in a.fields {
      assert Get(Some(a), key) == Get(Some(b), key);
    }
  }

  /** `v?.k1?.k2?...`, a chain of optional property reads. */
  function Path(v: Option<Value>, keys: seq<string>): Option<Value>
    decreases |keys|
  {
    if keys == [] then v else Path(Get(v, keys[0]), keys[1..])
  }

  /** JavaScript truthiness. */
  predicate Truthy(v: Option<Value>) {
    match v
    case None => false
    case Some(Null) => false
    case Some(Bool(b)) => b
    case Some(Num(n)) => n != 0
    case Some(Str(s)) => s != ""
    case Some(_) => true
  }

  /** `v == null`: null or undefined. */
  predicate Nullish(v: Option<Value>) {
    v.None? || v.value.Null?
  }

  /** `v ?? d`. */
  function Coalesce(v: Option<Value>, d: Value): (r: Value)
    ensures !Nullish(v) ==> Some(r) == v
    ensures Nullish(v) ==> r == d
  {
    if Nullish(v) then d else v.value
  }

  /** `isObject(x)` of the source: truthy, `typeof` "object", and not an array. */
  predicate IsObject(v: Option<Value>) {
    v.Some? && v.value.Obj?
  }

  predicate IsArray(v: Option<Value>) {
    v.Some? && v.value.Arr?
  }

  /** `Array.isArray(v) ? v : []`. */
  function ArrayOr(v: Option<Value>): (r: seq<Value>)
    ensures IsArray(v) ==> r == v.value.items
    ensures !IsArray(v) ==> r == []
  {
    if IsArray(v) then v.value.items else []
  }

  /** `typeof v === "string" ? v : undefined`. */
  function StrOf(v: Option<Value>): (r: Option<string>)
    ensures r.Some? <==> v.Some? && v.value.Str?
    ensures r.Some? ==> v == Some(Str(r.value))
  {
    if v.Some? && v.value.Str? then Some(v.value.s) else None
  }

  /** `typeof v`. */
  function TypeOf(v: Option<Value>): string {
    match v
    case None => "undefined"
    case Some(Bool(_)) => "boolean"
    case Some(Num(_)) => "number"
    case Some(Str(_)) => "string"
    case Some(_) => "object"
  }

  /** `String(v)`; an array joins its elements with commas, null and undefined elements printing as "". */
  function ToStr(v: Value): string
    decreases v
  {
    match v
    case Null => "null"
    case Bool(b) => if b then "true" else "false"
    case Num(n) => IntToString(n)
    case Str(s) => s
    case Arr(items) =>
      Join(seq(|items|, i requires 0 <= i < |items| => if items[i].Null? then "" else ToStr(items[i])), ",")
    case Obj(_) => "[object Object]"
  }

  /** `String(v ?? "")`. */
  function ToStrOrEmpty(v: Value): (r: string)
    ensures v.Str? ==> r == v.s
  {
    if v.Null? then "" else ToStr(v)
  }

  /** The fields a spread `{ ...v }` copies: an object's own properties; no others are modelled. */
  function SpreadFields(v: Value): map<string, Value> {
    if v.Obj? then v.fields else map[]
  }

  /** An object literal with the optional properties that are defined. */
  function WithOpt(m: map<string, Value>, key: string, v: Option<Value>): (r: map<string, Value>)
    ensures v.Some? ==> r == m[key := v.value]
    ensures v.None? ==> r == m - {key}
  {
    if v.Some? then m[key := v.value] else m - {key}
  }

  function StrList(xs: seq<string>): (r: Value)
    ensures r.Arr? && |r.items| == |xs|
    ensures forall i :: 0 <= i < |xs| ==> r.items[i] == Str(xs[i])
  {
    Arr(seq(|xs|, i requires 0 <= i < |xs| => Str(xs[i])))
  }
}
