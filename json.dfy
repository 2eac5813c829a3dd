/**
  Plain JavaScript values, as the table renderer reads them out of settings,
  records and stored blobs. Objects are finite maps from property names to
  values; numbers are integers (floating point is not modelled).
 */
module Json {

  datatype Value =
    | Undefined
    | Null
    | Bool(b: bool)
    | Num(n: int)
    | Str(s: string)
    | Arr(items: seq<Value>)
    | Obj(fields: map<string, Value>)

  /** The own enumerable properties of an object. */
  type Object = map<string, Value>

  /** Property read `o.k`: a property that is not there reads as `undefined`. */
  function Get(o: Object, k: string): Value
  {
    if k in o then o[k] else Undefined
  }

  /** JavaScript truthiness (`NaN` and `-0` have no counterpart here). */
  predicate Truthy(v: Value)
  {
    match v
    case Undefined => false
    case Null => false
    case Bool(b) => b
    case Num(n) => n != 0
    case Str(s) => s != ""
    case Arr(_) => true
    case Obj(_) => true
  }

  /** The properties that `{ ...(v ?? {}) }` copies out of `v`: all fields of an
      object, nothing for `null`, `undefined`, booleans and numbers. */
  function OwnProperties(v: Value): Object
  {
    if v.Obj? then v.fields else map[]
  }

  /** `r` is `base` overridden key by key by `top`: every key of either is
      present, keys of `top` take its value, the others keep `base`'s. */
  ghost predicate Overrides(base: Object, top: Object, r: Object)
  {
    && r.Keys == base.Keys + top.Keys
    && (forall k :: k in top ==> r[k] == top[k])
    && (forall k :: k in base && k !in top ==> r[k] == base[k])
  }

  /** Object spread `{ ...base, ...top }`. */
  function Overlay(base: Object, top: Object): (r: Object)
    ensures Overrides(base, top, r)
  {
    base + top
  }

  /** Spreading the same object on top twice is spreading it once. */
  lemma OverlayIdempotent(base: Object, top: Object)
    ensures Overlay(Overlay(base, top), top) == Overlay(base, top)
  {
  }

  /** Spreading an empty object changes nothing. */
  lemma OverlayEmpty(base: Object)
    ensures Overlay(base, map[]) == base
  {
  }
}
