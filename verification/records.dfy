/** Loosely typed JavaScript objects as they come back from the remote user
    collection: a map from property name to a string or `null`. A property
    that is absent reads as `undefined`, which every operation modelled here
    treats exactly like `null`. */
module Records {
  import opened Wrappers

  datatype Value = Str(s: string) | Null

  type Record = map<string, Value>

  /** `obj.key`, with `undefined` read as `Null`. */
  function Get(obj: Record, key: string): Value {
    if key in obj then obj[key] else Null
  }

  /** `obj?.key` on a possibly missing object. */
  function GetOpt(obj: Option<Record>, key: string): Value {
    match obj
    case None => Null
    case Some(o) => Get(o, key)
  }

  /** JavaScript truthiness of a property value. */
  predicate Truthy(v: Value) {
    v.Str? && v.s != ""
  }

  /** `v || fallback` for a text property. */
  function TextOr(v: Value, fallback: string): string {
    if Truthy(v) then v.s else fallback
  }

  /** `{ ...base, ...over }`: a shallow merge in which `over` wins. */
  function Merge(base: Record, over: Record): (r: Record)
    ensures r.Keys == base.Keys + over.Keys
    ensures forall k :: k in over ==> r[k] == over[k]
    ensures forall k :: k in base && k !in over ==> r[k] == base[k]
  {
    base + over
  }
}
