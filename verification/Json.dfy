/** The JSON payload tree every card carries.  `K` is the type of dictionary keys: payloads decoded from
    JSON have string keys, dotted paths may also address a dictionary by an integer. */
module Json {
  datatype Json<K(==)> =
    | Null
    | Bool(b: bool)
    | Num(n: real)
    | Str(s: string)
    | List(xs: seq<Json<K>>)
    | Dict(m: map<K, Json<K>>)

  /** `d.get(k)` of the source: an absent key, like a non-dictionary, reads as None. */
  function Child<K>(d: Json<K>, k: K): Json<K> {
    if d.Dict? && k in d.m then d.m[k] else Null
  }

  predicate Container<K>(t: Json<K>) { t.Dict? || t.List? }
}
