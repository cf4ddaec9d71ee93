/**
 * The Workers KV namespace the session store and the rate limiter write to:
 * a map from key to the stored text and the `expirationTtl` it was written
 * with. JSON serialisation is modelled as the identity on records, with a
 * `Garbage` case for stored text that `JSON.parse` rejects.
 */
module Kv {
  import opened Wrappers

  /** What a `get` yields once parsed: an empty string, a record, or unparsable text. */
  datatype Text<V> = Empty | Json(value: V) | Garbage

  datatype Entry<V> = Entry(text: Text<V>, ttlSeconds: int)

  /** `kv.get(key)`: `null` for a missing key. */
  function Get<V>(kv: map<string, Entry<V>>, key: string): Option<Entry<V>>
  {
    if key in kv then Some(kv[key]) else None
  }

  /** The record under `key`, when there is one and it is not empty or unparsable. */
  function Parsed<V>(kv: map<string, Entry<V>>, key: string): (r: Option<V>)
    ensures r.Some? <==> key in kv && kv[key].text.Json?
    ensures r.Some? ==> kv[key].text == Json(r.value)
  {
    if key in kv && kv[key].text.Json? then Some(kv[key].text.value) else None
  }
}
