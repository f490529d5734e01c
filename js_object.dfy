/**
 * A JavaScript object used as a dictionary with string keys that are not
 * array indices: property lookup, property assignment (a new key goes last,
 * an existing key keeps its place) and `Object.values`, which lists the
 * values in key-insertion order.
 */
module JsObject {

  datatype Record<V> = Record(keys: seq<string>, entries: map<string, V>)

  /** Keys listed once each, and exactly the keys that have an entry. */
  ghost predicate WellFormed<V>(r: Record<V>)
  {
    && (forall i, j :: 0 <= i < j < |r.keys| ==> r.keys[i] != r.keys[j])
    && (forall k :: k in r.entries <==> k in r.keys)
  }

  /** The literal `{}`. */
  function Empty<V>(): (r: Record<V>)
    ensures WellFormed(r) && r.keys == [] && r.entries == map[]
  {
    Record([], map[])
  }

  /** `obj[k] = v`: the entry is replaced; a key not yet present is added at the end. */
  function Put<V>(r: Record<V>, k: string, v: V): (r': Record<V>)
    requires WellFormed(r)
    ensures WellFormed(r')
    ensures r'.entries == r.entries[k := v]
    ensures k in r.entries ==> r'.keys == r.keys
    ensures k !in r.entries ==> r'.keys == r.keys + [k]
  {
    Record(if k in r.entries then r.keys else r.keys + [k], r.entries[k := v])
  }

  /** `Object.values(obj)`: one value per key, in key order. */
  function Values<V>(r: Record<V>): (vs: seq<V>)
    requires WellFormed(r)
    ensures |vs| == |r.keys|
    ensures forall i :: 0 <= i < |vs| ==> vs[i] == r.entries[r.keys[i]]
  {
    seq(|r.keys|, i requires 0 <= i < |r.keys| => r.entries[r.keys[i]])
  }
}
