/**
 * A JavaScript `Map` with string keys, as the views use it to group events:
 * the keys in insertion order and the value stored under each.
 */
module OrderedMaps {
  import opened Lists

  datatype Table<V> = Table(keys: seq<string>, at: map<string, V>)

  /** Every key is listed once, and exactly the stored keys are listed. */
  ghost predicate Valid<V>(t: Table<V>) {
    NoDup(t.keys) && forall k :: k in t.at <==> k in t.keys
  }

  /** `new Map()`. */
  function Empty<V>(): (t: Table<V>)
    ensures Valid(t) && t.keys == [] && t.at == map[]
  {
    Table([], map[])
  }

  /** `m.set(k, v)`: a new key goes last, a known key keeps its place and takes the new value. */
  function Put<V>(t: Table<V>, k: string, v: V): (r: Table<V>)
    ensures r.at == t.at[k := v]
    ensures r.keys == if k in t.at then t.keys else t.keys + [k]
    ensures Valid(t) ==> Valid(r)
  {
    if k in t.at then Table(t.keys, t.at[k := v])
    else
      assert Valid(t) ==> NoDup(t.keys + [k]) by {
        if Valid(t) {
          assert forall i :: 0 <= i < |t.keys| ==> (t.keys + [k])[i] == t.keys[i];
        }
      }
      Table(t.keys + [k], t.at[k := v])
  }

  /** `Array.from(m.values())`, in key order. */
  function Values<V>(t: Table<V>): (r: seq<V>)
    requires Valid(t)
    ensures |r| == |t.keys| && forall i :: 0 <= i < |r| ==> r[i] == t.at[t.keys[i]]
  {
    seq(|t.keys|, i requires 0 <= i < |t.keys| => t.at[t.keys[i]])
  }
}
