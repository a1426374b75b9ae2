/**
 A JavaScript `Map`: a finite map that also remembers the order in which its
 keys were first inserted, which is the order `values()` reports them in.
 */
module OrderedMap {
  import opened Text

  /** String keys, as the page uses them: `keys` in first-insertion order,
      `entries` the key/value pairs. */
  datatype OrderedMap<V> = OrderedMap(keys: seq<String>, entries: map<String, V>)

  /** No key appears twice in `s`. */
  ghost predicate Distinct(s: seq<String>) {
    forall i, j :: 0 <= i < j < |s| ==> s[i] != s[j]
  }

  /** The order lists exactly the keys of the map, each once. */
  ghost predicate Valid<V>(m: OrderedMap<V>) {
    && Distinct(m.keys)
    && (forall k :: k in m.entries <==> k in m.keys)
  }

  /** `new Map()`. */
  function Empty<V>(): (m: OrderedMap<V>)
    ensures Valid(m)
    ensures |m.entries| == 0
  {
    OrderedMap([], map[])
  }

  /** `Map.prototype.has`. */
  predicate Has<V>(m: OrderedMap<V>, k: String)
    ensures Valid(m) ==> (Has(m, k) <==> k in m.keys)
  {
    k in m.entries
  }

  /** `Map.prototype.set`: a new key goes to the end of the order; an existing
      key keeps its place and only its value changes. */
  function Set<V>(m: OrderedMap<V>, k: String, v: V): (r: OrderedMap<V>)
    ensures Valid(m) ==> Valid(r)
    ensures r.entries.Keys == m.entries.Keys + {k}
    ensures r.entries[k] == v
    ensures forall j :: j in m.entries && j != k ==> j in r.entries && r.entries[j] == m.entries[j]
    ensures !Has(m, k) ==> r.keys == m.keys + [k]
    ensures Has(m, k) ==> r.keys == m.keys
  {
    if Has(m, k) then OrderedMap(m.keys, m.entries[k := v])
    else OrderedMap(m.keys + [k], m.entries[k := v])
  }

  /** `Map.prototype.values`, in insertion order. */
  function Values<V>(m: OrderedMap<V>): (vs: seq<V>)
    requires Valid(m)
    ensures |vs| == |m.keys|
    ensures forall i :: 0 <= i < |vs| ==> m.keys[i] in m.entries && vs[i] == m.entries[m.keys[i]]
  {
    seq(|m.keys|, i requires 0 <= i < |m.keys| => m.entries[m.keys[i]])
  }

  /** Setting a new key appends its value to `values()`; setting an existing
      key leaves the order of `values()` alone. */
  lemma ValuesAfterSet<V>(m: OrderedMap<V>, k: String, v: V)
    requires Valid(m)
    ensures !Has(m, k) ==> Values(Set(m, k, v)) == Values(m) + [v]
    ensures Has(m, k) ==> |Values(Set(m, k, v))| == |Values(m)|
    ensures Has(m, k) ==> forall i :: 0 <= i < |m.keys| ==>
      Values(Set(m, k, v))[i] == if m.keys[i] == k then v else Values(m)[i]
  {
  }

  /** A sequence without repetitions has as many elements as its set. */
  lemma {:induction false} DistinctCardinality(s: seq<String>)
    requires Distinct(s)
    ensures |set x | x in s| == |s|
  {
    if |s| > 0 {
      var init := s[..|s| - 1];
      var last := s[|s| - 1];
      assert Distinct(init);
      DistinctCardinality(init);
      assert last !in init;
      assert (set x | x in s) == (set x | x in init) + {last};
    }
  }

  /** A valid map has one value per key: `values()` is as long as the map. */
  lemma SizeMatchesOrder<V>(m: OrderedMap<V>)
    requires Valid(m)
    ensures |Values(m)| == |m.entries|
  {
    DistinctCardinality(m.keys);
    assert m.entries.Keys == set x | x in m.keys;
  }
}
