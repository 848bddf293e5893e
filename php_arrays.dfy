/** PHP arrays as ordered maps: the keys in insertion order, plus the map from
    each key to its value. Assigning to an existing key keeps its position,
    assigning to a new key appends it, and `unset` removes it in place. */
module PhpArrays {

  datatype OMap<K, V> = OMap(keys: seq<K>, values: map<K, V>)

  predicate Distinct<K(==)>(s: seq<K>) {
    forall i, j :: 0 <= i < j < |s| ==> s[i] != s[j]
  }

  /** The keys listed are exactly the keys mapped, each listed once. */
  ghost predicate Valid<K, V>(m: OMap<K, V>) {
    Distinct(m.keys) && (forall k :: k in m.keys ==> k in m.values) && (forall k :: k in m.values ==> k in m.keys)
  }

  function Empty<K, V>(): (r: OMap<K, V>)
    ensures Valid(r) && r.keys == [] && r.values == map[]
  {
    OMap([], map[])
  }

  /** `$m[$k] = $v`. */
  function Put<K, V>(m: OMap<K, V>, k: K, v: V): (r: OMap<K, V>)
    requires Valid(m)
    ensures Valid(r)
    ensures r.values == m.values[k := v]
    ensures k in m.values ==> r.keys == m.keys
    ensures k !in m.values ==> r.keys == m.keys + [k]
  {
    if k in m.values then OMap(m.keys, m.values[k := v]) else OMap(m.keys + [k], m.values[k := v])
  }

  /** The elements of `s` not in `ks`, in their order. */
  function Filter<K(==)>(s: seq<K>, ks: set<K>): (r: seq<K>)
    ensures forall x :: x in r ==> x in s && x !in ks
    ensures forall x :: x in s && x !in ks ==> x in r
    ensures |r| <= |s|
  {
    if s == [] then []
    else if s[0] in ks then Filter(s[1..], ks)
    else [s[0]] + Filter(s[1..], ks)
  }

  lemma {:induction false} FilterDistinct<K>(s: seq<K>, ks: set<K>)
    requires Distinct(s)
    ensures Distinct(Filter(s, ks))
  {
    if s != [] {
      FilterDistinct(s[1..], ks);
      assert s[0] !in s[1..];
    }
  }

  /** Removing a set of keys that meets `s` makes it strictly shorter. */
  lemma {:induction false} FilterShrinks<K>(s: seq<K>, ks: set<K>, x: K)
    requires x in s && x in ks
    ensures |Filter(s, ks)| < |s|
  {
    if s[0] != x {
      FilterShrinks(s[1..], ks, x);
    }
  }

  lemma {:induction false} FilterFilter<K>(s: seq<K>, a: set<K>, b: set<K>)
    ensures Filter(Filter(s, a), b) == Filter(s, a + b)
  {
    if s != [] {
      FilterFilter(s[1..], a, b);
    }
  }

  lemma {:induction false} FilterNone<K>(s: seq<K>, ks: set<K>)
    requires forall x :: x in s ==> x !in ks
    ensures Filter(s, ks) == s
  {
    if s != [] {
      FilterNone(s[1..], ks);
    }
  }

  /** The elements of a sequence, as a set. */
  function Elems<K>(s: seq<K>): (r: set<K>)
    ensures forall x :: x in r ==> x in s
    ensures forall x :: x in s ==> x in r
  {
    set x | x in s
  }

  lemma ElemsSnoc<K>(s: seq<K>, x: K)
    ensures Elems(s + [x]) == Elems(s) + {x}
  {
  }

  lemma ElemsKeys<K, V>(m: OMap<K, V>)
    requires Valid(m)
    ensures Elems(m.keys) == m.values.Keys
  {
  }

  /** `unset($m[$k])` for every `$k` in `ks`. */
  function Without<K, V>(m: OMap<K, V>, ks: set<K>): (r: OMap<K, V>)
    requires Valid(m)
    ensures Valid(r)
    ensures r.values == m.values - ks
    ensures r.keys == Filter(m.keys, ks)
  {
    FilterDistinct(m.keys, ks);
    OMap(Filter(m.keys, ks), m.values - ks)
  }

  lemma WithoutWithout<K, V>(m: OMap<K, V>, a: set<K>, b: set<K>)
    requires Valid(m)
    ensures Without(Without(m, a), b) == Without(m, a + b)
  {
    FilterFilter(m.keys, a, b);
  }

  lemma WithoutShrinks<K, V>(m: OMap<K, V>, ks: set<K>, x: K)
    requires Valid(m) && x in m.values && x in ks
    ensures |Without(m, ks).keys| < |m.keys|
  {
    FilterShrinks(m.keys, ks, x);
  }

  lemma WithoutNothing<K, V>(m: OMap<K, V>, ks: set<K>)
    requires Valid(m) && m.values.Keys !! ks
    ensures Without(m, ks) == m
  {
    FilterNone(m.keys, ks);
  }
}
