/** The values PHP gets from decoding a JSON configuration file with
    `json_decode($json, true)`, and the few operations on them the core uses:
    `isset` on a nested key, `is_array`, and conversion to string. */
module PhpValues {
  import opened PhpArrays
  import opened PhpStrings

  /** A PHP array key: an integer or a string. */
  datatype Key = IntKey(i: int) | StrKey(s: string)

  /** Numbers are carried by their PHP string form, which is all the core
      ever does with them; floats are not distinguished from integers. */
  datatype Value =
    | Null
    | Bool(b: bool)
    | Text(s: string)
    | Arr(a: OMap<Key, Value>)

  /** Every array in the value, however deep, is a well-formed ordered map. */
  ghost predicate WellFormed(v: Value) {
    match v
    case Arr(a) => Valid(a) && forall k :: k in a.values ==> WellFormed(a.values[k])
    case _ => true
  }

  /** `$v[$k]`, read the way `isset` reads it: Null when `v` is not an
      array or has no such key. */
  function Get(v: Value, k: string): (r: Value)
    ensures !v.Arr? ==> r == Null
    ensures v.Arr? && StrKey(k) !in v.a.values ==> r == Null
    ensures v.Arr? && StrKey(k) in v.a.values ==> r == v.a.values[StrKey(k)]
  {
    if v.Arr? && StrKey(k) in v.a.values then v.a.values[StrKey(k)] else Null
  }

  lemma GetWellFormed(v: Value, k: string)
    requires WellFormed(v)
    ensures WellFormed(Get(v, k))
  {
  }

  /** `isset($v[$a][$b])`. */
  predicate IsSet2(v: Value, a: string, b: string) {
    Get(Get(v, a), b) != Null
  }

  /** `$v[$k] = $x` on an array: an existing key keeps its place. */
  function Set(v: Value, k: string, x: Value): (r: Value)
    requires v.Arr? && Valid(v.a)
    ensures r.Arr? && Valid(r.a)
    ensures Get(r, k) == x
    ensures forall j :: j in v.a.values && j != StrKey(k) ==> j in r.a.values && r.a.values[j] == v.a.values[j]
    ensures StrKey(k) in v.a.values ==> r.a.keys == v.a.keys
    ensures r.a.values == v.a.values[StrKey(k) := x]
  {
    Arr(Put(v.a, StrKey(k), x))
  }

  lemma SetWellFormed(v: Value, k: string, x: Value)
    requires v.Arr? && WellFormed(v) && WellFormed(x)
    ensures WellFormed(Set(v, k, x))
  {
  }

  /** A PHP list: the keys are 0, 1, 2, … in order. */
  function List(items: seq<Value>): (r: OMap<Key, Value>)
    ensures Valid(r) && |r.keys| == |items|
    ensures forall i :: 0 <= i < |items| ==> r.keys[i] == IntKey(i) && r.values[IntKey(i)] == items[i]
  {
    var keys := seq(|items|, i requires 0 <= i < |items| => IntKey(i));
    assert forall k :: k in keys ==> k.IntKey? && 0 <= k.i < |items| && keys[k.i] == k;
    OMap(keys, map k | k in keys :: items[k.i])
  }

  lemma ListWellFormed(items: seq<Value>)
    requires forall i :: 0 <= i < |items| ==> WellFormed(items[i])
    ensures WellFormed(Arr(List(items)))
  {
    var r := List(items);
    forall k | k in r.values ensures WellFormed(r.values[k]) {
      assert k in r.keys;
      var i :| 0 <= i < |r.keys| && r.keys[i] == k;
    }
  }

  /** A value in a PHP condition: null, false, "" and "0", and the empty
      array are falsy. */
  predicate IsTruthy(v: Value) {
    match v
    case Null => false
    case Bool(b) => b
    case Text(s) => Truthy(s)
    case Arr(a) => a.keys != []
  }

  /** `(string)$v`, as string concatenation converts a value: null and false
      give "", true gives "1", and an array gives "Array" (PHP also emits a
      notice for it). */
  function ToStr(v: Value): string {
    match v
    case Null => ""
    case Bool(b) => if b then "1" else ""
    case Text(s) => s
    case Arr(_) => "Array"
  }
}
