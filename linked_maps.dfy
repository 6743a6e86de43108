/** java.util.LinkedHashMap as a value: the keys in insertion order and the
    entries. `Put` of a present key replaces its value in place, `Put` of a
    new key appends it, `Remove` drops it. */
module LinkedMaps {
  import opened Wrappers

  datatype LinkedMap<K(==,!new), V> = LinkedMap(keys: seq<K>, values: map<K, V>) {

    /** Keys are distinct and are exactly the keys of `values`. */
    ghost predicate Valid() {
      && (forall i, j :: 0 <= i < j < |keys| ==> keys[i] != keys[j])
      && (forall k :: k in values <==> k in keys)
    }

    predicate IsEmpty() {
      |keys| == 0
    }

    predicate ContainsKey(k: K) {
      k in values
    }

    /** `get(k)`: `None` stands for Java's `null` on a missing key. */
    function Get(k: K): (r: Option<V>)
      ensures r.Some? <==> k in values
      ensures r.Some? ==> r.value == values[k]
    {
      if k in values then Some(values[k]) else None
    }

    function Put(k: K, v: V): (r: LinkedMap<K, V>)
      ensures Valid() ==> r.Valid()
      ensures r.values == values[k := v]
      ensures k in values ==> r.keys == keys
      ensures k !in values ==> r.keys == keys + [k]
    {
      if k in values then LinkedMap(keys, values[k := v])
      else LinkedMap(keys + [k], values[k := v])
    }

    function Remove(k: K): (r: LinkedMap<K, V>)
      requires Valid()
      ensures r.Valid()
      ensures r.values == values - {k}
      ensures forall x :: x in r.keys <==> x in keys && x != k
    {
      LinkedMap(Without(keys, k), values - {k})
    }

    /** `values()` in key order. */
    function ValueList(): (r: seq<V>)
      requires Valid()
      ensures |r| == |keys|
      ensures forall i :: 0 <= i < |keys| ==> r[i] == values[keys[i]]
    {
      seq(|keys|, i requires 0 <= i < |keys| => values[keys[i]])
    }
  }

  function Empty<K(==,!new), V>(): (r: LinkedMap<K, V>)
    ensures r.Valid() && r.IsEmpty()
  {
    LinkedMap([], map[])
  }

  /** `s` without the occurrences of `k`, order kept. */
  function Without<K(==,!new)>(s: seq<K>, k: K): (r: seq<K>)
    ensures forall x :: x in r <==> x in s && x != k
    ensures (forall i, j :: 0 <= i < j < |s| ==> s[i] != s[j]) ==> (forall i, j :: 0 <= i < j < |r| ==> r[i] != r[j])
  {
    if s == [] then []
    else if s[|s| - 1] == k then Without(s[..|s| - 1], k)
    else
      var r := Without(s[..|s| - 1], k);
      assert (forall i, j :: 0 <= i < j < |s| ==> s[i] != s[j]) ==> s[|s| - 1] !in s[..|s| - 1];
      r + [s[|s| - 1]]
  }

  /** The keys a run of `put` calls leaves, in order: each name at its first
      occurrence. */
  function FirstOccurrences<K(==,!new)>(s: seq<K>): (r: seq<K>)
    ensures forall x :: x in r <==> x in s
    ensures forall i, j :: 0 <= i < j < |r| ==> r[i] != r[j]
  {
    if s == [] then []
    else
      var r := FirstOccurrences(s[..|s| - 1]);
      if s[|s| - 1] in r then r else r + [s[|s| - 1]]
  }

  /** Without repeated keys, the puts keep the keys in their own order. */
  lemma {:induction false} FirstOccurrencesOfDistinct<K(!new)>(s: seq<K>)
    requires forall i, j :: 0 <= i < j < |s| ==> s[i] != s[j]
    ensures FirstOccurrences(s) == s
  {
    if s != [] {
      FirstOccurrencesOfDistinct(s[..|s| - 1]);
    }
  }

  /** A run of `put(keys[i], values[i])` for `i < n` into a fresh map, where
      computing a value may throw: the first failure ends the run. */
  function PutAll<K(==,!new), V>(keys: seq<K>, values: seq<Result<V>>, n: nat): (r: Result<LinkedMap<K, V>>)
    requires |values| == |keys| && n <= |keys|
  {
    if n == 0 then Ok(Empty())
    else
      match PutAll(keys, values, n - 1)
      case Err(e) => Err(e)
      case Ok(m) =>
        match values[n - 1]
        case Err(e) => Err(e)
        case Ok(v) => Ok(m.Put(keys[n - 1], v))
  }

  /** A run of puts yields a well-formed map. */
  lemma {:induction false} PutAllValid<K(!new), V>(keys: seq<K>, values: seq<Result<V>>, n: nat)
    requires |values| == |keys| && n <= |keys|
    ensures PutAll(keys, values, n).Ok? ==> PutAll(keys, values, n).value.Valid()
  {
    if n > 0 {
      PutAllValid(keys, values, n - 1);
    }
  }

  /** One more put: the run so far extended by the next key, or the next
      value's failure. */
  lemma PutAllStep<K(!new), V>(keys: seq<K>, values: seq<Result<V>>, n: nat)
    requires |values| == |keys| && n < |keys|
    requires PutAll(keys, values, n).Ok?
    ensures values[n].Ok? ==> PutAll(keys, values, n + 1) == Ok(PutAll(keys, values, n).value.Put(keys[n], values[n].value))
    ensures values[n].Err? ==> PutAll(keys, values, n + 1) == Err(values[n].error)
  {
  }

  lemma PutKeys<K(!new), V>(m: LinkedMap<K, V>, ks: seq<K>, k: K, v: V)
    requires m.Valid() && m.keys == FirstOccurrences(ks)
    ensures m.Put(k, v).keys == FirstOccurrences(ks + [k])
  {
    assert (ks + [k])[..|ks|] == ks;
  }

  /** The keys of a complete run are the keys put, each at its first
      occurrence. */
  lemma {:induction false} PutAllKeys<K(!new), V>(keys: seq<K>, values: seq<Result<V>>, n: nat)
    requires |values| == |keys| && n <= |keys|
    requires PutAll(keys, values, n).Ok?
    ensures PutAll(keys, values, n).value.keys == FirstOccurrences(keys[..n])
  {
    if n > 0 {
      PutAllKeys(keys, values, n - 1);
      var m := PutAll(keys, values, n - 1).value;
      PutAllValid(keys, values, n - 1);
      PutKeys(m, keys[..n - 1], keys[n - 1], values[n - 1].value);
      SliceSnoc(keys, n);
    }
  }

  lemma SliceSnoc<K>(s: seq<K>, n: nat)
    requires 0 < n <= |s|
    ensures s[..n - 1] + [s[n - 1]] == s[..n]
  {
  }

  /** With distinct keys every key put holds its own value. */
  lemma PutAllValues<K(!new), V>(keys: seq<K>, values: seq<Result<V>>, n: nat)
    requires |values| == |keys| && n <= |keys|
    requires forall i, j :: 0 <= i < j < |keys| ==> keys[i] != keys[j]
    requires PutAll(keys, values, n).Ok?
    ensures forall i :: 0 <= i < n ==>
      values[i].Ok? && keys[i] in PutAll(keys, values, n).value.values && PutAll(keys, values, n).value.values[keys[i]] == values[i].value
  {
    forall i | 0 <= i < n
      ensures values[i].Ok? && keys[i] in PutAll(keys, values, n).value.values && PutAll(keys, values, n).value.values[keys[i]] == values[i].value
    {
      PutAllValueAt(keys, values, n, i);
    }
  }

  /** The key put `i`-th holds its value as long as no later put repeats it. */
  lemma {:induction false} PutAllValueAt<K(!new), V>(keys: seq<K>, values: seq<Result<V>>, n: nat, i: nat)
    requires |values| == |keys| && i < n <= |keys|
    requires forall j :: i < j < n ==> keys[j] != keys[i]
    requires PutAll(keys, values, n).Ok?
    ensures values[i].Ok? && keys[i] in PutAll(keys, values, n).value.values && PutAll(keys, values, n).value.values[keys[i]] == values[i].value
  {
    assert PutAll(keys, values, n - 1).Ok? && values[n - 1].Ok?;
    PutAllStep(keys, values, n - 1);
    var m := PutAll(keys, values, n - 1).value;
    assert PutAll(keys, values, n).value == m.Put(keys[n - 1], values[n - 1].value);
    if i < n - 1 {
      PutAllValueAt(keys, values, n - 1, i);
      PutOther(m, keys[n - 1], values[n - 1].value, keys[i]);
    }
  }

  /** A put leaves the other keys' entries alone. */
  lemma PutOther<K(!new), V>(m: LinkedMap<K, V>, k: K, v: V, x: K)
    requires x in m.values && x != k
    ensures x in m.Put(k, v).values && m.Put(k, v).values[x] == m.values[x]
  {
  }

  /** The run fails exactly when some value fails, with the first failure's
      error. */
  lemma {:induction false} PutAllError<K(!new), V>(keys: seq<K>, values: seq<Result<V>>, n: nat)
    requires |values| == |keys| && n <= |keys|
    ensures PutAll(keys, values, n).Err? <==> exists i :: 0 <= i < n && values[i].Err?
    ensures PutAll(keys, values, n).Err? ==>
      exists i :: 0 <= i < n && values[i] == Err(PutAll(keys, values, n).error) && forall j :: 0 <= j < i ==> values[j].Ok?
  {
    if n > 0 {
      PutAllError(keys, values, n - 1);
    }
  }

  /** Once a value has failed, later keys change nothing. */
  lemma {:induction false} PutAllErrorSticks<K(!new), V>(keys: seq<K>, values: seq<Result<V>>, m: nat, n: nat)
    requires |values| == |keys| && m <= n <= |keys|
    requires PutAll(keys, values, m).Err?
    ensures PutAll(keys, values, n) == PutAll(keys, values, m)
    decreases n
  {
    if m < n {
      PutAllErrorSticks(keys, values, m, n - 1);
    }
  }
}
