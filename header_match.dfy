/** The pure half of `MsIoContainer.match`: when a schema qualifies for a
    header row, and which qualifying id the tie-break returns. The
    tie-break sorts the qualifying ids with the comparator
    `(k1, k2) -> classKeys.contains(k1) ? 1 : -1` and takes the first. For
    fewer than 32 elements `java.util.TimSort` finds the initial run
    (reversing it when it descends) and binary-inserts the rest; with this
    comparator an id without a backing class is inserted at the front and
    one with a class at the back. */
module HeaderMatch {
  import opened Wrappers
  import opened LinkedMaps
  import opened Descriptors

  /** The display names of a schema, in key order. */
  function DisplayNames(s: Schema): (r: seq<string>)
    requires s.Valid()
    ensures |r| == |s.keys| && forall i :: 0 <= i < |s.keys| ==> r[i] == s.values[s.keys[i]].name
  {
    seq(|s.keys|, i requires 0 <= i < |s.keys| && s.Valid() => s.values[s.keys[i]].name)
  }

  /** What titles are compared with: field keys when `isEg`, display names
      otherwise. */
  function Datum(s: Schema, isEg: bool): seq<string>
    requires s.Valid()
  {
    if isEg then s.keys else DisplayNames(s)
  }

  /** `titles.stream().filter(datum::contains).count()`. */
  function CountContained(titles: seq<string>, datum: seq<string>): (r: nat)
    ensures r <= |titles|
  {
    if titles == [] then 0
    else CountContained(titles[..|titles| - 1], datum) + (if titles[|titles| - 1] in datum then 1 else 0)
  }

  /** The count reaches the number of titles exactly when every title is
      contained. */
  lemma {:induction false} CountContainedAll(titles: seq<string>, datum: seq<string>)
    ensures CountContained(titles, datum) == |titles| <==> forall t :: t in titles ==> t in datum
  {
    if titles != [] {
      var prefix := titles[..|titles| - 1];
      CountContainedAll(prefix, datum);
      assert titles == prefix + [titles[|titles| - 1]];
    }
  }

  /** A schema qualifies when every title occurs in its datum. */
  predicate Covers(titles: seq<string>, s: Schema, isEg: bool)
    requires s.Valid()
  {
    forall t :: t in titles ==> t in Datum(s, isEg)
  }

  // ---------------------------------------------------------------------------
  // the tie-break

  /** The comparator: negative exactly when `k1` has no backing class. */
  function Compare(k1: string, k2: string, classKeys: set<string>): int {
    if k1 in classKeys then 1 else -1
  }

  /** `countRunAndMakeAscending`: the end of the run that starts at index 0,
      continuing from index `j`. */
  function RunFrom(keys: seq<string>, classKeys: set<string>, descending: bool, j: nat): (r: nat)
    requires 2 <= j <= |keys|
    ensures j <= r <= |keys|
    ensures forall i :: j <= i < r ==> (Compare(keys[i], keys[i - 1], classKeys) < 0) == descending
    decreases |keys| - j
  {
    if j < |keys| && (Compare(keys[j], keys[j - 1], classKeys) < 0) == descending then RunFrom(keys, classKeys, descending, j + 1)
    else j
  }

  function Reverse(s: seq<string>): (r: seq<string>)
    ensures |r| == |s| && forall i :: 0 <= i < |s| ==> r[i] == s[|s| - 1 - i]
  {
    if s == [] then [] else Reverse(s[1..]) + [s[0]]
  }

  /** `binarySort` places one pivot into the sorted prefix. Every probe
      compares the pivot with the middle element, and the comparator looks
      at the pivot only: the search moves left all the way for a pivot
      without a class and right all the way for one with a class. */
  function BinaryInsert(sorted: seq<string>, pivot: string, classKeys: set<string>): seq<string> {
    if pivot !in classKeys then [pivot] + sorted else sorted + [pivot]
  }

  function InsertAll(sorted: seq<string>, pivots: seq<string>, classKeys: set<string>): (r: seq<string>)
    ensures |r| == |sorted| + |pivots|
    ensures multiset(r) == multiset(sorted) + multiset(pivots)
    decreases |pivots|
  {
    if pivots == [] then sorted
    else
      assert pivots == [pivots[0]] + pivots[1..];
      InsertAll(BinaryInsert(sorted, pivots[0], classKeys), pivots[1..], classKeys)
  }

  /** `Arrays.sort` of fewer than 32 ids with the comparator. */
  function SortSmall(keys: seq<string>, classKeys: set<string>): seq<string> {
    if |keys| < 2 then keys
    else
      var descending := Compare(keys[1], keys[0], classKeys) < 0;
      var runEnd := RunFrom(keys, classKeys, descending, 2);
      var run := if descending then Reverse(keys[..runEnd]) else keys[..runEnd];
      InsertAll(run, keys[runEnd..], classKeys)
  }

  /** The last id of `s` without a backing class, if any. */
  function LastUnbacked(s: seq<string>, classKeys: set<string>): (r: Option<string>)
    ensures r.Some? ==> r.value in s && r.value !in classKeys
    ensures r.None? ==> forall k :: k in s ==> k in classKeys
  {
    if s == [] then None
    else
      match LastUnbacked(s[1..], classKeys)
      case Some(k) => Some(k)
      case None => if s[0] !in classKeys then Some(s[0]) else None
  }

  /** `keys.get(0)` for one qualifier, the first sorted id for several,
      `null` for none. */
  function Choose(keys: seq<string>, classKeys: set<string>): Option<string> {
    if |keys| == 0 then None
    else if |keys| == 1 then Some(keys[0])
    else Some(SortSmall(keys, classKeys)[0])
  }

  lemma {:induction false} LastUnbackedAppend(a: seq<string>, b: seq<string>, classKeys: set<string>)
    ensures LastUnbacked(a + b, classKeys) == if LastUnbacked(b, classKeys).Some? then LastUnbacked(b, classKeys) else LastUnbacked(a, classKeys)
  {
    if a != [] {
      assert (a + b)[1..] == a[1..] + b;
      LastUnbackedAppend(a[1..], b, classKeys);
    } else {
      assert a + b == b;
    }
  }

  lemma {:induction false} InsertAllFirst(sorted: seq<string>, pivots: seq<string>, classKeys: set<string>)
    requires sorted != []
    ensures InsertAll(sorted, pivots, classKeys)[0] ==
      match LastUnbacked(pivots, classKeys) case Some(k) => k case None => sorted[0]
    decreases |pivots|
  {
    if pivots != [] {
      InsertAllFirst(BinaryInsert(sorted, pivots[0], classKeys), pivots[1..], classKeys);
    }
  }

  /** The head of the initial run once it is made ascending: the last id of
      a descending run (all of whose ids after the first lack a class), or
      the first id of an ascending one (all of whose later ids have one). */
  lemma RunHead(keys: seq<string>, classKeys: set<string>, descending: bool, runEnd: nat)
    requires |keys| >= 2
    requires descending == (Compare(keys[1], keys[0], classKeys) < 0)
    requires runEnd == RunFrom(keys, classKeys, descending, 2)
    ensures (if descending then Reverse(keys[..runEnd]) else keys[..runEnd])[0] ==
      match LastUnbacked(keys[1..runEnd], classKeys) case Some(k) => k case None => keys[0]
  {
    if descending {
      if runEnd > 2 {
        assert Compare(keys[runEnd - 1], keys[runEnd - 2], classKeys) < 0;
      }
      assert keys[1..runEnd] == keys[1..runEnd - 1] + [keys[runEnd - 1]];
      LastUnbackedAppend(keys[1..runEnd - 1], [keys[runEnd - 1]], classKeys);
      assert LastUnbacked([keys[runEnd - 1]], classKeys) == Some(keys[runEnd - 1]) by {
        assert [keys[runEnd - 1]][1..] == [];
      }
    } else {
      forall k | k in keys[1..runEnd]
        ensures k in classKeys
      {
        var i :| 0 <= i < runEnd - 1 && keys[1..runEnd][i] == k;
        assert keys[i + 1] == k;
        if i > 0 {
          assert Compare(keys[i + 1], keys[i], classKeys) >= 0;
        }
      }
    }
  }

  /** Closed form of the tie-break: the sorted sequence starts with the last
      id after the first one that has no backing class, or with the first
      id when every later one has a class. */
  lemma SortSmallFirst(keys: seq<string>, classKeys: set<string>)
    requires |keys| >= 2
    ensures SortSmall(keys, classKeys)[0] == match LastUnbacked(keys[1..], classKeys) case Some(k) => k case None => keys[0]
  {
    var descending := Compare(keys[1], keys[0], classKeys) < 0;
    var runEnd := RunFrom(keys, classKeys, descending, 2);
    var run := if descending then Reverse(keys[..runEnd]) else keys[..runEnd];
    assert SortSmall(keys, classKeys) == InsertAll(run, keys[runEnd..], classKeys);
    RunHead(keys, classKeys, descending, runEnd);
    InsertAllFirst(run, keys[runEnd..], classKeys);
    SliceSplit(keys, 1, runEnd);
    LastUnbackedAppend(keys[1..runEnd], keys[runEnd..], classKeys);
  }

  lemma SliceSplit(s: seq<string>, i: nat, j: nat)
    requires i <= j <= |s|
    ensures s[i..] == s[i..j] + s[j..]
  {
  }

  /** The sort is a permutation of the qualifying ids. */
  lemma SortSmallPermutes(keys: seq<string>, classKeys: set<string>)
    ensures multiset(SortSmall(keys, classKeys)) == multiset(keys)
  {
    if |keys| >= 2 {
      var descending := Compare(keys[1], keys[0], classKeys) < 0;
      var runEnd := RunFrom(keys, classKeys, descending, 2);
      assert keys == keys[..runEnd] + keys[runEnd..];
      if descending {
        ReversePermutes(keys[..runEnd]);
      }
    }
  }

  lemma {:induction false} ReversePermutes(s: seq<string>)
    ensures multiset(Reverse(s)) == multiset(s)
  {
    if s != [] {
      ReversePermutes(s[1..]);
      assert s == [s[0]] + s[1..];
    }
  }

  /** The tie-break's guarantee: the chosen id is one of the qualifiers; a
      single qualifier is returned as is; and whenever some qualifier has no
      backing class, the chosen one has none either. */
  lemma ChooseSpec(keys: seq<string>, classKeys: set<string>)
    ensures Choose(keys, classKeys).None? <==> keys == []
    ensures Choose(keys, classKeys).Some? ==> Choose(keys, classKeys).value in keys
    ensures |keys| == 1 ==> Choose(keys, classKeys) == Some(keys[0])
    ensures (exists k :: k in keys && k !in classKeys) ==> Choose(keys, classKeys).Some? && Choose(keys, classKeys).value !in classKeys
  {
    if |keys| >= 2 {
      SortSmallFirst(keys, classKeys);
      SortSmallPermutes(keys, classKeys);
      assert SortSmall(keys, classKeys)[0] in multiset(keys);
      if LastUnbacked(keys[1..], classKeys).None? {
        assert forall i :: 1 <= i < |keys| ==> keys[i] in classKeys by {
          forall i | 1 <= i < |keys|
            ensures keys[i] in classKeys
          {
            assert keys[1..][i - 1] == keys[i];
          }
        }
      }
    }
  }
}
