/**
 * The serialisation workaround of UsdStream: Unity cannot store a dictionary,
 * so OnBeforeSerialize flattens each one to parallel key and value arrays and
 * OnAfterDeserialize writes the pairs back, one assignment per index.
 */
module DictionaryArrays {

  /** `keys` and `values` list `m`: every key once, each value beside its key. */
  ghost predicate Flattens<V>(m: map<string, V>, keys: seq<string>, values: seq<V>)
  {
    && |keys| == |values|
    && (forall i, j :: 0 <= i < j < |keys| ==> keys[i] != keys[j])
    && (forall k :: k in m <==> k in keys)
    && (forall i :: 0 <= i < |keys| ==> keys[i] in m && m[keys[i]] == values[i])
  }

  /** Dictionary.Keys.ToArray() and Values.ToArray(), which enumerate the entries in the same order. */
  method Flatten<V>(m: map<string, V>) returns (keys: seq<string>, values: seq<V>)
    ensures Flattens(m, keys, values)
  {
    keys, values := [], [];
    var rest := m.Keys;
    while rest != {}
      invariant rest <= m.Keys
      invariant |keys| == |values|
      invariant forall i, j :: 0 <= i < j < |keys| ==> keys[i] != keys[j]
      invariant forall k :: k in m <==> k in keys || k in rest
      invariant forall k :: k in rest ==> k !in keys
      invariant forall i :: 0 <= i < |keys| ==> keys[i] in m && m[keys[i]] == values[i]
      decreases rest
    {
      var k :| k in rest;
      keys, values := keys + [k], values + [m[k]];
      rest := rest - {k};
    }
  }

  /** `m` after `m[keys[i]] = values[i]` for i = 0, 1, ... in turn. */
  function MergeAll<V>(m: map<string, V>, keys: seq<string>, values: seq<V>): map<string, V>
    requires |keys| == |values|
  {
    if keys == [] then m
    else MergeAll(m, keys[..|keys| - 1], values[..|values| - 1])[keys[|keys| - 1] := values[|values| - 1]]
  }

  /** The write-back loop of OnAfterDeserialize over one pair of arrays. */
  method Merge<V>(m: map<string, V>, keys: array<string>, values: array<V>) returns (r: map<string, V>)
    requires keys.Length == values.Length
    ensures r == MergeAll(m, keys[..], values[..])
  {
    r := m;
    for i := 0 to keys.Length
      invariant r == MergeAll(m, keys[..i], values[..i])
    {
      assert keys[..i + 1][..i] == keys[..i] && values[..i + 1][..i] == values[..i];
      r := r[keys[i] := values[i]];
    }
    assert keys[..keys.Length] == keys[..] && values[..values.Length] == values[..];
  }

  /** The merge keeps every existing key and adds every listed one, and nothing else. */
  lemma {:induction false} MergeAllKeys<V>(m: map<string, V>, keys: seq<string>, values: seq<V>)
    requires |keys| == |values|
    ensures forall k :: k in MergeAll(m, keys, values) <==> k in m || k in keys
  {
    if keys != [] {
      MergeAllKeys(m, keys[..|keys| - 1], values[..|values| - 1]);
      assert keys == keys[..|keys| - 1] + [keys[|keys| - 1]];
    }
  }

  /** A key listed at index i and never after it ends up with values[i]: later pairs overwrite earlier ones. */
  lemma {:induction false} MergeAllLastWins<V>(m: map<string, V>, keys: seq<string>, values: seq<V>, i: nat)
    requires |keys| == |values| && i < |keys|
    requires forall j :: i < j < |keys| ==> keys[j] != keys[i]
    ensures keys[i] in MergeAll(m, keys, values)
    ensures MergeAll(m, keys, values)[keys[i]] == values[i]
  {
    if i < |keys| - 1 {
      MergeAllLastWins(m, keys[..|keys| - 1], values[..|values| - 1], i);
    }
  }

  /** A key that is not listed keeps its existing value. */
  lemma {:induction false} MergeAllKeepsUnlisted<V>(m: map<string, V>, keys: seq<string>, values: seq<V>, k: string)
    requires |keys| == |values| && k in m && k !in keys
    ensures k in MergeAll(m, keys, values) && MergeAll(m, keys, values)[k] == m[k]
  {
    if keys != [] {
      assert keys == keys[..|keys| - 1] + [keys[|keys| - 1]];
      MergeAllKeepsUnlisted(m, keys[..|keys| - 1], values[..|values| - 1], k);
    }
  }

  /** Deserialising a flattening into an empty dictionary restores the dictionary exactly. */
  lemma FlattenRoundTrip<V>(m: map<string, V>, keys: seq<string>, values: seq<V>)
    requires Flattens(m, keys, values)
    ensures MergeAll(map[], keys, values) == m
  {
    var r := MergeAll(map[], keys, values);
    MergeAllKeys(map[], keys, values);
    forall k | k in m ensures r[k] == m[k] {
      var i :| 0 <= i < |keys| && keys[i] == k;
      MergeAllLastWins(map[], keys, values, i);
    }
  }
}
