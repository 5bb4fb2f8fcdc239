/** Maps built from a list of distinct keys and the values under them, some of them absent. */
module KeyedRows {
  import opened Options

  predicate Distinct<K(==)>(keys: seq<K>) {
    keys == [] || (keys[|keys| - 1] !in keys[..|keys| - 1] && Distinct(keys[..|keys| - 1]))
  }

  function Build<K, V>(keys: seq<K>, values: seq<Option<V>>): map<K, V>
    requires |keys| == |values|
  {
    if keys == [] then map[]
    else
      var n := |keys| - 1;
      var before := Build(keys[..n], values[..n]);
      match values[n]
      case None => before
      case Some(v) => before[keys[n] := v]
  }

  lemma {:induction false} BuildKeys<K, V>(keys: seq<K>, values: seq<Option<V>>, k: K)
    requires |keys| == |values| && k !in keys
    ensures k !in Build(keys, values)
    decreases |keys|
  {
    if keys != [] {
      var n := |keys| - 1;
      assert keys[n] in keys && forall x :: x in keys[..n] ==> x in keys;
      BuildKeys(keys[..n], values[..n], k);
    }
  }

  lemma {:induction false} BuildAt<K, V>(keys: seq<K>, values: seq<Option<V>>, i: nat)
    requires |keys| == |values| && Distinct(keys) && i < |keys|
    ensures values[i].Some? ==> keys[i] in Build(keys, values) && Build(keys, values)[keys[i]] == values[i].value
    decreases |keys|
  {
    var n := |keys| - 1;
    if i < n {
      assert keys[..n][i] == keys[i] && keys[i] in keys[..n];
      BuildAt(keys[..n], values[..n], i);
    }
  }

  lemma PutTwice<K, V>(t: map<K, V>, k: K, a: V, l: K, b: V)
    requires k != l
    ensures t[k := a][l := b] == t[l := b][k := a]
  {
  }

  /** Writing under the i-th key is replacing the i-th value. */
  lemma {:induction false} BuildPut<K, V>(keys: seq<K>, values: seq<Option<V>>, i: nat, v: V)
    requires |keys| == |values| && Distinct(keys) && i < |keys|
    ensures Build(keys, values)[keys[i] := v] == Build(keys, values[i := Some(v)])
    decreases |keys|
  {
    var n, later := |keys| - 1, values[i := Some(v)];
    if i < n {
      assert later[..n] == values[..n][i := Some(v)];
      assert keys[..n][i] == keys[i] && keys[i] in keys[..n];
      BuildPut(keys[..n], values[..n], i, v);
      if values[n].Some? {
        PutTwice(Build(keys[..n], values[..n]), keys[n], values[n].value, keys[i], v);
      }
    } else {
      assert later[..n] == values[..n];
    }
  }

  lemma DropPut<K, V>(t: map<K, V>, k: K, a: V, l: K)
    requires k != l
    ensures t[k := a] - {l} == (t - {l})[k := a]
  {
  }

  lemma DropFresh<K, V>(t: map<K, V>, k: K, a: V)
    requires k !in t
    ensures t[k := a] - {k} == t
  {
  }

  lemma DropAbsent<K, V>(t: map<K, V>, k: K)
    requires k !in t
    ensures t - {k} == t
  {
  }

  /** Removing the i-th key is making the i-th value absent. */
  lemma {:induction false} BuildDrop<K, V>(keys: seq<K>, values: seq<Option<V>>, i: nat)
    requires |keys| == |values| && Distinct(keys) && i < |keys|
    ensures Build(keys, values) - {keys[i]} == Build(keys, values[i := None])
    decreases |keys|
  {
    var n, later := |keys| - 1, values[i := None];
    var before := Build(keys[..n], values[..n]);
    if i < n {
      assert later[..n] == values[..n][i := None];
      assert keys[..n][i] == keys[i] && keys[i] in keys[..n];
      BuildDrop(keys[..n], values[..n], i);
      if values[n].Some? {
        DropPut(before, keys[n], values[n].value, keys[i]);
      }
    } else {
      assert later[..n] == values[..n];
      BuildKeys(keys[..n], values[..n], keys[n]);
      if values[n].Some? {
        DropFresh(before, keys[n], values[n].value);
      } else {
        DropAbsent(before, keys[n]);
      }
    }
  }
}
