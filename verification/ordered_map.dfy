/** An insertion-ordered dictionary keyed by strings, as Python's `dict`
    behaves: a new key is appended, rebinding a key keeps its position,
    and removing a key keeps the others in order. */
module OrderedMap {
  import opened Outcomes

  /** No key appears twice. */
  predicate Distinct(ks: seq<string>) {
    forall i, j :: 0 <= i < j < |ks| ==> ks[i] != ks[j]
  }

  /** `keys` is the iteration order, `values` the bindings. */
  datatype Dict<V> = Dict(keys: seq<string>, values: map<string, V>) {
    ghost predicate Valid() {
      && Distinct(keys)
      && (forall k :: k in values <==> k in keys)
    }
  }

  function Empty<V>(): (d: Dict<V>)
    ensures d.Valid()
    ensures |d.keys| == 0 && |d.values| == 0
  {
    Dict([], map[])
  }

  /** The order is empty exactly when the bindings are. */
  lemma EmptyAgrees<V>(d: Dict<V>)
    requires d.Valid()
    ensures |d.keys| == 0 <==> |d.values| == 0
  {
    if |d.keys| > 0 {
      assert d.keys[0] in d.values;
    }
    if |d.values| > 0 {
      var k :| k in d.values;
      assert k in d.keys;
    }
  }

  /** `d.get(k)`. */
  function Get<V>(d: Dict<V>, k: string): (r: Option<V>)
    ensures r.Some? <==> k in d.values
    ensures r.Some? ==> r.value == d.values[k]
  {
    if k in d.values then Some(d.values[k]) else None
  }

  /** `d[k] = v`. */
  function Put<V>(d: Dict<V>, k: string, v: V): (r: Dict<V>)
    requires d.Valid()
    ensures r.Valid()
    ensures Get(r, k) == Some(v)
    ensures forall k' :: k' != k ==> Get(r, k') == Get(d, k')
    ensures k in d.values ==> r.keys == d.keys
    ensures k !in d.values ==> r.keys == d.keys + [k]
  {
    if k in d.values then Dict(d.keys, d.values[k := v])
    else Dict(d.keys + [k], d.values[k := v])
  }

  /** ks with every occurrence of k dropped, the rest in order. */
  function Without(ks: seq<string>, k: string): (r: seq<string>)
    ensures forall x :: x in r <==> x in ks && x != k
    ensures Distinct(ks) ==> Distinct(r)
    ensures |r| <= |ks|
    decreases |ks|
  {
    if |ks| == 0 then []
    else if ks[0] == k then Without(ks[1..], k)
    else
      var rest := Without(ks[1..], k);
      assert Distinct(ks) ==> ks[0] !in ks[1..] && Distinct(ks[1..]) by {
        if Distinct(ks) {
          forall i, j | 0 <= i < j < |ks[1..]| ensures ks[1..][i] != ks[1..][j] {
            assert ks[1..][i] == ks[i + 1] && ks[1..][j] == ks[j + 1];
          }
        }
      }
      DistinctCons(ks[0], rest);
      [ks[0]] + rest
  }

  lemma DistinctCons(x: string, rest: seq<string>)
    ensures x !in rest && Distinct(rest) ==> Distinct([x] + rest)
  {
    var s := [x] + rest;
    if x !in rest && Distinct(rest) {
      forall i, j | 0 <= i < j < |s| ensures s[i] != s[j] {
        if i == 0 {
          assert s[j] == rest[j - 1];
        } else {
          assert s[i] == rest[i - 1] && s[j] == rest[j - 1];
        }
      }
    }
  }

  /** Dropping the key at position i of a duplicate-free order leaves the
      keys before and after it, in order. */
  lemma {:induction false} WithoutAt(ks: seq<string>, i: nat)
    requires Distinct(ks) && i < |ks|
    ensures Without(ks, ks[i]) == ks[..i] + ks[i + 1..]
    decreases i
  {
    var k := ks[i];
    assert Distinct(ks[1..]) by {
      forall a, b | 0 <= a < b < |ks[1..]| ensures ks[1..][a] != ks[1..][b] {
        assert ks[1..][a] == ks[a + 1] && ks[1..][b] == ks[b + 1];
      }
    }
    if i == 0 {
      assert k !in ks[1..] by {
        forall j | 0 <= j < |ks[1..]| ensures ks[1..][j] != k {
          assert ks[1..][j] == ks[j + 1];
        }
      }
      WithoutAbsent(ks[1..], k);
    } else {
      assert ks[0] != k;
      assert ks[1..][i - 1] == k;
      WithoutAt(ks[1..], i - 1);
      assert ks[..i] == [ks[0]] + ks[1..][..i - 1];
      assert ks[i + 1..] == ks[1..][i..];
    }
  }

  /** Dropping an absent key changes nothing. */
  lemma {:induction false} WithoutAbsent(ks: seq<string>, k: string)
    requires k !in ks
    ensures Without(ks, k) == ks
    decreases |ks|
  {
    if |ks| > 0 {
      assert k !in ks[1..];
      WithoutAbsent(ks[1..], k);
      assert ks == [ks[0]] + ks[1..];
    }
  }

  /** `d.pop(k)` for a present key: the key leaves its place and the
      others close up in order; `d` itself for an absent key. */
  function Remove<V>(d: Dict<V>, k: string): (r: Dict<V>)
    requires d.Valid()
    ensures r.Valid()
    ensures Get(r, k) == None
    ensures forall k' :: k' != k ==> Get(r, k') == Get(d, k')
    ensures k in d.values ==> exists i :: 0 <= i < |d.keys| && d.keys[i] == k && r.keys == d.keys[..i] + d.keys[i + 1..]
    ensures k !in d.values ==> r == d
  {
    RemoveValid(d, k);
    if k in d.values then
      var i :| 0 <= i < |d.keys| && d.keys[i] == k;
      WithoutAt(d.keys, i);
      Dict(Without(d.keys, k), d.values - {k})
    else
      WithoutAbsent(d.keys, k);
      assert d.values - {k} == d.values;
      d
  }

  lemma RemoveValid<V>(d: Dict<V>, k: string)
    requires d.Valid()
    ensures Dict(Without(d.keys, k), d.values - {k}).Valid()
  {
  }

  /** Inserting a fresh key and then popping it restores the dictionary,
      order included. */
  lemma PutThenRemove<V>(d: Dict<V>, k: string, v: V)
    requires d.Valid() && k !in d.values
    ensures Remove(Put(d, k, v), k) == d
  {
    var p := Put(d, k, v);
    assert k !in d.keys;
    WithoutAppend(d.keys, k);
    assert p.values - {k} == d.values;
  }

  lemma {:induction false} WithoutAppend(ks: seq<string>, k: string)
    requires k !in ks
    ensures Without(ks + [k], k) == ks
    decreases |ks|
  {
    if |ks| == 0 {
      assert ks + [k] == [k];
    } else {
      assert (ks + [k])[1..] == ks[1..] + [k];
      assert k !in ks[1..];
      WithoutAppend(ks[1..], k);
      assert ks == [ks[0]] + ks[1..];
    }
  }
}
