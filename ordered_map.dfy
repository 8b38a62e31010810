/** A Python dict seen as an insertion-ordered map: the keys in the order in
    which they were first assigned, and the key-value mapping. */
module OrderedMaps {
  import opened Sequences

  datatype OrderedMap<K(==), V> = OrderedMap(keys: seq<K>, entries: map<K, V>) {

    /** Every key is listed once, and exactly the mapped keys are listed. */
    ghost predicate Valid() {
      && NoDuplicates(keys)
      && (forall k :: k in keys ==> k in entries)
      && (forall k :: k in entries ==> k in keys)
    }

    /** `d[k] = v`: a new key goes to the end; a key already present keeps its
        position and only its value changes. */
    function Put(k: K, v: V): (r: OrderedMap<K, V>)
      ensures Valid() ==> r.Valid()
      ensures r.entries == entries[k := v]
      ensures k in entries ==> r.keys == keys
      ensures k !in entries ==> r.keys == keys + [k]
    {
      if k in entries then OrderedMap(keys, entries[k := v])
      else OrderedMap(keys + [k], entries[k := v])
    }

    /** `len(d)`: the number of listed keys is the number of mapped keys. */
    lemma Size()
      requires Valid()
      ensures |keys| == |entries|
    {
      NoDuplicatesCardinality(keys);
      assert (set x | x in keys) == entries.Keys;
    }
  }

  /** `{}`. */
  function Empty<K(==), V>(): (r: OrderedMap<K, V>)
    ensures r.Valid() && |r.keys| == 0 && |r.entries| == 0
  {
    OrderedMap([], map[])
  }

  /** `{k: v}`. */
  function Singleton<K(==), V>(k: K, v: V): (r: OrderedMap<K, V>)
    ensures r.Valid() && r.keys == [k] && r.entries == map[k := v]
  {
    OrderedMap([k], map[k := v])
  }

  /** No later key in `ks` equals the key at `j`. */
  ghost predicate LastOf<K>(ks: seq<K>, j: nat)
    requires j < |ks|
  {
    forall j' :: j < j' < |ks| ==> ks[j'] != ks[j]
  }

  /** `d` is what assigning `d[ks[0]] = vs[0]`, `d[ks[1]] = vs[1]`, ... in turn
      to an empty dict yields: the keys in first-assigned order, each holding
      the value of its last assignment. */
  ghost predicate Assigned<K, V>(d: OrderedMap<K, V>, ks: seq<K>, vs: seq<V>)
    requires |ks| == |vs|
  {
    && d.Valid()
    && d.keys == Distinct(ks)
    && forall j :: 0 <= j < |ks| && LastOf(ks, j) ==> ks[j] in d.entries && d.entries[ks[j]] == vs[j]
  }

  lemma AssignedEmpty<K, V>()
    ensures Assigned(Empty<K, V>(), [], [])
  {
  }

  /** One more assignment `d[k] = v` extends the record. */
  lemma {:induction false} AssignedPut<K, V>(d: OrderedMap<K, V>, ks: seq<K>, vs: seq<V>, k: K, v: V)
    requires |ks| == |vs| && Assigned(d, ks, vs)
    ensures Assigned(d.Put(k, v), ks + [k], vs + [v])
  {
    DistinctSnoc(ks, k);
    var r := d.Put(k, v);
    var ks', vs' := ks + [k], vs + [v];
    forall j | 0 <= j < |ks'| && LastOf(ks', j) ensures ks'[j] in r.entries && r.entries[ks'[j]] == vs'[j] {
      if j < |ks| {
        assert ks'[j] == ks[j] && vs'[j] == vs[j];
        assert ks'[|ks|] == k;
        assert LastOf(ks, j) by {
          forall j' | j < j' < |ks| ensures ks[j'] != ks[j] {
            assert ks'[j'] == ks[j'];
          }
        }
      }
    }
  }

  /** The same, for the assignments of a prefix of the pairs. */
  lemma AssignedStep<K, V>(d: OrderedMap<K, V>, ks: seq<K>, vs: seq<V>, n: nat)
    requires |ks| == |vs| && 0 < n <= |ks| && Assigned(d, ks[..n - 1], vs[..n - 1])
    ensures Assigned(d.Put(ks[n - 1], vs[n - 1]), ks[..n], vs[..n])
  {
    PrefixSnoc(ks, n - 1);
    PrefixSnoc(vs, n - 1);
    AssignedPut(d, ks[..n - 1], vs[..n - 1], ks[n - 1], vs[n - 1]);
  }

  /** A dict with no assignment recorded is empty, and one with at least one
      has an entry per distinct key. */
  lemma AssignedSize<K, V>(d: OrderedMap<K, V>, ks: seq<K>, vs: seq<V>)
    requires |ks| == |vs| && Assigned(d, ks, vs)
    ensures |d.entries| == |set k | k in ks|
    ensures |d.entries| == 0 <==> ks == []
  {
    DistinctCount(ks);
    d.Size();
    if ks != [] {
      assert ks[0] in d.keys;
    }
  }

  /** `d = {}` followed by `d[ks[j]] = vs[j]` for `j` from 0 up to `n`: the
      state of a loop that assigns the pairs in order, after `n` passes. */
  function AssignPrefix<K(==), V>(ks: seq<K>, vs: seq<V>, n: nat): (d: OrderedMap<K, V>)
    requires |ks| == |vs| && n <= |ks|
  {
    if n == 0 then Empty() else AssignPrefix(ks, vs, n - 1).Put(ks[n - 1], vs[n - 1])
  }

  /** The first `n` assignments leave the keys in first-assigned order, each
      holding the value of its last assignment so far. */
  lemma {:induction false} AssignPrefixAssigned<K, V>(ks: seq<K>, vs: seq<V>, n: nat)
    requires |ks| == |vs| && n <= |ks|
    ensures Assigned(AssignPrefix(ks, vs, n), ks[..n], vs[..n])
  {
    if n == 0 {
      assert ks[..0] == [] && vs[..0] == [];
      AssignedEmpty<K, V>();
    } else {
      AssignPrefixAssigned(ks, vs, n - 1);
      AssignedStep(AssignPrefix(ks, vs, n - 1), ks, vs, n);
    }
  }

  /** All the assignments: the record of every pair, one entry per distinct
      key, and no entry iff there was no assignment. */
  lemma AssignAll<K, V>(ks: seq<K>, vs: seq<V>)
    requires |ks| == |vs|
    ensures var d := AssignPrefix(ks, vs, |ks|);
      && Assigned(d, ks, vs)
      && |d.entries| == |set k | k in ks|
      && (|d.entries| == 0 <==> ks == [])
  {
    AssignPrefixAssigned(ks, vs, |ks|);
    assert ks[..|ks|] == ks && vs[..|vs|] == vs;
    AssignedSize(AssignPrefix(ks, vs, |ks|), ks, vs);
  }
}
