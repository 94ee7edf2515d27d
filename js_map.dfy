/**
 * A JavaScript `Map`: a finite map that also remembers the order in which its keys
 * were first inserted. `set` on a present key keeps that key's position, `delete`
 * removes it, and iteration (`keys()`, `values()`, `entries()`) follows the order.
 */
module JsMaps {
  import opened Wrappers

  /** No element occurs twice. */
  ghost predicate Distinct<K>(s: seq<K>) {
    s == [] || (s[0] !in s[1..] && Distinct(s[1..]))
  }

  /** Distinctness is the pairwise statement: two positions never hold the same element. */
  lemma {:induction false} DistinctPairwise<K>(s: seq<K>)
    ensures Distinct(s) <==> forall i, j | 0 <= i < j < |s| :: s[i] != s[j]
  {
    if s != [] {
      var t := s[1..];
      DistinctPairwise(t);
      if Distinct(s) {
        forall i, j | 0 <= i < j < |s| ensures s[i] != s[j] {
          assert s[j] == t[j - 1];
          if i > 0 {
            assert s[i] == t[i - 1];
          }
        }
      }
      if forall i, j | 0 <= i < j < |s| :: s[i] != s[j] {
        forall i, j | 0 <= i < j < |t| ensures t[i] != t[j] {
          assert t[i] == s[i + 1] && t[j] == s[j + 1];
        }
        forall j | 0 <= j < |t| ensures t[j] != s[0] {
          assert t[j] == s[j + 1];
        }
      }
    }
  }

  /** Appending an element that is not there yet keeps a sequence duplicate-free. */
  lemma {:induction false} DistinctAppend<K>(s: seq<K>, k: K)
    requires Distinct(s) && k !in s
    ensures Distinct(s + [k])
  {
    if s != [] {
      assert (s + [k])[1..] == s[1..] + [k];
      DistinctAppend(s[1..], k);
    }
  }

  /** Dropping the last element keeps a sequence duplicate-free, and that element is not in the rest. */
  lemma {:induction false} DistinctPrefix<K>(s: seq<K>)
    requires Distinct(s) && s != []
    ensures Distinct(s[..|s| - 1]) && s[|s| - 1] !in s[..|s| - 1]
  {
    DistinctPairwise(s);
    DistinctPairwise(s[..|s| - 1]);
  }

  /** A duplicate-free sequence has as many elements as distinct values. */
  lemma {:induction false} DistinctCount<K>(s: seq<K>)
    requires Distinct(s)
    ensures |(set x | x in s)| == |s|
    decreases |s|
  {
    if s != [] {
      var init := s[..|s| - 1];
      DistinctPrefix(s);
      DistinctCount(init);
      assert s == init + [s[|s| - 1]];
      assert (set x | x in s) == (set x | x in init) + {s[|s| - 1]};
    }
  }

  /** `s` with every occurrence of `k` taken out, the rest in order. */
  function Without<K(==)>(s: seq<K>, k: K): (r: seq<K>)
    ensures forall x | x in r :: x in s && x != k
    ensures forall x | x in s && x != k :: x in r
    ensures |r| <= |s|
  {
    if s == [] then []
    else if s[0] == k then Without(s[1..], k)
    else [s[0]] + Without(s[1..], k)
  }

  lemma {:induction false} WithoutDistinct<K>(s: seq<K>, k: K)
    requires Distinct(s)
    ensures Distinct(Without(s, k))
    ensures k in s ==> |Without(s, k)| == |s| - 1
    ensures k !in s ==> Without(s, k) == s
  {
    if s != [] {
      WithoutDistinct(s[1..], k);
      assert s == [s[0]] + s[1..];
      if s[0] != k {
        assert ([s[0]] + Without(s[1..], k))[1..] == Without(s[1..], k);
      }
    }
  }

  /** Deleting the first key of a duplicate-free sequence leaves its tail. */
  lemma WithoutFirst<K>(s: seq<K>)
    requires s != [] && Distinct(s)
    ensures Without(s, s[0]) == s[1..]
  {
    WithoutDistinct(s[1..], s[0]);
  }

  datatype JsMap<K(==), V> = JsMap(keys: seq<K>, m: map<K, V>) {

    /** The order lists each key of the map exactly once. */
    ghost predicate Valid() {
      Distinct(keys) && (forall k | k in m :: k in keys) && (forall k | k in keys :: k in m)
    }

    /** `map.size` */
    function Size(): nat {
      |keys|
    }

    /** The size counts the keys of the map. */
    lemma SizeCountsKeys()
      requires Valid()
      ensures Size() == |m|
    {
      DistinctCount(keys);
      assert m.Keys == set x | x in keys;
    }

    /** `map.get(k)` */
    function Get(k: K): Option<V> {
      if k in m then Some(m[k]) else None
    }

    /** `map.set(k, v)`: a new key goes last, a present key keeps its place. */
    function Set(k: K, v: V): (r: JsMap<K, V>)
      requires Valid()
      ensures r.Valid() && r.m == m[k := v]
      ensures |r.keys| == if k in m then |keys| else |keys| + 1
      ensures forall i | 0 <= i < |keys| :: r.keys[i] == keys[i]
    {
      if k in m then JsMap(keys, m[k := v])
      else
        var r := JsMap(keys + [k], m[k := v]);
        DistinctAppend(keys, k);
        assert forall i | 0 <= i < |keys| :: r.keys[i] == keys[i];
        r
    }

    /** `map.delete(k)`: the other keys keep their relative order. */
    function Delete(k: K): (r: JsMap<K, V>)
      requires Valid()
      ensures r.Valid() && r.m == m - {k}
      ensures r.keys == Without(keys, k)
      ensures |r.keys| == if k in m then |keys| - 1 else |keys|
    {
      WithoutDistinct(keys, k);
      JsMap(Without(keys, k), m - {k})
    }

    /** `Array.from(map.values())` */
    function Values(): (vs: seq<V>)
      requires Valid()
      ensures |vs| == |keys|
      ensures forall i | 0 <= i < |keys| :: keys[i] in m && vs[i] == m[keys[i]]
    {
      seq(|keys|, i requires 0 <= i < |keys| => m[keys[i]])
    }
  }

  function EmptyMap<K(==), V>(): (r: JsMap<K, V>)
    ensures r.Valid() && r.m == map[] && r.keys == []
  {
    JsMap([], map[])
  }
}
