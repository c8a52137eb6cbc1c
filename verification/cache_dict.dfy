/**
 * `CacheDict`: an insertion-ordered map of bounded length. Setting a key
 * puts it last (newest) and then drops the oldest keys while the map is
 * longer than `cache_len`; reading a key also makes it newest.
 *
 * `CacheState` is the value the object holds (its keys, oldest first, and
 * its entries); `SetSpec` and `GetSpec` say what one call does to it, and
 * the lemmas below state what the class promises in terms of them.
 */
module Cache {
  import opened Wrappers
  import opened Text

  /** `ks` with every occurrence of `k` removed, the others in order. */
  function Remove<K(==,!new)>(ks: seq<K>, k: K): (r: seq<K>)
    ensures forall x :: x in r <==> x in ks && x != k
    ensures |r| <= |ks|
  {
    if ks == [] then []
    else if ks[0] == k then Remove(ks[1..], k)
    else [ks[0]] + Remove(ks[1..], k)
  }

  /** `move_to_end(k)` on the key order (inserting `k` if it is new). */
  function MoveToEnd<K(==,!new)>(ks: seq<K>, k: K): seq<K> {
    Remove(ks, k) + [k]
  }

  /** The entries of `m` whose key is listed in `ks`. */
  function Restrict<K(==,!new), V>(m: map<K, V>, ks: seq<K>): map<K, V> {
    map x | x in m && x in ks :: m[x]
  }

  datatype CacheState<K(==,!new), V> = CacheState(keys: seq<K>, store: map<K, V>)

  /** The shape every reachable state has. */
  ghost predicate WellFormed<K(!new), V>(st: CacheState<K, V>, cacheLen: nat) {
    && |st.keys| <= cacheLen
    && Distinct(st.keys)
    && (forall x :: x in st.store <==> x in st.keys)
  }

  /** `cache[k] = v` */
  function SetSpec<K(==,!new), V>(st: CacheState<K, V>, k: K, v: V, cacheLen: nat): CacheState<K, V> {
    var ks := LastN(MoveToEnd(st.keys, k), cacheLen);
    CacheState(ks, Restrict(st.store[k := v], ks))
  }

  /** `cache[k]`: the value, or None where Python raises KeyError, and the new state. */
  function GetSpec<K(==,!new), V>(st: CacheState<K, V>, k: K): (Option<V>, CacheState<K, V>) {
    if k in st.store then (Some(st.store[k]), CacheState(MoveToEnd(st.keys, k), st.store))
    else (None, st)
  }

  /** `CacheDict(pairs, cache_len=n)`: the pairs are set one after another. */
  function Build<K(==,!new), V>(pairs: seq<(K, V)>, cacheLen: nat): CacheState<K, V>
    decreases |pairs|
  {
    if pairs == [] then CacheState([], map[])
    else
      var last := pairs[|pairs| - 1];
      SetSpec(Build(pairs[..|pairs| - 1], cacheLen), last.0, last.1, cacheLen)
  }

  // ---------------------------------------------------------------- order lemmas

  lemma {:induction false} RemoveDistinct<K(!new)>(ks: seq<K>, k: K)
    requires Distinct(ks)
    ensures Distinct(Remove(ks, k))
    ensures k in ks ==> |Remove(ks, k)| == |ks| - 1
    ensures k !in ks ==> Remove(ks, k) == ks
    decreases |ks|
  {
    if ks != [] {
      assert Distinct(ks[1..]) by {
        forall i, j | 0 <= i < j < |ks[1..]| ensures ks[1..][i] != ks[1..][j] {
          assert ks[1..][i] == ks[i + 1] && ks[1..][j] == ks[j + 1];
        }
      }
      RemoveDistinct(ks[1..], k);
      if ks[0] == k {
        assert k !in ks[1..] by {
          forall i | 0 <= i < |ks[1..]| ensures ks[1..][i] != k {
            assert ks[1..][i] == ks[i + 1];
          }
        }
      } else {
        assert ks == [ks[0]] + ks[1..];
        assert k in ks ==> k in ks[1..];
        assert ks[0] !in Remove(ks[1..], k) by {
          assert ks[0] !in ks[1..] by {
            forall i | 0 <= i < |ks[1..]| ensures ks[1..][i] != ks[0] {
              assert ks[1..][i] == ks[i + 1];
            }
          }
        }
      }
    }
  }

  /** Moving a key to the end keeps the keys distinct and makes it newest. */
  lemma MoveToEndFacts<K(!new)>(ks: seq<K>, k: K)
    requires Distinct(ks)
    ensures Distinct(MoveToEnd(ks, k))
    ensures forall x :: x in MoveToEnd(ks, k) <==> x in ks || x == k
    ensures |MoveToEnd(ks, k)| == if k in ks then |ks| else |ks| + 1
    ensures MoveToEnd(ks, k)[|MoveToEnd(ks, k)| - 1] == k
  {
    RemoveDistinct(ks, k);
    var r := Remove(ks, k);
    var m := r + [k];
    forall i, j | 0 <= i < j < |m| ensures m[i] != m[j] {
      if j == |m| - 1 {
        assert m[i] == r[i];
      } else {
        assert m[i] == r[i] && m[j] == r[j];
      }
    }
  }

  /** Removing a key keeps the others in their relative order. */
  lemma {:induction false} RemoveKeepsOrder<K(!new)>(ks: seq<K>, k: K, i: nat, j: nat)
    requires Distinct(ks) && i < j < |Remove(ks, k)|
    ensures exists a, b :: 0 <= a < b < |ks| && ks[a] == Remove(ks, k)[i] && ks[b] == Remove(ks, k)[j]
    decreases |ks|
  {
    RemoveDistinct(ks, k);
    assert Distinct(ks[1..]) by {
      forall a, b | 0 <= a < b < |ks[1..]| ensures ks[1..][a] != ks[1..][b] {
        assert ks[1..][a] == ks[a + 1] && ks[1..][b] == ks[b + 1];
      }
    }
    var r := Remove(ks, k);
    if ks[0] == k {
      RemoveKeepsOrder(ks[1..], k, i, j);
      var a, b :| 0 <= a < b < |ks[1..]| && ks[1..][a] == r[i] && ks[1..][b] == r[j];
      assert ks[a + 1] == r[i] && ks[b + 1] == r[j];
    } else if i == 0 {
      var x := r[j];
      assert x in ks[1..] by {
        assert x == Remove(ks[1..], k)[j - 1];
      }
      var b :| 0 <= b < |ks[1..]| && ks[1..][b] == x;
      assert ks[0] == r[0] && ks[b + 1] == x;
    } else {
      RemoveKeepsOrder(ks[1..], k, i - 1, j - 1);
      var a, b :| 0 <= a < b < |ks[1..]| && ks[1..][a] == Remove(ks[1..], k)[i - 1]
        && ks[1..][b] == Remove(ks[1..], k)[j - 1];
      assert ks[a + 1] == r[i] && ks[b + 1] == r[j];
    }
  }

  // ---------------------------------------------------------------- what set and get promise

  /**
   * After `cache[k] = v`: at most `cache_len` keys, `k` is present with
   * value `v` and newest, every surviving key keeps its value, and the
   * shape of the state is kept.
   */
  lemma SetKeepsBound<K(!new), V>(st: CacheState<K, V>, k: K, v: V, cacheLen: nat)
    requires cacheLen > 0 && WellFormed(st, cacheLen)
    ensures WellFormed(SetSpec(st, k, v, cacheLen), cacheLen)
    ensures var r := SetSpec(st, k, v, cacheLen);
      && |r.keys| > 0 && r.keys[|r.keys| - 1] == k
      && k in r.store && r.store[k] == v
      && (forall x :: x in r.store && x != k ==> x in st.store && r.store[x] == st.store[x])
  {
    MoveToEndFacts(st.keys, k);
    var m := MoveToEnd(st.keys, k);
    var ks := LastN(m, cacheLen);
    assert Distinct(ks) by {
      forall i, j | 0 <= i < j < |ks| ensures ks[i] != ks[j] {
        var d := |m| - |ks|;
        assert ks[i] == m[i + d] && ks[j] == m[j + d];
      }
    }
    assert ks[|ks| - 1] == k;
    assert forall x :: x in ks ==> x in m;
  }

  /**
   * Only the oldest keys are dropped: in the order after the move, every
   * key before a dropped key was dropped too, and keys are dropped only
   * when the map would be longer than `cache_len`.
   */
  lemma SetEvictsOldest<K(!new), V>(st: CacheState<K, V>, k: K, v: V, cacheLen: nat)
    requires cacheLen > 0 && WellFormed(st, cacheLen)
    ensures var m := MoveToEnd(st.keys, k);
      var r := SetSpec(st, k, v, cacheLen);
      && (forall i, j :: 0 <= i < j < |m| && m[j] !in r.keys ==> m[i] !in r.keys)
      && (forall x :: x in st.keys && x !in r.keys ==> |st.keys| == cacheLen && k !in st.keys)
  {
    MoveToEndFacts(st.keys, k);
    var m := MoveToEnd(st.keys, k);
    var r := SetSpec(st, k, v, cacheLen);
    var d := |m| - |r.keys|;
    assert forall i :: d <= i < |m| ==> m[i] in r.keys by {
      forall i | d <= i < |m| ensures m[i] in r.keys {
        assert r.keys[i - d] == m[i];
      }
    }
  }

  /**
   * `cache[k]` on a present key returns its value, makes it newest and
   * changes neither the keys present nor any value; on a missing key it
   * raises and changes nothing.
   */
  lemma GetMovesToEnd<K(!new), V>(st: CacheState<K, V>, k: K, cacheLen: nat)
    requires WellFormed(st, cacheLen)
    ensures var (r, st') := GetSpec(st, k);
      && (r.Some? <==> k in st.store)
      && (r.Some? ==> r.value == st.store[k] && st'.keys[|st'.keys| - 1] == k)
      && st'.store == st.store
      && (forall x :: x in st'.keys <==> x in st.keys)
      && |st'.keys| == |st.keys|
      && WellFormed(st', cacheLen)
  {
    MoveToEndFacts(st.keys, k);
  }

  /** Building from any list of pairs gives a well-formed state. */
  lemma {:induction false} BuildWellFormed<K(!new), V>(pairs: seq<(K, V)>, cacheLen: nat)
    requires cacheLen > 0
    ensures WellFormed(Build(pairs, cacheLen), cacheLen)
    decreases |pairs|
  {
    if pairs != [] {
      var last := pairs[|pairs| - 1];
      BuildWellFormed(pairs[..|pairs| - 1], cacheLen);
      SetKeepsBound(Build(pairs[..|pairs| - 1], cacheLen), last.0, last.1, cacheLen);
    }
  }

  lemma DistinctTail<K>(ks: seq<K>)
    requires Distinct(ks) && ks != []
    ensures Distinct(ks[1..])
  {
    forall i, j | 0 <= i < j < |ks[1..]| ensures ks[1..][i] != ks[1..][j] {
      assert ks[1..][i] == ks[i + 1] && ks[1..][j] == ks[j + 1];
    }
  }

  /** Dropping keys from the front until at most `cacheLen` are left keeps the newest `cacheLen`. */
  lemma EvictedPrefix<K>(ks: seq<K>, d: nat, cacheLen: nat)
    requires d <= |ks| && |ks| - d <= cacheLen && (d > 0 ==> |ks| - d >= cacheLen)
    ensures ks[d..] == LastN(ks, cacheLen)
  {
  }

  lemma RestrictAll<K(!new), V>(m: map<K, V>, ks: seq<K>)
    requires forall x :: x in m <==> x in ks
    ensures Restrict(m, ks) == m
  {
  }

  /** Dropping the oldest key drops exactly its entry. */
  lemma RestrictDrop<K(!new), V>(m: map<K, V>, ks: seq<K>)
    requires Distinct(ks) && ks != []
    ensures Restrict(m, ks[1..]) == Restrict(m, ks) - {ks[0]}
  {
    assert ks[0] !in ks[1..] by {
      forall i | 0 <= i < |ks[1..]| ensures ks[1..][i] != ks[0] {
        assert ks[1..][i] == ks[i + 1];
      }
    }
    assert forall x :: x in ks[1..] <==> x in ks && x != ks[0] by {
      assert ks == [ks[0]] + ks[1..];
    }
  }

  // ---------------------------------------------------------------- the object

  class CacheDict<K(==,!new), V> {
    var keys: seq<K>
    var store: map<K, V>
    const cacheLen: nat

    function State(): CacheState<K, V>
      reads this
    {
      CacheState(keys, store)
    }

    ghost predicate Valid()
      reads this
    {
      cacheLen > 0 && WellFormed(State(), cacheLen)
    }

    /** `CacheDict(pairs, cache_len=cacheLen)`; Python asserts `cache_len > 0`. */
    constructor (pairs: seq<(K, V)>, cacheLen: nat)
      requires cacheLen > 0
      ensures Valid()
      ensures this.cacheLen == cacheLen
      ensures State() == Build(pairs, cacheLen)
    {
      this.cacheLen := cacheLen;
      keys := [];
      store := map[];
      new;
      for i := 0 to |pairs|
        invariant Valid()
        invariant State() == Build(pairs[..i], cacheLen)
      {
        assert pairs[..i + 1][..i] == pairs[..i];
        Set(pairs[i].0, pairs[i].1);
      }
      assert pairs[..|pairs|] == pairs;
    }

    /** `k in cache` */
    predicate Contains(k: K)
      reads this
    {
      k in store
    }

    /** `cache[k] = v`: set, move to the end, then evict from the front. */
    method Set(k: K, v: V)
      requires Valid()
      modifies this
      ensures Valid()
      ensures State() == SetSpec(old(State()), k, v, cacheLen)
    {
      SetKeepsBound(State(), k, v, cacheLen);
      MoveToEndFacts(keys, k);
      ghost var full := store[k := v];
      var moved := MoveToEnd(keys, k);
      store := store[k := v];
      keys := moved;
      RestrictAll(store, keys);
      ghost var d := 0;
      while |keys| > cacheLen
        invariant 0 <= d <= |moved| && keys == moved[d..]
        invariant d > 0 ==> |keys| >= cacheLen
        invariant Distinct(keys)
        invariant store == Restrict(full, keys)
        decreases |keys|
      {
        var oldest := keys[0];
        RestrictDrop(full, keys);
        DistinctTail(keys);
        keys := keys[1..];
        store := store - {oldest};
        d := d + 1;
      }
      EvictedPrefix(moved, d, cacheLen);
    }

    /** `cache[k]`: the value (None for KeyError), after making `k` newest. */
    method Get(k: K) returns (r: Option<V>)
      requires Valid()
      modifies this
      ensures Valid()
      ensures (r, State()) == GetSpec(old(State()), k)
      ensures store == old(store)
      ensures r.Some? <==> k in store
      ensures r.Some? ==> r.value == store[k]
    {
      GetMovesToEnd(State(), k, cacheLen);
      if k !in store {
        return None;
      }
      r := Some(store[k]);
      keys := MoveToEnd(keys, k);
    }
  }
}
