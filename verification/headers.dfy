/**
 * `CaseInsensitiveDict`: the request-header dictionary. Every key goes
 * through `bytes.upper()` before it reaches the underlying dict, so two
 * keys that differ only in the case of ASCII letters name one entry.
 */
module Headers {
  import opened Wrappers
  import opened Text

  /** `a` and `b` are equal once ASCII letters are compared without case. */
  predicate SameIgnoringCase(a: Bytes, b: Bytes) {
    |a| == |b| &&
    forall i :: 0 <= i < |a| ==>
      a[i] == b[i] || (97 <= a[i] <= 122 && b[i] == a[i] - 32) || (97 <= b[i] <= 122 && a[i] == b[i] - 32)
  }

  /** Upper-casing identifies exactly the keys that differ only in case. */
  lemma UpperSame(a: Bytes, b: Bytes)
    ensures Upper(a) == Upper(b) <==> SameIgnoringCase(a, b)
  {
    if Upper(a) == Upper(b) {
      assert |a| == |Upper(a)| == |Upper(b)| == |b|;
      forall i | 0 <= i < |a|
        ensures a[i] == b[i] || (97 <= a[i] <= 122 && b[i] == a[i] - 32) || (97 <= b[i] <= 122 && a[i] == b[i] - 32)
      {
        assert Upper(a)[i] == Upper(b)[i];
      }
    }
    if SameIgnoringCase(a, b) {
      assert forall i :: 0 <= i < |a| ==> Upper(a)[i] == Upper(b)[i];
    }
  }

  /** `upper()` is idempotent: a stored key is already upper case. */
  lemma UpperIdempotent(a: Bytes)
    ensures Upper(Upper(a)) == Upper(a)
  {
  }

  class CaseInsensitiveDict<V> {
    /** The underlying `dict`, keyed by upper-cased keys. */
    var entries: map<Bytes, V>

    ghost predicate Valid()
      reads this
    {
      forall k :: k in entries ==> Upper(k) == k
    }

    /** `CaseInsensitiveDict()` */
    constructor ()
      ensures Valid() && entries == map[]
    {
      entries := map[];
    }

    /** `d[key] = value` */
    method Set(key: Bytes, value: V)
      requires Valid()
      modifies this
      ensures Valid()
      ensures entries == old(entries)[Upper(key) := value]
    {
      UpperIdempotent(key);
      entries := entries[Upper(key) := value];
    }

    /** `key in d` */
    predicate Contains(key: Bytes)
      requires Valid()
      reads this
      ensures Contains(key) <==> exists k :: k in entries && SameIgnoringCase(k, key)
    {
      StoredKey(key);
      Upper(key) in entries
    }

    /** `d[key]`, None where Python raises KeyError. */
    function Get(key: Bytes): (r: Option<V>)
      requires Valid()
      reads this
      ensures r.Some? <==> exists k :: k in entries && SameIgnoringCase(k, key)
      ensures forall k :: k in entries && SameIgnoringCase(k, key) ==> r == Some(entries[k])
    {
      StoredKey(key);
      if Upper(key) in entries then Some(entries[Upper(key)]) else None
    }

    /** `d.get(key, default)` */
    function GetOr(key: Bytes, default: V): (r: V)
      requires Valid()
      reads this
      ensures Get(key).Some? ==> r == Get(key).value
      ensures Get(key).None? ==> r == default
    {
      if Upper(key) in entries then entries[Upper(key)] else default
    }

    /** A stored key matches `key` ignoring case exactly when it is `key.upper()`. */
    lemma StoredKey(key: Bytes)
      requires Valid()
      ensures forall k :: k in entries ==> (SameIgnoringCase(k, key) <==> k == Upper(key))
    {
      forall k | k in entries
        ensures SameIgnoringCase(k, key) <==> k == Upper(key)
      {
        UpperSame(k, key);
      }
    }
  }

  // ---------------------------------------------------------------- set then get

  /** What `Get` returns for a dictionary held as the map `m`. */
  function Lookup<V>(m: map<Bytes, V>, key: Bytes): Option<V> {
    if Upper(key) in m then Some(m[Upper(key)]) else None
  }

  /**
   * After `d[key] = value`, `d[other]` is `value` when `other` differs from
   * `key` only in case, and is what it was before otherwise.
   */
  lemma SetThenGet<V>(m: map<Bytes, V>, key: Bytes, value: V, other: Bytes)
    ensures SameIgnoringCase(key, other) ==> Lookup(m[Upper(key) := value], other) == Some(value)
    ensures !SameIgnoringCase(key, other) ==> Lookup(m[Upper(key) := value], other) == Lookup(m, other)
  {
    UpperSame(key, other);
  }
}
