/** The key-value store as the backend sees it: hashes of integer fields and
    integer scalars, with the four commands the backend issues. A pipeline
    (`map()`) is sequential application of these functions. */
module RedisStore {
  import opened Wrappers

  datatype Store = Store(hashes: map<string, map<string, int>>, scalars: map<string, int>)

  /** A store holding no keys. */
  const Empty := Store(map[], map[])

  /** The hash stored at `key`, empty when the key is absent. */
  function HashAt(s: Store, key: string): map<string, int> {
    if key in s.hashes then s.hashes[key] else map[]
  }

  /** The integer in field `field` of hash `key`, 0 when either is absent. */
  function FieldValue(s: Store, key: string, field: string): int {
    var h := HashAt(s, key);
    if field in h then h[field] else 0
  }

  /** The integer at scalar `key`, 0 when absent. */
  function ScalarValue(s: Store, key: string): int {
    if key in s.scalars then s.scalars[key] else 0
  }

  /** HINCRBY: adds `amt` to one field, creating it at `amt` when missing, and
      replies with the new value. */
  function HIncrBy(s: Store, key: string, field: string, amt: int): (r: (Store, int))
    ensures r.1 == FieldValue(s, key, field) + amt
    ensures FieldValue(r.0, key, field) == r.1
    ensures forall k, f :: FieldValue(r.0, k, f) == FieldValue(s, k, f) + (if k == key && f == field then amt else 0)
    ensures r.0.hashes.Keys == s.hashes.Keys + {key}
    ensures forall k :: HashAt(r.0, k).Keys == HashAt(s, k).Keys + (if k == key then {field} else {})
    ensures r.0.scalars == s.scalars
  {
    var h := HashAt(s, key);
    var v := FieldValue(s, key, field) + amt;
    (s.(hashes := s.hashes[key := h[field := v]]), v)
  }

  /** INCRBY: adds `amt` to a scalar, creating it at `amt` when missing, and
      replies with the new value. */
  function Incr(s: Store, key: string, amt: int): (r: (Store, int))
    ensures r.1 == ScalarValue(s, key) + amt
    ensures ScalarValue(r.0, key) == r.1
    ensures forall k :: k != key ==> ScalarValue(r.0, k) == ScalarValue(s, k)
    ensures r.0.scalars.Keys == s.scalars.Keys + {key}
    ensures r.0.hashes == s.hashes
  {
    var v := ScalarValue(s, key) + amt;
    (s.(scalars := s.scalars[key := v]), v)
  }

  /** The error the server answers to an HMGET without fields. */
  const HMGetArityError := "wrong number of arguments for 'hmget' command"

  /** HMGET: one reply per requested field, in request order, `None` for a
      missing field or key; a command naming no field is refused. */
  function HMGet(s: Store, key: string, fields: seq<string>): (r: Result<seq<Option<int>>>)
    ensures r.Failure? <==> |fields| == 0
    ensures r.Failure? ==> r.error == HMGetArityError
    ensures r.Success? ==> |r.value| == |fields|
    ensures r.Success? ==> forall i :: 0 <= i < |fields| ==>
      (r.value[i].Some? <==> fields[i] in HashAt(s, key)) && r.value[i].GetOr(0) == FieldValue(s, key, fields[i])
  {
    if |fields| == 0 then Failure(HMGetArityError)
    else
      var h := HashAt(s, key);
      Success(seq(|fields|, i requires 0 <= i < |fields| => if fields[i] in h then Some(h[fields[i]]) else None))
  }

  /** GET: the scalar at `key`, `None` when absent. */
  function Get(s: Store, key: string): (r: Option<int>)
    ensures r.Some? <==> key in s.scalars
    ensures r.GetOr(0) == ScalarValue(s, key)
  {
    if key in s.scalars then Some(s.scalars[key]) else None
  }

  /** Two increments of the same or different fields commute. */
  lemma HIncrByCommute(s: Store, k1: string, f1: string, a: int, k2: string, f2: string, b: int)
    ensures HIncrBy(HIncrBy(s, k1, f1, a).0, k2, f2, b).0 == HIncrBy(HIncrBy(s, k2, f2, b).0, k1, f1, a).0
  {
    var l := HIncrBy(HIncrBy(s, k1, f1, a).0, k2, f2, b).0;
    var r := HIncrBy(HIncrBy(s, k2, f2, b).0, k1, f1, a).0;
    StoreExtensional(l, r);
  }

  /** Two increments of one field add up. */
  lemma HIncrByAdd(s: Store, k: string, f: string, a: int, b: int)
    ensures HIncrBy(HIncrBy(s, k, f, a).0, k, f, b).0 == HIncrBy(s, k, f, a + b).0
  {
    var l := HIncrBy(HIncrBy(s, k, f, a).0, k, f, b).0;
    var r := HIncrBy(s, k, f, a + b).0;
    StoreExtensional(l, r);
  }

  lemma IncrAdd(s: Store, k: string, a: int, b: int)
    ensures Incr(Incr(s, k, a).0, k, b).0 == Incr(s, k, a + b).0
  {
  }

  /** Hash and scalar increments touch different parts of the store. */
  lemma IncrHIncrByCommute(s: Store, k1: string, a: int, k2: string, f2: string, b: int)
    ensures Incr(HIncrBy(s, k2, f2, b).0, k1, a).0 == HIncrBy(Incr(s, k1, a).0, k2, f2, b).0
  {
  }

  /** Stores with the same keys, fields and values are equal. */
  lemma StoreExtensional(l: Store, r: Store)
    requires l.scalars.Keys == r.scalars.Keys && forall k :: ScalarValue(l, k) == ScalarValue(r, k)
    requires l.hashes.Keys == r.hashes.Keys
    requires forall k :: HashAt(l, k).Keys == HashAt(r, k).Keys
    requires forall k, f :: FieldValue(l, k, f) == FieldValue(r, k, f)
    ensures l == r
  {
    forall k | k in l.scalars
      ensures l.scalars[k] == r.scalars[k]
    {
      assert ScalarValue(l, k) == ScalarValue(r, k);
    }
    forall k | k in l.hashes
      ensures l.hashes[k] == r.hashes[k]
    {
      assert HashAt(l, k).Keys == HashAt(r, k).Keys;
      forall f | f in l.hashes[k]
        ensures l.hashes[k][f] == r.hashes[k][f]
      {
        assert FieldValue(l, k, f) == FieldValue(r, k, f);
      }
    }
  }
}
