/** The bounded cache of finished trips' details in `KiaUvoApiIN`. */
module TripCache {
  import opened Prelude

  const TRIP_DETAIL_CACHE_SIZE: nat := 200

  datatype FetchError = APIError

  /** The values of a key that the dictionary, in insertion order, holds. */
  function Lookup<K(==), V>(entries: seq<(K, V)>, key: K): Option<V> {
    if entries == [] then None
    else if entries[0].0 == key then Some(entries[0].1)
    else Lookup(entries[1..], key)
  }

  function KeysOf<K, V>(entries: seq<(K, V)>): (ks: seq<K>)
    ensures |ks| == |entries| && forall i | 0 <= i < |ks| :: ks[i] == entries[i].0
  {
    seq(|entries|, i requires 0 <= i < |entries| => entries[i].0)
  }

  function LastOf<T>(s: seq<T>, n: nat): seq<T> {
    if |s| <= n then s else s[|s| - n..]
  }

  /** The last `n` elements, or all of them, in their order. */
  lemma LastOfMeans<T>(s: seq<T>, n: nat)
    ensures var l := LastOf(s, n);
            && |l| == (if |s| <= n then |s| else n)
            && forall i | 0 <= i < |l| :: l[i] == s[|s| - |l| + i]
  {
  }

  lemma {:induction false} LookupIff<K, V>(entries: seq<(K, V)>, key: K)
    ensures Lookup(entries, key).Some? <==> key in KeysOf(entries)
    ensures Lookup(entries, key).Some? ==>
              exists i :: 0 <= i < |entries| && entries[i] == (key, Lookup(entries, key).value)
  {
    if entries != [] {
      LookupIff(entries[1..], key);
      assert KeysOf(entries) == [entries[0].0] + KeysOf(entries[1..]);
      if entries[0].0 == key {
        assert entries[0] == (key, Lookup(entries, key).value);
      } else if Lookup(entries, key).Some? {
        var i :| 0 <= i < |entries[1..]| && entries[1..][i] == (key, Lookup(entries[1..], key).value);
        assert entries[i + 1] == (key, Lookup(entries, key).value);
      }
    }
  }

  /** A key that is not among the last `n` lies further back everywhere. */
  lemma NotAmongLast<T>(s: seq<T>, n: nat, key: T)
    requires key !in LastOf(s, n)
    ensures forall i | 0 <= i < |s| && s[i] == key :: |s| - i > n
  {
    assert forall i | 0 <= i < |LastOf(s, n)| :: LastOf(s, n)[i] == s[|s| - |LastOf(s, n)| + i];
    assert forall i | |s| - |LastOf(s, n)| <= i < |s| :: s[i] == LastOf(s, n)[i - (|s| - |LastOf(s, n)|)];
  }

  /** Every stored detail is the server's. */
  predicate Truthful<K, V(==)>(entries: seq<(K, V)>, detail: K -> Option<V>) {
    forall i | 0 <= i < |entries| :: detail(entries[i].0) == Some(entries[i].1)
  }

  /** Equal keys lie more than `n` fetches apart. */
  predicate FarApart<K(==)>(keys: seq<K>, n: nat) {
    forall i, j | 0 <= i < j < |keys| && keys[i] == keys[j] :: j - i > n
  }

  function Evicted<K, V>(entries: seq<(K, V)>): seq<(K, V)> {
    if |entries| >= TRIP_DETAIL_CACHE_SIZE then entries[1..] else entries
  }

  lemma KeysEvicted<K, V>(entries: seq<(K, V)>, fetched: seq<K>, key: K, info: V)
    requires KeysOf(entries) == LastOf(fetched, TRIP_DETAIL_CACHE_SIZE)
    ensures KeysOf(Evicted(entries) + [(key, info)]) == LastOf(fetched + [key], TRIP_DETAIL_CACHE_SIZE)
  {
    var n := TRIP_DETAIL_CACHE_SIZE;
    var next, all := Evicted(entries) + [(key, info)], fetched + [key];
    var last := LastOf(all, n);
    assert |KeysOf(next)| == |last|;
    var shift := if |entries| >= n then 1 else 0;
    forall i | 0 <= i < |last|
      ensures KeysOf(next)[i] == last[i]
    {
      if i < |last| - 1 {
        assert next[i] == entries[i + shift];
        assert KeysOf(entries)[i + shift] == fetched[|fetched| - |entries| + i + shift];
      }
    }
  }

  /** One fetch: the oldest entry makes room when there are two hundred. */
  lemma Fetched<K, V>(entries: seq<(K, V)>, fetched: seq<K>, detail: K -> Option<V>, key: K, info: V)
    requires KeysOf(entries) == LastOf(fetched, TRIP_DETAIL_CACHE_SIZE) && key !in KeysOf(entries)
    requires Truthful(entries, detail) && FarApart(fetched, TRIP_DETAIL_CACHE_SIZE) && detail(key) == Some(info)
    ensures var next := Evicted(entries) + [(key, info)];
            && KeysOf(next) == LastOf(fetched + [key], TRIP_DETAIL_CACHE_SIZE)
            && |next| <= TRIP_DETAIL_CACHE_SIZE && Truthful(next, detail)
    ensures FarApart(fetched + [key], TRIP_DETAIL_CACHE_SIZE)
  {
    NotAmongLast(fetched, TRIP_DETAIL_CACHE_SIZE, key);
    var next, all := Evicted(entries) + [(key, info)], fetched + [key];
    KeysEvicted(entries, fetched, key, info);
    forall i, j | 0 <= i < j < |all| && all[i] == all[j]
      ensures j - i > TRIP_DETAIL_CACHE_SIZE
    {
      if j == |fetched| {
        assert fetched[i] == key;
      }
    }
  }

  /** What a call without any cache would do. */
  function Uncached<K, V>(detail: K -> Option<V>, key: K, reported: bool): Result<Option<V>, FetchError> {
    if !reported then Ok(None)
    else
      match detail(key)
      case None => Err(APIError)
      case Some(info) => Ok(Some(info))
  }

  /** Without a cache: nothing for a vehicle whose trips have no detail, else the server's
      detail, or the error of the request. */
  lemma UncachedMeans<K, V>(detail: K -> Option<V>, key: K, reported: bool)
    ensures Uncached(detail, key, false) == Ok(None)
    ensures Uncached(detail, key, true).Err? <==> detail(key).None?
    ensures detail(key).Some? ==> Uncached(detail, key, true) == Ok(detail(key))
  {
  }

  class Api<K(==), V> {
    /** The dictionary: keys with their details, oldest insertion first. */
    var cache: seq<(K, V)>
    /** All keys fetched so far, in fetch order. */
    ghost var fetched: seq<K>

    /** The cache holds exactly the keys of the last two hundred fetches, in their order,
        each with the server's detail, and none of them twice. */
    ghost predicate Valid(detail: K -> Option<V>)
      reads this
    {
      && KeysOf(cache) == LastOf(fetched, TRIP_DETAIL_CACHE_SIZE)
      && Truthful(cache, detail)
      && FarApart(fetched, TRIP_DETAIL_CACHE_SIZE)
    }

    constructor ()
      ensures cache == [] && fetched == []
      ensures forall detail :: Valid(detail)
    {
      cache, fetched := [], [];
    }

    /** `_get_detailed_trip_info`; `detail` is the server, whose answer for a finished trip
        does not change, and None in it is a request that raises. */
    method GetDetailedTripInfo(detail: K -> Option<V>, key: K, reported: bool)
        returns (r: Result<Option<V>, FetchError>)
      requires Valid(detail)
      modifies this
      ensures Valid(detail) && |cache| <= TRIP_DETAIL_CACHE_SIZE
      ensures r == Uncached(detail, key, reported)
      ensures fetched == if reported && key !in LastOf(old(fetched), TRIP_DETAIL_CACHE_SIZE) && r.Ok?
                         then old(fetched) + [key] else old(fetched)
    {
      if !reported {
        return Ok(None);
      }
      LookupIff(cache, key);
      var hit := Lookup(cache, key);
      if hit.Some? {
        return Ok(hit);
      }
      match detail(key)
      case None => return Err(APIError);
      case Some(info) =>
        ghost var was := cache;
        if |cache| >= TRIP_DETAIL_CACHE_SIZE {
          cache := cache[1..];
        }
        cache := cache + [(key, info)];
        Fetched(was, fetched, detail, key, info);
        hide LastOf, KeysOf, Truthful, FarApart, Lookup;
        fetched := fetched + [key];
        return Ok(Some(info));
    }

    /** Any sequence of calls: every one returns what a call without a cache would. */
    method Calls(detail: K -> Option<V>, calls: seq<(K, bool)>) returns (rs: seq<Result<Option<V>, FetchError>>)
      requires Valid(detail)
      modifies this
      ensures Valid(detail) && |rs| == |calls|
      ensures forall i | 0 <= i < |calls| :: rs[i] == Uncached(detail, calls[i].0, calls[i].1)
    {
      rs := [];
      for n := 0 to |calls|
        invariant Valid(detail) && |rs| == n
        invariant forall i | 0 <= i < n :: rs[i] == Uncached(detail, calls[i].0, calls[i].1)
      {
        var r := GetDetailedTripInfo(detail, calls[n].0, calls[n].1);
        rs := rs + [r];
      }
    }
  }
}
