/**
 * A JavaScript `Map`: a dictionary that also remembers the order in which its
 * keys were first inserted, so that `Array.from(m.values())` lists the values
 * in that order. `set` on a key already present replaces the value in place;
 * `delete` removes the key, and a later `set` of it appends it again.
 */
module OrderedMap {
  import opened Wrappers

  /** The map's keys are strings (socket ids, in this program). */
  type K = string

  datatype OMap<V> = OMap(keys: seq<K>, entries: map<K, V>)

  /** The keys are listed once each, and they are exactly the dictionary's keys. */
  ghost predicate Valid<V>(m: OMap<V>)
  {
    && (forall i, j :: 0 <= i < j < |m.keys| ==> m.keys[i] != m.keys[j])
    && (forall k :: k in m.entries <==> k in m.keys)
  }

  /** The position of `x` in `s`. */
  function IndexOf(s: seq<K>, x: K): (i: nat)
    requires x in s
    ensures i < |s| && s[i] == x
    ensures forall j :: 0 <= j < i ==> s[j] != x
  {
    if s[0] == x then 0 else 1 + IndexOf(s[1..], x)
  }

  /** `s` without `x`, the rest in the same order. */
  function Without(s: seq<K>, x: K): (r: seq<K>)
    ensures forall y :: y in r <==> y in s && y != x
    ensures x !in s ==> r == s
  {
    if s == [] then []
    else if s[0] == x then Without(s[1..], x)
    else [s[0]] + Without(s[1..], x)
  }

  function Empty<V>(): (m: OMap<V>)
    ensures Valid(m) && m.entries == map[]
  {
    OMap([], map[])
  }

  /** `m.get(k)`. */
  function Get<V>(m: OMap<V>, k: K): (r: Option<V>)
    ensures r.Some? <==> k in m.entries
    ensures r.Some? ==> r.value == m.entries[k]
  {
    if k in m.entries then Some(m.entries[k]) else None
  }

  /**
   * `m.set(k, v)`: `k` now maps to `v` and nothing else changes; a key already
   * present keeps its place, a new key goes last.
   */
  function Set<V>(m: OMap<V>, k: K, v: V): (r: OMap<V>)
    requires Valid(m)
    ensures Valid(r)
    ensures r.entries == m.entries[k := v]
    ensures k in m.entries ==> r.keys == m.keys
    ensures k !in m.entries ==> r.keys == m.keys + [k]
  {
    if k in m.entries then OMap(m.keys, m.entries[k := v])
    else OMap(m.keys + [k], m.entries[k := v])
  }

  lemma {:induction false} WithoutDistinct(s: seq<K>, x: K)
    requires forall i, j :: 0 <= i < j < |s| ==> s[i] != s[j]
    ensures forall i, j :: 0 <= i < j < |Without(s, x)| ==> Without(s, x)[i] != Without(s, x)[j]
  {
    if s != [] {
      var tail := s[1..];
      WithoutDistinct(tail, x);
      if s[0] != x {
        var r, w := Without(s, x), Without(tail, x);
        forall i, j | 0 <= i < j < |r| ensures r[i] != r[j] {
          assert r[j] == w[j - 1] && w[j - 1] in w;
          if i > 0 {
            assert r[i] == w[i - 1];
          }
        }
      }
    }
  }

  /** `m.delete(k)`: `k` is gone, every other entry and the order of the rest stay. */
  function Delete<V>(m: OMap<V>, k: K): (r: OMap<V>)
    requires Valid(m)
    ensures Valid(r)
    ensures r.entries == m.entries - {k}
    ensures r.keys == Without(m.keys, k)
    ensures k !in m.entries ==> r == m
  {
    WithoutDistinct(m.keys, k);
    OMap(Without(m.keys, k), m.entries - {k})
  }

  /** `Array.from(m.values())`: the values, in insertion order of their keys. */
  function Values<V>(m: OMap<V>): (vs: seq<V>)
    requires Valid(m)
    ensures |vs| == |m.keys| == |m.entries|
    ensures forall i :: 0 <= i < |vs| ==> vs[i] == m.entries[m.keys[i]]
  {
    DistinctCard(m.keys, m.entries);
    seq(|m.keys|, i requires 0 <= i < |m.keys| => m.entries[m.keys[i]])
  }

  /** The listed values are exactly the map's values. */
  lemma ValuesAreEntries<V>(m: OMap<V>)
    requires Valid(m)
    ensures forall v :: v in Values(m) <==> v in m.entries.Values
  {
  }

  lemma DistinctCard<V>(keys: seq<K>, entries: map<K, V>)
    requires forall i, j :: 0 <= i < j < |keys| ==> keys[i] != keys[j]
    requires forall k :: k in entries <==> k in keys
    ensures |entries| == |keys|
  {
    assert entries.Keys == set k | k in keys;
    DistinctSeqCard(keys);
  }

  lemma {:induction false} DistinctSeqCard(s: seq<K>)
    requires forall i, j :: 0 <= i < j < |s| ==> s[i] != s[j]
    ensures |set k | k in s| == |s|
  {
    if s != [] {
      DistinctSeqCard(s[1..]);
      assert (set k | k in s) == (set k | k in s[1..]) + {s[0]};
    }
  }

  /** Removing a value keeps the relative order of everything else. */
  lemma {:induction false} WithoutKeepsOrder(s: seq<K>, x: K, a: K, b: K)
    requires forall i, j :: 0 <= i < j < |s| ==> s[i] != s[j]
    requires a in s && b in s && a != x && b != x
    ensures a in Without(s, x) && b in Without(s, x)
    ensures IndexOf(Without(s, x), a) < IndexOf(Without(s, x), b) <==> IndexOf(s, a) < IndexOf(s, b)
  {
    if s[0] != a && s[0] != b {
      WithoutKeepsOrder(s[1..], x, a, b);
    }
  }

  /** Setting a new key lists its value last. */
  lemma SetNewValues<V>(m: OMap<V>, k: K, v: V)
    requires Valid(m) && k !in m.entries
    ensures Values(Set(m, k, v)) == Values(m) + [v]
  {
  }

  /** Setting a present key replaces its value where it stands. */
  lemma SetPresentValues<V>(m: OMap<V>, k: K, v: V)
    requires Valid(m) && k in m.entries
    ensures Values(Set(m, k, v)) == Values(m)[IndexOf(m.keys, k) := v]
  {
    var r := Set(m, k, v);
    var before, after := Values(m), Values(r);
    var i := IndexOf(m.keys, k);
    var expected := before[i := v];
    assert r.keys == m.keys && m.keys[i] == k;
    forall j | 0 <= j < |m.keys| ensures after[j] == expected[j] {
      if j != i {
        assert m.keys[j] != k;
        assert after[j] == r.entries[m.keys[j]] == m.entries[m.keys[j]];
      }
    }
    assert |after| == |expected|;
  }

  /** One update of a sequence of `set` and `delete` calls. */
  datatype Update<V> = Put(key: K, value: V) | Drop(key: K)

  function Replay<V>(m: OMap<V>, us: seq<Update<V>>): (r: OMap<V>)
    requires Valid(m)
    ensures Valid(r)
    decreases |us|
  {
    if us == [] then m
    else
      var prev := Replay(m, us[..|us| - 1]);
      match us[|us| - 1]
      case Put(k, v) => Set(prev, k, v)
      case Drop(k) => Delete(prev, k)
  }

  /** Some `Put` of `k` in `us` is not followed by a `Drop` of `k`. */
  ghost predicate PutLast<V>(us: seq<Update<V>>, k: K)
  {
    exists i :: 0 <= i < |us| && us[i].Put? && us[i].key == k &&
      forall j :: i < j < |us| ==> us[j] != Drop(k)
  }

  /** How `PutLast` changes when one more update is made. */
  lemma PutLastSnoc<V>(us: seq<Update<V>>, u: Update<V>, k: K)
    ensures u.key == k ==> (PutLast(us + [u], k) <==> u.Put?)
    ensures u.key != k ==> (PutLast(us + [u], k) <==> PutLast(us, k))
  {
    var vs := us + [u];
    if u.key == k && u.Put? {
      assert vs[|us|] == u;
    }
    if u.key != k && PutLast(us, k) {
      var i :| 0 <= i < |us| && us[i].Put? && us[i].key == k &&
        forall j :: i < j < |us| ==> us[j] != Drop(k);
      assert vs[i] == us[i];
    }
    if PutLast(vs, k) && u.key != k {
      var i :| 0 <= i < |vs| && vs[i].Put? && vs[i].key == k &&
        forall j :: i < j < |vs| ==> vs[j] != Drop(k);
      assert i < |us| && vs[i] == us[i];
      forall j | i < j < |us| ensures us[j] != Drop(k) {
        assert us[j] == vs[j];
      }
    }
  }

  /**
   * After any run of `set` and `delete` calls from an empty map, the map holds
   * exactly the keys that were set and not deleted since.
   */
  lemma {:induction false} ReplayKeys<V>(us: seq<Update<V>>, k: K)
    ensures k in Replay(Empty(), us).entries <==> PutLast(us, k)
    decreases |us|
  {
    if us != [] {
      var n := |us| - 1;
      ReplayKeys(us[..n], k);
      PutLastSnoc(us[..n], us[n], k);
      assert us[..n] + [us[n]] == us;
    }
  }
}
