/** An insertion-ordered map as JavaScript's `Map` and plain objects keep it:
    a sequence of entries in which a key, once present, keeps its position
    when its value is overwritten, and a new key is appended. */
module OrderedMap {
  import opened Wrappers

  type Assoc<K, V> = seq<(K, V)>

  function Keys<K, V>(m: Assoc<K, V>): (ks: seq<K>)
    ensures |ks| == |m|
    ensures forall i :: 0 <= i < |m| ==> ks[i] == m[i].0
  {
    seq(|m|, i requires 0 <= i < |m| => m[i].0)
  }

  predicate UniqueKeys<K(==), V>(m: Assoc<K, V>) {
    forall i, j :: 0 <= i < j < |m| ==> m[i].0 != m[j].0
  }

  /** Position of the first entry with key `k`. */
  function Find<K(==), V>(m: Assoc<K, V>, k: K): (r: Option<nat>)
    ensures r.None? <==> k !in Keys(m)
    ensures r.Some? ==> r.value < |m| && m[r.value].0 == k
    ensures r.Some? ==> forall j :: 0 <= j < r.value ==> m[j].0 != k
  {
    if |m| == 0 then None
    else if m[0].0 == k then Some(0)
    else
      assert Keys(m) == [m[0].0] + Keys(m[1..]);
      match Find(m[1..], k)
      case None => None
      case Some(i) => Some(i + 1)
  }

  /** `m.get(k)`. */
  function Get<K(==), V>(m: Assoc<K, V>, k: K): (r: Option<V>)
    ensures r.None? <==> k !in Keys(m)
  {
    match Find(m, k)
    case None => None
    case Some(i) => Some(m[i].1)
  }

  /** `m.set(k, v)`: an existing key is updated where it stands, a new key is
      appended at the end. */
  function Put<K(==), V>(m: Assoc<K, V>, k: K, v: V): (r: Assoc<K, V>)
    ensures k in Keys(m) ==> Keys(r) == Keys(m)
    ensures k !in Keys(m) ==> r == m + [(k, v)]
    ensures UniqueKeys(m) ==> UniqueKeys(r)
  {
    match Find(m, k)
    case None => m + [(k, v)]
    case Some(i) =>
      assert Keys(m[i := (k, v)]) == Keys(m);
      m[i := (k, v)]
  }

  lemma PutGet<K, V>(m: Assoc<K, V>, k: K, v: V, k': K)
    ensures Get(Put(m, k, v), k') == if k' == k then Some(v) else Get(m, k')
  {
    if k !in Keys(m) {
      PutGetAppended(m, k, v, k');
    } else {
      PutGetUpdated(m, k, v, k');
    }
  }

  /** `Find` is characterised by its result: the first index holding the key. */
  lemma FindAt<K, V>(m: Assoc<K, V>, k: K, i: nat)
    requires i < |m| && m[i].0 == k
    requires forall j :: 0 <= j < i ==> m[j].0 != k
    ensures Find(m, k) == Some(i)
  {
    assert Keys(m)[i] == k;
  }

  lemma PutGetAppended<K, V>(m: Assoc<K, V>, k: K, v: V, k': K)
    requires k !in Keys(m)
    ensures Get(Put(m, k, v), k') == if k' == k then Some(v) else Get(m, k')
  {
    var r := Put(m, k, v);
    assert r == m + [(k, v)];
    if k' == k {
      forall j | 0 <= j < |m|
        ensures r[j].0 != k
      {
        assert Keys(m)[j] == m[j].0;
      }
      FindAt(r, k, |m|);
    } else if k' in Keys(m) {
      var i := Find(m, k').value;
      FindAt(r, k', i);
    } else {
      assert Keys(r) == Keys(m) + [k];
    }
  }

  lemma PutGetUpdated<K, V>(m: Assoc<K, V>, k: K, v: V, k': K)
    requires k in Keys(m)
    ensures Get(Put(m, k, v), k') == if k' == k then Some(v) else Get(m, k')
  {
    var p := Find(m, k).value;
    var r := Put(m, k, v);
    assert r == m[p := (k, v)];
    if k' == k {
      FindAt(r, k, p);
    } else if k' in Keys(m) {
      var q := Find(m, k').value;
      FindAt(r, k', q);
    }
  }

  /** `m.delete(k)`: every entry with key `k` is dropped, the others keep
      their order. */
  function Remove<K(==), V>(m: Assoc<K, V>, k: K): (r: Assoc<K, V>)
    ensures |r| <= |m|
    ensures k !in Keys(r)
    ensures k !in Keys(m) ==> r == m
  {
    if |m| == 0 then []
    else
      var rest := Remove(m[1..], k);
      KeysCons(m, k);
      if m[0].0 == k then rest
      else
        KeysOfCons(m[0], rest, k);
        assert k !in Keys(m) ==> m == [m[0]] + m[1..];
        [m[0]] + rest
  }

  lemma KeysOfCons<K, V>(h: (K, V), t: Assoc<K, V>, k: K)
    ensures k in Keys([h] + t) <==> k == h.0 || k in Keys(t)
  {
    var m := [h] + t;
    assert m[0] == h && m[1..] == t;
    KeysCons(m, k);
  }

  /** On a map with one entry per key, deleting a present key shortens it by
      exactly one and keeps the keys unique. */
  lemma {:induction false} RemoveUnique<K, V>(m: Assoc<K, V>, k: K)
    requires UniqueKeys(m)
    ensures UniqueKeys(Remove(m, k))
    ensures k in Keys(m) ==> |Remove(m, k)| == |m| - 1
  {
    if |m| > 0 {
      var tail := m[1..];
      var rest := Remove(tail, k);
      KeysCons(m, k);
      UniqueTail(m);
      RemoveUnique(tail, k);
      if m[0].0 == k {
        assert Remove(m, k) == rest;
        assert k !in Keys(tail) by {
          UniqueAt(m, 0);
        }
      } else {
        assert Remove(m, k) == [m[0]] + rest;
        assert m[0].0 !in Keys(rest) by {
          UniqueAt(m, 0);
          RemoveKeysSub(tail, k, m[0].0);
        }
        UniqueCons(m[0], rest);
      }
    }
  }

  /** Deleting the key of an entry that sits between two maps without that
      key leaves the two maps joined. */
  lemma {:induction false} RemoveMiddle<K, V>(a: Assoc<K, V>, e: (K, V), b: Assoc<K, V>)
    requires e.0 !in Keys(a) && e.0 !in Keys(b)
    ensures Remove(a + [e] + b, e.0) == a + b
    decreases |a|
  {
    if |a| == 0 {
      assert a + [e] + b == [e] + b && a + b == b;
      RemoveCons(e, b, e.0);
    } else {
      assert e.0 !in Keys(a[1..]) && a[0].0 != e.0 by {
        KeysCons(a, e.0);
      }
      RemoveMiddle(a[1..], e, b);
      RemoveMiddleStep(a[0], a[1..], e, b);
      assert a == [a[0]] + a[1..];
    }
  }

  lemma RemoveMiddleStep<K, V>(h: (K, V), a: Assoc<K, V>, e: (K, V), b: Assoc<K, V>)
    requires h.0 != e.0
    requires Remove(a + [e] + b, e.0) == a + b
    ensures Remove([h] + a + [e] + b, e.0) == [h] + a + b
  {
    ConsAssoc(h, a + [e], b);
    ConsAssoc(h, a, [e]);
    ConsAssoc(h, a, b);
    RemoveCons(h, a + [e] + b, e.0);
  }

  lemma ConsAssoc<T>(h: T, a: seq<T>, b: seq<T>)
    ensures [h] + a + b == [h] + (a + b)
  {
  }

  lemma RemoveCons<K, V>(h: (K, V), t: Assoc<K, V>, k: K)
    ensures Remove([h] + t, k) == if h.0 == k then Remove(t, k) else [h] + Remove(t, k)
  {
    var m := [h] + t;
    assert m[0] == h && m[1..] == t;
  }

  /** `Remove` looks at the first entry, then deletes from the rest. */
  lemma RemoveFirst<K, V>(m: Assoc<K, V>, k: K)
    requires |m| > 0
    ensures Remove(m, k) == if m[0].0 == k then Remove(m[1..], k) else [m[0]] + Remove(m[1..], k)
  {
  }

  /** The keys of a non-empty map: the first entry's, then the rest's. */
  lemma KeysCons<K, V>(m: Assoc<K, V>, k: K)
    requires |m| > 0
    ensures k in Keys(m) <==> k == m[0].0 || k in Keys(m[1..])
  {
    assert Keys(m) == [m[0].0] + Keys(m[1..]);
  }

  lemma UniqueTail<K, V>(m: Assoc<K, V>)
    requires UniqueKeys(m) && |m| > 0
    ensures UniqueKeys(m[1..])
  {
    forall i, j | 0 <= i < j < |m| - 1
      ensures m[1..][i].0 != m[1..][j].0
    {
      assert m[1..][i] == m[i + 1] && m[1..][j] == m[j + 1];
    }
  }

  lemma UniqueCons<K, V>(e: (K, V), m: Assoc<K, V>)
    requires UniqueKeys(m) && e.0 !in Keys(m)
    ensures UniqueKeys([e] + m)
  {
    var r := [e] + m;
    forall i, j | 0 <= i < j < |r|
      ensures r[i].0 != r[j].0
    {
      assert r[j] == m[j - 1];
      if i > 0 {
        assert r[i] == m[i - 1];
      } else {
        assert Keys(m)[j - 1] == m[j - 1].0;
      }
    }
  }

  /** Deleting never introduces a key. */
  lemma {:induction false} RemoveKeysSub<K, V>(m: Assoc<K, V>, k: K, k': K)
    requires k' !in Keys(m)
    ensures k' !in Keys(Remove(m, k))
  {
    if |m| > 0 {
      KeysCons(m, k');
      RemoveKeysSub(m[1..], k, k');
      RemoveFirst(m, k);
      if m[0].0 != k {
        KeysOfCons(m[0], Remove(m[1..], k), k');
      }
    }
  }

  lemma {:induction false} RemoveGet<K, V>(m: Assoc<K, V>, k: K, k': K)
    ensures Get(Remove(m, k), k') == if k' == k then None else Get(m, k')
  {
    if |m| > 0 && k' != k {
      RemoveGet(m[1..], k, k');
      RemoveFirst(m, k);
      if m[0].0 != k {
        var r := Remove(m, k);
        assert r[1..] == Remove(m[1..], k);
        if m[0].0 != k' {
          FindTail(r, k');
          FindTail(m, k');
        }
      } else if m[0].0 != k' {
        FindTail(m, k');
      }
    }
  }

  /** Looking a key up past a non-matching first entry. */
  lemma FindTail<K, V>(m: Assoc<K, V>, k: K)
    requires |m| > 0 && m[0].0 != k
    ensures Get(m, k) == Get(m[1..], k)
  {
    assert Keys(m) == [m[0].0] + Keys(m[1..]);
  }

  /** The set of keys present. */
  function KeySet<K(!new), V>(m: Assoc<K, V>): (ks: set<K>)
    ensures forall k :: k in ks <==> k in Keys(m)
  {
    set i | 0 <= i < |m| :: m[i].0
  }

  /** With one entry per key, the number of entries is the number of keys
      (JavaScript's `Map.prototype.size`). */
  lemma {:induction false} UniqueKeysSize<K(!new), V>(m: Assoc<K, V>)
    requires UniqueKeys(m)
    ensures |KeySet(m)| == |m|
  {
    if |m| > 0 {
      assert Keys(m) == [m[0].0] + Keys(m[1..]);
      assert UniqueKeys(m[1..]);
      UniqueKeysSize(m[1..]);
      assert m[0].0 !in Keys(m[1..]);
      assert KeySet(m) == {m[0].0} + KeySet(m[1..]);
    }
  }

  /** The entry found for a key is the first one carrying it. */
  lemma GetFirst<K, V>(a: Assoc<K, V>, k: K, v: V, b: Assoc<K, V>)
    requires k !in Keys(a)
    ensures Get(a + [(k, v)] + b, k) == Some(v)
  {
    var m := a + [(k, v)] + b;
    var f := Find(m, k);
    assert m[|a|] == (k, v);
    assert f.Some? && f.value <= |a|;
    assert forall j :: 0 <= j < |a| ==> m[j] == a[j];
  }

  /** A suffix taken at `i` is the entry at `i` followed by the rest. */
  lemma SplitAt<T>(a: seq<T>, s: seq<T>, i: nat)
    requires i < |s|
    ensures a + s[i..] == a + [s[i]] + s[i + 1..]
  {
    assert s[i..] == [s[i]] + s[i + 1..];
  }

  /** In a map with one entry per key, no other entry carries the key of
      entry `i`. */
  lemma UniqueAt<K, V>(m: Assoc<K, V>, i: nat)
    requires UniqueKeys(m) && i < |m|
    ensures m[i].0 !in Keys(m[..i]) && m[i].0 !in Keys(m[i + 1..])
  {
    forall j | 0 <= j < i ensures Keys(m[..i])[j] != m[i].0 {
      assert m[..i][j] == m[j];
    }
    var tail := m[i + 1..];
    forall j | 0 <= j < |tail| ensures Keys(tail)[j] != m[i].0 {
      assert tail[j] == m[i + 1 + j];
    }
  }
}
