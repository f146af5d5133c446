/** `indexmap::IndexMap`: a map that remembers the order in which its keys
    were first inserted. */
module IndexMaps {
  import opened Wrappers

  datatype IndexMap<K(==,!new), V> = IndexMap(entries: seq<(K, V)>)
  {
    /** No key appears twice. */
    predicate Valid()
    {
      forall i, j :: 0 <= i < j < |entries| ==> entries[i].0 != entries[j].0
    }

    function Keys(): (ks: seq<K>)
      ensures |ks| == |entries|
    {
      seq(|entries|, i requires 0 <= i < |entries| => entries[i].0)
    }

    function Get(k: K): Option<V>
    {
      GetIn(entries, k)
    }

    /** `IndexMap::insert`: a present key keeps its position and takes the new
        value; a new key goes at the end. */
    function Insert(k: K, v: V): (r: IndexMap<K, V>)
      requires Valid()
      ensures r.Valid()
      ensures r.Get(k) == Some(v)
      ensures forall k' :: k' != k ==> r.Get(k') == Get(k')
      ensures k in Keys() ==> r.Keys() == Keys()
      ensures k !in Keys() ==> r.Keys() == Keys() + [k]
    {
      InsertInKeys(entries, k, v);
      InsertInValid(entries, k, v);
      InsertInGet(entries, k, v);
      IndexMap(InsertIn(entries, k, v))
    }
  }

  function InsertIn<K(==,!new), V>(entries: seq<(K, V)>, k: K, v: V): seq<(K, V)>
  {
    if entries == [] then [(k, v)]
    else if entries[0].0 == k then [(k, v)] + entries[1..]
    else [entries[0]] + InsertIn(entries[1..], k, v)
  }

  lemma {:induction false} InsertInKeys<K(!new), V>(entries: seq<(K, V)>, k: K, v: V)
    ensures var m, r := IndexMap(entries), IndexMap(InsertIn(entries, k, v));
      && (k in m.Keys() ==> r.Keys() == m.Keys())
      && (k !in m.Keys() ==> r.Keys() == m.Keys() + [k])
  {
    var m, r := IndexMap(entries), IndexMap(InsertIn(entries, k, v));
    if entries == [] {
      assert r.Keys() == [k];
    } else if entries[0].0 == k {
      assert m.Keys()[0] == k;
      assert forall i :: 0 <= i < |entries| ==> r.entries[i].0 == entries[i].0;
      assert r.Keys() == m.Keys();
    } else {
      var tail, rt := IndexMap(entries[1..]), IndexMap(InsertIn(entries[1..], k, v));
      InsertInKeys(entries[1..], k, v);
      assert m.Keys() == [entries[0].0] + tail.Keys();
      assert r.Keys() == [entries[0].0] + rt.Keys();
    }
  }

  lemma {:induction false} InsertInValid<K(!new), V>(entries: seq<(K, V)>, k: K, v: V)
    requires IndexMap(entries).Valid()
    ensures IndexMap(InsertIn(entries, k, v)).Valid()
  {
    var r := InsertIn(entries, k, v);
    if entries == [] {
    } else if entries[0].0 == k {
      assert forall i :: 0 <= i < |entries| ==> r[i].0 == entries[i].0;
    } else {
      var tail, rt := IndexMap(entries[1..]), IndexMap(InsertIn(entries[1..], k, v));
      InsertInValid(entries[1..], k, v);
      InsertInKeys(entries[1..], k, v);
      assert entries[0].0 !in tail.Keys();
      assert entries[0].0 !in rt.Keys();
      forall i, j | 0 <= i < j < |r|
        ensures r[i].0 != r[j].0
      {
        assert r[j].0 == rt.Keys()[j - 1];
        if i > 0 {
          assert r[i].0 == rt.Keys()[i - 1];
        }
      }
    }
  }

  lemma {:induction false} InsertInGet<K(!new), V>(entries: seq<(K, V)>, k: K, v: V)
    ensures GetIn(InsertIn(entries, k, v), k) == Some(v)
    ensures forall k' :: k' != k ==> GetIn(InsertIn(entries, k, v), k') == GetIn(entries, k')
  {
    var r := InsertIn(entries, k, v);
    if entries == [] {
    } else if entries[0].0 == k {
      assert r[1..] == entries[1..];
    } else {
      InsertInGet(entries[1..], k, v);
      assert r[1..] == InsertIn(entries[1..], k, v);
    }
  }

  function GetIn<K(==,!new), V>(entries: seq<(K, V)>, k: K): (r: Option<V>)
    ensures r.None? <==> forall i :: 0 <= i < |entries| ==> entries[i].0 != k
  {
    if entries == [] then None
    else if entries[0].0 == k then Some(entries[0].1)
    else GetIn(entries[1..], k)
  }

  /** Successive `insert` calls, one per pair, in order. */
  function InsertAll<K(==,!new), V>(m: IndexMap<K, V>, pairs: seq<(K, V)>): (r: IndexMap<K, V>)
    requires m.Valid()
    ensures r.Valid()
    decreases |pairs|
  {
    if pairs == [] then m else InsertAll(m.Insert(pairs[0].0, pairs[0].1), pairs[1..])
  }
  lemma {:induction false} InsertAllFresh<K(!new), V>(m: IndexMap<K, V>, pairs: seq<(K, V)>)
    requires m.Valid() && IndexMap(pairs).Valid()
    requires forall i :: 0 <= i < |pairs| ==> pairs[i].0 !in m.Keys()
    ensures InsertAll(m, pairs).Keys() == m.Keys() + IndexMap(pairs).Keys()
    ensures forall i :: 0 <= i < |pairs| ==> InsertAll(m, pairs).Get(pairs[i].0) == Some(pairs[i].1)
    decreases |pairs|
  {
    if pairs != [] {
      var m' := m.Insert(pairs[0].0, pairs[0].1);
      var rest := pairs[1..];
      assert IndexMap(pairs).Keys() == [pairs[0].0] + IndexMap(rest).Keys();
      assert forall i :: 0 <= i < |rest| ==> rest[i].0 != pairs[0].0 && rest[i].0 !in m.Keys();
      InsertAllFresh(m', rest);
      forall i | 0 <= i < |pairs|
        ensures InsertAll(m, pairs).Get(pairs[i].0) == Some(pairs[i].1)
      {
        if i == 0 {
          InsertAllKeeps(m', rest, pairs[0].0);
        } else {
          assert pairs[i] == rest[i - 1];
        }
      }
    }
  }
  lemma {:induction false} InsertAllKeeps<K(!new), V>(m: IndexMap<K, V>, pairs: seq<(K, V)>, k: K)
    requires m.Valid()
    requires forall i :: 0 <= i < |pairs| ==> pairs[i].0 != k
    ensures InsertAll(m, pairs).Get(k) == m.Get(k)
    decreases |pairs|
  {
    if pairs != [] {
      InsertAllKeeps(m.Insert(pairs[0].0, pairs[0].1), pairs[1..], k);
    }
  }
  function EmptyMap<K(==,!new), V>(): (m: IndexMap<K, V>)
    ensures m.Valid() && m.Keys() == []
  {
    IndexMap([])
  }
}
