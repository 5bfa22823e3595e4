/** `HashMap::insert` repeated over a sequence of pairs: the specification of
    every decoder loop that fills a map, the key/value map of one STL file as
    much as the per-file collection a run builds. */
module Maps {

  /** Inserts the pairs of kvs into m, first to last. */
  function InsertAll<K(!new), V>(m: map<K, V>, kvs: seq<(K, V)>): (r: map<K, V>)
    ensures forall k :: k in r <==> k in m || exists i :: 0 <= i < |kvs| && kvs[i].0 == k
    decreases |kvs|
  {
    if kvs == [] then m
    else
      var last := kvs[|kvs| - 1];
      InsertAll(m, kvs[..|kvs| - 1])[last.0 := last.1]
  }

  /** A second update of a key overrides the first. */
  lemma UpdateTwice<K, V>(m: map<K, V>, k: K, a: V, b: V)
    ensures m[k := a][k := b] == m[k := b]
  {
  }

  /** Inserting one more pair is one more map update. */
  lemma InsertAllSnoc<K(!new), V>(m: map<K, V>, kvs: seq<(K, V)>, k: K, v: V)
    ensures InsertAll(m, kvs + [(k, v)]) == InsertAll(m, kvs)[k := v]
  {
    assert (kvs + [(k, v)])[..|kvs|] == kvs;
  }

  /** Last write wins: the value under a key is the one of the last pair
      that carries it. */
  lemma {:induction false} InsertAllLastWins<K(!new), V>(m: map<K, V>, kvs: seq<(K, V)>, i: nat)
    requires i < |kvs|
    requires forall j :: i < j < |kvs| ==> kvs[j].0 != kvs[i].0
    ensures kvs[i].0 in InsertAll(m, kvs) && InsertAll(m, kvs)[kvs[i].0] == kvs[i].1
    decreases |kvs|
  {
    if i < |kvs| - 1 {
      InsertAllLastWins(m, kvs[..|kvs| - 1], i);
    }
  }

  /** A key that no pair carries keeps the value it had (or stays absent). */
  lemma {:induction false} InsertAllKeeps<K(!new), V>(m: map<K, V>, kvs: seq<(K, V)>, k: K)
    requires forall j :: 0 <= j < |kvs| ==> kvs[j].0 != k
    ensures k in InsertAll(m, kvs) <==> k in m
    ensures k in m ==> InsertAll(m, kvs)[k] == m[k]
    decreases |kvs|
  {
    if kvs != [] {
      InsertAllKeeps(m, kvs[..|kvs| - 1], k);
    }
  }

  /** Every key of the result keeps its old value or holds the value some
      pair brought with it. */
  lemma {:induction false} InsertAllFrom<K(!new), V>(m: map<K, V>, kvs: seq<(K, V)>, k: K)
    requires k in InsertAll(m, kvs)
    ensures (k in m && InsertAll(m, kvs)[k] == m[k]) ||
            exists i :: 0 <= i < |kvs| && kvs[i] == (k, InsertAll(m, kvs)[k])
    decreases |kvs|
  {
    if kvs != [] {
      var n := |kvs| - 1;
      if kvs[n].0 == k {
        assert kvs[n] == (k, InsertAll(m, kvs)[k]);
      } else {
        InsertAllFrom(m, kvs[..n], k);
        if !(k in m && InsertAll(m, kvs[..n])[k] == m[k]) {
          var i :| 0 <= i < n && kvs[..n][i] == (k, InsertAll(m, kvs[..n])[k]);
          assert kvs[i] == (k, InsertAll(m, kvs)[k]);
        }
      }
    }
  }
}
