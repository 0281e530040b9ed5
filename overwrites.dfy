/** A sequence of map inserts applied in order, the shape shared by the source's
    loops that store records one by one (`HashSet`/`BTreeMap::insert`, or writing a
    file per record): a later insert at the same key overwrites an earlier one. */
module Overwrites {

  /** `m` after inserting every pair of `kvs`, first to last. */
  function Overwrite<K(==), V>(m: map<K, V>, kvs: seq<(K, V)>): map<K, V>
    decreases |kvs|
  {
    if kvs == [] then m
    else
      var last := kvs[|kvs| - 1];
      Overwrite(m, kvs[..|kvs| - 1])[last.0 := last.1]
  }

  /** The keys written by `kvs`. */
  function KeysOf<K(==), V>(kvs: seq<(K, V)>): set<K> {
    set i | 0 <= i < |kvs| :: kvs[i].0
  }

  /** Index `j` holds the last write to its key. */
  predicate LastWriteAt<K(==), V>(kvs: seq<(K, V)>, j: int)
    requires 0 <= j < |kvs|
  {
    forall i :: j < i < |kvs| ==> kvs[i].0 != kvs[j].0
  }

  /** Overwriting is a union whose right operand depends only on `kvs`. */
  lemma {:induction false} OverwriteIsUnion<K, V>(m: map<K, V>, kvs: seq<(K, V)>)
    ensures Overwrite(m, kvs) == m + Overwrite(map[], kvs)
    decreases |kvs|
  {
    if kvs != [] {
      var last := kvs[|kvs| - 1];
      var init := kvs[..|kvs| - 1];
      OverwriteIsUnion(m, init);
      var a := Overwrite(map[], init);
      assert (m + a)[last.0 := last.1] == m + a[last.0 := last.1];
    }
  }

  /** Inserting the same pairs a second time changes nothing. */
  lemma OverwriteIdempotent<K, V>(m: map<K, V>, kvs: seq<(K, V)>)
    ensures Overwrite(Overwrite(m, kvs), kvs) == Overwrite(m, kvs)
  {
    var a := Overwrite(map[], kvs);
    OverwriteIsUnion(m, kvs);
    OverwriteIsUnion(m + a, kvs);
    assert (m + a) + a == m + a;
  }

  /** The keys afterwards are the old keys and the written ones. */
  lemma {:induction false} OverwriteKeys<K, V>(m: map<K, V>, kvs: seq<(K, V)>)
    ensures Overwrite(m, kvs).Keys == m.Keys + KeysOf(kvs)
    decreases |kvs|
  {
    if kvs != [] {
      var init := kvs[..|kvs| - 1];
      OverwriteKeys(m, init);
      assert KeysOf(kvs) == KeysOf(init) + {kvs[|kvs| - 1].0} by {
        forall k | k in KeysOf(kvs) ensures k in KeysOf(init) + {kvs[|kvs| - 1].0} {
          var i :| 0 <= i < |kvs| && kvs[i].0 == k;
          if i < |kvs| - 1 { assert init[i] == kvs[i]; }
        }
        forall k | k in KeysOf(init) ensures k in KeysOf(kvs) {
          var i :| 0 <= i < |init| && init[i].0 == k;
          assert kvs[i] == init[i];
        }
      }
    }
  }

  /** A key no pair writes keeps its old entry (or its absence). */
  lemma {:induction false} OverwriteUnlisted<K, V>(m: map<K, V>, kvs: seq<(K, V)>, k: K)
    requires forall i :: 0 <= i < |kvs| ==> kvs[i].0 != k
    ensures k in Overwrite(m, kvs) <==> k in m
    ensures k in m ==> Overwrite(m, kvs)[k] == m[k]
    decreases |kvs|
  {
    if kvs != [] {
      var init := kvs[..|kvs| - 1];
      assert forall i :: 0 <= i < |init| ==> init[i] == kvs[i];
      OverwriteUnlisted(m, init, k);
    }
  }

  /** A written key holds the value of its last write, whatever `m` held. */
  lemma {:induction false} OverwriteLastWins<K, V>(m: map<K, V>, kvs: seq<(K, V)>, j: int)
    requires 0 <= j < |kvs| && LastWriteAt(kvs, j)
    ensures kvs[j].0 in Overwrite(m, kvs) && Overwrite(m, kvs)[kvs[j].0] == kvs[j].1
    decreases |kvs|
  {
    var init := kvs[..|kvs| - 1];
    if j < |kvs| - 1 {
      assert forall i :: 0 <= i < |init| ==> init[i] == kvs[i];
      OverwriteLastWins(m, init, j);
    }
  }

  /** Every written key holds the value of some pair with that key. */
  lemma {:induction false} OverwriteWrittenBy<K, V>(m: map<K, V>, kvs: seq<(K, V)>, k: K)
    requires k in KeysOf(kvs)
    ensures k in Overwrite(m, kvs)
    ensures exists j :: 0 <= j < |kvs| && kvs[j].0 == k && Overwrite(m, kvs)[k] == kvs[j].1
    decreases |kvs|
  {
    var n := |kvs|;
    var init := kvs[..n - 1];
    if kvs[n - 1].0 != k {
      var i :| 0 <= i < n && kvs[i].0 == k;
      assert init[i] == kvs[i];
      OverwriteWrittenBy(m, init, k);
      var j :| 0 <= j < |init| && init[j].0 == k && Overwrite(m, init)[k] == init[j].1;
      assert kvs[j] == init[j];
    } else {
      assert kvs[n - 1].0 == k && Overwrite(m, kvs)[k] == kvs[n - 1].1;
    }
  }

  /** Storing every record under its own key, as given by `key`, keeps a map in which
      each record sits under its own key. */
  lemma {:induction false} OverwriteKeepsKeyed<K, V>(m: map<K, V>, kvs: seq<(K, V)>, key: V -> K)
    requires forall k :: k in m ==> key(m[k]) == k
    requires forall i :: 0 <= i < |kvs| ==> key(kvs[i].1) == kvs[i].0
    ensures forall k :: k in Overwrite(m, kvs) ==> key(Overwrite(m, kvs)[k]) == k
    decreases |kvs|
  {
    if kvs != [] {
      var init := kvs[..|kvs| - 1];
      assert forall i :: 0 <= i < |init| ==> init[i] == kvs[i];
      OverwriteKeepsKeyed(m, init, key);
    }
  }
}
