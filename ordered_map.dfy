/** The `BTreeMap<u64, u64>` operations the dispatcher relies on: the smallest key
    (`first_key_value`), ascending iteration over a key range (`range(..now)`) and
    `retain`. */
module OrderedMaps {

  import opened Ids

  /** The least element of a non-empty finite set of keys, found by induction. */
  lemma {:induction false} Least(keys: set<U64>) returns (least: U64)
    requires keys != {}
    ensures least in keys && forall j :: j in keys ==> least <= j
    decreases keys
  {
    var x :| x in keys;
    if keys == {x} {
      least := x;
    } else {
      var rest := keys - {x};
      var y := Least(rest);
      least := if x <= y then x else y;
      forall j | j in keys
        ensures least <= j
      {
        if j != x {
          assert j in rest;
        }
      }
    }
  }

  lemma LeastExists(keys: set<U64>)
    requires keys != {}
    ensures exists k :: k in keys && forall j :: j in keys ==> k <= j
  {
    var least := Least(keys);
  }

  /** The smallest key of a non-empty key set. */
  function MinKey(keys: set<U64>): (k: U64)
    requires keys != {}
    ensures k in keys && forall j :: j in keys ==> k <= j
  {
    LeastExists(keys);
    var k :| k in keys && forall j :: j in keys ==> k <= j; k
  }

  /** The keys in ascending order, as a `BTreeMap` iterates them. */
  function Ascending(keys: set<U64>): (r: seq<U64>)
    ensures |r| == |keys|
    ensures forall i :: 0 <= i < |r| ==> r[i] in keys
    ensures forall k :: k in keys ==> k in r
    ensures forall i, j :: 0 <= i < j < |r| ==> r[i] < r[j]
    decreases keys
  {
    if keys == {} then []
    else
      var k := MinKey(keys);
      var rest := Ascending(keys - {k});
      assert forall i :: 0 <= i < |rest| ==> k < rest[i];
      [k] + rest
  }

  /** The values stored at `ks`, in the order of `ks`. */
  function ValuesAt(m: map<U64, U64>, ks: seq<U64>): (r: seq<U64>)
    requires forall i :: 0 <= i < |ks| ==> ks[i] in m
    ensures |r| == |ks|
    ensures forall i :: 0 <= i < |ks| ==> r[i] == m[ks[i]]
  {
    if ks == [] then [] else [m[ks[0]]] + ValuesAt(m, ks[1..])
  }

  /** The keys of `m` that `range(..bound)` visits: those strictly below `bound`. */
  function KeysBelow(m: map<U64, U64>, bound: U64): (s: set<U64>)
    ensures forall k :: k in s <==> k in m && k < bound
  {
    set k | k in m && k < bound
  }

  /** `retain(|k, _| *k >= bound)`: the entries whose key is at least `bound`. */
  function RetainFrom(m: map<U64, U64>, bound: U64): (r: map<U64, U64>)
    ensures forall k :: k in r <==> k in m && bound <= k
    ensures forall k :: k in r ==> r[k] == m[k]
  {
    map k | k in m && bound <= k :: m[k]
  }
}
