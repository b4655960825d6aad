/** Building a language-to-label map from a sequence of (language, label) pairs, the two
    ways the transformers do it: plain assignment, where a later pair overwrites an earlier
    one, and `setdefault`, where a key once present is never overwritten. */
module LabelMaps {

  /** The keys the pairs mention. */
  function Keys<K, V>(ps: seq<(K, V)>): set<K> {
    set i | 0 <= i < |ps| :: ps[i].0
  }

  /** `(k, v)` is the last pair for `k`. */
  ghost predicate IsLastValue<K, V>(ps: seq<(K, V)>, k: K, v: V) {
    exists i :: 0 <= i < |ps| && ps[i] == (k, v) && forall j :: i < j < |ps| ==> ps[j].0 != k
  }

  /** `(k, v)` is the first pair for `k`. */
  ghost predicate IsFirstValue<K, V>(ps: seq<(K, V)>, k: K, v: V) {
    exists i :: 0 <= i < |ps| && ps[i] == (k, v) && forall j :: 0 <= j < i ==> ps[j].0 != k
  }

  lemma KeysUnfold<K, V>(ps: seq<(K, V)>)
    requires ps != []
    ensures Keys(ps) == {ps[0].0} + Keys(ps[1..])
  {
    var rest := ps[1..];
    forall k | k in Keys(ps) ensures k == ps[0].0 || k in Keys(rest) {
      var i :| 0 <= i < |ps| && ps[i].0 == k;
      if i > 0 { assert rest[i - 1] == ps[i]; }
    }
    forall k | k in Keys(rest) ensures k in Keys(ps) {
      var i :| 0 <= i < |rest| && rest[i].0 == k;
      assert ps[i + 1] == rest[i];
    }
  }

  lemma LastValueShift<K, V>(ps: seq<(K, V)>, k: K, v: V)
    requires ps != [] && IsLastValue(ps[1..], k, v)
    ensures IsLastValue(ps, k, v)
  {
    var rest := ps[1..];
    var i :| 0 <= i < |rest| && rest[i] == (k, v) && forall j :: i < j < |rest| ==> rest[j].0 != k;
    assert ps[i + 1] == rest[i];
    assert forall j :: i + 1 < j < |ps| ==> ps[j] == rest[j - 1];
  }

  lemma LastValueHead<K, V>(ps: seq<(K, V)>)
    requires ps != [] && ps[0].0 !in Keys(ps[1..])
    ensures IsLastValue(ps, ps[0].0, ps[0].1)
  {
    forall j | 0 < j < |ps| ensures ps[j].0 != ps[0].0 {
      assert ps[j] == ps[1..][j - 1];
    }
  }

  lemma FirstValueShift<K, V>(ps: seq<(K, V)>, k: K, v: V)
    requires ps != [] && ps[0].0 != k && IsFirstValue(ps[1..], k, v)
    ensures IsFirstValue(ps, k, v)
  {
    var rest := ps[1..];
    var i :| 0 <= i < |rest| && rest[i] == (k, v) && forall j :: 0 <= j < i ==> rest[j].0 != k;
    assert ps[i + 1] == rest[i];
    assert forall j :: 0 < j < i + 1 ==> ps[j] == rest[j - 1];
  }

  /** `m[k] = v` for each pair in order. */
  function AssignAll<K, V>(m: map<K, V>, ps: seq<(K, V)>): (r: map<K, V>)
    ensures r.Keys == m.Keys + Keys(ps)
    ensures forall k :: k in Keys(ps) ==> IsLastValue(ps, k, r[k])
    ensures forall k :: k in m && k !in Keys(ps) ==> r[k] == m[k]
    decreases |ps|
  {
    if ps == [] then m
    else
      var rest := ps[1..];
      var r := AssignAll(m[ps[0].0 := ps[0].1], rest);
      KeysUnfold(ps);
      assert forall k :: k in Keys(ps) ==> IsLastValue(ps, k, r[k]) by {
        forall k | k in Keys(ps) ensures IsLastValue(ps, k, r[k]) {
          if k in Keys(rest) {
            LastValueShift(ps, k, r[k]);
          } else {
            LastValueHead(ps);
          }
        }
      }
      r
  }

  /** `m.setdefault(k, v)` for each pair in order. */
  function SetDefaultAll<K, V>(m: map<K, V>, ps: seq<(K, V)>): (r: map<K, V>)
    ensures r.Keys == m.Keys + Keys(ps)
    ensures forall k :: k in m ==> r[k] == m[k]
    ensures forall k :: k in Keys(ps) && k !in m ==> IsFirstValue(ps, k, r[k])
    decreases |ps|
  {
    if ps == [] then m
    else
      var rest := ps[1..];
      var m' := if ps[0].0 in m then m else m[ps[0].0 := ps[0].1];
      var r := SetDefaultAll(m', rest);
      KeysUnfold(ps);
      assert forall k :: k in m ==> k in m' && m'[k] == m[k];
      assert forall k :: k in Keys(ps) && k !in m ==> IsFirstValue(ps, k, r[k]) by {
        forall k | k in Keys(ps) && k !in m ensures IsFirstValue(ps, k, r[k]) {
          if k == ps[0].0 {
            assert ps[0] == (k, r[k]);
          } else {
            assert k in Keys(rest) && k !in m';
            FirstValueShift(ps, k, r[k]);
          }
        }
      }
      r
  }
}
