/** Dictionaries filled in order from a sequence of pairs, as Python's loops over `dict[k] = v` fill them. */
module Tables {
  /** A dictionary filled from pairs in order: a later pair replaces an earlier one with the same key. */
  function MapOf<K(==,!new), V>(pairs: seq<(K, V)>): (m: map<K, V>)
    ensures pairs != [] ==> pairs[|pairs| - 1].0 in m && m[pairs[|pairs| - 1].0] == pairs[|pairs| - 1].1
    decreases |pairs|
  {
    if pairs == [] then map[]
    else
      var n := |pairs| - 1;
      MapOf(pairs[..n])[pairs[n].0 := pairs[n].1]
  }

  /** A dictionary filled from pairs in order where the first pair with a key wins (the has_key test). */
  function FirstOf<K(==,!new), V>(pairs: seq<(V, K)>): (m: map<K, V>)
    ensures pairs != [] ==> pairs[0].1 in m && m[pairs[0].1] == pairs[0].0
    decreases |pairs|
  {
    if pairs == [] then map[]
    else
      var n := |pairs| - 1;
      var m := FirstOf(pairs[..n]);
      if pairs[n].1 in m then m
      else
        assert n > 0 ==> pairs[..n][0] == pairs[0];
        m[pairs[n].1 := pairs[n].0]
  }

  /** The keys of MapOf are exactly the keys listed. */
  lemma {:induction false} MapOfKeys<K(!new), V>(pairs: seq<(K, V)>, k: K)
    ensures k in MapOf(pairs) <==> exists i :: 0 <= i < |pairs| && pairs[i].0 == k
    decreases |pairs|
  {
    if pairs != [] {
      var n := |pairs| - 1;
      MapOfKeys(pairs[..n], k);
      if k in MapOf(pairs[..n]) {
        var i :| 0 <= i < n && pairs[..n][i].0 == k;
        assert pairs[i].0 == k;
      }
      assert forall i :: 0 <= i < n ==> pairs[..n][i] == pairs[i];
    }
  }

  /** The keys of FirstOf are exactly the keys listed. */
  lemma {:induction false} FirstOfKeys<K(!new), V>(pairs: seq<(V, K)>, k: K)
    ensures k in FirstOf(pairs) <==> exists i :: 0 <= i < |pairs| && pairs[i].1 == k
    decreases |pairs|
  {
    if pairs != [] {
      var n := |pairs| - 1;
      FirstOfKeys(pairs[..n], k);
      if k in FirstOf(pairs[..n]) {
        var i :| 0 <= i < n && pairs[..n][i].1 == k;
        assert pairs[i].1 == k;
      }
      assert forall i :: 0 <= i < n ==> pairs[..n][i] == pairs[i];
    }
  }

  /** The pairs with their two sides exchanged. */
  function Swapped<A, B>(pairs: seq<(A, B)>): (r: seq<(B, A)>)
    ensures |r| == |pairs| && forall i :: 0 <= i < |pairs| ==> r[i] == (pairs[i].1, pairs[i].0)
  {
    seq(|pairs|, i requires 0 <= i < |pairs| => (pairs[i].1, pairs[i].0))
  }

  /** A listed key is in the dictionary, with the value of its last listing. */
  lemma {:induction false} MapOfHolds<K(!new), V>(pairs: seq<(K, V)>, i: nat)
    requires i < |pairs| && forall j :: i < j < |pairs| ==> pairs[j].0 != pairs[i].0
    ensures pairs[i].0 in MapOf(pairs) && MapOf(pairs)[pairs[i].0] == pairs[i].1
    decreases |pairs|
  {
    var n := |pairs| - 1;
    if i < n {
      MapOfHolds(pairs[..n], i);
    }
  }

  /** Where only the first pair with a key counts, a key keeps its first listing's value. */
  lemma {:induction false} FirstOfKeepsFirst<K(!new), V>(pairs: seq<(V, K)>, i: nat)
    requires i < |pairs| && forall j :: 0 <= j < i ==> pairs[j].1 != pairs[i].1
    ensures pairs[i].1 in FirstOf(pairs) && FirstOf(pairs)[pairs[i].1] == pairs[i].0
    decreases |pairs|
  {
    var n := |pairs| - 1;
    if i < n {
      FirstOfKeepsFirst(pairs[..n], i);
      assert pairs[..n][i] == pairs[i];
    } else {
      assert forall j :: 0 <= j < n ==> pairs[..n][j].1 != pairs[i].1;
      FirstOfKeys(pairs[..n], pairs[i].1);
    }
  }


  /** One more pair at the end sets its key and leaves every other key. */
  lemma MapOfAppend<K(!new), V>(pairs: seq<(K, V)>, p: (K, V))
    ensures MapOf(pairs + [p]) == MapOf(pairs)[p.0 := p.1]
  {
    assert (pairs + [p])[..|pairs|] == pairs;
  }
}
