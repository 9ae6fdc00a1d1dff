/** The `seen` and `owner` maps of the validators: walk a list once, remember where each key was
    first met, report every later meeting. A position without a key is skipped. */
module FirstSeen {
  import opened Wrappers

  ghost predicate HasKey<K>(keys: seq<Option<K>>, i: nat, key: K) {
    i < |keys| && keys[i] == Some(key)
  }

  ghost predicate FirstWithKey<K>(keys: seq<Option<K>>, i: nat, key: K) {
    HasKey(keys, i, key) && forall k :: 0 <= k < i ==> !HasKey(keys, k, key)
  }

  /** Position `at` repeats the key first met at `first`. */
  ghost predicate Repeats<K>(keys: seq<Option<K>>, at: nat, first: nat) {
    at < |keys| && keys[at].Some? && first < at && FirstWithKey(keys, first, keys[at].value)
  }

  ghost predicate DistinctKeys<K>(keys: seq<Option<K>>) {
    forall i, j :: 0 <= i < j < |keys| && keys[i].Some? ==> keys[i] != keys[j]
  }

  /** The map after the first `j` positions. */
  ghost predicate Seen<K>(keys: seq<Option<K>>, seen: map<K, nat>, j: nat)
    requires j <= |keys|
  {
    && (forall k :: k in seen ==> seen[k] < j && FirstWithKey(keys, seen[k], k))
    && forall i :: 0 <= i < j && keys[i].Some? ==> keys[i].value in seen
  }

  /** One more position: the map knows whether it repeats, and whom. */
  lemma SeenStep<K>(keys: seq<Option<K>>, seen: map<K, nat>, j: nat)
    requires j < |keys| && Seen(keys, seen, j)
    ensures keys[j].None? ==> Seen(keys, seen, j + 1)
    ensures keys[j].Some? && keys[j].value in seen ==>
      Seen(keys, seen, j + 1) && forall first :: Repeats(keys, j, first) <==> first == seen[keys[j].value]
    ensures keys[j].Some? && keys[j].value !in seen ==>
      Seen(keys, seen[keys[j].value := j], j + 1) && forall first :: !Repeats(keys, j, first)
  {
  }

  lemma {:induction false} FirstMeeting<K>(keys: seq<Option<K>>, i: nat, key: K) returns (first: nat)
    requires HasKey(keys, i, key)
    ensures first <= i && FirstWithKey(keys, first, key)
    decreases i
  {
    if k :| 0 <= k < i && HasKey(keys, k, key) {
      first := FirstMeeting(keys, k, key);
    } else {
      first := i;
    }
  }

  /** Nothing repeats exactly when the keys are distinct. */
  lemma DistinctMeansNoRepeat<K>(keys: seq<Option<K>>)
    ensures DistinctKeys(keys) <==> forall j, first :: !Repeats(keys, j, first)
  {
    if i: nat, j: nat :| 0 <= i < j < |keys| && keys[i].Some? && keys[i] == keys[j] {
      assert HasKey(keys, i, keys[j].value);
      var first := FirstMeeting(keys, i, keys[j].value);
      assert Repeats(keys, j, first);
    }
    if j: nat, first: nat :| Repeats(keys, j, first) {
      assert HasKey(keys, first, keys[j].value);
    }
  }
}
