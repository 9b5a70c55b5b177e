/** Iterating over a table in key order. */
module Tables {
  ghost predicate Ascending(ks: seq<nat>) {
    forall i, j | 0 <= i < j < |ks| :: ks[i] < ks[j]
  }

  /** `ks` lists the keys of `m` from `start` on, in order. */
  ghost predicate KeysFrom<V>(m: map<nat, V>, start: nat, ks: seq<nat>) {
    Ascending(ks) && forall k :: k in ks <==> k in m && start <= k
  }

  lemma AscendingAppend(ks: seq<nat>, k: nat)
    requires Ascending(ks) && forall j | j in ks :: j < k
    ensures Ascending(ks + [k])
  {
    forall i, j | 0 <= i < j < |ks + [k]| ensures (ks + [k])[i] < (ks + [k])[j] {
      assert ks[i] in ks;
    }
  }

  lemma PrefixBelow(ks: seq<nat>, i: nat)
    requires Ascending(ks) && i < |ks|
    ensures forall j | j in ks[..i] :: j < ks[i]
    ensures ks[..i + 1] == ks[..i] + [ks[i]]
  {
  }

  method Least(keys: set<nat>) returns (k: nat)
    requires keys != {}
    ensures k in keys && forall j | j in keys :: k <= j
  {
    var left := keys;
    k :| k in left;
    left := left - {k};
    while left != {}
      invariant k in keys && left <= keys && forall j | j in keys :: j in left || k <= j
      decreases |left|
    {
      var j :| j in left;
      if j < k { k := j; }
      left := left - {j};
    }
  }

  method ListKeys<V>(m: map<nat, V>, start: nat) returns (ks: seq<nat>)
    ensures KeysFrom(m, start, ks)
  {
    var left := set k | k in m && start <= k;
    ks := [];
    while left != {}
      invariant Ascending(ks)
      invariant forall k | k in ks :: k !in left && forall j | j in left :: k < j
      invariant forall k :: k in m && start <= k <==> k in ks || k in left
      decreases |left|
    {
      var k := Least(left);
      left := left - {k};
      AscendingAppend(ks, k);
      ks := ks + [k];
    }
  }
}
