/** `SELECT key, COUNT(*) ... GROUP BY key`: one group per distinct key with
    the number of rows that carry it. */
module Grouping {

  datatype Group<K> = Group(key: K, count: nat)

  /** No key is listed twice. */
  predicate DistinctKeys<K(==)>(g: seq<Group<K>>) {
    forall i, j :: 0 <= i < j < |g| ==> g[i].key != g[j].key
  }

  /** The sum of the group counts. */
  function TotalCount<K>(g: seq<Group<K>>): nat {
    if g == [] then 0 else g[0].count + TotalCount(g[1..])
  }

  /** The count listed for `k`, or 0 when `k` has no group. */
  function CountOf<K(==)>(g: seq<Group<K>>, k: K): nat {
    if g == [] then 0
    else if g[0].key == k then g[0].count
    else CountOf(g[1..], k)
  }

  function Keys<K(==)>(g: seq<Group<K>>): set<K> {
    set i | 0 <= i < |g| :: g[i].key
  }

  lemma KeysCons<K>(h: Group<K>, t: seq<Group<K>>)
    ensures Keys([h] + t) == {h.key} + Keys(t)
  {
    var s := [h] + t;
    forall x | x in Keys(s) ensures x in {h.key} + Keys(t) {
      var i :| 0 <= i < |s| && s[i].key == x;
      if i > 0 { assert t[i - 1].key == x; }
    }
    forall x | x in Keys(t) ensures x in Keys(s) {
      var i :| 0 <= i < |t| && t[i].key == x;
      assert s[i + 1].key == x;
    }
    assert s[0].key == h.key;
  }

  /** A group in front of groups whose keys it does not share. */
  lemma ConsGroup<K>(h: Group<K>, t: seq<Group<K>>)
    requires DistinctKeys(t) && h.key !in Keys(t)
    ensures DistinctKeys([h] + t)
    ensures TotalCount([h] + t) == h.count + TotalCount(t)
    ensures Keys([h] + t) == {h.key} + Keys(t)
  {
    KeysCons(h, t);
    var s := [h] + t;
    forall i, j | 0 <= i < j < |s| ensures s[i].key != s[j].key {
      if i == 0 {
        assert s[j].key == t[j - 1].key;
      }
    }
  }

  /** The first group of a list of distinct keys, and the rest. */
  lemma SplitGroups<K>(g: seq<Group<K>>)
    requires g != [] && DistinctKeys(g)
    ensures g == [g[0]] + g[1..]
    ensures DistinctKeys(g[1..]) && g[0].key !in Keys(g[1..])
  {
    forall i | 0 <= i < |g[1..]| ensures g[1..][i].key != g[0].key {
      assert g[1..][i] == g[i + 1];
    }
  }

  /** Counts one more row with key `k`. */
  function AddKey<K(==,!new)>(g: seq<Group<K>>, k: K): (r: seq<Group<K>>)
    requires DistinctKeys(g)
    ensures DistinctKeys(r)
    ensures TotalCount(r) == TotalCount(g) + 1
    ensures Keys(r) == Keys(g) + {k}
  {
    if g == [] then
      ConsGroup(Group(k, 1), []);
      [Group(k, 1)]
    else
      SplitGroups(g);
      ConsGroup(g[0], g[1..]);
      if g[0].key == k then
        ConsGroup(Group(k, g[0].count + 1), g[1..]);
        [Group(k, g[0].count + 1)] + g[1..]
      else
        var rest := AddKey(g[1..], k);
        ConsGroup(g[0], rest);
        [g[0]] + rest
  }

  /** Adding a row with key `k` raises the count of `k` by one and no other. */
  lemma {:induction false} AddKeyCounts<K(!new)>(g: seq<Group<K>>, k: K, x: K)
    requires DistinctKeys(g)
    ensures CountOf(AddKey(g, k), x) == CountOf(g, x) + (if x == k then 1 else 0)
  {
    if g != [] && g[0].key != k {
      AddKeyCounts(g[1..], k, x);
    }
  }

  /** Adding a row keeps every count positive. */
  lemma {:induction false} AddKeyPositive<K(!new)>(g: seq<Group<K>>, k: K)
    requires DistinctKeys(g)
    requires forall i :: 0 <= i < |g| ==> g[i].count > 0
    ensures forall i :: 0 <= i < |AddKey(g, k)| ==> AddKey(g, k)[i].count > 0
  {
    if g != [] && g[0].key != k {
      AddKeyPositive(g[1..], k);
      assert AddKey(g, k) == [g[0]] + AddKey(g[1..], k);
    }
  }

  /** The groups of `keys`, in order of first appearance. */
  function GroupCount<K(==,!new)>(keys: seq<K>): (r: seq<Group<K>>)
    ensures DistinctKeys(r)
    ensures TotalCount(r) == |keys|
    ensures Keys(r) == set x | x in keys
    ensures forall x :: CountOf(r, x) == multiset(keys)[x]
    ensures forall i :: 0 <= i < |r| ==> r[i].count > 0
  {
    if keys == [] then []
    else
      var n := |keys| - 1;
      assert keys == keys[..n] + [keys[n]];
      var g := GroupCount(keys[..n]);
      AddKeyPositive(g, keys[n]);
      assert forall x :: CountOf(AddKey(g, keys[n]), x) == multiset(keys)[x] by {
        forall x ensures CountOf(AddKey(g, keys[n]), x) == multiset(keys)[x] {
          AddKeyCounts(g, keys[n], x);
        }
      }
      AddKey(g, keys[n])
  }

  /** In a list of distinct keys, the count listed for a group is the one
      `CountOf` finds. */
  lemma {:induction false} CountOfAt<K>(g: seq<Group<K>>, i: nat)
    requires DistinctKeys(g) && i < |g|
    ensures CountOf(g, g[i].key) == g[i].count
  {
    if i > 0 {
      CountOfAt(g[1..], i - 1);
    }
  }
}
