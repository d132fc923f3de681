/**
 * `merge_task_dicts`: the local map, with every remote entry folded in so that a title
 * only ever moves from open to completed.
 */
module Merge {
  import opened OrderedDict

  /** One iteration: `if (title not in merged) or completed: merged[title] = completed`. */
  function MergeStep(a: Dict, k: string, v: bool): (r: Dict)
    requires Valid(a)
    ensures Valid(r)
  {
    if k !in a.vals || v then Put(a, k, v) else a
  }

  /** The merged map after the loop has gone over the remote keys `ks`, starting from `a`. */
  function MergeOnto(a: Dict, ks: seq<string>, rv: map<string, bool>): (r: Dict)
    requires Valid(a)
    requires forall i :: 0 <= i < |ks| ==> ks[i] in rv
    ensures Valid(r)
  {
    if ks == [] then a
    else MergeStep(MergeOnto(a, ks[..|ks| - 1], rv), ks[|ks| - 1], rv[ks[|ks| - 1]])
  }

  /** What `merge_task_dicts(local, remote)` returns. */
  function Merged(local: Dict, remote: Dict): (m: Dict)
    requires Valid(local) && Valid(remote)
    ensures Valid(m)
  {
    MergeOnto(local, remote.keys, remote.vals)
  }

  /** `merge_task_dicts`: copy the local map, then assign into the copy in remote order. */
  method MergeTaskDicts(local: Dict, remote: Dict) returns (merged: Dict)
    requires Valid(local) && Valid(remote)
    ensures merged == Merged(local, remote)
  {
    merged := local;
    for i := 0 to |remote.keys|
      invariant Valid(merged)
      invariant merged == MergeOnto(local, remote.keys[..i], remote.vals)
    {
      var title := remote.keys[i];
      var completed := remote.vals[title];
      assert MergeOnto(local, remote.keys[..i + 1], remote.vals) == MergeStep(merged, title, completed) by {
        assert remote.keys[..i + 1][..i] == remote.keys[..i];
      }
      if title !in merged.vals || completed {
        merged := Put(merged, title, completed);
      }
    }
    assert remote.keys[..|remote.keys|] == remote.keys;
  }

  /** What the fold does to one title: present if on either side, and then the OR of both. */
  lemma {:induction false} MergeOntoAt(a: Dict, ks: seq<string>, rv: map<string, bool>, k: string)
    requires Valid(a)
    requires forall i :: 0 <= i < |ks| ==> ks[i] in rv
    ensures k in MergeOnto(a, ks, rv).vals <==> k in a.vals || k in ks
    ensures k in MergeOnto(a, ks, rv).vals ==>
      MergeOnto(a, ks, rv).vals[k] ==
        if k in ks then (k in a.vals && a.vals[k]) || rv[k] else a.vals[k]
  {
    if ks != [] {
      var p := ks[..|ks| - 1];
      assert ks == p + [ks[|ks| - 1]];
      MergeOntoAt(a, p, rv, k);
    }
  }

  /**
   * The merged value of every title: the local value for a local-only title, the remote value
   * for a remote-only one, and the OR of both when the title is on both sides.
   */
  lemma MergeValues(local: Dict, remote: Dict, k: string)
    requires Valid(local) && Valid(remote)
    ensures k in Merged(local, remote).vals <==> k in local.vals || k in remote.vals
    ensures k in local.vals && k !in remote.vals ==> Merged(local, remote).vals[k] == local.vals[k]
    ensures k !in local.vals && k in remote.vals ==> Merged(local, remote).vals[k] == remote.vals[k]
    ensures k in local.vals && k in remote.vals ==>
      Merged(local, remote).vals[k] == (local.vals[k] || remote.vals[k])
  {
    MergeOntoAt(local, remote.keys, remote.vals, k);
  }

  /** No downgrade: a title completed on either side is completed in the merge. */
  lemma MergeNoDowngrade(local: Dict, remote: Dict, k: string)
    requires Valid(local) && Valid(remote)
    requires (k in local.vals && local.vals[k]) || (k in remote.vals && remote.vals[k])
    ensures k in Merged(local, remote).vals && Merged(local, remote).vals[k]
  {
    MergeValues(local, remote, k);
  }

  /** The fold keeps the keys of `a` in place and appends the new keys of `ks` in their order. */
  lemma {:induction false} MergeOntoKeys(a: Dict, ks: seq<string>, rv: map<string, bool>)
    requires Valid(a) && Distinct(ks)
    requires forall i :: 0 <= i < |ks| ==> ks[i] in rv
    ensures MergeOnto(a, ks, rv).keys == a.keys + Minus(ks, a.vals.Keys)
  {
    if ks == [] {
    } else {
      var p := ks[..|ks| - 1];
      var k := ks[|ks| - 1];
      assert Distinct(p);
      MergeOntoKeys(a, p, rv);
      MergeOntoAt(a, p, rv, k);
      assert k !in p;
    }
  }

  /**
   * Merge order: the local keys in their own order, then the remote-only keys in remote
   * order.
   */
  lemma MergeOrder(local: Dict, remote: Dict)
    requires Valid(local) && Valid(remote)
    ensures Merged(local, remote).keys == local.keys + Minus(remote.keys, local.vals.Keys)
  {
    MergeOntoKeys(local, remote.keys, remote.vals);
  }

  /**
   * A remote map that already agrees with `m` on every title it has, and has no title `m`
   * lacks, merges into `m` without any change.
   */
  lemma MergeAbsorbs(m: Dict, remote: Dict)
    requires Valid(m) && Valid(remote)
    requires forall k :: k in remote.vals ==> k in m.vals && remote.vals[k] == m.vals[k]
    ensures Merged(m, remote) == m
  {
    var r := Merged(m, remote);
    MergeOrder(m, remote);
    MinusAll(remote.keys, m.vals.Keys);
    forall k | k in r.vals
      ensures k in m.vals && r.vals[k] == m.vals[k]
    {
      MergeValues(m, remote, k);
    }
    forall k | k in m.vals
      ensures k in r.vals
    {
      MergeValues(m, remote, k);
    }
    assert r.vals == m.vals;
  }
}
