/** What the calls of a scan are turned into: one node for every call, and the
    multimap from checksums to files. */
module TreeCtor {
  import opened Basics
  import opened FileTree
  import opened Worklist
  import opened TreeBuilding
  import opened Classification
  import ScanDb

  type Calls = seq<ScanDb.Call>

  ghost function CallParent(c: ScanDb.Call): Option<nat> {
    if c.Root? then None else Some(c.parent)
  }

  /** The nodes of t are the first i calls; entries come in the order of their calls. */
  ghost predicate Mirrors(t: Tree, calls: Calls, i: nat) {
    && |t.kind| == |t.parent| == |t.sum| == |t.children| == i <= |calls|
    && (forall j :: 0 <= j < i ==> IsMirror(t, calls, j))
    && forall p, j, l :: 0 <= p < i && 0 <= j < l < |t.children[p]| ==> t.children[p][j] < t.children[p][l]
  }

  ghost predicate IsMirror(t: Tree, calls: Calls, j: nat)
    requires j < |t.kind| == |t.parent| == |t.sum| && j < |calls|
  {
    && (t.kind[j].File? <==> calls[j].File?)
    && t.parent[j] == CallParent(calls[j])
    && (calls[j].File? ==> t.sum[j] == calls[j].info.sum)
  }

  /** The node for the next call is a root without entries. */
  lemma NodeForCall(t: Tree, calls: Calls, k: Kind, weight: nat, sum: Cksum)
    requires t.Valid() && Mirrors(t, calls, |t.kind|) && |t.kind| < |calls|
    requires WithNode(t, k, weight, sum).Valid()
    requires k.File? <==> calls[|t.kind|].File?
    requires calls[|t.kind|].File? ==> sum == calls[|t.kind|].info.sum
    ensures var t' := WithNode(t, k, weight, sum);
            && t'.parent[|t.kind|].None? && (forall n: nat :: t'.Under(|t.kind|, n) ==> n == |t.kind|)
            && (calls[|t.kind|].Root? ==> Mirrors(t', calls, |t.kind| + 1))
  {
    var t' := WithNode(t, k, weight, sum);
    assert t'.children[|t.kind|] == [];
    forall j | 0 <= j < |t.kind|
      ensures IsMirror(t', calls, j)
    {
      assert IsMirror(t, calls, j);
    }
  }

  lemma NothingYet(t: Tree, calls: Calls)
    requires t.Valid() && t.kind == []
    ensures Mirrors(t, calls, 0) && Indexes(t, map[])
  {
  }

  lemma SizeOfMirror(t: Tree, calls: Calls, i: nat)
    requires Mirrors(t, calls, i)
    ensures |t.kind| == i
  {
  }

  lemma ParentIsDir(t': Tree, t: Tree, calls: Calls, i: nat, k: Kind, weight: nat, sum: Cksum)
    requires ScanDb.WellFormed(calls) && 0 < i < |calls| && Mirrors(t, calls, i)
    requires t' == WithNode(t, k, weight, sum)
    ensures calls[i].parent < i == |t.kind| < |t'.kind| && t'.kind[calls[i].parent].Dir?
  {
    assert IsMirror(t, calls, calls[i].parent);
    assert ScanDb.IsDir(calls, calls[i].parent);
  }

  /** Linked to its parent, it mirrors the call. */
  lemma LinkForCall(t: Tree, calls: Calls, k: Kind, weight: nat, sum: Cksum, p: nat)
    requires t.Valid() && Mirrors(t, calls, |t.kind|) && |t.kind| < |calls|
    requires var t' := WithNode(t, k, weight, sum); t'.Valid() && p < |t'.kind|
    requires k.File? <==> calls[|t.kind|].File?
    requires calls[|t.kind|].File? ==> sum == calls[|t.kind|].info.sum
    requires CallParent(calls[|t.kind|]) == Some(p)
    ensures Mirrors(WithChild(WithNode(t, k, weight, sum), p, |t.kind|), calls, |t.kind| + 1)
  {
    var t'' := WithChild(WithNode(t, k, weight, sum), p, |t.kind|);
    assert forall q, j :: 0 <= q < |t.kind| && 0 <= j < |t.children[q]| ==> t.IsChild(q, t.children[q][j]);
    forall j | 0 <= j < |t.kind|
      ensures IsMirror(t'', calls, j)
    {
      assert IsMirror(t, calls, j);
    }
  }

  /** Every node lies below the root, which is the first. */
  lemma MirrorsRooted(t: Tree, calls: Calls)
    requires t.Valid() && ScanDb.WellFormed(calls) && Mirrors(t, calls, |calls|)
    ensures t.Rooted(0)
  {
    forall n: nat | n < |t.kind|
      ensures t.Under(0, n)
    {
      BelowFirst(t, calls, n);
    }
  }

  lemma {:induction false} BelowFirst(t: Tree, calls: Calls, n: nat)
    requires t.Valid() && ScanDb.WellFormed(calls) && Mirrors(t, calls, |calls|) && n < |calls|
    ensures t.Under(0, n)
  {
    UnderClimbs(t, 0, n);
    if n > 0 {
      assert IsMirror(t, calls, n);
      BelowFirst(t, calls, calls[n].parent);
    }
  }

  // ------------------------------------------------------------- the multimap

  function Added(sum2node: map<Cksum, seq<nat>>, s: Cksum, n: nat): map<Cksum, seq<nat>> {
    sum2node[s := (if s in sum2node then sum2node[s] else []) + [n]]
  }

  ghost predicate SameLeaves(t: Tree, t': Tree) {
    t'.kind == t.kind && t'.sum == t.sum
  }

  lemma IndexesSame(t: Tree, t': Tree, sum2node: map<Cksum, seq<nat>>)
    requires t.Valid() && t'.Valid() && SameLeaves(t, t') && Indexes(t, sum2node)
    ensures Indexes(t', sum2node)
  {
    forall s, i | s in sum2node && 0 <= i < |sum2node[s]|
      ensures IsFileWith(t', s, sum2node[s][i])
    {
      assert IsFileWith(t, s, sum2node[s][i]);
    }
  }

  lemma IndexesDir(t: Tree, weight: nat, sum: Cksum, sum2node: map<Cksum, seq<nat>>)
    requires t.Valid() && Indexes(t, sum2node) && WithNode(t, Dir, weight, sum).Valid()
    ensures Indexes(WithNode(t, Dir, weight, sum), sum2node)
  {
    var t' := WithNode(t, Dir, weight, sum);
    forall s, i | s in sum2node && 0 <= i < |sum2node[s]|
      ensures IsFileWith(t', s, sum2node[s][i])
    {
      assert IsFileWith(t, s, sum2node[s][i]);
    }
  }

  lemma IndexesFile(t: Tree, weight: nat, sum: Cksum, sum2node: map<Cksum, seq<nat>>)
    requires t.Valid() && Indexes(t, sum2node) && WithNode(t, File, weight, sum).Valid()
    ensures Indexes(WithNode(t, File, weight, sum), Added(sum2node, sum, |t.kind|))
  {
    var t', m, n := WithNode(t, File, weight, sum), Added(sum2node, sum, |t.kind|), |t.kind|;
    forall s, i | s in sum2node && 0 <= i < |sum2node[s]|
      ensures IsFileWith(t', s, sum2node[s][i]) && sum2node[s][i] < n
    {
      assert IsFileWith(t, s, sum2node[s][i]);
    }
    forall f: nat | f < |t'.kind| && t'.kind[f].File?
      ensures t'.sum[f] in m && f in m[t'.sum[f]]
    {
      if f == n {
        assert m[sum][|m[sum]| - 1] == n;
      } else {
        assert f in sum2node[t.sum[f]];
      }
    }
  }
}
