/** Growing the tree: new nodes, and linking a node to its parent. */
module TreeBuilding {
  import opened Basics
  import opened FileTree
  import opened Propagation
  import opened Worklist

  ghost function WithNode(t: Tree, k: Kind, weight: nat, sum: Cksum): Tree {
    Tree(t.kind + [k], t.weight + [weight], t.sum + [sum], t.parent + [None], t.children + [[]], t.height + [0])
  }

  lemma WithNodeIs(t: Tree, t': Tree, k: Kind, weight: nat, sum: Cksum)
    requires t'.kind == t.kind + [k] && t'.weight == t.weight + [weight] && t'.sum == t.sum + [sum]
    requires t'.parent == t.parent + [None] && t'.children == t.children + [[]] && t'.height == t.height + [0]
    ensures t' == WithNode(t, k, weight, sum)
  {
  }

  /** The heights after child, and all below it, are hung into the rest. */
  ghost function Lifted(t: Tree, child: nat): (h: seq<nat>)
    requires t.Valid() && child < |t.kind|
    ensures |h| == |t.height|
  {
    seq(|t.height|, n requires 0 <= n < |t.height| =>
      if t.Under(child, n) then t.height[n] else t.height[n] + t.height[child] + 1)
  }

  ghost function WithChild(t: Tree, n: nat, child: nat): Tree
    requires t.Valid() && n < |t.kind| && child < |t.kind|
  {
    t.(parent := t.parent[child := Some(n)],
       children := t.children[n := t.children[n] + [child]],
       height := Lifted(t, child))
  }

  lemma Lengths(t: Tree, c: Classes, pending: seq<nat>)
    requires Consistent(t, c, pending)
    ensures |t.weight| == |t.sum| == |t.parent| == |t.children| == |t.height| == |t.kind| == |c.of| == |pending|
  {
  }

  lemma RecordsStay(t: Tree, c: Classes, t': Tree, c': Classes)
    requires t.Valid() && t'.Valid() && FilesRecorded(t, c) && c'.members == c.members && c'.entry == c.entry
    requires t.kind <= t'.kind && t.weight <= t'.weight
    ensures FilesRecorded(t', c')
  {
    forall d, i | 0 <= d < |c.members| && 0 <= i < |c.members[d]|
      ensures RecordedAt(t', c', d, i)
    {
      assert RecordedAt(t, c, d, i);
    }
  }

  lemma WithNodeConsistent(t: Tree, c: Classes, pending: seq<nat>, k: Kind, weight: nat, sum: Cksum)
    requires Consistent(t, c, pending)
    ensures Consistent(WithNode(t, k, weight, sum), c.(of := c.of + [None]), pending + [0])
  {
    var t', c' := WithNode(t, k, weight, sum), c.(of := c.of + [None]);
    assert t'.Valid() by {
      assert forall p, i :: 0 <= p < |t.kind| && 0 <= i < |t.children[p]| ==> t.IsChild(p, t.children[p][i]);
    }
    assert Partition(t', c');
    forall d | 0 <= d < |c.members|
      ensures TrueMean(c', d)
    {
      assert TrueMean(c, d);
    }
    RecordsStay(t, c, t', c');
    forall n: nat | n < |t'.kind| && Evaluated(c', n)
      ensures Ready(t', c', n)
    {
      assert Ready(t, c, n);
    }
    forall n: nat | n < |t'.kind|
      ensures (pending + [0])[n] == |Waiting(t', c', n)|
    {
      if n < |t.kind| {
        assert forall i :: 0 <= i < |t.children[n]| ==> t.IsChild(n, t.children[n][i]);
        assert Waiting(t', c', n) == Waiting(t, c, n);
      } else {
        assert Waiting(t', c', n) == {};
      }
    }
  }

  /** Linking keeps the forest a forest, provided no cycle arises. */
  lemma WithChildValid(t: Tree, n: nat, child: nat)
    requires t.Valid() && n < |t.kind| && child < |t.kind|
    requires t.kind[n].Dir? && t.parent[child].None? && !t.Under(child, n)
    ensures WithChild(t, n, child).Valid()
  {
    var t' := WithChild(t, n, child);
    forall p, i | 0 <= p < |t.kind| && 0 <= i < |t'.children[p]|
      ensures t'.IsChild(p, t'.children[p][i])
    {
      if i < |t.children[p]| {
        var c := t.children[p][i];
        assert t.IsChild(p, c);
        UnderClimbs(t, child, c);
      }
    }
    assert forall p, i :: 0 <= p < |t.kind| && 0 <= i < |t.children[p]| ==> t.IsChild(p, t.children[p][i]);
    forall m | 0 <= m < |t.kind| && t'.parent[m].Some?
      ensures m in t'.children[t'.parent[m].value]
    {
      if m == child {
        assert t'.children[n][|t.children[n]|] == child;
      }
    }
  }

  lemma WithChildConsistent(t: Tree, c: Classes, pending: seq<nat>, n: nat, child: nat)
    requires Consistent(t, c, pending) && n < |t.kind| && child < |t.kind|
    requires t.kind[n].Dir? && !Evaluated(c, n) && !Evaluated(c, child)
    requires t.parent[child].None? && !t.Under(child, n)
    ensures Consistent(WithChild(t, n, child), c, pending[n := pending[n] + 1])
  {
    WithChildValid(t, n, child);
    var t' := WithChild(t, n, child);
    assert Partition(t', c);
    RecordsStay(t, c, t', c);
    forall m: nat | m < |t.kind| && Evaluated(c, m)
      ensures Ready(t', c, m)
    {
      assert Ready(t, c, m);
    }
    forall m: nat | m < |t.kind|
      ensures |Waiting(t', c, m)| == if m == n then |Waiting(t, c, n)| + 1 else |Waiting(t, c, m)|
    {
      OneMoreWaits(t, c, n, child, m);
    }
  }

  lemma OneMoreWaits(t: Tree, c: Classes, n: nat, child: nat, m: nat)
    requires t.Valid() && n < |t.kind| && child < |t.kind| && m < |t.kind| && !Evaluated(c, child)
    requires t.parent[child].None? && WithChild(t, n, child).Valid()
    ensures |Waiting(WithChild(t, n, child), c, m)| == |Waiting(t, c, m)| + if m == n then 1 else 0
  {
    var t' := WithChild(t, n, child);
    if m == n {
      ChildIffParent(t, child, n);
      assert Waiting(t', c, n) == Waiting(t, c, n) + {child};
    } else {
      assert Waiting(t', c, m) == Waiting(t, c, m);
    }
  }

  /** The subtree of child, and nothing else, comes to lie below the nodes
      above n. */
  lemma {:induction false} WithChildUnder(t: Tree, n: nat, child: nat, a: nat, m: nat)
    requires t.Valid() && n < |t.kind| && child < |t.kind|
    requires t.kind[n].Dir? && t.parent[child].None? && !t.Under(child, n)
    requires a < |t.kind| && m < |t.kind|
    ensures WithChild(t, n, child).Valid()
    ensures WithChild(t, n, child).Under(a, m) <==> t.Under(a, m) || (t.Under(a, n) && t.Under(child, m))
    decreases t.height[a]
  {
    WithChildValid(t, n, child);
    var t' := WithChild(t, n, child);
    forall c | c in t.children[a]
      ensures t'.Under(c, m) <==> t.Under(c, m) || (t.Under(c, n) && t.Under(child, m))
    {
      WithChildUnder(t, n, child, c, m);
    }
    if a == n {
      BelowUnchanged(t, n, child, child, m);
      forall c | c in t.children[a]
        ensures !t.Under(c, n)
      {
        assert t.IsChild(n, c);
        if t.Under(c, n) {
          UnderHeight(t, c, n);
        }
      }
      assert forall c :: c in t'.children[n] <==> c in t.children[n] || c == child;
    }
  }

  /** Below child nothing changes. */
  lemma {:induction false} BelowUnchanged(t: Tree, n: nat, child: nat, a: nat, m: nat)
    requires t.Valid() && n < |t.kind| && child < |t.kind|
    requires t.kind[n].Dir? && t.parent[child].None? && !t.Under(child, n)
    requires a < |t.kind| && m < |t.kind| && t.Under(child, a)
    ensures WithChild(t, n, child).Valid()
    ensures WithChild(t, n, child).Under(a, m) <==> t.Under(a, m)
    decreases t.height[a]
  {
    WithChildValid(t, n, child);
    forall c | c in t.children[a]
      ensures WithChild(t, n, child).Under(c, m) <==> t.Under(c, m)
    {
      assert t.IsChild(a, c);
      UnderClimbs(t, child, c);
      BelowUnchanged(t, n, child, c, m);
    }
  }
}
