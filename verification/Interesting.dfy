/** Which classes are worth showing. */
module Interesting {
  import opened Basics
  import opened FileTree
  import opened Propagation

  /** Node n has no parent, or a parent without a duplicate. */
  ghost predicate Exposed(t: Tree, k: Classes, n: nat)
    requires t.Valid() && Partition(t, k) && n < |t.kind|
  {
    t.parent[n].None? || (Evaluated(k, t.parent[n].value) && |k.members[k.of[t.parent[n].value].value]| == 1)
  }

  /** Class c has several members, and not all of them lie in directories that
      have duplicates themselves. */
  ghost predicate IsInteresting(t: Tree, k: Classes, c: nat)
    requires t.Valid() && Partition(t, k)
  {
    c < |k.members| && |k.members[c]| > 1 && exists n :: n in k.members[c] && Exposed(t, k, n)
  }

  /** Two members, one of which has no parent or a parent that shares its class
      with no other node. */
  ghost predicate WorthShowing(t: Tree, k: Classes, c: nat)
    requires t.Valid() && |k.of| == |t.kind|
  {
    && (exists a, b :: 0 <= a < b < |k.of| && k.of[a] == k.of[b] == Some(c))
    && exists n :: 0 <= n < |k.of| && k.of[n] == Some(c) && (t.parent[n].Some? ==> Alone(k, t.parent[n].value))
  }

  ghost predicate Alone(k: Classes, p: nat) {
    p < |k.of| && forall m :: 0 <= m < |k.of| && m != p ==> k.of[m] != k.of[p]
  }

  lemma AloneIsSingle(t: Tree, k: Classes, p: nat)
    requires t.Valid() && Partition(t, k) && p < |t.kind| && Evaluated(k, p)
    ensures Alone(k, p) <==> |k.members[k.of[p].value]| == 1
  {
    var ms := k.members[k.of[p].value];
    var i :| 0 <= i < |ms| && ms[i] == p;
    if |ms| > 1 {
      var m := if i == 0 then ms[1] else ms[0];
      assert m != p && m in ms && k.of[m] == k.of[p];
    }
    if m :| 0 <= m < |k.of| && m != p && k.of[m] == k.of[p] {
      assert m in ms;
    }
  }

  lemma ExposedExactly(t: Tree, k: Classes, n: nat)
    requires t.Valid() && Partition(t, k) && Complete(t, k) && n < |t.kind|
    ensures Exposed(t, k, n) <==> (t.parent[n].Some? ==> Alone(k, t.parent[n].value))
  {
    if t.parent[n].Some? {
      assert Evaluated(k, t.parent[n].value);
      AloneIsSingle(t, k, t.parent[n].value);
    }
  }

  lemma MembersByPointer(t: Tree, k: Classes, c: nat, n: nat)
    requires t.Valid() && Partition(t, k)
    ensures c < |k.members| && n in k.members[c] <==> n < |k.of| && k.of[n] == Some(c)
  {
  }

  lemma SeveralMembers(t: Tree, k: Classes, c: nat)
    requires t.Valid() && Partition(t, k)
    ensures c < |k.members| && |k.members[c]| > 1 <==>
            exists a, b :: 0 <= a < b < |k.of| && k.of[a] == k.of[b] == Some(c)
  {
    if c < |k.members| && |k.members[c]| > 1 {
      var x, y := k.members[c][0], k.members[c][1];
      assert x != y && k.of[x] == k.of[y] == Some(c);
    }
    if a, b :| 0 <= a < b < |k.of| && k.of[a] == k.of[b] == Some(c) {
      assert a in k.members[c] && b in k.members[c];
    }
  }

  /** What the loops over member lists find, told by class pointers alone: a class
      is shown if and only if it has two members, not all of which lie in
      directories that are not alone in their classes. */
  lemma InterestingExactly(t: Tree, k: Classes, c: nat)
    requires t.Valid() && Partition(t, k) && Complete(t, k)
    ensures |k.of| == |t.kind| && (IsInteresting(t, k, c) <==> WorthShowing(t, k, c))
  {
    assert |k.of| == |t.kind| == |t.parent|;
    SeveralMembers(t, k, c);
    forall n: nat
      ensures c < |k.members| && n in k.members[c] <==> n < |k.of| && k.of[n] == Some(c)
    {
      MembersByPointer(t, k, c, n);
    }
    hide Partition, Alone, Tree.Valid, Exposed, Evaluated;
    forall n: nat | n < |t.kind|
      ensures Exposed(t, k, n) <==> (t.parent[n].Some? ==> Alone(k, t.parent[n].value))
    {
      ExposedExactly(t, k, n);
    }
  }

  ghost predicate HasDuplicate(t: Tree, k: Classes, n: nat)
    requires t.Valid() && Partition(t, k)
  {
    Evaluated(k, n) && |k.members[k.of[n].value]| > 1
  }

  /** Leaving out the uninteresting classes hides no duplicate: a node that has
      one lies in, or is, a node whose class is shown. */
  lemma {:induction false} NothingHidden(t: Tree, k: Classes, root: nat, n: nat) returns (a: nat)
    requires t.Valid() && Partition(t, k) && Complete(t, k) && t.Rooted(root)
    requires n < |t.kind| && HasDuplicate(t, k, n)
    ensures a < |t.kind| && t.Under(a, n) && Evaluated(k, a) && IsInteresting(t, k, k.of[a].value)
    decreases t.height[root] as int - t.height[n] as int
  {
    var c := k.of[n].value;
    assert n in k.members[c];
    UnderHeight(t, root, n);
    if IsInteresting(t, k, c) {
      a := n;
    } else {
      var p := t.parent[n].value;
      assert Evaluated(k, p) && p in k.members[k.of[p].value];
      assert HasDuplicate(t, k, p);
      UnderHeight(t, root, p);
      a := NothingHidden(t, k, root, p);
      assert t.Under(p, n);
      UnderTransitive(t, a, p, n);
    }
  }
}
