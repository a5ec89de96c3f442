/** Directory trees and equivalence classes as values.  A node or a class is
    identified by its index; the arena of module Arena holds the same data in
    mutable fields. */
module FileTree {
  import opened Basics
  import opened Sums
  import opened Similarity

  datatype Kind = Dir | File

  /** The part of the nodes that never changes during the analysis.
      height is not stored by the program: it witnesses that the parent links
      are acyclic. */
  datatype Tree = Tree(
    kind: seq<Kind>,
    weight: seq<nat>,
    sum: seq<Cksum>,
    parent: seq<Option<nat>>,
    children: seq<seq<nat>>,
    height: seq<nat>)
  {
    ghost predicate Valid() {
      && |weight| == |sum| == |parent| == |children| == |height| == |kind|
      && (forall p, i :: 0 <= p < |kind| && 0 <= i < |children[p]| ==> IsChild(p, children[p][i]))
      && (forall p, i, j :: 0 <= p < |kind| && 0 <= i < j < |children[p]| ==> children[p][i] != children[p][j])
      && (forall n :: 0 <= n < |kind| && parent[n].Some? ==>
            parent[n].value < |kind| && n in children[parent[n].value])
      && (forall n :: 0 <= n < |kind| && kind[n].File? ==> children[n] == [])
    }

    ghost predicate IsChild(p: nat, c: nat)
      requires p < |height| == |parent|
    {
      c < |parent| && parent[c] == Some(p) && height[c] < height[p]
    }

    ghost predicate EmptyDir(n: nat)
      requires Valid() && n < |kind|
    {
      kind[n].Dir? && children[n] == []
    }

    /** Directories with at least one entry: what the propagation classifies. */
    ghost predicate FullDir(n: nat)
      requires Valid() && n < |kind|
    {
      children[n] != []
    }

    /** n is a or lies somewhere below it. */
    ghost predicate Under(a: nat, n: nat)
      requires Valid() && a < |kind|
      decreases height[a]
    {
      n == a || exists c :: c in children[a] && Under(c, n)
    }

    /** n is a file that weighs something or a directory that holds one. */
    ghost predicate Weighty(n: nat)
      requires Valid() && n < |kind|
      decreases height[n]
    {
      if kind[n].File? then weight[n] > 0 else exists c :: c in children[n] && Weighty(c)
    }

    ghost predicate Rooted(root: nat)
      requires Valid()
    {
      root < |kind| && forall n: nat :: n < |kind| ==> Under(root, n)
    }
  }

  /** Every node knows its class; every class lists its members in the order
      they were added, and has a weight that drifts with every addition.
      entry records what each member weighed when it was added. */
  datatype Classes = Classes(
    of: seq<Option<nat>>,
    members: seq<seq<nat>>,
    weight: seq<real>,
    entry: seq<seq<real>>)

  ghost predicate Evaluated(k: Classes, n: nat) {
    n < |k.of| && k.of[n].Some?
  }

  ghost predicate Ready(t: Tree, k: Classes, n: nat)
    requires t.Valid()
  {
    n < |t.kind| && forall c :: c in t.children[n] ==> Evaluated(k, c)
  }

  /** Class pointers and member lists say the same, and every node is listed at
      most once. */
  ghost predicate Partition(t: Tree, k: Classes)
    requires t.Valid()
  {
    && |k.of| == |t.kind|
    && |k.members| == |k.weight| == |k.entry|
    && (forall n :: 0 <= n < |k.of| && k.of[n].Some? ==>
          k.of[n].value < |k.members| && n in k.members[k.of[n].value])
    && (forall c, i :: 0 <= c < |k.members| && 0 <= i < |k.members[c]| ==>
          k.members[c][i] < |k.of| && k.of[k.members[c][i]] == Some(c))
    && (forall c, i, j :: 0 <= c < |k.members| && 0 <= i < j < |k.members[c]| ==>
          k.members[c][i] != k.members[c][j])
    && NonNegative(k.weight)
    && (forall c :: 0 <= c < |k.members| && k.members[c] == [] ==> k.weight[c] == 0.0)
  }

  /** Every class weighs the mean of what its members weighed when they were added. */
  ghost predicate Means(k: Classes) {
    |k.members| == |k.weight| == |k.entry| && forall c :: 0 <= c < |k.members| ==> TrueMean(k, c)
  }

  ghost predicate TrueMean(k: Classes, c: nat)
    requires c < |k.members| == |k.weight| == |k.entry|
  {
    && |k.entry[c]| == |k.members[c]|
    && k.weight[c] == if k.members[c] == [] then 0.0 else SumSeq(k.entry[c]) / (|k.members[c]| as real)
  }

  /** No node is evaluated before its children. */
  ghost predicate Closed(t: Tree, k: Classes)
    requires t.Valid()
  {
    forall n: nat :: n < |t.kind| && Evaluated(k, n) ==> Ready(t, k, n)
  }

  ghost function ChildClasses(t: Tree, k: Classes, n: nat): set<nat>
    requires t.Valid() && n < |t.kind|
  {
    set c | c in t.children[n] && Evaluated(k, c) :: k.of[c].value
  }

  /** The weight of a node: that of its class, else its own. */
  ghost function NodeWeight(t: Tree, k: Classes, n: nat): real
    requires t.Valid() && Partition(t, k) && n < |t.kind|
  {
    if k.of[n].Some? then k.weight[k.of[n].value]
    else if t.kind[n].File? then t.weight[n] as real
    else Total(k.weight, ChildClasses(t, k, n))
  }

  /** The mean of count + 1 numbers, given that of the first count. */
  function Mean(w: real, count: nat, x: real): real {
    (w * count as real + x) / (count + 1) as real
  }

  /** Node n joins class c. */
  ghost function AddNode(t: Tree, k: Classes, c: nat, n: nat): Classes
    requires t.Valid() && Partition(t, k) && n < |t.kind| && c < |k.members|
  {
    var w := NodeWeight(t, k, n);
    Classes(k.of[n := Some(c)],
            k.members[c := k.members[c] + [n]],
            k.weight[c := Mean(k.weight[c], |k.members[c]|, w)],
            k.entry[c := k.entry[c] + [w]])
  }

  /** A new class without members. */
  ghost function Push(k: Classes): Classes {
    Classes(k.of, k.members + [[]], k.weight + [0.0], k.entry + [[]])
  }

  ghost function Dist(t: Tree, k: Classes, a: nat, b: nat): real
    requires t.Valid() && a < |t.kind| && b < |t.kind|
  {
    Distance(k.weight, ChildClasses(t, k, a), ChildClasses(t, k, b))
  }

  // ---------------------------------------------------------------- trees

  lemma {:induction false} UnderHeight(t: Tree, a: nat, n: nat)
    requires t.Valid() && a < |t.kind| && t.Under(a, n)
    ensures n < |t.kind| && t.height[n] <= t.height[a]
    ensures n != a ==> t.height[n] < t.height[a]
    decreases t.height[a]
  {
    if n != a {
      var c :| c in t.children[a] && t.Under(c, n);
      UnderHeight(t, c, n);
    }
  }

  /** The recursive notion of descendant agrees with climbing parent links. */
  lemma {:induction false} UnderClimbs(t: Tree, a: nat, n: nat)
    requires t.Valid() && a < |t.kind| && n < |t.kind|
    ensures t.Under(a, n) <==> n == a || (t.parent[n].Some? && t.Under(a, t.parent[n].value))
    decreases t.height[a]
  {
    forall c | c in t.children[a]
      ensures t.Under(c, n) <==> n == c || (t.parent[n].Some? && t.Under(c, t.parent[n].value))
    {
      UnderClimbs(t, c, n);
    }
    if n != a && t.parent[n].Some? && t.Under(a, t.parent[n].value) {
      var p := t.parent[n].value;
      if p == a {
        assert t.Under(n, n);
      } else {
        var c :| c in t.children[a] && t.Under(c, p);
        assert t.Under(c, n);
      }
    }
  }

  lemma {:induction false} UnderTransitive(t: Tree, a: nat, b: nat, n: nat)
    requires t.Valid() && a < |t.kind| && t.Under(a, b) && b < |t.kind| && t.Under(b, n)
    ensures t.Under(a, n)
    decreases t.height[a]
  {
    if b != a {
      var c :| c in t.children[a] && t.Under(c, b);
      UnderTransitive(t, c, b, n);
    }
  }

  /** Subtrees of different children of a node are disjoint. */
  lemma {:induction false} SiblingsDisjoint(t: Tree, p: nat, c: nat, d: nat, n: nat)
    requires t.Valid() && p < |t.kind| && c in t.children[p] && d in t.children[p]
    requires n < |t.kind| && t.Under(c, n) && t.Under(d, n)
    ensures c == d
    decreases t.height[p] as int - t.height[n] as int
  {
    UnderHeight(t, c, n);
    UnderHeight(t, d, n);
    if n == c {
      if n != d {
        UnderClimbs(t, d, n);
        UnderHeight(t, d, p);
        assert false;
      }
    } else if n == d {
      UnderClimbs(t, c, n);
      UnderHeight(t, c, p);
      assert false;
    } else {
      UnderClimbs(t, c, n);
      UnderClimbs(t, d, n);
      SiblingsDisjoint(t, p, c, d, t.parent[n].value);
    }
  }

  // -------------------------------------------------------------- classes

  lemma NodeWeightNonNegative(t: Tree, k: Classes, n: nat)
    requires t.Valid() && Partition(t, k) && n < |t.kind|
    ensures NodeWeight(t, k, n) >= 0.0
  {
    TotalNonNegative(k.weight, ChildClasses(t, k, n));
  }

  lemma MeanStep(sum: real, count: nat, x: real)
    ensures count > 0 ==> Mean(sum / count as real, count, x) == (sum + x) / (count + 1) as real
    ensures Mean(0.0, 0, x) == x
  {
    if count > 0 {
      assert (sum / count as real) * count as real == sum;
    }
  }

  /** w' is the mean of x and of count numbers, the mean of which is w. */
  ghost predicate IsNextMean(w': real, w: real, count: nat, x: real) {
    w' * (count + 1) as real == w * count as real + x
  }

  lemma MeanValue(w: real, count: nat, x: real)
    ensures IsNextMean(Mean(w, count, x), w, count, x)
  {
  }

  lemma MeanAtLeast(w: real, count: nat, x: real, bound: real)
    requires x >= bound && (count > 0 ==> w >= bound)
    ensures Mean(w, count, x) >= bound
  {
    var m := count as real;
    if count > 0 {
      assert w * m >= bound * m;
    }
    var s := w * m + x;
    assert s >= bound * (m + 1.0);
    assert (bound * (m + 1.0)) / (m + 1.0) == bound;
    Divide(bound * (m + 1.0), s, m + 1.0);
  }

  lemma Divide(x: real, y: real, n: real)
    requires x <= y && n > 0.0
    ensures x / n <= y / n
  {
  }

  lemma AddNodeKeepsPartition(t: Tree, k: Classes, c: nat, n: nat)
    requires t.Valid() && Partition(t, k) && n < |t.kind| && c < |k.members| && !Evaluated(k, n)
    ensures Partition(t, AddNode(t, k, c, n))
  {
    var k' := AddNode(t, k, c, n);
    assert n !in k.members[c];
    assert k'.members[c][|k.members[c]|] == n;
    NodeWeightNonNegative(t, k, n);
    MeanAtLeast(k.weight[c], |k.members[c]|, NodeWeight(t, k, n), 0.0);
    forall m | 0 <= m < |k'.of| && k'.of[m].Some?
      ensures k'.of[m].value < |k'.members| && m in k'.members[k'.of[m].value]
    {
      if m != n && k.of[m].value == c {
        assert m in k.members[c];
      }
    }
  }

  /** The running mean of AddNode is the mean of everything added so far. */
  lemma AddNodeKeepsMeans(t: Tree, k: Classes, c: nat, n: nat)
    requires t.Valid() && Partition(t, k) && Means(k) && n < |t.kind| && c < |k.members|
    ensures Means(AddNode(t, k, c, n))
  {
    var w := NodeWeight(t, k, n);
    assert TrueMean(k, c);
    SumSeqPush(k.entry[c], w);
    MeanStep(SumSeq(k.entry[c]), |k.members[c]|, w);
    if k.members[c] == [] {
      assert k.entry[c] == [];
    }
    var k' := AddNode(t, k, c, n);
    forall d | 0 <= d < |k.members|
      ensures TrueMean(k', d)
    {
      assert TrueMean(k, d);
    }
  }

  lemma PushKeepsPartition(t: Tree, k: Classes)
    requires t.Valid() && Partition(t, k)
    ensures Partition(t, Push(k))
  {
  }

  lemma PushKeepsMeans(k: Classes)
    requires Means(k)
    ensures Means(Push(k))
  {
    var k' := Push(k);
    forall c | 0 <= c < |k'.members|
      ensures TrueMean(k', c)
    {
      assert c < |k.members| ==> TrueMean(k, c);
    }
  }
}
