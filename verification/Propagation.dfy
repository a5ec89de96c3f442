/** Placing directories into equivalence classes, bottom up, in any order. */
module Propagation {
  import opened Basics
  import opened Sums
  import opened Similarity
  import opened FileTree

  /** e is an evaluated node other than n that shares a class of entries with n. */
  ghost predicate IsCandidate(t: Tree, k: Classes, n: nat, e: nat)
    requires t.Valid() && n < |t.kind|
  {
    e < |t.kind| && e != n && Evaluated(k, e) && ChildClasses(t, k, n) * ChildClasses(t, k, e) != {}
  }

  /** f is a closest candidate of n and closer than the tolerance. */
  ghost predicate JoinTarget(t: Tree, tolerance: real, k: Classes, n: nat, f: nat)
    requires t.Valid() && n < |t.kind|
  {
    && IsCandidate(t, k, n, f)
    && Dist(t, k, n, f) < tolerance
    && forall e :: IsCandidate(t, k, n, e) ==> Dist(t, k, n, f) <= Dist(t, k, n, e)
  }

  /** n is added to the class of f. */
  ghost predicate Joins(t: Tree, tolerance: real, k: Classes, n: nat, f: nat, k': Classes)
    requires t.Valid() && Partition(t, k) && n < |t.kind|
  {
    JoinTarget(t, tolerance, k, n, f) && k' == AddNode(t, k, k.of[f].value, n)
  }

  /** No candidate is close enough, so n gets a class of its own. */
  ghost predicate Founds(t: Tree, tolerance: real, k: Classes, n: nat, k': Classes)
    requires t.Valid() && Partition(t, k) && n < |t.kind|
  {
    && (forall e :: IsCandidate(t, k, n, e) ==> Dist(t, k, n, e) >= tolerance)
    && Partition(t, Push(k)) && k' == AddNode(t, Push(k), |k.members|, n)
  }

  /** Placing one ready directory: into the class of a closest candidate, or
      into a class of its own when no candidate is close enough.  Ties between
      candidates are resolved arbitrarily. */
  ghost predicate Step(t: Tree, tolerance: real, k: Classes, n: nat, k': Classes)
    requires t.Valid() && Partition(t, k)
  {
    && n < |t.kind| && !Evaluated(k, n) && Ready(t, k, n)
    && ((exists f: nat :: Joins(t, tolerance, k, n, f, k')) || Founds(t, tolerance, k, n, k'))
  }

  /** A run: the nodes of order are placed one after the other, and ks lists the
      states it goes through. */
  ghost predicate Run(t: Tree, tolerance: real, order: seq<nat>, ks: seq<Classes>)
    requires t.Valid()
  {
    && |ks| == |order| + 1
    && (forall i :: 0 <= i < |ks| ==> Partition(t, ks[i]))
    && (forall i {:trigger order[i]} :: 0 <= i < |order| ==> Step(t, tolerance, ks[i], order[i], ks[i + 1]))
  }

  ghost predicate ClosestCandidate(t: Tree, k: Classes, n: nat, f: nat)
    requires t.Valid() && n < |t.kind|
  {
    IsCandidate(t, k, n, f) && forall e :: IsCandidate(t, k, n, e) ==> Dist(t, k, n, f) <= Dist(t, k, n, e)
  }

  /** What a placement does to the class pointers, told by the percentage: n gets
      the class of a closest candidate that differs by less, or a new class if
      every candidate differs by at least as much. */
  ghost predicate PlacedByPercent(t: Tree, pct: int, k: Classes, n: nat, k': Classes)
    requires t.Valid()
  {
    && n < |k.of| == |t.kind|
    && (|| (exists f: nat :: ClosestCandidate(t, k, n, f) && 100.0 * Dist(t, k, n, f) < pct as real
                             && k'.of == k.of[n := k.of[f]])
        || ((forall e: nat :: IsCandidate(t, k, n, e) ==> 100.0 * Dist(t, k, n, e) >= pct as real)
            && k'.of == k.of[n := Some(|k.members|)]))
  }

  ghost predicate RunByPercent(t: Tree, pct: int, order: seq<nat>, ks: seq<Classes>)
    requires t.Valid()
  {
    && |ks| == |order| + 1
    && forall i {:trigger order[i]} :: 0 <= i < |order| ==> PlacedByPercent(t, pct, ks[i], order[i], ks[i + 1])
  }

  lemma StepIsByPercent(t: Tree, tolerance: real, pct: int, k: Classes, n: nat, k': Classes)
    requires t.Valid() && Partition(t, k) && Step(t, tolerance, k, n, k') && 100.0 * tolerance == pct as real
    ensures PlacedByPercent(t, pct, k, n, k')
  {
    if f: nat :| Joins(t, tolerance, k, n, f, k') {
      assert ClosestCandidate(t, k, n, f);
    } else {
      assert Founds(t, tolerance, k, n, k');
    }
  }

  /** Every step of a run obeys the percentage that the tolerance stands for. */
  lemma RunIsByPercent(t: Tree, tolerance: real, pct: int, order: seq<nat>, ks: seq<Classes>)
    requires t.Valid() && Run(t, tolerance, order, ks) && 100.0 * tolerance == pct as real
    ensures RunByPercent(t, pct, order, ks)
  {
    forall i | 0 <= i < |order|
      ensures PlacedByPercent(t, pct, ks[i], order[i], ks[i + 1])
    {
      StepIsByPercent(t, tolerance, pct, ks[i], order[i], ks[i + 1]);
    }
  }

  // ------------------------------------------------------------ invariant

  datatype Sort = Leaf | Empty | Full

  ghost function SortOf(t: Tree, n: nat): Sort
    requires t.Valid() && n < |t.kind|
  {
    if t.kind[n].File? then Leaf else if t.children[n] == [] then Empty else Full
  }

  /** Files, empty directories and other directories never share a class. */
  ghost predicate Homogeneous(t: Tree, k: Classes)
    requires t.Valid() && |k.of| == |t.kind|
  {
    forall a, b :: 0 <= a < |k.of| && 0 <= b < |k.of| && k.of[a].Some? && k.of[a] == k.of[b] ==>
      SortOf(t, a) == SortOf(t, b)
  }

  /** A class weighs nothing or at least one, and which of the two is the case
      is decided by every single member. */
  ghost predicate Gap(t: Tree, k: Classes)
    requires t.Valid() && |k.of| == |t.kind| && |k.weight| == |k.members|
  {
    && (forall c :: 0 <= c < |k.weight| ==> k.weight[c] == 0.0 || k.weight[c] >= 1.0)
    && (forall n :: 0 <= n < |k.of| && k.of[n].Some? && k.of[n].value < |k.weight| ==>
          (k.weight[k.of[n].value] > 0.0 <==> t.Weighty(n)))
  }

  /** The classes of the entries that hold a file of some weight. */
  ghost function WeightyClasses(t: Tree, k: Classes, n: nat): set<nat>
    requires t.Valid() && n < |t.kind|
  {
    set c | c in t.children[n] && t.Weighty(c) && Evaluated(k, c) :: k.of[c].value
  }

  /** Both directories have entries that weigh, and of the same classes. */
  ghost predicate SameEntries(t: Tree, k: Classes, a: nat, b: nat)
    requires t.Valid() && a < |t.kind| && b < |t.kind|
  {
    t.FullDir(a) && t.FullDir(b) && WeightyClasses(t, k, a) == WeightyClasses(t, k, b) != {}
  }

  /** Directories with the same weighty entries share a class. */
  ghost predicate Alike(t: Tree, k: Classes)
    requires t.Valid()
  {
    forall a: nat, b: nat {:trigger SameEntries(t, k, a, b)} ::
      a < |t.kind| && b < |t.kind| && Evaluated(k, a) && Evaluated(k, b) && SameEntries(t, k, a, b) ==>
        k.of[a] == k.of[b]
  }

  /** What holds whatever the tolerance and the weights: classes partition the
      evaluated nodes by sort, and no node is evaluated before its entries. */
  ghost predicate WellSorted(t: Tree, k: Classes) {
    && t.Valid()
    && Partition(t, k)
    && Closed(t, k)
    && Homogeneous(t, k)
  }

  ghost predicate Sound(t: Tree, k: Classes) {
    WellSorted(t, k) && Gap(t, k)
  }

  ghost predicate NoEmptyClass(k: Classes) {
    forall c :: 0 <= c < |k.members| ==> k.members[c] != []
  }

  // ------------------------------------------- what one placement preserves

  lemma ChildClassesFresh(t: Tree, k: Classes, k': Classes, n: nat, e: nat)
    requires t.Valid() && |k.of| == |t.kind| && n < |t.kind| && e < |t.kind|
    requires !Evaluated(k, n) && |k'.of| == |k.of| && k'.of == k.of[n := k'.of[n]]
    requires Ready(t, k, e)
    ensures ChildClasses(t, k', e) == ChildClasses(t, k, e)
    ensures WeightyClasses(t, k', e) == WeightyClasses(t, k, e)
  {
    assert forall c :: c in t.children[e] ==> c != n && k'.of[c] == k.of[c];
  }

  /** Positive weight tells the weighty entries from the others. */
  lemma WeightyClassesByWeight(t: Tree, k: Classes, n: nat)
    requires Sound(t, k) && n < |t.kind|
    ensures WeightyClasses(t, k, n) <= ChildClasses(t, k, n)
    ensures forall c :: c in ChildClasses(t, k, n) ==>
              c < |k.weight| && (c in WeightyClasses(t, k, n) <==> k.weight[c] >= 1.0)
  {
    forall c | c in ChildClasses(t, k, n)
      ensures c < |k.weight| && (c in WeightyClasses(t, k, n) <==> k.weight[c] >= 1.0)
    {
      var m :| m in t.children[n] && Evaluated(k, m) && k.of[m].value == c;
    }
  }

  lemma WeightyHasClasses(t: Tree, k: Classes, n: nat)
    requires Sound(t, k) && n < |t.kind| && Ready(t, k, n) && t.FullDir(n)
    ensures t.Weighty(n) <==> WeightyClasses(t, k, n) != {}
  {
    if t.Weighty(n) {
      var c :| c in t.children[n] && t.Weighty(c);
      assert k.of[c].value in WeightyClasses(t, k, n);
    }
  }

  /** A ready node weighs nothing, or at least one when it holds a weighty file. */
  lemma NodeWeightGap(t: Tree, k: Classes, n: nat)
    requires Sound(t, k) && n < |t.kind| && Ready(t, k, n) && !Evaluated(k, n)
    ensures t.Weighty(n) ==> NodeWeight(t, k, n) >= 1.0
    ensures !t.Weighty(n) ==> NodeWeight(t, k, n) == 0.0
  {
    if t.kind[n].Dir? {
      WeightyClassesByWeight(t, k, n);
      if t.Weighty(n) {
        WeightyHasClasses(t, k, n);
        var c :| c in WeightyClasses(t, k, n);
        TotalAtLeast(k.weight, ChildClasses(t, k, n), c);
      } else {
        assert WeightyClasses(t, k, n) == {};
        assert forall c :: c in ChildClasses(t, k, n) ==> k.weight[c] == 0.0;
        TotalZero(k.weight, ChildClasses(t, k, n));
      }
    }
  }

  /** The union of entry classes has positive floored weight as soon as one side is weighty. */
  lemma WeightyUnion(t: Tree, k: Classes, n: nat, e: nat)
    requires Sound(t, k) && n < |t.kind| && e < |t.kind|
    requires WeightyClasses(t, k, n) != {}
    ensures Total(Floors(k.weight), ChildClasses(t, k, n) + ChildClasses(t, k, e)) > 0.0
  {
    WeightyClassesByWeight(t, k, n);
    var c :| c in WeightyClasses(t, k, n);
    TotalAtLeast(Floors(k.weight), ChildClasses(t, k, n) + ChildClasses(t, k, e), c);
  }

  /** Below distance one, either both directories are weighty or none is. */
  lemma CloseMeansSameWeight(t: Tree, k: Classes, n: nat, e: nat)
    requires Sound(t, k) && n < |t.kind| && e < |t.kind|
    requires Dist(t, k, n, e) < 1.0
    ensures WeightyClasses(t, k, n) == {} <==> WeightyClasses(t, k, e) == {}
  {
    WeightyClassesByWeight(t, k, n);
    WeightyClassesByWeight(t, k, e);
    var A, B := ChildClasses(t, k, n), ChildClasses(t, k, e);
    if WeightyClasses(t, k, n) != {} {
      WeightyUnion(t, k, n, e);
      DistanceOne(k.weight, A, B);
    }
    if WeightyClasses(t, k, e) != {} {
      WeightyUnion(t, k, e, n);
      assert A + B == B + A;
      DistanceOne(k.weight, A, B);
    }
  }

  /** Directories with the same weighty entries are at distance zero, and only those. */
  lemma DistZero(t: Tree, k: Classes, n: nat, e: nat)
    requires Sound(t, k) && n < |t.kind| && e < |t.kind|
    ensures Dist(t, k, n, e) == 0.0 <==> WeightyClasses(t, k, n) == WeightyClasses(t, k, e)
  {
    WeightyClassesByWeight(t, k, n);
    WeightyClassesByWeight(t, k, e);
    var A, B := ChildClasses(t, k, n), ChildClasses(t, k, e);
    DistanceZero(k.weight, A, B);
    if WeightyClasses(t, k, n) == WeightyClasses(t, k, e) {
      forall c | c in SymDiff(A, B) && c < |k.weight|
        ensures k.weight[c] < 1.0
      {
      }
    } else if Dist(t, k, n, e) == 0.0 {
      forall c
        ensures c in WeightyClasses(t, k, n) <==> c in WeightyClasses(t, k, e)
      {
        assert c in SymDiff(A, B) && c < |k.weight| ==> k.weight[c] < 1.0;
      }
      assert false;
    }
  }

  lemma DistRange(t: Tree, k: Classes, n: nat, e: nat)
    requires t.Valid() && Partition(t, k) && n < |t.kind| && e < |t.kind|
    ensures 0.0 <= Dist(t, k, n, e) <= 1.0
  {
    DistanceRange(k.weight, ChildClasses(t, k, n), ChildClasses(t, k, e));
  }

  /** Class c holds nothing but nodes of n's sort that are as weighty as n. */
  ghost predicate Fits(t: Tree, k: Classes, c: nat, n: nat)
    requires t.Valid() && n < |t.kind|
  {
    c < |k.members|
    && forall m :: m in k.members[c] ==>
         m < |t.kind| && SortOf(t, m) == SortOf(t, n) && (t.Weighty(m) <==> t.Weighty(n))
  }

  lemma NewWeight(t: Tree, k: Classes, c: nat, n: nat)
    requires Sound(t, k) && n < |t.kind| && Ready(t, k, n) && !Evaluated(k, n)
    requires Fits(t, k, c, n)
    ensures t.Weighty(n) ==> AddNode(t, k, c, n).weight[c] >= 1.0
    ensures !t.Weighty(n) ==> AddNode(t, k, c, n).weight[c] == 0.0
  {
    NodeWeightGap(t, k, n);
    var w := NodeWeight(t, k, n);
    if k.members[c] != [] {
      var m := k.members[c][0];
      assert m in k.members[c] && k.of[m] == Some(c);
    }
    if t.Weighty(n) {
      MeanAtLeast(k.weight[c], |k.members[c]|, w, 1.0);
    }
  }

  /** Class c holds nothing but nodes of n's sort. */
  ghost predicate HoldsSort(t: Tree, k: Classes, c: nat, n: nat)
    requires t.Valid() && n < |t.kind|
  {
    c < |k.members| && forall m :: m in k.members[c] ==> m < |t.kind| && SortOf(t, m) == SortOf(t, n)
  }

  /** Adding a ready node to a class of its sort keeps the partition homogeneous and closed. */
  lemma AddNodeKeepsSorts(t: Tree, k: Classes, c: nat, n: nat)
    requires WellSorted(t, k) && n < |t.kind| && Ready(t, k, n) && !Evaluated(k, n)
    requires HoldsSort(t, k, c, n)
    ensures WellSorted(t, AddNode(t, k, c, n))
  {
    var k' := AddNode(t, k, c, n);
    AddNodeKeepsPartition(t, k, c, n);
    forall m: nat | m < |t.kind| && Evaluated(k', m)
      ensures Ready(t, k', m)
    {
      assert Ready(t, k, m);
    }
    forall m | 0 <= m < |k.of| && k'.of[m] == Some(c)
      ensures SortOf(t, m) == SortOf(t, n)
    {
      assert m == n || m in k.members[c];
    }
  }

  /** Adding a ready node to a class of its kind keeps all of Sound. */
  lemma AddNodeKeepsSound(t: Tree, k: Classes, c: nat, n: nat)
    requires Sound(t, k) && n < |t.kind| && Ready(t, k, n) && !Evaluated(k, n)
    requires Fits(t, k, c, n)
    ensures Sound(t, AddNode(t, k, c, n))
  {
    var k' := AddNode(t, k, c, n);
    AddNodeKeepsSorts(t, k, c, n);
    NewWeight(t, k, c, n);
    forall m | 0 <= m < |k.of| && k'.of[m] == Some(c)
      ensures t.Weighty(m) <==> t.Weighty(n)
    {
      assert m == n || m in k.members[c];
    }
  }

  lemma PushKeepsSorts(t: Tree, k: Classes)
    requires WellSorted(t, k)
    ensures WellSorted(t, Push(k))
    ensures Gap(t, k) ==> Gap(t, Push(k))
  {
    PushKeepsPartition(t, k);
    var k' := Push(k);
    forall m: nat | m < |t.kind| && Evaluated(k', m)
      ensures Ready(t, k', m)
    {
      assert Ready(t, k, m);
    }
  }

  /** Candidates have entries, so that their classes hold directories with entries. */
  lemma TargetSort(t: Tree, k: Classes, n: nat, f: nat)
    requires WellSorted(t, k) && n < |t.kind| && IsCandidate(t, k, n, f)
    ensures t.FullDir(n) && t.FullDir(f) && HoldsSort(t, k, k.of[f].value, n)
  {
    var c := k.of[f].value;
    forall m | m in k.members[c]
      ensures m < |t.kind| && SortOf(t, m) == SortOf(t, n)
    {
      assert k.of[m] == Some(c);
      assert SortOf(t, m) == SortOf(t, f);
    }
  }

  /** A candidate closer than the tolerance leads to a fitting class. */
  lemma TargetFits(t: Tree, tolerance: real, k: Classes, n: nat, f: nat)
    requires Sound(t, k) && n < |t.kind| && Ready(t, k, n) && !Evaluated(k, n) && tolerance <= 1.0
    requires JoinTarget(t, tolerance, k, n, f)
    ensures t.FullDir(n) && Fits(t, k, k.of[f].value, n)
  {
    TargetSort(t, k, n, f);
    CloseMeansSameWeight(t, k, n, f);
    WeightyHasClasses(t, k, n);
    WeightyHasClasses(t, k, f);
    var c := k.of[f].value;
    forall m | m in k.members[c]
      ensures t.Weighty(m) <==> t.Weighty(n)
    {
      assert k.of[m] == Some(c);
    }
  }

  lemma JoinsKeepsSound(t: Tree, tolerance: real, k: Classes, n: nat, f: nat, k': Classes)
    requires Sound(t, k) && tolerance <= 1.0
    requires n < |t.kind| && Ready(t, k, n) && !Evaluated(k, n)
    requires Joins(t, tolerance, k, n, f, k')
    ensures Sound(t, k')
  {
    TargetFits(t, tolerance, k, n, f);
    AddNodeKeepsSound(t, k, k.of[f].value, n);
  }

  lemma FoundsKeepsSound(t: Tree, tolerance: real, k: Classes, n: nat, k': Classes)
    requires Sound(t, k)
    requires n < |t.kind| && Ready(t, k, n) && !Evaluated(k, n) && t.FullDir(n)
    requires Founds(t, tolerance, k, n, k')
    ensures Sound(t, k')
  {
    PushKeepsSorts(t, k);
    assert Ready(t, Push(k), n);
    AddNodeKeepsSound(t, Push(k), |k.members|, n);
  }

  lemma StepKeepsSound(t: Tree, tolerance: real, k: Classes, n: nat, k': Classes)
    requires Sound(t, k) && tolerance <= 1.0
    requires n < |t.kind| && t.FullDir(n)
    requires Step(t, tolerance, k, n, k')
    ensures Sound(t, k')
  {
    if f: nat :| Joins(t, tolerance, k, n, f, k') {
      JoinsKeepsSound(t, tolerance, k, n, f, k');
    } else {
      FoundsKeepsSound(t, tolerance, k, n, k');
    }
  }

  // ------------------------------------------------------------ duplicates

  /** A directory whose weighty entries have the classes of n's is a candidate at distance zero. */
  lemma LikeIsCandidate(t: Tree, k: Classes, n: nat, e: nat)
    requires Sound(t, k) && n < |t.kind| && e < |t.kind| && e != n && Evaluated(k, e)
    requires WeightyClasses(t, k, n) == WeightyClasses(t, k, e) != {}
    ensures IsCandidate(t, k, n, e) && Dist(t, k, n, e) == 0.0
  {
    DistZero(t, k, n, e);
    WeightyClassesByWeight(t, k, n);
    WeightyClassesByWeight(t, k, e);
    var c :| c in WeightyClasses(t, k, n);
    assert c in ChildClasses(t, k, n) * ChildClasses(t, k, e);
  }

  lemma ZeroTargetIsLike(t: Tree, k: Classes, n: nat, f: nat)
    requires Sound(t, k) && n < |t.kind| && IsCandidate(t, k, n, f) && Dist(t, k, n, f) <= 0.0
    ensures WeightyClasses(t, k, n) == WeightyClasses(t, k, f) && t.FullDir(f)
  {
    DistRange(t, k, n, f);
    DistZero(t, k, n, f);
  }

  /** The heart of the exactness argument: a directory whose weighty entries
      have the classes of those of an evaluated directory joins its class,
      whichever closest candidate is chosen. */
  lemma JoinsItsLike(t: Tree, tolerance: real, k: Classes, n: nat, k': Classes, e: nat)
    requires Sound(t, k) && Alike(t, k) && 0.0 < tolerance
    requires Step(t, tolerance, k, n, k')
    requires e < |t.kind| && e != n && Evaluated(k, e) && SameEntries(t, k, n, e)
    ensures n < |k'.of| && k'.of[n] == k.of[e]
  {
    LikeIsCandidate(t, k, n, e);
    var f: nat :| Joins(t, tolerance, k, n, f, k');
    ZeroTargetIsLike(t, k, n, f);
    assert SameEntries(t, k, e, f);
  }

  lemma StepKeepsAlike(t: Tree, tolerance: real, k: Classes, n: nat, k': Classes)
    requires Sound(t, k) && Alike(t, k) && 0.0 < tolerance
    requires Step(t, tolerance, k, n, k')
    ensures Alike(t, k')
  {
    var c := StepAddsOne(t, tolerance, k, n, k');
    forall e: nat | e < |t.kind| && e != n && Evaluated(k, e) && SameEntries(t, k, n, e)
      ensures k.of[e] == Some(c)
    {
      JoinsItsLike(t, tolerance, k, n, k', e);
    }
    AlikeExtended(t, k, n, c, k');
  }

  lemma AlikeExtended(t: Tree, k: Classes, n: nat, c: nat, k': Classes)
    requires t.Valid() && |k.of| == |t.kind| && Closed(t, k) && Alike(t, k)
    requires n < |t.kind| && Ready(t, k, n) && !Evaluated(k, n) && k'.of == k.of[n := Some(c)]
    requires forall e: nat {:trigger SameEntries(t, k, n, e)} ::
               e < |t.kind| && e != n && Evaluated(k, e) && SameEntries(t, k, n, e) ==> k.of[e] == Some(c)
    ensures Alike(t, k')
  {
    forall a: nat, b: nat | a < |t.kind| && b < |t.kind| && Evaluated(k', a) && Evaluated(k', b)
                         && SameEntries(t, k', a, b)
      ensures k'.of[a] == k'.of[b]
    {
      ChildClassesFresh(t, k, k', n, a);
      ChildClassesFresh(t, k, k', n, b);
      assert SameEntries(t, k, a, b) && SameEntries(t, k, b, a);
    }
  }

  lemma StepAddsOne(t: Tree, tolerance: real, k: Classes, n: nat, k': Classes) returns (c: nat)
    requires t.Valid() && Partition(t, k) && Step(t, tolerance, k, n, k')
    ensures n < |k.of| && k'.of == k.of[n := Some(c)] && !Evaluated(k, n)
  {
    if f: nat :| Joins(t, tolerance, k, n, f, k') {
      c := k.of[f].value;
    } else {
      c := |k.members|;
    }
  }

  // ------------------------------------------------------------ whole runs

  /** Only directories with entries are left to be placed. */
  ghost predicate LeavesDone(t: Tree, k: Classes)
    requires t.Valid()
  {
    forall n: nat :: n < |t.kind| && !t.FullDir(n) ==> Evaluated(k, n)
  }

  ghost predicate Complete(t: Tree, k: Classes) {
    forall n: nat :: n < |t.kind| ==> Evaluated(k, n)
  }

  /** Two files share a class exactly when their checksums match. */
  ghost predicate FilesBySum(t: Tree, k: Classes)
    requires t.Valid() && |k.of| == |t.kind|
  {
    forall a, b :: 0 <= a < |k.of| && 0 <= b < |k.of| && t.kind[a].File? && t.kind[b].File?
                   && k.of[a].Some? && k.of[b].Some? ==>
      (k.of[a] == k.of[b] <==> t.sum[a] == t.sum[b])
  }

  ghost predicate EmptyDirsTogether(t: Tree, k: Classes)
    requires t.Valid() && |k.of| == |t.kind|
  {
    forall a, b :: 0 <= a < |k.of| && 0 <= b < |k.of| && t.EmptyDir(a) && t.EmptyDir(b)
                   && k.of[a].Some? && k.of[b].Some? ==>
      k.of[a] == k.of[b]
  }

  /** What the propagation starts from: files and empty directories are
      classified, nothing else is. */
  ghost predicate Classified(t: Tree, k: Classes) {
    && Sound(t, k)
    && NoEmptyClass(k)
    && FilesBySum(t, k)
    && EmptyDirsTogether(t, k)
    && LeavesDone(t, k)
    && forall n: nat :: n < |t.kind| && t.FullDir(n) ==> !Evaluated(k, n)
  }

  /** From k to k', no assignment changes, classes only grow at their end, and
      classes of files and of empty directories do not change at all. */
  ghost predicate Extends(t: Tree, k: Classes, k': Classes)
    requires t.Valid() && Partition(t, k) && Partition(t, k')
  {
    && |k.members| <= |k'.members|
    && (forall n :: 0 <= n < |k.of| && k.of[n].Some? ==> k'.of[n] == k.of[n])
    && (forall c :: 0 <= c < |k.members| ==> k.members[c] <= k'.members[c])
    && (forall n :: 0 <= n < |k.of| && k.of[n].Some? && SortOf(t, n) != Full ==>
          var c := k.of[n].value;
          k'.members[c] == k.members[c] && k'.weight[c] == k.weight[c])
  }

  lemma AddNodeExtends(t: Tree, k: Classes, c: nat, n: nat)
    requires WellSorted(t, k) && n < |t.kind| && Ready(t, k, n) && !Evaluated(k, n) && t.FullDir(n)
    requires HoldsSort(t, k, c, n)
    ensures Partition(t, AddNode(t, k, c, n))
    ensures Extends(t, k, AddNode(t, k, c, n))
    ensures NoEmptyClass(k) ==> NoEmptyClass(AddNode(t, k, c, n))
  {
    AddNodeKeepsPartition(t, k, c, n);
    forall m | 0 <= m < |k.of| && k.of[m].Some? && SortOf(t, m) != Full
      ensures k.of[m].value != c
    {
      assert m in k.members[k.of[m].value];
    }
  }

  lemma JoinsKeepsSorts(t: Tree, tolerance: real, k: Classes, n: nat, f: nat, k': Classes)
    requires WellSorted(t, k) && n < |t.kind| && Ready(t, k, n) && !Evaluated(k, n)
    requires Joins(t, tolerance, k, n, f, k')
    ensures WellSorted(t, k') && Extends(t, k, k')
    ensures NoEmptyClass(k) ==> NoEmptyClass(k')
  {
    TargetSort(t, k, n, f);
    AddNodeKeepsSorts(t, k, k.of[f].value, n);
    AddNodeExtends(t, k, k.of[f].value, n);
  }

  lemma FoundsKeepsSorts(t: Tree, tolerance: real, k: Classes, n: nat, k': Classes)
    requires WellSorted(t, k) && n < |t.kind| && Ready(t, k, n) && !Evaluated(k, n) && t.FullDir(n)
    requires Founds(t, tolerance, k, n, k')
    ensures WellSorted(t, k') && Extends(t, k, k')
    ensures NoEmptyClass(k) ==> NoEmptyClass(k')
  {
    PushKeepsSorts(t, k);
    assert Ready(t, Push(k), n);
    AddNodeKeepsSorts(t, Push(k), |k.members|, n);
    AddNodeExtends(t, Push(k), |k.members|, n);
  }

  /** One placement keeps the partition, for any tolerance and any weights. */
  lemma StepKeepsSorts(t: Tree, tolerance: real, k: Classes, n: nat, k': Classes)
    requires WellSorted(t, k) && n < |t.kind| && t.FullDir(n)
    requires Step(t, tolerance, k, n, k')
    ensures WellSorted(t, k') && Extends(t, k, k')
    ensures NoEmptyClass(k) ==> NoEmptyClass(k')
  {
    if f: nat :| Joins(t, tolerance, k, n, f, k') {
      JoinsKeepsSorts(t, tolerance, k, n, f, k');
    } else {
      FoundsKeepsSorts(t, tolerance, k, n, k');
    }
  }

  lemma StepOfRun(t: Tree, tolerance: real, order: seq<nat>, ks: seq<Classes>, i: nat)
    requires t.Valid() && Run(t, tolerance, order, ks) && i < |order|
    ensures |ks| == |order| + 1 && Partition(t, ks[0]) && Partition(t, ks[i]) && Partition(t, ks[i + 1])
    ensures Step(t, tolerance, ks[i], order[i], ks[i + 1])
  {
  }

  lemma LengthsOfRun(t: Tree, tolerance: real, order: seq<nat>, ks: seq<Classes>)
    requires t.Valid() && Run(t, tolerance, order, ks)
    ensures |ks| == |order| + 1 && forall i :: 0 <= i < |ks| ==> Partition(t, ks[i])
  {
  }

  lemma ExtendsItself(t: Tree, k: Classes)
    requires t.Valid() && Partition(t, k)
    ensures Extends(t, k, k)
  {
  }

  lemma ExtendsTransitive(t: Tree, k: Classes, k': Classes, k'': Classes)
    requires t.Valid() && Partition(t, k) && Partition(t, k') && Partition(t, k'')
    requires Extends(t, k, k') && Extends(t, k', k'')
    ensures Extends(t, k, k'')
  {
  }

  /** The node placed next is a directory with entries. */
  lemma NextIsFull(t: Tree, tolerance: real, k0: Classes, k: Classes, n: nat, k': Classes)
    requires t.Valid() && Partition(t, k0) && Partition(t, k) && LeavesDone(t, k0) && Extends(t, k0, k)
    requires Step(t, tolerance, k, n, k')
    ensures n < |t.kind| && t.FullDir(n)
  {
  }

  /** Whatever the order, the ties, the tolerance and the weights, a run keeps
      the partition by sorts, never changes an assignment and never adds to a
      class of files or of empty directories. */
  lemma {:induction false} RunKeeps(t: Tree, tolerance: real, order: seq<nat>, ks: seq<Classes>, i: nat)
    requires t.Valid() && Run(t, tolerance, order, ks) && i < |ks|
    requires WellSorted(t, ks[0]) && LeavesDone(t, ks[0])
    ensures WellSorted(t, ks[i]) && Extends(t, ks[0], ks[i])
    ensures NoEmptyClass(ks[0]) ==> NoEmptyClass(ks[i])
  {
    hide *;
    LengthsOfRun(t, tolerance, order, ks);
    if i == 0 {
      ExtendsItself(t, ks[0]);
    } else {
      StepOfRun(t, tolerance, order, ks, i - 1);
      RunKeeps(t, tolerance, order, ks, i - 1);
      var n := order[i - 1];
      NextIsFull(t, tolerance, ks[0], ks[i - 1], n, ks[i]);
      StepKeepsSorts(t, tolerance, ks[i - 1], n, ks[i]);
      ExtendsTransitive(t, ks[0], ks[i - 1], ks[i]);
    }
  }

  /** Up to a hundred percent it also keeps the gap in the class weights. */
  lemma {:induction false} RunKeepsSound(t: Tree, tolerance: real, order: seq<nat>, ks: seq<Classes>, i: nat)
    requires t.Valid() && Run(t, tolerance, order, ks) && i < |ks| && tolerance <= 1.0
    requires Sound(t, ks[0]) && LeavesDone(t, ks[0])
    ensures Sound(t, ks[i])
  {
    hide *;
    LengthsOfRun(t, tolerance, order, ks);
    if i > 0 {
      StepOfRun(t, tolerance, order, ks, i - 1);
      RunKeepsSound(t, tolerance, order, ks, i - 1);
      SoundIsSorted(t, ks[0]);
      RunKeeps(t, tolerance, order, ks, i - 1);
      NextIsFull(t, tolerance, ks[0], ks[i - 1], order[i - 1], ks[i]);
      StepKeepsSound(t, tolerance, ks[i - 1], order[i - 1], ks[i]);
    }
  }

  lemma SoundIsSorted(t: Tree, k: Classes)
    requires Sound(t, k)
    ensures WellSorted(t, k)
  {
  }

  lemma {:induction false} RunKeepsAlike(t: Tree, tolerance: real, order: seq<nat>, ks: seq<Classes>, i: nat)
    requires t.Valid() && Run(t, tolerance, order, ks) && i < |ks| && 0.0 < tolerance <= 1.0
    requires Sound(t, ks[0]) && LeavesDone(t, ks[0]) && Alike(t, ks[0])
    ensures Alike(t, ks[i])
  {
    hide *;
    LengthsOfRun(t, tolerance, order, ks);
    if i > 0 {
      StepOfRun(t, tolerance, order, ks, i - 1);
      RunKeepsSound(t, tolerance, order, ks, i - 1);
      RunKeepsAlike(t, tolerance, order, ks, i - 1);
      StepKeepsAlike(t, tolerance, ks[i - 1], order[i - 1], ks[i]);
    }
  }

  lemma StepKeepsMeans(t: Tree, tolerance: real, k: Classes, n: nat, k': Classes)
    requires t.Valid() && Partition(t, k) && Means(k) && Step(t, tolerance, k, n, k')
    ensures Means(k')
  {
    if f: nat :| Joins(t, tolerance, k, n, f, k') {
      AddNodeKeepsMeans(t, k, k.of[f].value, n);
    } else {
      PushKeepsMeans(k);
      AddNodeKeepsMeans(t, Push(k), |k.members|, n);
    }
  }

  /** Class weights stay true means, however much they drift during a run. */
  lemma {:induction false} RunKeepsMeans(t: Tree, tolerance: real, order: seq<nat>, ks: seq<Classes>, i: nat)
    requires t.Valid() && Run(t, tolerance, order, ks) && i < |ks| && Means(ks[0])
    ensures Means(ks[i])
  {
    if i > 0 {
      RunKeepsMeans(t, tolerance, order, ks, i - 1);
      StepKeepsMeans(t, tolerance, ks[i - 1], order[i - 1], ks[i]);
    }
  }

  // ------------------------------------------------ exact duplicates are found

  /** What a node holds, names aside: a checksum, or the set of what the
      entries hold.  Entries without a weighty file are pruned. */
  datatype Content = FileOf(sum: Cksum) | DirOf(entries: set<Content>)

  ghost function ContentOf(t: Tree, n: nat): Content
    requires t.Valid() && n < |t.kind|
    decreases t.height[n]
  {
    if t.kind[n].File? then FileOf(t.sum[n])
    else DirOf(set c | c in t.children[n] && t.Weighty(c) :: ContentOf(t, c))
  }

  /** Every weighty entry has a counterpart in a directory with the same content. */
  lemma Counterpart(t: Tree, a: nat, b: nat, c: nat) returns (d: nat)
    requires t.Valid() && a < |t.kind| && b < |t.kind| && t.kind[a].Dir? && t.kind[b].Dir?
    requires ContentOf(t, a) == ContentOf(t, b)
    requires c in t.children[a] && t.Weighty(c)
    ensures d in t.children[b] && t.Weighty(d) && ContentOf(t, d) == ContentOf(t, c)
  {
    assert ContentOf(t, c) in ContentOf(t, a).entries;
    d :| d in t.children[b] && t.Weighty(d) && ContentOf(t, d) == ContentOf(t, c);
  }

  lemma {:induction false} SameContentSameClass(t: Tree, k: Classes, a: nat, b: nat)
    requires Sound(t, k) && Alike(t, k) && FilesBySum(t, k) && Complete(t, k)
    requires a < |t.kind| && b < |t.kind| && t.Weighty(a) && t.Weighty(b)
    requires ContentOf(t, a) == ContentOf(t, b)
    ensures k.of[a] == k.of[b]
    decreases t.height[a], 1
  {
    assert Evaluated(k, a) && Evaluated(k, b);
    if t.kind[a].Dir? {
      SameWeightyClasses(t, k, a, b);
      WeightyHasClasses(t, k, a);
      assert SameEntries(t, k, a, b);
    }
  }

  lemma {:induction false} SameWeightyClasses(t: Tree, k: Classes, a: nat, b: nat)
    requires Sound(t, k) && Alike(t, k) && FilesBySum(t, k) && Complete(t, k)
    requires a < |t.kind| && b < |t.kind| && t.kind[a].Dir? && t.kind[b].Dir?
    requires ContentOf(t, a) == ContentOf(t, b)
    ensures WeightyClasses(t, k, a) == WeightyClasses(t, k, b)
    decreases t.height[a], 0
  {
    forall c | c in t.children[a] && t.Weighty(c)
      ensures k.of[c].Some? && k.of[c].value in WeightyClasses(t, k, b)
    {
      var d := Counterpart(t, a, b, c);
      assert Evaluated(k, c) && Evaluated(k, d);
      SameContentSameClass(t, k, c, d);
    }
    forall d | d in t.children[b] && t.Weighty(d)
      ensures k.of[d].Some? && k.of[d].value in WeightyClasses(t, k, a)
    {
      var c := Counterpart(t, b, a, d);
      assert Evaluated(k, c) && Evaluated(k, d);
      SameContentSameClass(t, k, c, d);
    }
  }

  /** Exact duplicates are always found: after any complete run, in any order
      and with any choice among ties, nodes that hold the same share a class. */
  lemma ExactDuplicates(t: Tree, tolerance: real, order: seq<nat>, ks: seq<Classes>, a: nat, b: nat)
    requires t.Valid() && Run(t, tolerance, order, ks) && 0.0 < tolerance <= 1.0
    requires Classified(t, ks[0]) && Complete(t, ks[|order|])
    requires a < |t.kind| && b < |t.kind| && t.Weighty(a) && t.Weighty(b)
    requires ContentOf(t, a) == ContentOf(t, b)
    ensures ks[|order|].of[a] == ks[|order|].of[b]
  {
    assert Alike(t, ks[0]) by {
      assert forall n: nat :: n < |t.kind| && t.FullDir(n) ==> !Evaluated(ks[0], n);
    }
    RunKeepsAlike(t, tolerance, order, ks, |order|);
    RunKeepsSound(t, tolerance, order, ks, |order|);
    RunKeeps(t, tolerance, order, ks, |order|);
    FilesStayBySum(t, ks[0], ks[|order|]);
    SameContentSameClass(t, ks[|order|], a, b);
  }

  /** Nodes that hold the same share a class. */
  ghost predicate DuplicatesTogether(t: Tree, k: Classes)
    requires t.Valid() && |k.of| == |t.kind|
  {
    forall a: nat, b: nat {:trigger ContentOf(t, a), ContentOf(t, b)} ::
      a < |t.kind| && b < |t.kind| && t.Weighty(a) && t.Weighty(b) && ContentOf(t, a) == ContentOf(t, b) ==>
        k.of[a] == k.of[b]
  }

  lemma AllDuplicatesTogether(t: Tree, tolerance: real, order: seq<nat>, ks: seq<Classes>)
    requires t.Valid() && Run(t, tolerance, order, ks) && 0.0 < tolerance <= 1.0
    requires Classified(t, ks[0]) && Complete(t, ks[|order|])
    ensures DuplicatesTogether(t, ks[|order|])
  {
    forall a: nat, b: nat | a < |t.kind| && b < |t.kind| && t.Weighty(a) && t.Weighty(b)
                         && ContentOf(t, a) == ContentOf(t, b)
      ensures ks[|order|].of[a] == ks[|order|].of[b]
    {
      ExactDuplicates(t, tolerance, order, ks, a, b);
    }
  }

  /** What the leaves were classified by holds for ever. */
  lemma FilesStayBySum(t: Tree, k0: Classes, k1: Classes)
    requires t.Valid() && Partition(t, k0) && Partition(t, k1) && LeavesDone(t, k0) && Extends(t, k0, k1)
    requires FilesBySum(t, k0)
    ensures FilesBySum(t, k1)
    ensures EmptyDirsTogether(t, k0) ==> EmptyDirsTogether(t, k1)
  {
    forall n: nat | n < |t.kind| && !t.FullDir(n)
      ensures k0.of[n].Some? && k1.of[n] == k0.of[n]
    {
      assert Evaluated(k0, n);
    }
  }

  lemma StepSeparates(t: Tree, tolerance: real, k: Classes, n: nat, k': Classes)
    requires t.Valid() && Partition(t, k) && tolerance <= 0.0 && Step(t, tolerance, k, n, k')
    ensures n < |k.of| && k'.of == k.of[n := Some(|k.members|)]
  {
    if f: nat :| Joins(t, tolerance, k, n, f, k') {
      DistRange(t, k, n, f);
      assert false;
    }
  }

  /** With a tolerance of zero the comparison is never met, so every directory
      with entries ends in a class of its own. */
  lemma {:induction false} ZeroToleranceSeparates(t: Tree, tolerance: real, order: seq<nat>, ks: seq<Classes>, i: nat,
                                                  a: nat, b: nat)
    requires t.Valid() && Run(t, tolerance, order, ks) && i < |ks| && tolerance <= 0.0
    requires a < |t.kind| && b < |t.kind| && a != b
    requires !Evaluated(ks[0], a) && Evaluated(ks[i], a) && Evaluated(ks[i], b)
    ensures ks[i].of[a] != ks[i].of[b]
  {
    hide *;
    LengthsOfRun(t, tolerance, order, ks);
    if i > 0 {
      var n := order[i - 1];
      StepOfRun(t, tolerance, order, ks, i - 1);
      StepSeparates(t, tolerance, ks[i - 1], n, ks[i]);
      if a != n && b != n {
        EvaluatedBefore(ks[i - 1], n, |ks[i - 1].members|, ks[i], a, b);
        ZeroToleranceSeparates(t, tolerance, order, ks, i - 1, a, b);
      }
      OwnClass(t, ks[i - 1], n, ks[i], a, b);
    }
  }

  lemma EvaluatedBefore(k: Classes, n: nat, c: nat, k': Classes, a: nat, b: nat)
    requires n < |k.of| && k'.of == k.of[n := Some(c)] && a != n && b != n
    requires Evaluated(k', a) && Evaluated(k', b)
    ensures Evaluated(k, a) && Evaluated(k, b) && a < |k.of| && b < |k.of|
    ensures a < |k'.of| && b < |k'.of| && k'.of[a] == k.of[a] && k'.of[b] == k.of[b]
  {
  }

  lemma OwnClass(t: Tree, k: Classes, n: nat, k': Classes, a: nat, b: nat)
    requires t.Valid() && Partition(t, k) && n < |k.of| && k'.of == k.of[n := Some(|k.members|)]
    requires a != b && Evaluated(k', a) && Evaluated(k', b)
    requires a != n && b != n ==> k'.of[a] != k'.of[b]
    ensures a < |k'.of| && b < |k'.of| && k'.of[a] != k'.of[b]
  {
  }

  /** For a percentage as tolerance, duplicates of directories are found exactly
      when it is not zero, although a directory differs from its duplicate by
      zero percent. */
  lemma DuplicatesFoundExactlyWhen(t: Tree, tolerance: real, order: seq<nat>, ks: seq<Classes>, a: nat, b: nat)
    requires t.Valid() && Run(t, tolerance, order, ks) && tolerance <= 1.0
    requires Classified(t, ks[0]) && Complete(t, ks[|order|])
    requires a < |t.kind| && b < |t.kind| && a != b && t.FullDir(a) && t.Weighty(a) && t.Weighty(b)
    requires ContentOf(t, a) == ContentOf(t, b)
    ensures ks[|order|].of[a] == ks[|order|].of[b] <==> tolerance > 0.0
  {
    if tolerance > 0.0 {
      ExactDuplicates(t, tolerance, order, ks, a, b);
    } else {
      assert Evaluated(ks[|order|], a) && Evaluated(ks[|order|], b);
      ZeroToleranceSeparates(t, tolerance, order, ks, |order|, a, b);
    }
  }

  // --------------------------------------------------- the candidate index

  /** A directory left out by the candidate index is as far away as possible,
      unless neither of the two holds anything that weighs. */
  lemma LeftOut(t: Tree, k: Classes, n: nat, e: nat)
    requires Sound(t, k) && n < |t.kind| && e < |t.kind| && e != n
    requires Ready(t, k, n) && t.FullDir(n) && Evaluated(k, e) && t.FullDir(e)
    requires !IsCandidate(t, k, n, e)
    ensures Dist(t, k, n, e) == if t.Weighty(n) || t.Weighty(e) then 1.0 else 0.0
  {
    assert Ready(t, k, e);
    WeightyHasClasses(t, k, n);
    WeightyHasClasses(t, k, e);
    var A, B := ChildClasses(t, k, n), ChildClasses(t, k, e);
    if t.Weighty(n) {
      WeightyUnion(t, k, n, e);
      DistanceOne(k.weight, A, B);
    } else if t.Weighty(e) {
      WeightyUnion(t, k, e, n);
      assert A + B == B + A;
      DistanceOne(k.weight, A, B);
    } else {
      DistZero(t, k, n, e);
    }
  }

  ghost predicate IsOther(t: Tree, k: Classes, n: nat, e: nat)
    requires t.Valid()
  {
    e < |t.kind| && e != n && Evaluated(k, e) && t.FullDir(e)
  }

  /** The target found by looking at every other evaluated directory. */
  ghost predicate BruteForceTarget(t: Tree, tolerance: real, k: Classes, n: nat, f: nat)
    requires t.Valid() && n < |t.kind|
  {
    && IsOther(t, k, n, f)
    && Dist(t, k, n, f) < tolerance
    && forall e :: IsOther(t, k, n, e) ==> Dist(t, k, n, f) <= Dist(t, k, n, e)
  }

  /** The candidate index loses nothing: for a directory of positive weight it
      yields the very targets that brute force yields. */
  lemma IndexLosesNothing(t: Tree, tolerance: real, k: Classes, n: nat, f: nat)
    requires Sound(t, k) && n < |t.kind| && Ready(t, k, n) && t.Weighty(n) && t.FullDir(n)
    requires tolerance <= 1.0
    ensures JoinTarget(t, tolerance, k, n, f) <==> BruteForceTarget(t, tolerance, k, n, f)
  {
    forall e: nat | IsOther(t, k, n, e) && !IsCandidate(t, k, n, e)
      ensures Dist(t, k, n, e) == 1.0
    {
      LeftOut(t, k, n, e);
    }
    forall e: nat | IsCandidate(t, k, n, e)
      ensures IsOther(t, k, n, e)
    {
    }
  }
}
