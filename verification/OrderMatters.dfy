/** Whether the classes of directories that are merely similar depend on the
    order in which the directories are looked at. */
module OrderMatters {
  import opened Basics
  import opened Sums
  import opened Similarity
  import opened FileTree
  import opened Propagation
  import opened Worklist
  import opened Traversal

  /** Nothing but files and empty directories below a. */
  ghost predicate OnlyLeaves(t: Tree, a: nat)
    requires t.Valid()
  {
    a < |t.kind| && t.FullDir(a) && forall c :: c in t.children[a] ==> c < |t.kind| && !t.FullDir(c)
  }

  /** What the propagation starts from, whatever the weights: the leaves have
      their classes, and nothing else has. */
  ghost predicate Started(t: Tree, k: Classes) {
    && WellSorted(t, k) && LeavesDone(t, k)
    && forall n: nat :: n < |t.kind| && t.FullDir(n) ==> !Evaluated(k, n)
  }

  /** A state reached from k0 in which just the directories of placed are evaluated. */
  ghost predicate Reached(t: Tree, k0: Classes, k: Classes, placed: set<nat>)
    requires t.Valid() && Partition(t, k0)
  {
    && WellSorted(t, k) && Extends(t, k0, k) && LeavesDone(t, k)
    && forall n: nat :: n < |t.kind| && t.FullDir(n) ==> (Evaluated(k, n) <==> n in placed)
  }

  /** The directories share a class of entries and are within the tolerance. */
  ghost predicate Near(t: Tree, tolerance: real, k: Classes, x: nat, y: nat)
    requires t.Valid()
  {
    && x < |t.kind| && y < |t.kind|
    && ChildClasses(t, k, x) * ChildClasses(t, k, y) != {}
    && Dist(t, k, x, y) < tolerance
  }

  lemma NearSymmetric(t: Tree, tolerance: real, k: Classes, x: nat, y: nat)
    requires t.Valid()
    ensures Near(t, tolerance, k, x, y) <==> Near(t, tolerance, k, y, x)
  {
    if x < |t.kind| && y < |t.kind| {
      var A, B := ChildClasses(t, k, x), ChildClasses(t, k, y);
      assert A * B == B * A;
      DistanceSymmetric(k.weight, A, B);
    }
  }

  /** Up to a hundred percent, a directory that weighs something is near all
      those within the tolerance. */
  lemma NearByDistance(t: Tree, tolerance: real, k: Classes, x: nat, y: nat)
    requires Sound(t, k) && tolerance <= 1.0 && x < |t.kind| && y < |t.kind|
    requires Ready(t, k, x) && t.FullDir(x) && t.Weighty(x)
    ensures Near(t, tolerance, k, x, y) <==> Dist(t, k, x, y) < tolerance
  {
    WeightyHasClasses(t, k, x);
    WeightyUnion(t, k, x, y);
    DistanceOne(k.weight, ChildClasses(t, k, x), ChildClasses(t, k, y));
  }

  // -------------------------------------------------- placing one directory

  lemma LeafClassesFixed(t: Tree, k0: Classes, k: Classes, placed: set<nat>, x: nat)
    requires Started(t, k0) && Reached(t, k0, k, placed) && OnlyLeaves(t, x)
    ensures Ready(t, k, x)
    ensures ChildClasses(t, k, x) == ChildClasses(t, k0, x)
    ensures forall c :: c in ChildClasses(t, k0, x) ==> c < |k0.weight| <= |k.weight| && k.weight[c] == k0.weight[c]
  {
    forall m | m in t.children[x]
      ensures Evaluated(k0, m) && k.of[m] == k0.of[m] && SortOf(t, m) != Full
    {
      assert !t.FullDir(m);
    }
  }

  /** Which directories of leaves are near each other is fixed from the start. */
  lemma NearIsFixed(t: Tree, tolerance: real, k0: Classes, k: Classes, placed: set<nat>, x: nat, y: nat)
    requires Started(t, k0) && Reached(t, k0, k, placed) && OnlyLeaves(t, x) && OnlyLeaves(t, y)
    ensures Near(t, tolerance, k, x, y) <==> Near(t, tolerance, k0, x, y)
    ensures Dist(t, k, x, y) == Dist(t, k0, x, y)
  {
    LeafClassesFixed(t, k0, k, placed, x);
    LeafClassesFixed(t, k0, k, placed, y);
    var A, B := ChildClasses(t, k0, x), ChildClasses(t, k0, y);
    TotalLonger(Floors(k0.weight), Floors(k.weight), A + B);
    TotalLonger(Floors(k0.weight), Floors(k.weight), SymDiff(A, B));
  }

  /** What a directory of leaves may join is what is near and placed. */
  lemma TargetsArePlaced(t: Tree, tolerance: real, k0: Classes, k: Classes, placed: set<nat>, n: nat, m: nat)
    requires Started(t, k0) && Reached(t, k0, k, placed) && OnlyLeaves(t, n) && n !in placed
    requires forall d :: d in placed ==> OnlyLeaves(t, d)
    ensures IsCandidate(t, k, n, m) && Dist(t, k, n, m) < tolerance <==> m in placed && Near(t, tolerance, k0, n, m)
    ensures m in placed ==> m < |t.kind| && Dist(t, k, n, m) == Dist(t, k0, n, m)
  {
    if IsCandidate(t, k, n, m) {
      assert t.FullDir(m);
    }
    if m in placed {
      NearIsFixed(t, tolerance, k0, k, placed, n, m);
    }
  }

  /** What one more placement leaves behind. */
  lemma OnePlaced(t: Tree, tolerance: real, k0: Classes, k: Classes, placed: set<nat>, n: nat, k': Classes)
    requires Started(t, k0) && Reached(t, k0, k, placed)
    requires n < |t.kind| && t.FullDir(n) && Step(t, tolerance, k, n, k')
    ensures Reached(t, k0, k', placed + {n})
  {
    StepKeepsSorts(t, tolerance, k, n, k');
    ExtendsTransitive(t, k0, k, k');
    var c := StepAddsOne(t, tolerance, k, n, k');
  }

  /** A directory of leaves near to a placed one joins the class of the closest
      that it is near to. */
  lemma StepNear(t: Tree, tolerance: real, k0: Classes, k: Classes, placed: set<nat>, n: nat, m: nat, k': Classes)
      returns (f: nat)
    requires Started(t, k0) && Reached(t, k0, k, placed) && OnlyLeaves(t, n) && n !in placed
    requires forall d :: d in placed ==> OnlyLeaves(t, d)
    requires m in placed && Near(t, tolerance, k0, n, m)
    requires Step(t, tolerance, k, n, k')
    ensures f in placed && Near(t, tolerance, k0, n, f)
    ensures f < |k.of| && n < |k.of| && k'.of == k.of[n := k.of[f]]
    ensures forall e :: e in placed && Near(t, tolerance, k0, n, e) ==> Dist(t, k0, n, f) <= Dist(t, k0, n, e)
  {
    TargetsArePlaced(t, tolerance, k0, k, placed, n, m);
    f :| Joins(t, tolerance, k, n, f, k');
    TargetsArePlaced(t, tolerance, k0, k, placed, n, f);
    forall e | e in placed && Near(t, tolerance, k0, n, e)
      ensures Dist(t, k0, n, f) <= Dist(t, k0, n, e)
    {
      TargetsArePlaced(t, tolerance, k0, k, placed, n, e);
    }
  }

  /** One that is not near to any placed one gets a class of its own. */
  lemma StepFar(t: Tree, tolerance: real, k0: Classes, k: Classes, placed: set<nat>, n: nat, k': Classes)
    requires Started(t, k0) && Reached(t, k0, k, placed) && OnlyLeaves(t, n) && n !in placed
    requires forall d :: d in placed ==> OnlyLeaves(t, d)
    requires forall m :: m in placed ==> !Near(t, tolerance, k0, n, m)
    requires Step(t, tolerance, k, n, k')
    ensures n < |k.of| && k'.of == k.of[n := Some(|k.members|)]
    ensures forall m: nat :: Evaluated(k, m) ==> k.of[m].value < |k.members|
  {
    if f: nat :| Joins(t, tolerance, k, n, f, k') {
      TargetsArePlaced(t, tolerance, k0, k, placed, n, f);
      assert false;
    }
  }

  /** Among finitely many candidates one is closest. */
  lemma {:induction false} Closest(t: Tree, k: Classes, n: nat, placed: set<nat>, m: nat) returns (f: nat)
    requires t.Valid() && n < |t.kind| && IsCandidate(t, k, n, m) && m in placed
    requires forall e :: IsCandidate(t, k, n, e) ==> e in placed
    ensures IsCandidate(t, k, n, f) && f in placed && Dist(t, k, n, f) <= Dist(t, k, n, m)
    ensures forall e :: IsCandidate(t, k, n, e) ==> Dist(t, k, n, f) <= Dist(t, k, n, e)
  {
    var best := m;
    var rest := placed - {m};
    while rest != {}
      invariant IsCandidate(t, k, n, best) && best in placed && rest <= placed
      invariant Dist(t, k, n, best) <= Dist(t, k, n, m)
      invariant forall e :: IsCandidate(t, k, n, e) && e !in rest ==> Dist(t, k, n, best) <= Dist(t, k, n, e)
    {
      var e :| e in rest;
      if IsCandidate(t, k, n, e) && Dist(t, k, n, e) < Dist(t, k, n, best) {
        best := e;
      }
      rest := rest - {e};
    }
    f := best;
  }

  /** A run never gets stuck: every ready node can be placed. */
  lemma CanPlace(t: Tree, tolerance: real, k: Classes, n: nat) returns (k': Classes)
    requires t.Valid() && Partition(t, k) && n < |t.kind| && Ready(t, k, n) && !Evaluated(k, n)
    ensures Step(t, tolerance, k, n, k') && Partition(t, k')
  {
    if m: nat :| IsCandidate(t, k, n, m) && Dist(t, k, n, m) < tolerance {
      var f := Closest(t, k, n, (set e: nat | e < |t.kind| && IsCandidate(t, k, n, e)), m);
      k' := AddNode(t, k, k.of[f].value, n);
      assert Joins(t, tolerance, k, n, f, k');
      AddNodeKeepsPartition(t, k, k.of[f].value, n);
    } else {
      PushKeepsPartition(t, k);
      k' := AddNode(t, Push(k), |k.members|, n);
      assert Founds(t, tolerance, k, n, k');
      AddNodeKeepsPartition(t, Push(k), |k.members|, n);
    }
  }

  // ------------------------------------------------------- runs and their end

  lemma RunNext(t: Tree, tolerance: real, order: seq<nat>, ks: seq<Classes>, n: nat) returns (ks': seq<Classes>)
    requires t.Valid() && Run(t, tolerance, order, ks)
    requires Ready(t, ks[|order|], n) && !Evaluated(ks[|order|], n)
    ensures ks <= ks' && |ks'| == |ks| + 1 == |order| + 2 && Run(t, tolerance, order + [n], ks')
    ensures Unevaluated(ks'[|order| + 1].of) < Unevaluated(ks[|order|].of)
  {
    var k' := CanPlace(t, tolerance, ks[|order|], n);
    RunPush(t, tolerance, order, ks, n, k');
    ks' := ks + [k'];
    var c := StepAddsOne(t, tolerance, ks[|order|], n, k');
    UnevaluatedDrops(ks[|order|].of, n, c);
  }

  lemma EndOfRun(t: Tree, tolerance: real, order: seq<nat>, ks: seq<Classes>)
    requires t.Valid() && Run(t, tolerance, order, ks)
    ensures |ks| == |order| + 1 && |ks[|order|].of| == |t.kind|
  {
  }

  /** Every run can be continued until everything is evaluated. */
  lemma {:induction false} CanFinish(t: Tree, tolerance: real, order: seq<nat>, ks: seq<Classes>)
      returns (order': seq<nat>, ks': seq<Classes>)
    requires t.Valid() && Run(t, tolerance, order, ks)
    ensures order <= order' && ks <= ks' && Run(t, tolerance, order', ks') && Complete(t, ks'[|order'|])
    decreases Unevaluated(ks[|order|].of)
  {
    hide *;
    EndOfRun(t, tolerance, order, ks);
    var k := ks[|order|];
    if n: nat :| Ready(t, k, n) && !Evaluated(k, n) {
      var ls := RunNext(t, tolerance, order, ks, n);
      order', ks' := CanFinish(t, tolerance, order + [n], ls);
    } else {
      AllPlaced(t, k);
      order', ks' := order, ks;
    }
  }

  /** Once assigned, classes stay assigned. */
  lemma {:induction false} AssignedForEver(t: Tree, tolerance: real, order: seq<nat>, ks: seq<Classes>, j: nat, i: nat,
                                           x: nat)
    requires t.Valid() && Run(t, tolerance, order, ks) && j <= i <= |order|
    requires Evaluated(ks[j], x)
    ensures Evaluated(ks[i], x) && ks[i].of[x] == ks[j].of[x]
  {
    if j < i {
      AssignedForEver(t, tolerance, order, ks, j, i - 1, x);
      var d := StepAddsOne(t, tolerance, ks[i - 1], order[i - 1], ks[i]);
    }
  }

  ghost function FirstOf(ds: seq<nat>, i: nat): set<nat>
    requires i <= |ds|
  {
    set d | d in ds[..i]
  }

  lemma FirstOfNext(ds: seq<nat>, i: nat)
    requires i < |ds|
    ensures FirstOf(ds, i + 1) == FirstOf(ds, i) + {ds[i]}
  {
    assert ds[..i + 1] == ds[..i] + [ds[i]];
  }

  lemma StartReached(t: Tree, k0: Classes)
    requires Started(t, k0)
    ensures t.Valid() && Partition(t, k0) && Reached(t, k0, k0, {})
  {
  }

  lemma ReachedParts(t: Tree, k0: Classes, k: Classes, placed: set<nat>)
    requires t.Valid() && Partition(t, k0) && Reached(t, k0, k, placed)
    ensures Partition(t, k) && |k.of| == |t.kind| && LeavesDone(t, k) && Extends(t, k0, k) && WellSorted(t, k)
    ensures forall n: nat :: n < |t.kind| && t.FullDir(n) ==> (Evaluated(k, n) <==> n in placed)
  {
  }

  /** After i steps just the first i directories are placed. */
  lemma {:induction false} RunReaches(t: Tree, tolerance: real, order: seq<nat>, ks: seq<Classes>, i: nat)
    requires t.Valid() && Run(t, tolerance, order, ks) && i <= |order| && Started(t, ks[0])
    ensures Partition(t, ks[0]) && Reached(t, ks[0], ks[i], FirstOf(order, i))
  {
    hide *;
    LengthsOfRun(t, tolerance, order, ks);
    StartReached(t, ks[0]);
    if i == 0 {
      assert FirstOf(order, 0) == {} by {
        NoneFirst(order);
      }
    } else {
      StepOfRun(t, tolerance, order, ks, i - 1);
      RunReaches(t, tolerance, order, ks, i - 1);
      ReachedParts(t, ks[0], ks[i - 1], FirstOf(order, i - 1));
      ReachedParts(t, ks[0], ks[0], {});
      NextIsFull(t, tolerance, ks[0], ks[i - 1], order[i - 1], ks[i]);
      OnePlaced(t, tolerance, ks[0], ks[i - 1], FirstOf(order, i - 1), order[i - 1], ks[i]);
      FirstOfNext(order, i - 1);
    }
  }

  lemma NoneFirst(order: seq<nat>)
    ensures FirstOf(order, 0) == {}
  {
  }

  /** What is known before the i-th step of a run over directories of leaves. */
  lemma NextOfRun(t: Tree, tolerance: real, order: seq<nat>, ks: seq<Classes>, i: nat)
    requires t.Valid() && Run(t, tolerance, order, ks) && i < |order| && Started(t, ks[0])
    requires forall j :: 0 <= j <= i ==> OnlyLeaves(t, order[j])
    ensures |ks| == |order| + 1 && Partition(t, ks[0]) && Partition(t, ks[i])
    ensures |ks[i].of| == |ks[i + 1].of| == |t.kind|
    ensures Reached(t, ks[0], ks[i], FirstOf(order, i)) && order[i] !in FirstOf(order, i)
    ensures forall d :: d in FirstOf(order, i) ==> OnlyLeaves(t, d)
    ensures order[i] < |t.kind| && Step(t, tolerance, ks[i], order[i], ks[i + 1])
  {
    RunReaches(t, tolerance, order, ks, i);
    StepOfRun(t, tolerance, order, ks, i);
    var c := StepAddsOne(t, tolerance, ks[i], order[i], ks[i + 1]);
  }

  // ------------------------------------------------------- sharing a class

  ghost predicate SameClass(k: Classes, x: nat, y: nat) {
    Evaluated(k, x) && Evaluated(k, y) && k.of[x] == k.of[y]
  }

  /** Together once placed, together for ever. */
  lemma StaysTogether(t: Tree, tolerance: real, order: seq<nat>, ks: seq<Classes>, i: nat, x: nat, y: nat)
    requires t.Valid() && Run(t, tolerance, order, ks) && i <= |order| && Evaluated(ks[i], x) && Evaluated(ks[i], y)
    ensures SameClass(ks[|order|], x, y) <==> SameClass(ks[i], x, y)
  {
    AssignedForEver(t, tolerance, order, ks, i, |order|, x);
    AssignedForEver(t, tolerance, order, ks, i, |order|, y);
  }

  // --------------------------------------------------------------- nearness

  ghost predicate SameOrNear(t: Tree, tolerance: real, k: Classes, x: nat, y: nat)
    requires t.Valid()
  {
    x == y || Near(t, tolerance, k, x, y)
  }

  /** Directories of leaves that are near the same one are near each other. */
  ghost predicate NearIsTransitive(t: Tree, tolerance: real, k: Classes)
    requires t.Valid()
  {
    forall x, y, z {:trigger Near(t, tolerance, k, x, y), Near(t, tolerance, k, y, z)} ::
      (OnlyLeaves(t, x) && OnlyLeaves(t, y) && OnlyLeaves(t, z)
       && Near(t, tolerance, k, x, y) && Near(t, tolerance, k, y, z)) ==> SameOrNear(t, tolerance, k, x, z)
  }

  lemma PlacedAreEvaluated(t: Tree, k0: Classes, k: Classes, placed: set<nat>)
    requires t.Valid() && Partition(t, k0) && Reached(t, k0, k, placed)
    requires forall d :: d in placed ==> OnlyLeaves(t, d)
    ensures forall d :: d in placed ==> d < |k.of| == |t.kind| && Evaluated(k, d)
  {
  }

  /** What is ready at the start are the directories of leaves. */
  lemma ReadyMeansOnlyLeaves(t: Tree, k: Classes, n: nat)
    requires Started(t, k)
    ensures Ready(t, k, n) && !Evaluated(k, n) <==> OnlyLeaves(t, n)
  {
    if Ready(t, k, n) && !Evaluated(k, n) {
      assert t.FullDir(n);
      forall c | c in t.children[n]
        ensures c < |t.kind| && !t.FullDir(c)
      {
        assert Evaluated(k, c);
      }
    }
  }

  /** The program places the directories of leaves first. */
  lemma LeafDirsFirst(t: Tree, root: nat, tolerance: real, k: Classes, order: seq<nat>, ks: seq<Classes>)
      returns (i: nat)
    requires Started(t, k) && t.Rooted(root) && ProgramRun(t, root, tolerance, k, order, ks)
    ensures Run(t, tolerance, order, ks) && |ks| == |order| + 1 && ks[0] == k
    ensures i <= |order| && order[..i] == FirstQueue(t, k, root)
    ensures forall n: nat :: n in order[..i] <==> OnlyLeaves(t, n)
    ensures forall j :: 0 <= j < i ==> OnlyLeaves(t, order[j])
  {
    StartsWithFirst(t, root, tolerance, k, order, ks);
    FirstQueueIsWorklist(t, k, root);
    var first := FirstQueue(t, k, root);
    i := |first|;
    forall n: nat
      ensures n in first <==> OnlyLeaves(t, n)
    {
      ReadyMeansOnlyLeaves(t, k, n);
    }
    hide OnlyLeaves, InQueueOrder, FirstQueue, Contiguous, Started;
    assert forall j :: 0 <= j < i ==> first[j] in first;
  }
}
