/** What the program does to the directories of leaves, said without any run:
    each is linked to the closest of those before it. */
module Linking {
  import opened Basics
  import opened FileTree
  import opened Propagation
  import opened Worklist
  import opened Traversal
  import opened OrderMatters
  import opened EntryOrder

  /** ds[j] is near to one that precedes it. */
  ghost predicate NearEarlier(t: Tree, tolerance: real, k: Classes, ds: seq<nat>, j: nat)
    requires t.Valid() && j < |ds|
  {
    exists m :: 0 <= m < j && Near(t, tolerance, k, ds[j], ds[m])
  }

  /** ds[l] is the closest among those before ds[i] that are near to it. */
  ghost predicate IsClosest(t: Tree, tolerance: real, k: Classes, ds: seq<nat>, i: nat, l: nat)
    requires t.Valid() && l < i < |ds|
  {
    && Near(t, tolerance, k, ds[i], ds[l])
    && forall m :: 0 <= m < i && Near(t, tolerance, k, ds[i], ds[m]) ==>
         Dist(t, k, ds[i], ds[l]) <= Dist(t, k, ds[i], ds[m])
  }

  /** ds[i] may be linked to ds[l], or to nothing, which is to itself. */
  ghost predicate LinkOk(t: Tree, tolerance: real, k: Classes, ds: seq<nat>, i: nat, l: nat)
    requires t.Valid() && i < |ds|
  {
    if NearEarlier(t, tolerance, k, ds, i) then l < i && IsClosest(t, tolerance, k, ds, i, l) else l == i
  }

  ghost predicate Links(t: Tree, tolerance: real, k: Classes, ds: seq<nat>, f: seq<nat>)
    requires t.Valid()
  {
    |f| == |ds| && forall i :: 0 <= i < |ds| ==> LinkOk(t, tolerance, k, ds, i, f[i])
  }

  /** Where the links lead to from i. */
  ghost function Head(f: seq<nat>, i: nat): (h: nat)
    ensures h <= i
  {
    if i < |f| && f[i] < i then Head(f, f[i]) else i
  }

  lemma {:induction false} HeadPrefix(f: seq<nat>, f': seq<nat>, i: nat)
    requires f <= f' && i < |f|
    ensures Head(f', i) == Head(f, i)
  {
    if f[i] < i {
      HeadPrefix(f, f', f[i]);
    }
  }

  /** The first i of ds share classes as the links say. */
  ghost predicate ByLinks(k: Classes, ds: seq<nat>, i: nat, f: seq<nat>)
    requires i <= |ds|
  {
    forall a, b :: 0 <= a < i && 0 <= b < i ==>
      (SameClass(k, ds[a], ds[b]) <==> Head(f, a) == Head(f, b))
  }

  lemma LinkedByLinks(k: Classes, ds: seq<nat>, i: nat, f: seq<nat>, k': Classes)
    requires i < |ds| && i < |f| && f[i] < i && ds[i] !in ds[..i] && ByLinks(k, ds, i, f)
    requires ds[i] < |k.of| && Evaluated(k, ds[f[i]]) && k'.of == k.of[ds[i] := k.of[ds[f[i]]]]
    ensures ByLinks(k', ds, i + 1, f)
  {
    forall a | 0 <= a < i
      ensures ds[a] != ds[i] && (SameClass(k, ds[a], ds[f[i]]) <==> Head(f, a) == Head(f, i))
    {
      assert ds[..i][a] == ds[a];
    }
  }

  lemma FoundByLinks(k: Classes, ds: seq<nat>, i: nat, f: seq<nat>, c: nat, k': Classes)
    requires i < |ds| && i < |f| && f[i] == i && ds[i] !in ds[..i] && ByLinks(k, ds, i, f)
    requires ds[i] < |k.of| && k'.of == k.of[ds[i] := Some(c)]
    requires forall m: nat :: Evaluated(k, m) ==> k.of[m].value < c
    ensures ByLinks(k', ds, i + 1, f)
  {
    forall a | 0 <= a < i
      ensures ds[a] != ds[i] && Head(f, a) < i
    {
      assert ds[..i][a] == ds[a];
    }
  }

  // ----------------------------------------------- what a run does are links

  /** The next placement is a link. */
  lemma StepLinks(t: Tree, tolerance: real, order: seq<nat>, ks: seq<Classes>, i: nat, f: seq<nat>) returns (l: nat)
    requires t.Valid() && Run(t, tolerance, order, ks) && i < |order| && Started(t, ks[0]) && |f| == i
    requires forall j :: 0 <= j <= i ==> OnlyLeaves(t, order[j])
    requires ByLinks(ks[i], order, i, f)
    ensures LinkOk(t, tolerance, ks[0], order, i, l) && ByLinks(ks[i + 1], order, i + 1, f + [l])
  {
    NextOfRun(t, tolerance, order, ks, i);
    NextMembers(order, i);
    PlacedAreEvaluated(t, ks[0], ks[i], FirstOf(order, i));
    hide Run, Started, Reached, Near, OnlyLeaves, Step, Evaluated, SameClass;
    if NearEarlier(t, tolerance, ks[0], order, i) {
      var m :| 0 <= m < i && Near(t, tolerance, ks[0], order[i], order[m]);
      var e := StepNear(t, tolerance, ks[0], ks[i], FirstOf(order, i), order[i], order[m], ks[i + 1]);
      l :| 0 <= l < i && order[l] == e;
      LinksKeep(ks[i], order, i, f, l);
      LinkedByLinks(ks[i], order, i, f + [l], ks[i + 1]);
    } else {
      l := i;
      assert forall m :: m in FirstOf(order, i) ==> !Near(t, tolerance, ks[0], order[i], m);
      StepFar(t, tolerance, ks[0], ks[i], FirstOf(order, i), order[i], ks[i + 1]);
      LinksKeep(ks[i], order, i, f, l);
      FoundByLinks(ks[i], order, i, f + [l], |ks[i].members|, ks[i + 1]);
    }
  }

  lemma NextMembers(order: seq<nat>, i: nat)
    requires i < |order|
    ensures forall e :: e in FirstOf(order, i) <==> exists j :: 0 <= j < i && order[j] == e
    ensures forall j :: 0 <= j < i ==> order[j] in FirstOf(order, i)
    ensures order[i] !in FirstOf(order, i) ==> order[i] !in order[..i]
  {
    assert forall j :: 0 <= j < i ==> order[..i][j] == order[j];
  }

  lemma LinksKeep(k: Classes, ds: seq<nat>, i: nat, f: seq<nat>, l: nat)
    requires i == |f| <= |ds| && ByLinks(k, ds, i, f)
    ensures ByLinks(k, ds, i, f + [l])
  {
    forall a | 0 <= a < i
      ensures Head(f + [l], a) == Head(f, a)
    {
      HeadPrefix(f, f + [l], a);
    }
  }

  lemma NoLinks(k: Classes, ds: seq<nat>)
    ensures ByLinks(k, ds, 0, [])
  {
  }

  lemma {:induction false} RunLinks(t: Tree, tolerance: real, order: seq<nat>, ks: seq<Classes>, i: nat)
      returns (f: seq<nat>)
    requires t.Valid() && Run(t, tolerance, order, ks) && i <= |order| && Started(t, ks[0])
    requires forall j :: 0 <= j < i ==> OnlyLeaves(t, order[j])
    ensures |f| == i && (forall j :: 0 <= j < i ==> LinkOk(t, tolerance, ks[0], order, j, f[j]))
    ensures ByLinks(ks[i], order, i, f)
  {
    hide *;
    LengthsOfRun(t, tolerance, order, ks);
    if i == 0 {
      f := [];
      NoLinks(ks[0], order);
    } else {
      var g := RunLinks(t, tolerance, order, ks, i - 1);
      var l := StepLinks(t, tolerance, order, ks, i - 1, g);
      f := g + [l];
    }
  }

  // ------------------------------------------------ all links come from runs

  /** The closest near directory can be joined. */
  lemma CanJoin(t: Tree, tolerance: real, k0: Classes, k: Classes, placed: set<nat>, n: nat, e: nat)
      returns (k': Classes)
    requires Started(t, k0) && Reached(t, k0, k, placed) && OnlyLeaves(t, n) && n !in placed
    requires forall d :: d in placed ==> OnlyLeaves(t, d)
    requires e in placed && Near(t, tolerance, k0, n, e)
    requires forall m :: m in placed && Near(t, tolerance, k0, n, m) ==> Dist(t, k0, n, e) <= Dist(t, k0, n, m)
    ensures Partition(t, k) && Partition(t, k') && Step(t, tolerance, k, n, k')
    ensures n < |k.of| && e < |k.of| && k'.of == k.of[n := k.of[e]]
  {
    LeafClassesFixed(t, k0, k, placed, n);
    TargetsArePlaced(t, tolerance, k0, k, placed, n, e);
    forall c | IsCandidate(t, k, n, c)
      ensures Dist(t, k, n, e) <= Dist(t, k, n, c)
    {
      TargetsArePlaced(t, tolerance, k0, k, placed, n, c);
    }
    k' := AddNode(t, k, k.of[e].value, n);
    assert Joins(t, tolerance, k, n, e, k');
    AddNodeKeepsPartition(t, k, k.of[e].value, n);
  }

  /** A placement that makes the given link. */
  lemma CanLink(t: Tree, tolerance: real, order: seq<nat>, ks: seq<Classes>, ds: seq<nat>, f: seq<nat>)
      returns (k': Classes)
    requires t.Valid() && Run(t, tolerance, order, ks) && Started(t, ks[0]) && |order| < |ds| && order == ds[..|order|]
    requires (forall d :: d in ds ==> OnlyLeaves(t, d)) && NoRepeats(ds) && Links(t, tolerance, ks[0], ds, f)
    requires ByLinks(ks[|order|], ds, |order|, f)
    ensures |ks| == |order| + 1 && Partition(t, ks[|order|]) && Partition(t, k')
    ensures Step(t, tolerance, ks[|order|], ds[|order|], k')
    ensures ByLinks(k', ds, |order| + 1, f)
  {
    var i, n := |order|, ds[|order|];
    var k0, k, P := ks[0], ks[i], FirstOf(ds, i);
    RunReaches(t, tolerance, order, ks, i);
    assert order[..i] == ds[..i] && FirstOf(order, i) == P;
    NextMembers(ds, i);
    assert n in ds && n !in ds[..i] && LinkOk(t, tolerance, k0, ds, i, f[i]);
    EndOfRun(t, tolerance, order, ks);
    LeafClassesFixed(t, k0, k, P, n);
    PlacedAreEvaluated(t, k0, k, P);
    hide Run, Started, Reached, Near, OnlyLeaves, Step, Links;
    if f[i] < i {
      k' := CanJoin(t, tolerance, k0, k, P, n, ds[f[i]]);
      LinkedByLinks(k, ds, i, f, k');
    } else {
      LeafIsUnplaced(t, k0, k, P, n);
      k' := CanPlace(t, tolerance, k, n);
      assert forall m :: m in P ==> !Near(t, tolerance, k0, n, m);
      StepFar(t, tolerance, k0, k, P, n, k');
      FoundByLinks(k, ds, i, f, |k.members|, k');
    }
  }

  lemma LeafIsUnplaced(t: Tree, k0: Classes, k: Classes, placed: set<nat>, n: nat)
    requires t.Valid() && Partition(t, k0) && Reached(t, k0, k, placed) && OnlyLeaves(t, n) && n !in placed
    ensures n < |t.kind| && Partition(t, k) && !Evaluated(k, n)
  {
  }

  /** From the front of a queue that begins with the rest of ds. */
  lemma {:induction false} QueueFollows(t: Tree, tolerance: real, ds: seq<nat>, f: seq<nat>, order: seq<nat>,
                                        ks: seq<Classes>, queue: seq<nat>)
      returns (order': seq<nat>, ks': seq<Classes>)
    requires t.Valid() && Run(t, tolerance, order, ks) && Started(t, ks[0])
    requires Closed(t, ks[|order|]) && |order| <= |ds| && order == ds[..|order|]
    requires (forall d :: d in ds ==> OnlyLeaves(t, d)) && NoRepeats(ds) && Links(t, tolerance, ks[0], ds, f)
    requires ByLinks(ks[|order|], ds, |order|, f)
    requires IsWorklist(t, ks[|order|], queue) && InQueueOrder(t, ds, order, ks, queue)
    ensures Run(t, tolerance, order', ks') && Complete(t, ks'[|order'|]) && ks'[0] == ks[0]
    ensures InQueueOrder(t, ds, order', ks', [])
    ensures ByLinks(ks'[|order'|], ds, |ds|, f)
    decreases |ds| - |order|
  {
    hide *;
    EndOfRun(t, tolerance, order, ks);
    if |order| == |ds| {
      order', ks' := QueueFinishes(t, tolerance, ds, order, ks, queue);
      EndOfRun(t, tolerance, order', ks');
      assert order == ds && order'[..|ds|] == ds && ks'[|ds|] == ks[|ds|];
      LinksStay(t, tolerance, ds, f, order', ks');
    } else {
      QueueFront(t, ds, order, ks, queue);
      var k, n := ks[|order|], ds[|order|];
      FrontIsReady(t, k, queue);
      ReadyInRange(t, k, n);
      var k' := CanLink(t, tolerance, order, ks, ds, f);
      RunPush(t, tolerance, order, ks, n, k');
      var c := StepAddsOne(t, tolerance, k, n, k');
      ClosedNext(t, k, n, c, k');
      QueueMoves(t, ds, order, ks, queue, k');
      var p := t.parent[n];
      var queue' := queue[1..] + if p.Some? && Ready(t, k', p.value) then [p.value] else [];
      NextWorklist(t, k, k', queue, queue', c);
      assert order + [n] == ds[..|order| + 1];
      order', ks' := QueueFollows(t, tolerance, ds, f, order + [n], ks + [k'], queue');
    }
  }

  lemma LinksStay(t: Tree, tolerance: real, ds: seq<nat>, f: seq<nat>, order: seq<nat>, ks: seq<Classes>)
    requires t.Valid() && Run(t, tolerance, order, ks) && |ds| <= |order| && ds == order[..|ds|]
    requires ByLinks(ks[|ds|], ds, |ds|, f)
    ensures ByLinks(ks[|order|], ds, |ds|, f)
  {
    hide *;
    EndOfRun(t, tolerance, order, ks);
    forall a: nat, b: nat | a < |ds| && b < |ds|
      ensures SameClass(ks[|order|], ds[a], ds[b]) <==> Head(f, a) == Head(f, b)
    {
      PlacedByLinks(ks[|ds|], ds, |ds|, f, a, b);
      StaysTogether(t, tolerance, order, ks, |ds|, ds[a], ds[b]);
    }
    AllByLinks(ks[|order|], ds, f);
  }

  lemma PlacedByLinks(k: Classes, ds: seq<nat>, i: nat, f: seq<nat>, a: nat, b: nat)
    requires i <= |ds| && ByLinks(k, ds, i, f) && a < i && b < i
    ensures Evaluated(k, ds[a]) && Evaluated(k, ds[b])
    ensures SameClass(k, ds[a], ds[b]) <==> Head(f, a) == Head(f, b)
  {
    assert SameClass(k, ds[a], ds[a]) && SameClass(k, ds[b], ds[b]);
  }

  lemma AllByLinks(k: Classes, ds: seq<nat>, f: seq<nat>)
    requires forall a: nat, b: nat :: a < |ds| && b < |ds| ==>
               (SameClass(k, ds[a], ds[b]) <==> Head(f, a) == Head(f, b))
    ensures ByLinks(k, ds, |ds|, f)
  {
    hide SameClass;
  }

  lemma QueueFront(t: Tree, ds: seq<nat>, order: seq<nat>, ks: seq<Classes>, queue: seq<nat>)
    requires t.Valid() && InQueueOrder(t, ds, order, ks, queue) && |order| < |ds|
    ensures queue != [] && queue[0] == ds[|order|]
  {
    assert (order + queue)[|order|] == ds[|order|];
  }

  // ------------------------------------------------- the exact condition

  ghost predicate LinkedListing(t: Tree, tolerance: real, k: Classes, ds: seq<nat>, f: seq<nat>)
    requires t.Valid()
  {
    IsListing(t, ds) && Links(t, tolerance, k, ds, f)
  }

  ghost function HeadOf(ds: seq<nat>, f: seq<nat>, x: nat): nat {
    Head(f, Index(ds, x))
  }

  /** The links of ds and those of es lead the same directories together. */
  ghost predicate SameHeads(t: Tree, ds: seq<nat>, f: seq<nat>, es: seq<nat>, g: seq<nat>)
    requires t.Valid()
  {
    forall x, y :: OnlyLeaves(t, x) && OnlyLeaves(t, y) ==>
      (HeadOf(ds, f, x) == HeadOf(ds, f, y) <==> HeadOf(es, g, x) == HeadOf(es, g, y))
  }

  /** In whatever order the directories of leaves are listed, and whatever closest
      ones are chosen, the links lead the same ones together.  This takes nothing
      but their distances at the start. */
  ghost predicate LinkedAlike(t: Tree, tolerance: real, k: Classes)
    requires t.Valid()
  {
    forall ds, f, es, g
      {:trigger LinkedListing(t, tolerance, k, ds, f), LinkedListing(t, tolerance, k, es, g)} ::
      LinkedListing(t, tolerance, k, ds, f) && LinkedListing(t, tolerance, k, es, g) ==> SameHeads(t, ds, f, es, g)
  }

  /** The classes at the end of a run are what the links say. */
  ghost predicate EndsLinked(t: Tree, k: Classes, ds: seq<nat>, f: seq<nat>)
    requires t.Valid()
  {
    forall x, y :: OnlyLeaves(t, x) && OnlyLeaves(t, y) ==>
      (SameClass(k, x, y) <==> HeadOf(ds, f, x) == HeadOf(ds, f, y))
  }

  lemma EndsByLinks(t: Tree, k: Classes, ds: seq<nat>, f: seq<nat>)
    requires t.Valid() && IsListing(t, ds) && ByLinks(k, ds, |ds|, f)
    ensures EndsLinked(t, k, ds, f)
  {
    hide SameClass, OnlyLeaves, Contiguous;
    forall x, y | OnlyLeaves(t, x) && OnlyLeaves(t, y)
      ensures SameClass(k, x, y) <==> HeadOf(ds, f, x) == HeadOf(ds, f, y)
    {
      assert x in ds && y in ds;
      assert ds[Index(ds, x)] == x && ds[Index(ds, y)] == y;
    }
  }

  lemma LinksTransfer(t: Tree, t': Tree, tolerance: real, k: Classes, ds: seq<nat>, i: nat, l: nat)
    requires t.Valid() && Rearranged(t, t') && i < |ds|
    ensures LinkOk(t', tolerance, k, ds, i, l) <==> LinkOk(t, tolerance, k, ds, i, l)
  {
    forall m | 0 <= m < i
      ensures Near(t', tolerance, k, ds[i], ds[m]) <==> Near(t, tolerance, k, ds[i], ds[m])
      ensures Near(t, tolerance, k, ds[i], ds[m]) ==> Dist(t', k, ds[i], ds[m]) == Dist(t, k, ds[i], ds[m])
    {
      RearrangedNear(t, t', tolerance, k, ds[i], ds[m]);
    }
    if NearEarlier(t, tolerance, k, ds, i) {
      var m :| 0 <= m < i && Near(t, tolerance, k, ds[i], ds[m]);
      assert Near(t', tolerance, k, ds[i], ds[m]);
    }
    if NearEarlier(t', tolerance, k, ds, i) {
      var m :| 0 <= m < i && Near(t', tolerance, k, ds[i], ds[m]);
      assert Near(t, tolerance, k, ds[i], ds[m]);
    }
  }

  lemma LinkOfPrefix(t: Tree, tolerance: real, k: Classes, ds: seq<nat>, es: seq<nat>, i: nat, l: nat)
    requires t.Valid() && ds <= es && i < |ds|
    ensures LinkOk(t, tolerance, k, es, i, l) <==> LinkOk(t, tolerance, k, ds, i, l)
  {
    assert forall m :: 0 <= m <= i ==> ds[m] == es[m];
  }

  /** Every run of the program makes links along a listing. */
  lemma RunIsLinked(t: Tree, t': Tree, root: nat, tolerance: real, k: Classes, order: seq<nat>, ks: seq<Classes>)
      returns (ds: seq<nat>, f: seq<nat>)
    requires t.Valid() && t.Rooted(root) && Started(t, k) && RunOn(t, t', root, tolerance, k, order, ks)
    ensures LinkedListing(t, tolerance, k, ds, f) && |ks| == |order| + 1 && EndsLinked(t, ks[|order|], ds, f)
  {
    FirstIsListing(t, t', k, root);
    RearrangedRooted(t, t', root);
    RearrangedStarted(t, t', k);
    hide Rearranged, OnlyLeaves, Started, InQueueOrder, Run, FirstQueue, LinkOk, Contiguous, ByLinks, EndsLinked;
    var i := LeafDirsFirst(t', root, tolerance, k, order, ks);
    ds := order[..i];
    f := RunLinks(t', tolerance, order, ks, i);
    forall j | 0 <= j < i
      ensures LinkOk(t, tolerance, k, ds, j, f[j])
    {
      LinkOfPrefix(t', tolerance, k, ds, order, j, f[j]);
      LinksTransfer(t, t', tolerance, k, ds, j, f[j]);
    }
    LinksOfPrefix(ks[i], ds, order, f);
    LinksStay(t', tolerance, ds, f, order, ks);
    EndsByLinks(t, ks[|order|], ds, f);
  }

  lemma LinksOfPrefix(k: Classes, ds: seq<nat>, order: seq<nat>, f: seq<nat>)
    requires ds <= order && ByLinks(k, order, |ds|, f)
    ensures ByLinks(k, ds, |ds|, f)
  {
  }

  /** All links along a listing are made by some run of the program. */
  lemma LinkedIsRun(t: Tree, root: nat, tolerance: real, k: Classes, ds: seq<nat>, f: seq<nat>)
      returns (t': Tree, order: seq<nat>, ks: seq<Classes>)
    requires t.Valid() && t.Rooted(root) && Started(t, k) && LinkedListing(t, tolerance, k, ds, f)
    ensures RunOn(t, t', root, tolerance, k, order, ks) && |ks| == |order| + 1 && EndsLinked(t, ks[|order|], ds, f)
  {
    t' := SortedBy(t, ds);
    EveryListing(t, root, k, ds);
    hide SortedBy;
    RearrangedRooted(t, t', root);
    RearrangedStarted(t, t', k);
    forall i | 0 <= i < |ds| {
      LinksTransfer(t, t', tolerance, k, ds, i, f[i]);
    }
    forall d: nat | d in ds {
      RearrangedLeaves(t, t', d);
    }
    order, ks := RunAlong(t', root, tolerance, k, ds, f);
    EndsByLinks(t, ks[|order|], ds, f);
  }

  lemma RunAlong(t: Tree, root: nat, tolerance: real, k: Classes, ds: seq<nat>, f: seq<nat>)
      returns (order: seq<nat>, ks: seq<Classes>)
    requires t.Valid() && t.Rooted(root) && Started(t, k) && FirstQueue(t, k, root) == ds
    requires (forall d :: d in ds ==> OnlyLeaves(t, d)) && NoRepeats(ds) && Links(t, tolerance, k, ds, f)
    ensures ProgramRun(t, root, tolerance, k, order, ks) && |ks| == |order| + 1 && ByLinks(ks[|order|], ds, |ds|, f)
  {
    hide InQueueOrder, IsWorklist, FirstQueue, Contiguous, Ready, Complete, Links, OnlyLeaves;
    FirstQueueIsWorklist(t, k, root);
    QueueStarts(t, ds, k);
    assert ds[..0] == [];
    order, ks := QueueFollows(t, tolerance, ds, f, [], [k], ds);
    EndOfRun(t, tolerance, order, ks);
  }

  /** For every tree, any tolerance and any weights: the order does not matter for
      the directories of leaves if and only if all listings link them alike. */
  lemma OrderIrrelevantIffLinkedAlike(t: Tree, root: nat, tolerance: real, k: Classes)
    requires t.Valid() && t.Rooted(root) && Started(t, k)
    ensures SameInEveryOrder(t, root, tolerance, k) <==> LinkedAlike(t, tolerance, k)
  {
    hide Started, OnlyLeaves, SameClass, RunOn, LinkedListing, SamePairs, SameHeads;
    if LinkedAlike(t, tolerance, k) {
      forall t1: Tree, order, ks, t2: Tree, order', ks'
        | RunOn(t, t1, root, tolerance, k, order, ks) && RunOn(t, t2, root, tolerance, k, order', ks')
        ensures |ks| == |order| + 1 && |ks'| == |order'| + 1 && SamePairs(t, ks[|order|], ks'[|order'|])
      {
        var ds, f := RunIsLinked(t, t1, root, tolerance, k, order, ks);
        var es, g := RunIsLinked(t, t2, root, tolerance, k, order', ks');
        PairsByHeads(t, ks[|order|], ds, f, ks'[|order'|], es, g);
      }
    }
    if SameInEveryOrder(t, root, tolerance, k) {
      forall ds, f, es, g | LinkedListing(t, tolerance, k, ds, f) && LinkedListing(t, tolerance, k, es, g)
        ensures SameHeads(t, ds, f, es, g)
      {
        var t1, order, ks := LinkedIsRun(t, root, tolerance, k, ds, f);
        var t2, order', ks' := LinkedIsRun(t, root, tolerance, k, es, g);
        PairsByHeads(t, ks[|order|], ds, f, ks'[|order'|], es, g);
      }
    }
  }

  lemma PairsByHeads(t: Tree, k: Classes, ds: seq<nat>, f: seq<nat>, k': Classes, es: seq<nat>, g: seq<nat>)
    requires t.Valid() && EndsLinked(t, k, ds, f) && EndsLinked(t, k', es, g)
    ensures SamePairs(t, k, k') <==> SameHeads(t, ds, f, es, g)
  {
    hide OnlyLeaves, SameClass, HeadOf;
  }

  // --------------------------------------------------- where links lead to

  /** Every listing can be linked. */
  lemma CanLinkAll(t: Tree, tolerance: real, k: Classes, ds: seq<nat>) returns (f: seq<nat>)
    requires t.Valid()
    ensures Links(t, tolerance, k, ds, f)
  {
    f := [];
    for i := 0 to |ds|
      invariant |f| == i && forall j :: 0 <= j < i ==> LinkOk(t, tolerance, k, ds, j, f[j])
    {
      var l := FindLink(t, tolerance, k, ds, i);
      f := f + [l];
    }
  }

  lemma FindLink(t: Tree, tolerance: real, k: Classes, ds: seq<nat>, i: nat) returns (l: nat)
    requires t.Valid() && i < |ds|
    ensures LinkOk(t, tolerance, k, ds, i, l)
  {
    hide Dist, ChildClasses, Tree.Valid;
    l := i;
    for m := 0 to i
      invariant l == i ==> forall j :: 0 <= j < m ==> !Near(t, tolerance, k, ds[i], ds[j])
      invariant l <= i && (l < i ==> Near(t, tolerance, k, ds[i], ds[l]))
      invariant l < i ==> forall j :: 0 <= j < m && Near(t, tolerance, k, ds[i], ds[j]) ==>
                            Dist(t, k, ds[i], ds[l]) <= Dist(t, k, ds[i], ds[j])
    {
      if Near(t, tolerance, k, ds[i], ds[m]) && (l == i || Dist(t, k, ds[i], ds[m]) < Dist(t, k, ds[i], ds[l])) {
        l := m;
      }
    }
  }

  lemma {:induction false} NearItsHead(t: Tree, tolerance: real, k: Classes, ds: seq<nat>, f: seq<nat>, a: nat)
    requires t.Valid() && Links(t, tolerance, k, ds, f) && NearIsTransitive(t, tolerance, k)
    requires (forall i :: 0 <= i < |ds| ==> OnlyLeaves(t, ds[i])) && a < |ds|
    ensures SameOrNear(t, tolerance, k, ds[a], ds[Head(f, a)])
    ensures f[Head(f, a)] == Head(f, a)
  {
    hide OnlyLeaves, Near;
    assert LinkOk(t, tolerance, k, ds, a, f[a]);
    if f[a] < a {
      NearItsHead(t, tolerance, k, ds, f, f[a]);
    }
  }

  lemma HeadsApart(t: Tree, tolerance: real, k: Classes, ds: seq<nat>, f: seq<nat>, g: nat, h: nat)
    requires t.Valid() && Links(t, tolerance, k, ds, f) && NoRepeats(ds) && g < |ds| && h < |ds|
    requires f[g] == g && f[h] == h && SameOrNear(t, tolerance, k, ds[g], ds[h])
    ensures g == h
  {
    NearSymmetric(t, tolerance, k, ds[g], ds[h]);
    hide Near;
    assert LinkOk(t, tolerance, k, ds, g, f[g]) && LinkOk(t, tolerance, k, ds, h, f[h]);
  }

  /** If nearness is transitive, links lead together exactly what is near. */
  lemma LinksByNearness(t: Tree, tolerance: real, k: Classes, ds: seq<nat>, f: seq<nat>, a: nat, b: nat)
    requires t.Valid() && Links(t, tolerance, k, ds, f) && NearIsTransitive(t, tolerance, k) && NoRepeats(ds)
    requires (forall i :: 0 <= i < |ds| ==> OnlyLeaves(t, ds[i])) && a < |ds| && b < |ds|
    ensures Head(f, a) == Head(f, b) <==> SameOrNear(t, tolerance, k, ds[a], ds[b])
  {
    hide OnlyLeaves, Near, Links, NoRepeats;
    NearItsHead(t, tolerance, k, ds, f, a);
    NearItsHead(t, tolerance, k, ds, f, b);
    var g, h := Head(f, a), Head(f, b);
    NearSymmetric(t, tolerance, k, ds[a], ds[g]);
    NearSymmetric(t, tolerance, k, ds[b], ds[h]);
    if SameOrNear(t, tolerance, k, ds[a], ds[b]) {
      assert SameOrNear(t, tolerance, k, ds[g], ds[b]);
      assert SameOrNear(t, tolerance, k, ds[g], ds[h]);
      HeadsApart(t, tolerance, k, ds, f, g, h);
    }
  }

  /** Each of the first i but the first is near to one of those before. */
  ghost predicate Grows(t: Tree, tolerance: real, k: Classes, ds: seq<nat>, i: nat)
    requires t.Valid() && i <= |ds|
  {
    forall j :: 0 < j < i ==> NearEarlier(t, tolerance, k, ds, j)
  }

  /** Then all their links lead to the first, however far apart some of them are. */
  lemma {:induction false} GrownLinks(t: Tree, tolerance: real, k: Classes, ds: seq<nat>, f: seq<nat>, i: nat, a: nat)
    requires t.Valid() && Links(t, tolerance, k, ds, f) && a < i <= |ds| && Grows(t, tolerance, k, ds, i)
    ensures Head(f, a) == 0
  {
    assert LinkOk(t, tolerance, k, ds, a, f[a]);
    if a > 0 {
      assert NearEarlier(t, tolerance, k, ds, a);
      GrownLinks(t, tolerance, k, ds, f, i, f[a]);
    }
  }

  /** If the first two are not near each other, their links lead nowhere. */
  lemma FarLinks(t: Tree, tolerance: real, k: Classes, ds: seq<nat>, f: seq<nat>)
    requires t.Valid() && Links(t, tolerance, k, ds, f) && 2 <= |ds| && !Near(t, tolerance, k, ds[1], ds[0])
    ensures Head(f, 0) == 0 && Head(f, 1) == 1
  {
    hide Near;
    assert LinkOk(t, tolerance, k, ds, 0, f[0]) && LinkOk(t, tolerance, k, ds, 1, f[1]);
  }

  // ------------------------------------------------------- nearness decides

  lemma ListedAt(t: Tree, ds: seq<nat>, x: nat)
    requires t.Valid() && IsListing(t, ds) && OnlyLeaves(t, x)
    ensures Index(ds, x) < |ds| && ds[Index(ds, x)] == x && NoRepeats(ds)
    ensures forall i :: 0 <= i < |ds| ==> OnlyLeaves(t, ds[i])
  {
    hide OnlyLeaves, Contiguous;
    assert x in ds;
    assert forall i :: 0 <= i < |ds| ==> ds[i] in ds;
  }

  /** If nearness is transitive, it decides which directories of leaves end in
      the same class, whatever the order of the entries and the ties. */
  lemma EndsByNearness(t: Tree, t': Tree, root: nat, tolerance: real, k: Classes, order: seq<nat>, ks: seq<Classes>,
                       x: nat, y: nat)
    requires t.Valid() && t.Rooted(root) && Started(t, k) && NearIsTransitive(t, tolerance, k)
    requires RunOn(t, t', root, tolerance, k, order, ks) && OnlyLeaves(t, x) && OnlyLeaves(t, y)
    ensures |ks| == |order| + 1 && (SameClass(ks[|order|], x, y) <==> SameOrNear(t, tolerance, k, x, y))
  {
    hide Started, OnlyLeaves, NearIsTransitive, RunOn, SameClass, Links, IsListing;
    var ds, f := RunIsLinked(t, t', root, tolerance, k, order, ks);
    ListedAt(t, ds, x);
    ListedAt(t, ds, y);
    LinksByNearness(t, tolerance, k, ds, f, Index(ds, x), Index(ds, y));
  }

  /** Nearness in k0 says which directories of leaves share a class in k. */
  ghost predicate LeafDirsByNearness(t: Tree, tolerance: real, k0: Classes, k: Classes)
    requires t.Valid()
  {
    forall x, y :: OnlyLeaves(t, x) && OnlyLeaves(t, y) ==> (SameClass(k, x, y) <==> SameOrNear(t, tolerance, k0, x, y))
  }

  lemma AllEndByNearness(t: Tree, root: nat, tolerance: real, k: Classes, order: seq<nat>, ks: seq<Classes>)
    requires t.Valid() && t.Rooted(root) && Started(t, k) && NearIsTransitive(t, tolerance, k)
    requires ProgramRun(t, root, tolerance, k, order, ks)
    ensures |ks| == |order| + 1 && LeafDirsByNearness(t, tolerance, k, ks[|order|])
  {
    RunOfProgram(t, root, tolerance, k, order, ks);
    assert RunOn(t, t, root, tolerance, k, order, ks);
    hide RunOn, Started, OnlyLeaves, SameClass, NearIsTransitive, ProgramRun;
    forall x, y | OnlyLeaves(t, x) && OnlyLeaves(t, y)
      ensures SameClass(ks[|order|], x, y) <==> SameOrNear(t, tolerance, k, x, y)
    {
      EndsByNearness(t, t, root, tolerance, k, order, ks, x, y);
    }
  }

  /** The order does not matter if nearness is transitive. */
  lemma TransitiveIsEnough(t: Tree, root: nat, tolerance: real, k: Classes)
    requires t.Valid() && t.Rooted(root) && Started(t, k) && NearIsTransitive(t, tolerance, k)
    ensures SameInEveryOrder(t, root, tolerance, k)
  {
    OrderIrrelevantIffLinkedAlike(t, root, tolerance, k);
    hide Started, OnlyLeaves, NearIsTransitive, Links, IsListing, SameInEveryOrder;
    forall ds, f, es, g | LinkedListing(t, tolerance, k, ds, f) && LinkedListing(t, tolerance, k, es, g)
      ensures SameHeads(t, ds, f, es, g)
    {
      forall x, y | OnlyLeaves(t, x) && OnlyLeaves(t, y)
        ensures HeadOf(ds, f, x) == HeadOf(ds, f, y) <==> HeadOf(es, g, x) == HeadOf(es, g, y)
      {
        ListedAt(t, ds, x);
        ListedAt(t, ds, y);
        ListedAt(t, es, x);
        ListedAt(t, es, y);
        LinksByNearness(t, tolerance, k, ds, f, Index(ds, x), Index(ds, y));
        LinksByNearness(t, tolerance, k, es, g, Index(es, x), Index(es, y));
      }
    }
  }

  /** It does not matter either if all listings grow along nearness: all
      directories of leaves end in one class. */
  lemma GrowingIsEnough(t: Tree, root: nat, tolerance: real, k: Classes)
    requires t.Valid() && t.Rooted(root) && Started(t, k)
    requires forall ds {:trigger Grows(t, tolerance, k, ds, |ds|)} ::
               IsListing(t, ds) ==> Grows(t, tolerance, k, ds, |ds|)
    ensures SameInEveryOrder(t, root, tolerance, k)
  {
    OrderIrrelevantIffLinkedAlike(t, root, tolerance, k);
    hide Started, OnlyLeaves, Links, IsListing, SameInEveryOrder, Grows;
    forall ds, f, x | LinkedListing(t, tolerance, k, ds, f) && OnlyLeaves(t, x)
      ensures HeadOf(ds, f, x) == 0
    {
      ListedAt(t, ds, x);
      assert Grows(t, tolerance, k, ds, |ds|);
      GrownLinks(t, tolerance, k, ds, f, |ds|, Index(ds, x));
    }
    hide LinkedListing, HeadOf;
  }

  // ------------------------------------------------- where the order matters

  lemma IndexIs(ds: seq<nat>, i: nat)
    requires NoRepeats(ds) && i < |ds|
    ensures Index(ds, ds[i]) == i
  {
    assert ds[i] in ds;
  }

  /** The order matters if one listing begins with two directories that are not
      near each other, and another one grows along nearness to hold both. */
  lemma DiffersWhen(t: Tree, root: nat, tolerance: real, k: Classes, ds: seq<nat>, es: seq<nat>, i: nat, a: nat, b: nat)
    requires t.Valid() && t.Rooted(root) && Started(t, k) && IsListing(t, ds) && IsListing(t, es)
    requires 2 <= |ds| && !Near(t, tolerance, k, ds[1], ds[0])
    requires a < i <= |es| && b < i && es[a] == ds[0] && es[b] == ds[1] && Grows(t, tolerance, k, es, i)
    ensures !SameInEveryOrder(t, root, tolerance, k)
  {
    hide *;
    StartReached(t, k);
    var f := CanLinkAll(t, tolerance, k, ds);
    var g := CanLinkAll(t, tolerance, k, es);
    ApartIn(t, tolerance, k, ds, f);
    TogetherIn(t, tolerance, k, es, g, i, a);
    TogetherIn(t, tolerance, k, es, g, i, b);
    NotAlike(t, tolerance, k, ds, f, es, g, ds[0], ds[1]);
    OrderIrrelevantIffLinkedAlike(t, root, tolerance, k);
  }

  lemma ApartIn(t: Tree, tolerance: real, k: Classes, ds: seq<nat>, f: seq<nat>)
    requires t.Valid() && IsListing(t, ds) && Links(t, tolerance, k, ds, f)
    requires 2 <= |ds| && !Near(t, tolerance, k, ds[1], ds[0])
    ensures OnlyLeaves(t, ds[0]) && OnlyLeaves(t, ds[1]) && HeadOf(ds, f, ds[0]) != HeadOf(ds, f, ds[1])
  {
    hide OnlyLeaves, Near, Links, Contiguous;
    assert ds[0] in ds && ds[1] in ds;
    FarLinks(t, tolerance, k, ds, f);
    IndexIs(ds, 0);
    IndexIs(ds, 1);
  }

  lemma TogetherIn(t: Tree, tolerance: real, k: Classes, es: seq<nat>, g: seq<nat>, i: nat, a: nat)
    requires t.Valid() && IsListing(t, es) && Links(t, tolerance, k, es, g)
    requires a < i <= |es| && Grows(t, tolerance, k, es, i)
    ensures HeadOf(es, g, es[a]) == 0
  {
    hide OnlyLeaves, Links, Contiguous, Grows;
    GrownLinks(t, tolerance, k, es, g, i, a);
    IndexIs(es, a);
  }

  lemma NotAlike(t: Tree, tolerance: real, k: Classes, ds: seq<nat>, f: seq<nat>, es: seq<nat>, g: seq<nat>,
                 x: nat, y: nat)
    requires t.Valid() && IsListing(t, ds) && IsListing(t, es)
    requires Links(t, tolerance, k, ds, f) && Links(t, tolerance, k, es, g) && OnlyLeaves(t, x) && OnlyLeaves(t, y)
    requires HeadOf(ds, f, x) != HeadOf(ds, f, y) && HeadOf(es, g, x) == HeadOf(es, g, y)
    ensures !LinkedAlike(t, tolerance, k)
  {
    hide OnlyLeaves, Links, IsListing, HeadOf;
    assert LinkedListing(t, tolerance, k, ds, f) && LinkedListing(t, tolerance, k, es, g);
    assert !SameHeads(t, ds, f, es, g);
  }

  lemma ThreeDiffer(t: Tree, tolerance: real, k: Classes, x: nat, y: nat, z: nat)
    requires t.Valid() && OnlyLeaves(t, x) && OnlyLeaves(t, y) && OnlyLeaves(t, z)
    requires Near(t, tolerance, k, x, y) && Near(t, tolerance, k, y, z) && !SameOrNear(t, tolerance, k, x, z)
    ensures Near(t, tolerance, k, y, x) && Near(t, tolerance, k, z, y) && !Near(t, tolerance, k, z, x)
    ensures NoRepeats([x, y, z]) && forall d :: d in [x, y, z] ==> OnlyLeaves(t, d)
    ensures NoRepeats([x, z]) && forall d :: d in [x, z] ==> OnlyLeaves(t, d)
  {
    hide OnlyLeaves, Near;
    NearSymmetric(t, tolerance, k, x, y);
    NearSymmetric(t, tolerance, k, y, z);
    NearSymmetric(t, tolerance, k, x, z);
    assert x != y && y != z && x != z;
  }

  lemma GrowsByThree(t: Tree, tolerance: real, k: Classes, x: nat, y: nat, z: nat, es: seq<nat>)
    requires t.Valid() && [x, y, z] <= es && Near(t, tolerance, k, y, x) && Near(t, tolerance, k, z, y)
    ensures 3 <= |es| && es[0] == x && es[2] == z && Grows(t, tolerance, k, es, 3)
  {
    hide Near;
    assert es[0] == [x, y, z][0] && es[1] == [x, y, z][1] && es[2] == [x, y, z][2];
    assert NearEarlier(t, tolerance, k, es, 1) by {
      assert Near(t, tolerance, k, es[1], es[0]);
    }
    assert NearEarlier(t, tolerance, k, es, 2) by {
      assert Near(t, tolerance, k, es[2], es[1]);
    }
  }

  lemma NotTransitive(t: Tree, root: nat, tolerance: real, k: Classes, x: nat, y: nat, z: nat)
    requires t.Valid() && t.Rooted(root) && Started(t, k) && Unbranched(t)
    requires OnlyLeaves(t, x) && OnlyLeaves(t, y) && OnlyLeaves(t, z)
    requires Near(t, tolerance, k, x, y) && Near(t, tolerance, k, y, z) && !SameOrNear(t, tolerance, k, x, z)
    ensures !SameInEveryOrder(t, root, tolerance, k)
  {
    ThreeDiffer(t, tolerance, k, x, y, z);
    hide *;
    StartReached(t, k);
    var ds := ListRest(t, [x, z]);
    var es := ListRest(t, [x, y, z]);
    UnbranchedListing(t, ds);
    UnbranchedListing(t, es);
    GrowsByThree(t, tolerance, k, x, y, z, es);
    assert ds[0] == [x, z][0] && ds[1] == [x, z][1];
    DiffersWhen(t, root, tolerance, k, ds, es, 3, 0, 2);
  }

  /** Where no directory separates them, the order does not matter for the
      directories of leaves exactly if nearness, as it is before anything is
      placed, is transitive. */
  lemma OrderIrrelevantExactlyWhen(t: Tree, root: nat, tolerance: real, k: Classes)
    requires t.Valid() && t.Rooted(root) && Started(t, k) && Unbranched(t)
    ensures SameInEveryOrder(t, root, tolerance, k) <==> NearIsTransitive(t, tolerance, k)
  {
    if NearIsTransitive(t, tolerance, k) {
      TransitiveIsEnough(t, root, tolerance, k);
    } else {
      var x, y, z :| OnlyLeaves(t, x) && OnlyLeaves(t, y) && OnlyLeaves(t, z)
        && Near(t, tolerance, k, x, y) && Near(t, tolerance, k, y, z) && !SameOrNear(t, tolerance, k, x, z);
      NotTransitive(t, root, tolerance, k, x, y, z);
    }
  }
}
