/** The order in which the scan happened to list the entries of directories, and
    whether the classes depend on it. */
module EntryOrder {
  import opened Basics
  import opened FileTree
  import opened Propagation
  import opened Worklist
  import opened Traversal
  import opened OrderMatters

  /** t' is t with the entries of each directory listed in another order. */
  ghost predicate Rearranged(t: Tree, t': Tree)
    requires t.Valid()
  {
    && t'.Valid() && t' == t.(children := t'.children)
    && forall n, c :: 0 <= n < |t.kind| ==> (c in t'.children[n] <==> c in t.children[n])
  }

  lemma {:induction false} RearrangedUnder(t: Tree, t': Tree, a: nat, n: nat)
    requires t.Valid() && Rearranged(t, t') && a < |t.kind|
    ensures t'.Under(a, n) <==> t.Under(a, n)
    decreases t.height[a]
  {
    forall c | c in t.children[a]
      ensures t'.Under(c, n) <==> t.Under(c, n)
    {
      RearrangedUnder(t, t', c, n);
    }
  }

  lemma RearrangedRooted(t: Tree, t': Tree, root: nat)
    requires t.Valid() && Rearranged(t, t') && t.Rooted(root)
    ensures t'.Rooted(root)
  {
    forall n: nat | n < |t.kind|
      ensures t'.Under(root, n)
    {
      RearrangedUnder(t, t', root, n);
    }
  }

  lemma RearrangedFull(t: Tree, t': Tree)
    requires t.Valid() && Rearranged(t, t')
    ensures forall n: nat :: n < |t.kind| ==> (t'.FullDir(n) <==> t.FullDir(n))
  {
    forall n: nat | n < |t.kind|
      ensures t'.FullDir(n) <==> t.FullDir(n)
    {
      if t.FullDir(n) {
        assert t.children[n][0] in t'.children[n];
      }
      if t'.FullDir(n) {
        assert t'.children[n][0] in t.children[n];
      }
    }
  }

  lemma RearrangedLeaves(t: Tree, t': Tree, n: nat)
    requires t.Valid() && Rearranged(t, t')
    ensures OnlyLeaves(t', n) <==> OnlyLeaves(t, n)
  {
    RearrangedFull(t, t');
  }

  lemma RearrangedStarted(t: Tree, t': Tree, k: Classes)
    requires t.Valid() && Rearranged(t, t') && Started(t, k)
    ensures Started(t', k)
  {
    RearrangedFull(t, t');
    forall n: nat | n < |t.kind|
      ensures SortOf(t', n) == SortOf(t, n)
    {
      assert t'.FullDir(n) <==> t.FullDir(n);
    }
    assert forall n: nat :: Ready(t, k, n) ==> Ready(t', k, n);
  }

  lemma RearrangedNear(t: Tree, t': Tree, tolerance: real, k: Classes, x: nat, y: nat)
    requires t.Valid() && Rearranged(t, t')
    ensures Near(t', tolerance, k, x, y) <==> Near(t, tolerance, k, x, y)
    ensures x < |t.kind| && y < |t.kind| ==> Dist(t', k, x, y) == Dist(t, k, x, y)
  {
    assert x < |t.kind| ==> ChildClasses(t', k, x) == ChildClasses(t, k, x);
    assert y < |t.kind| ==> ChildClasses(t', k, y) == ChildClasses(t, k, y);
  }

  // ----------------------------------------------------------------- listings

  /** An order of all directories of leaves in which those below any one
      directory stand together. */
  ghost predicate IsListing(t: Tree, ds: seq<nat>)
    requires t.Valid()
  {
    NoRepeats(ds) && (forall d: nat :: d in ds <==> OnlyLeaves(t, d)) && Contiguous(t, ds)
  }

  /** Whatever the order of the entries, the program begins with a listing. */
  lemma FirstIsListing(t: Tree, t': Tree, k: Classes, root: nat)
    requires t.Valid() && t.Rooted(root) && Started(t, k) && Rearranged(t, t')
    ensures t'.Valid() && root < |t'.kind| && IsListing(t, FirstQueue(t', k, root))
  {
    RearrangedRooted(t, t', root);
    RearrangedStarted(t, t', k);
    FirstQueueIsWorklist(t', k, root);
    var first := FirstQueue(t', k, root);
    forall d: nat
      ensures d in first <==> OnlyLeaves(t, d)
    {
      ReadyMeansOnlyLeaves(t', k, d);
      RearrangedLeaves(t, t', d);
    }
    SameContiguous(t, t', first);
  }

  lemma SameContiguous(t: Tree, t': Tree, s: seq<nat>)
    requires t.Valid() && Rearranged(t, t') && Contiguous(t', s)
    ensures Contiguous(t, s)
  {
    forall p: nat | p < |t.kind|
      ensures Together(t, s, p)
    {
      assert Together(t', s, p);
      forall n: nat
        ensures t'.Under(p, n) <==> t.Under(p, n)
      {
        RearrangedUnder(t, t', p, n);
      }
    }
  }

  // ------------------------------------- every listing comes from some order

  /** How many of ds come before the first one below c. */
  ghost function Key(t: Tree, ds: seq<nat>, c: nat): (i: nat)
    requires t.Valid() && c < |t.kind|
    ensures i <= |ds| && (i < |ds| ==> t.Under(c, ds[i]))
    ensures forall j :: 0 <= j < i ==> !t.Under(c, ds[j])
  {
    if ds == [] || t.Under(c, ds[0]) then 0 else 1 + Key(t, ds[1..], c)
  }

  ghost function Keys(t: Tree, ds: seq<nat>): seq<nat>
    requires t.Valid()
  {
    seq(|t.kind|, c requires 0 <= c < |t.kind| => Key(t, ds, c))
  }

  ghost predicate NotAbove(keys: seq<nat>, c: nat, d: nat) {
    c < |keys| && d < |keys| ==> keys[c] <= keys[d]
  }

  /** c put among entries that are sorted by their keys. */
  ghost function Insert(keys: seq<nat>, c: nat, cs: seq<nat>): seq<nat> {
    if cs == [] || NotAbove(keys, cs[|cs| - 1], c) then cs + [c]
    else Insert(keys, c, cs[..|cs| - 1]) + [cs[|cs| - 1]]
  }

  ghost function SortByKeys(keys: seq<nat>, cs: seq<nat>): seq<nat> {
    if cs == [] then [] else Insert(keys, cs[|cs| - 1], SortByKeys(keys, cs[..|cs| - 1]))
  }

  ghost predicate InKeyOrder(keys: seq<nat>, cs: seq<nat>) {
    forall i, j :: 0 <= i < j < |cs| ==> NotAbove(keys, cs[i], cs[j])
  }

  lemma LastOf(cs: seq<nat>)
    requires cs != []
    ensures var rest, last := cs[..|cs| - 1], cs[|cs| - 1];
            && (forall d :: d in cs <==> d in rest || d == last)
            && (NoRepeats(cs) ==> NoRepeats(rest) && last !in rest)
  {
    assert cs == cs[..|cs| - 1] + [cs[|cs| - 1]];
  }

  lemma {:induction false} InsertMembers(keys: seq<nat>, c: nat, cs: seq<nat>)
    ensures forall d :: d in Insert(keys, c, cs) <==> d == c || d in cs
    ensures NoRepeats(cs) && c !in cs ==> NoRepeats(Insert(keys, c, cs))
  {
    if cs != [] {
      LastOf(cs);
      var rest, last := cs[..|cs| - 1], cs[|cs| - 1];
      InsertMembers(keys, c, rest);
      hide NoRepeats;
      if NoRepeats(cs) && c !in cs {
        OneRepeatsNot(c);
        OneRepeatsNot(last);
        NoRepeatsJoin(cs, [c]);
        NoRepeatsJoin(Insert(keys, c, rest), [last]);
      }
    }
  }

  lemma OneRepeatsNot(c: nat)
    ensures NoRepeats([c])
  {
  }

  lemma {:induction false} InsertInOrder(keys: seq<nat>, c: nat, cs: seq<nat>)
    requires InKeyOrder(keys, cs) && c < |keys| && forall d :: d in cs ==> d < |keys|
    ensures InKeyOrder(keys, Insert(keys, c, cs))
  {
    if cs == [] {
    } else if NotAbove(keys, cs[|cs| - 1], c) {
      assert forall i :: 0 <= i < |cs| ==> cs[i] in cs;
      AppendInOrder(keys, cs, c);
    } else {
      var rest, last := cs[..|cs| - 1], cs[|cs| - 1];
      LastOf(cs);
      InsertInOrder(keys, c, rest);
      InsertMembers(keys, c, rest);
      hide Insert;
      assert forall i :: 0 <= i < |rest| ==> NotAbove(keys, cs[i], last);
      AppendInOrder(keys, Insert(keys, c, rest), last);
    }
  }

  lemma AppendInOrder(keys: seq<nat>, r: seq<nat>, last: nat)
    requires InKeyOrder(keys, r) && forall d :: d in r ==> NotAbove(keys, d, last)
    ensures InKeyOrder(keys, r + [last])
  {
    assert forall i :: 0 <= i < |r| ==> r[i] in r;
  }

  lemma {:induction false} SortSorts(keys: seq<nat>, cs: seq<nat>)
    requires forall d :: d in cs ==> d < |keys|
    ensures InKeyOrder(keys, SortByKeys(keys, cs))
    ensures forall d :: d in SortByKeys(keys, cs) <==> d in cs
    ensures NoRepeats(cs) ==> NoRepeats(SortByKeys(keys, cs))
  {
    if cs != [] {
      var rest, last := cs[..|cs| - 1], cs[|cs| - 1];
      LastOf(cs);
      assert last in cs;
      SortSorts(keys, rest);
      InsertInOrder(keys, last, SortByKeys(keys, rest));
      InsertMembers(keys, last, SortByKeys(keys, rest));
      hide NoRepeats, InKeyOrder;
    }
  }

  /** The entries of every directory, sorted by where ds first gets below them. */
  ghost function SortedBy(t: Tree, ds: seq<nat>): Tree
    requires t.Valid()
  {
    t.(children := seq(|t.children|, n requires 0 <= n < |t.children| => SortedEntries(t, ds, n)))
  }

  ghost function SortedEntries(t: Tree, ds: seq<nat>, n: nat): seq<nat>
    requires t.Valid() && n < |t.kind|
  {
    SortByKeys(Keys(t, ds), t.children[n])
  }

  lemma EntriesSorted(t: Tree, ds: seq<nat>, n: nat)
    requires t.Valid() && n < |t.kind|
    ensures InKeyOrder(Keys(t, ds), SortedEntries(t, ds, n)) && NoRepeats(SortedEntries(t, ds, n))
    ensures forall d :: d in SortedEntries(t, ds, n) <==> d in t.children[n]
    ensures forall d :: d in t.children[n] ==> t.IsChild(n, d)
  {
    assert forall i :: 0 <= i < |t.children[n]| ==> t.IsChild(n, t.children[n][i]);
    SortSorts(Keys(t, ds), t.children[n]);
  }

  lemma SortedByIsRearranged(t: Tree, ds: seq<nat>)
    requires t.Valid()
    ensures Rearranged(t, SortedBy(t, ds))
  {
    var t' := SortedBy(t, ds);
    forall n: nat | n < |t.kind|
      ensures NoRepeats(t'.children[n]) && forall d :: d in t'.children[n] <==> d in t.children[n]
      ensures forall d :: d in t'.children[n] ==> t'.IsChild(n, d)
    {
      EntriesSorted(t, ds, n);
    }
    forall n: nat | n < |t.kind| && t.kind[n].File?
      ensures t'.children[n] == []
    {
      assert t.children[n] == [];
    }
  }

  ghost function Index(ds: seq<nat>, x: nat): (i: nat)
    ensures i <= |ds| && (i < |ds| ==> ds[i] == x) && (x in ds ==> i < |ds|)
    ensures forall j :: 0 <= j < i ==> ds[j] != x
  {
    if ds == [] || ds[0] == x then 0 else 1 + Index(ds[1..], x)
  }

  /** What s and ds have in common comes in the same order in both. */
  ghost predicate Follows(ds: seq<nat>, s: seq<nat>) {
    forall i, j :: 0 <= i < j < |s| && s[i] in ds && s[j] in ds ==> Index(ds, s[i]) < Index(ds, s[j])
  }

  lemma FollowsJoin(ds: seq<nat>, a: seq<nat>, b: seq<nat>)
    requires Follows(ds, a) && Follows(ds, b)
    requires forall x, y :: x in a && y in b && x in ds && y in ds ==> Index(ds, x) < Index(ds, y)
    ensures Follows(ds, a + b)
  {
    assert forall i :: 0 <= i < |a| ==> a[i] in a;
    assert forall i :: 0 <= i < |b| ==> b[i] in b;
  }

  /** Of two entries, what is below the one with the smaller key comes first. */
  lemma BlocksInOrder(t: Tree, ds: seq<nat>, n: nat, c: nat, d: nat, x: nat, y: nat)
    requires t.Valid() && Contiguous(t, ds) && n < |t.kind| && c in t.children[n] && d in t.children[n] && c != d
    requires c < |t.kind| && d < |t.kind| && Key(t, ds, c) <= Key(t, ds, d)
    requires x in ds && y in ds && t.Under(c, x) && t.Under(d, y)
    ensures Index(ds, x) < Index(ds, y)
  {
    var a, b := Index(ds, x), Index(ds, y);
    var i, j := Key(t, ds, c), Key(t, ds, d);
    assert i <= a && j <= b;
    assert Together(t, ds, c);
    if t.Under(c, ds[j]) {
      Apart(t, n, c, d, ds[j], ds[j]);
    }
    assert i != j && j != a;
  }

  lemma LeafDirsApart(t: Tree, a: nat, b: nat)
    requires t.Valid() && OnlyLeaves(t, a) && OnlyLeaves(t, b) && t.Under(a, b)
    ensures a == b
  {
  }

  /** t' lists the entries of every directory of t by their keys. */
  ghost predicate ByKeys(t: Tree, t': Tree, ds: seq<nat>)
    requires t.Valid()
  {
    Rearranged(t, t') && forall n: nat :: n < |t.kind| ==> InKeyOrder(Keys(t, ds), t'.children[n])
  }

  lemma EntriesInOrder(t: Tree, t': Tree, ds: seq<nat>, n: nat, j: nat, i: nat, x: nat, y: nat)
    requires t.Valid() && ByKeys(t, t', ds) && Contiguous(t, ds) && n < |t.kind| && j < i < |t'.children[n]|
    requires t'.children[n][j] < |t.kind| && t'.Under(t'.children[n][j], x) && x in ds
    requires t'.children[n][i] < |t.kind| && t'.Under(t'.children[n][i], y) && y in ds
    ensures Index(ds, x) < Index(ds, y)
  {
    var c, d := t'.children[n][j], t'.children[n][i];
    assert InKeyOrder(Keys(t, ds), t'.children[n]) && NotAbove(Keys(t, ds), c, d);
    assert c in t.children[n] && d in t.children[n] && c != d;
    RearrangedUnder(t, t', c, x);
    RearrangedUnder(t, t', d, y);
    hide Contiguous, ByKeys, Rearranged, InKeyOrder;
    BlocksInOrder(t, ds, n, c, d, x, y);
  }

  lemma LastInOrder(t: Tree, t': Tree, ds: seq<nat>, n: nat, x: nat)
    requires t.Valid() && Rearranged(t, t') && IsListing(t, ds) && n < |t.kind|
    requires x in PostOrderOf(t', n, |t'.children[n]|) && x in ds
    ensures n !in ds
  {
    PostOrderOfVisits(t', n, |t'.children[n]|, x);
    var j :| 0 <= j < |t'.children[n]| && t'.Under(t'.children[n][j], x);
    var c := t'.children[n][j];
    assert t'.IsChild(n, c) && c in t.children[n];
    RearrangedUnder(t, t', c, x);
    UnderHeight(t, c, x);
    assert t.Under(n, x);
    hide Contiguous, OnlyLeaves;
    if n in ds {
      LeafDirsApart(t, n, x);
      assert false;
    }
  }

  lemma {:induction false} SortedFollows(t: Tree, t': Tree, ds: seq<nat>, n: nat)
    requires t.Valid() && ByKeys(t, t', ds) && IsListing(t, ds) && n < |t.kind|
    ensures Follows(ds, PostOrder(t', n))
    decreases t.height[n], |t'.children[n]| + 1
  {
    hide *;
    ByKeysParts(t, t', ds);
    var s := PostOrderOf(t', n, |t'.children[n]|);
    SortedFollowsOf(t, t', ds, n, |t'.children[n]|);
    if x :| x in s && x in ds {
      LastInOrder(t, t', ds, n, x);
    }
    OneFollows(ds, n);
    FollowsJoin(ds, s, [n]);
    PostOrderEnds(t', n);
  }

  lemma OneFollows(ds: seq<nat>, n: nat)
    ensures Follows(ds, [n]) && Follows(ds, [])
  {
  }

  lemma {:induction false} SortedFollowsOf(t: Tree, t': Tree, ds: seq<nat>, n: nat, i: nat)
    requires t.Valid() && ByKeys(t, t', ds) && IsListing(t, ds) && n < |t.kind| && i <= |t'.children[n]|
    ensures Follows(ds, PostOrderOf(t', n, i))
    decreases t.height[n], i
  {
    hide *;
    ByKeysParts(t, t', ds);
    if i == 0 {
      OneFollows(ds, 0);
      NothingBefore(t', n);
    } else {
      PostOrderNext(t', n, i - 1);
      SortedFollowsOf(t, t', ds, n, i - 1);
      SortedFollows(t, t', ds, t'.children[n][i - 1]);
      FollowsTogether(t, t', ds, n, i - 1);
    }
  }

  lemma ByKeysParts(t: Tree, t': Tree, ds: seq<nat>)
    requires t.Valid() && ByKeys(t, t', ds)
    ensures Rearranged(t, t') && t'.Valid() && t'.height == t.height
    ensures |t'.kind| == |t'.children| == |t.kind| == |t.height| == |t.children|
  {
  }

  lemma NothingBefore(t: Tree, n: nat)
    requires t.Valid() && n < |t.kind|
    ensures PostOrderOf(t, n, 0) == []
  {
  }

  lemma FollowsTogether(t: Tree, t': Tree, ds: seq<nat>, n: nat, i: nat)
    requires t.Valid() && ByKeys(t, t', ds) && IsListing(t, ds) && n < |t.kind| && i < |t'.children[n]|
    requires t'.children[n][i] < |t.kind|
    requires Follows(ds, PostOrderOf(t', n, i)) && Follows(ds, PostOrder(t', t'.children[n][i]))
    ensures Follows(ds, PostOrderOf(t', n, i) + PostOrder(t', t'.children[n][i]))
  {
    var a, b := PostOrderOf(t', n, i), PostOrder(t', t'.children[n][i]);
    forall x, y | x in a && y in b && x in ds && y in ds
      ensures Index(ds, x) < Index(ds, y)
    {
      PostOrderOfVisits(t', n, i, x);
      PostOrderVisits(t', t'.children[n][i], y);
      var j :| 0 <= j < i && t'.Under(t'.children[n][j], x);
      assert t'.IsChild(n, t'.children[n][j]);
      EntriesInOrder(t, t', ds, n, j, i, x, y);
    }
    FollowsJoin(ds, a, b);
  }

  // ------------------------------------------------- sequences without repeats

  lemma NotAmongFirst(ds: seq<nat>, i: nat)
    requires NoRepeats(ds) && i < |ds|
    ensures ds[i] !in FirstOf(ds, i)
  {
  }

  lemma {:induction false} SizeOfFirst(ds: seq<nat>, i: nat)
    requires NoRepeats(ds) && i <= |ds|
    ensures |FirstOf(ds, i)| == i
  {
    hide *;
    if i == 0 {
      NoneFirst(ds);
    } else {
      SizeOfFirst(ds, i - 1);
      FirstOfNext(ds, i - 1);
      NotAmongFirst(ds, i - 1);
    }
  }


  lemma {:induction false} AtLeastPlace(ds: seq<nat>, r: seq<nat>, i: nat)
    requires i < |r| && (forall x :: x in r ==> x in ds) && Follows(ds, r)
    ensures i <= Index(ds, r[i]) < |ds|
  {
    assert r[i] in r;
    if i > 0 {
      AtLeastPlace(ds, r, i - 1);
    }
  }

  lemma {:induction false} AtMostPlace(ds: seq<nat>, r: seq<nat>, i: nat)
    requires i < |r| == |ds| && (forall x :: x in r ==> x in ds) && Follows(ds, r)
    ensures Index(ds, r[i]) <= i
    decreases |r| - i
  {
    assert r[i] in r;
    if i + 1 < |r| {
      assert r[i + 1] in r;
      AtMostPlace(ds, r, i + 1);
    }
  }

  lemma FollowsIsSame(ds: seq<nat>, r: seq<nat>)
    requires NoRepeats(ds) && NoRepeats(r) && (forall x :: x in r <==> x in ds) && Follows(ds, r)
    ensures r == ds
  {
    SizeOfFirst(ds, |ds|);
    SizeOfFirst(r, |r|);
    assert ds[..|ds|] == ds && r[..|r|] == r;
    assert FirstOf(ds, |ds|) == FirstOf(r, |r|);
    forall i | 0 <= i < |r|
      ensures r[i] == ds[i]
    {
      AtLeastPlace(ds, r, i);
      AtMostPlace(ds, r, i);
    }
  }

  lemma ReadyInFollows(t: Tree, k: Classes, ds: seq<nat>, s: seq<nat>)
    requires t.Valid() && Follows(ds, s)
    ensures Follows(ds, ReadyIn(t, k, s))
  {
    var r := ReadyIn(t, k, s);
    forall i, j | 0 <= i < j < |r| && r[i] in ds && r[j] in ds
      ensures Index(ds, r[i]) < Index(ds, r[j])
    {
      PlacesIncrease(t, k, s, i, j);
      assert s[PlaceIn(t, k, s, i)] == r[i] && s[PlaceIn(t, k, s, j)] == r[j];
    }
  }

  lemma SortedByKeys(t: Tree, ds: seq<nat>)
    requires t.Valid()
    ensures ByKeys(t, SortedBy(t, ds), ds)
    ensures var t' := SortedBy(t, ds); Rearranged(t, t') && t'.Valid() && |t'.kind| == |t.kind|
  {
    SortedByIsRearranged(t, ds);
    forall n: nat | n < |t.kind|
      ensures InKeyOrder(Keys(t, ds), SortedEntries(t, ds, n))
    {
      EntriesSorted(t, ds, n);
    }
  }

  /** Every listing is what the program begins with for some order of the entries. */
  lemma EveryListing(t: Tree, root: nat, k: Classes, ds: seq<nat>)
    requires t.Valid() && t.Rooted(root) && Started(t, k) && IsListing(t, ds)
    ensures var t' := SortedBy(t, ds); Rearranged(t, t') && FirstQueue(t', k, root) == ds
  {
    var t' := SortedBy(t, ds);
    SortedByKeys(t, ds);
    hide SortedBy, ByKeys, Contiguous, Follows, Rearranged;
    SortedFollows(t, t', ds, root);
    ReadyInFollows(t', k, ds, PostOrder(t', root));
    FirstIsListing(t, t', k, root);
    FollowsIsSame(ds, FirstQueue(t', k, root));
  }

  // ------------------------------------------------------- runs of the program

  /** From the front of the queue to its end. */
  lemma {:induction false} QueueFinishes(t: Tree, tolerance: real, first: seq<nat>, order: seq<nat>, ks: seq<Classes>,
                                         queue: seq<nat>)
      returns (order': seq<nat>, ks': seq<Classes>)
    requires t.Valid() && Run(t, tolerance, order, ks) && Closed(t, ks[|order|])
    requires IsWorklist(t, ks[|order|], queue) && InQueueOrder(t, first, order, ks, queue)
    ensures Run(t, tolerance, order', ks') && Complete(t, ks'[|order'|]) && order <= order' && ks <= ks'
    ensures InQueueOrder(t, first, order', ks', [])
    decreases Unevaluated(ks[|order|].of)
  {
    hide *;
    EndOfRun(t, tolerance, order, ks);
    var k := ks[|order|];
    if queue == [] {
      NothingReady(t, k);
      AllPlaced(t, k);
      order', ks' := order, ks;
    } else {
      var n := queue[0];
      FrontIsReady(t, k, queue);
      ReadyInRange(t, k, n);
      var ls := RunNext(t, tolerance, order, ks, n);
      var c := NextClasses(t, tolerance, order, ks, n, ls);
      var k' := ls[|order| + 1];
      assert ls == ks + [k'];
      ClosedNext(t, k, n, c, k');
      QueueMoves(t, first, order, ks, queue, k');
      var p := t.parent[n];
      var queue' := queue[1..] + if p.Some? && Ready(t, k', p.value) then [p.value] else [];
      NextWorklist(t, k, k', queue, queue', c);
      order', ks' := QueueFinishes(t, tolerance, first, order + [n], ls, queue');
    }
  }

  lemma NothingReady(t: Tree, k: Classes)
    requires t.Valid() && IsWorklist(t, k, [])
    ensures forall n: nat :: !(Ready(t, k, n) && !Evaluated(k, n))
  {
    assert forall n: nat :: n !in [];
  }

  lemma ReadyInRange(t: Tree, k: Classes, n: nat)
    requires t.Valid() && Ready(t, k, n)
    ensures n < |t.kind| == |t.parent|
  {
  }

  lemma NextClasses(t: Tree, tolerance: real, order: seq<nat>, ks: seq<Classes>, n: nat, ls: seq<Classes>)
      returns (c: nat)
    requires t.Valid() && Run(t, tolerance, order + [n], ls) && |ks| == |order| + 1 && ks <= ls
    ensures |ls| == |order| + 2 && n < |ks[|order|].of| && ls[|order| + 1].of == ks[|order|].of[n := Some(c)]
  {
    StepOfRun(t, tolerance, order + [n], ls, |order|);
    c := StepAddsOne(t, tolerance, ls[|order|], n, ls[|order| + 1]);
  }

  lemma ClosedNext(t: Tree, k: Classes, n: nat, c: nat, k': Classes)
    requires t.Valid() && |k.of| == |t.kind| && n < |t.kind| && Closed(t, k) && Ready(t, k, n) && !Evaluated(k, n)
    requires k'.of == k.of[n := Some(c)]
    ensures Closed(t, k')
  {
    CountersAfter(t, k, k', n);
  }

  /** The program can run on every tree, whatever the ties. */
  lemma CanRun(t: Tree, root: nat, tolerance: real, k: Classes) returns (order: seq<nat>, ks: seq<Classes>)
    requires t.Valid() && t.Rooted(root) && Started(t, k)
    ensures ProgramRun(t, root, tolerance, k, order, ks)
  {
    hide InQueueOrder, IsWorklist, FirstQueue, Contiguous, Ready, Complete;
    FirstQueueIsWorklist(t, k, root);
    var first := FirstQueue(t, k, root);
    QueueStarts(t, first, k);
    order, ks := QueueFinishes(t, tolerance, first, [], [k], first);
  }

  /** All runs of the program agree on which directories of leaves share a class,
      whatever the order of the entries and the ties. */
  ghost predicate SameInEveryOrder(t: Tree, root: nat, tolerance: real, k: Classes)
    requires t.Valid()
  {
    forall t1: Tree, order, ks, t2: Tree, order', ks'
      {:trigger RunOn(t, t1, root, tolerance, k, order, ks), RunOn(t, t2, root, tolerance, k, order', ks')} ::
      RunOn(t, t1, root, tolerance, k, order, ks) && RunOn(t, t2, root, tolerance, k, order', ks') ==>
        SamePairs(t, ks[|order|], ks'[|order'|])
  }

  ghost predicate RunOn(t: Tree, t': Tree, root: nat, tolerance: real, k: Classes, order: seq<nat>, ks: seq<Classes>)
    requires t.Valid()
  {
    Rearranged(t, t') && ProgramRun(t', root, tolerance, k, order, ks)
  }

  ghost predicate SamePairs(t: Tree, k: Classes, k': Classes)
    requires t.Valid()
  {
    forall x, y :: OnlyLeaves(t, x) && OnlyLeaves(t, y) ==> (SameClass(k, x, y) <==> SameClass(k', x, y))
  }

  /** Lists all directories of leaves, some of them first. */
  lemma {:induction false} ListRest(t: Tree, ds: seq<nat>) returns (first: seq<nat>)
    requires t.Valid() && NoRepeats(ds) && forall d :: d in ds ==> OnlyLeaves(t, d)
    ensures ds <= first && NoRepeats(first) && forall d: nat :: d in first <==> OnlyLeaves(t, d)
    decreases |t.kind| - |ds|
  {
    if n: nat :| OnlyLeaves(t, n) && n !in ds {
      NoMoreThanNodes(t, ds + [n]);
      first := ListRest(t, ds + [n]);
    } else {
      first := ds;
    }
  }

  lemma NoMoreThanNodes(t: Tree, ds: seq<nat>)
    requires NoRepeats(ds) && forall d :: d in ds ==> d < |t.kind|
    ensures |ds| <= |t.kind|
  {
    SizeOfFirst(ds, |ds|);
    assert ds[..|ds|] == ds;
    InRange(FirstOf(ds, |ds|), |t.kind|);
  }

  lemma {:induction false} InRange(S: set<nat>, n: nat)
    requires forall d :: d in S ==> d < n
    ensures |S| <= n
  {
    if n == 0 {
      assert S == {};
    } else {
      InRange(S - {n - 1}, n - 1);
    }
  }

  // ------------------------------- where transitivity is the exact condition

  /** No directory separates the directories of leaves: it has at most one of
      them below it, or all. */
  ghost predicate Unbranched(t: Tree)
    requires t.Valid()
  {
    forall p: nat, x, y, z {:trigger t.Under(p, x), t.Under(p, y), OnlyLeaves(t, z)} ::
      (p < |t.kind| && x != y && OnlyLeaves(t, x) && OnlyLeaves(t, y) && OnlyLeaves(t, z)
       && t.Under(p, x) && t.Under(p, y)) ==> t.Under(p, z)
  }

  /** That is so if all of them are entries of the same directory. */
  lemma SiblingsUnbranched(t: Tree, d: nat)
    requires t.Valid() && forall x: nat :: OnlyLeaves(t, x) ==> t.parent[x] == Some(d)
    ensures Unbranched(t)
  {
    forall p: nat, x, y, z | p < |t.kind| && x != y && OnlyLeaves(t, x) && OnlyLeaves(t, y) && OnlyLeaves(t, z)
                             && t.Under(p, x) && t.Under(p, y)
      ensures t.Under(p, z)
    {
      UnderClimbs(t, p, x);
      UnderClimbs(t, p, y);
      UnderClimbs(t, p, z);
      if p == x {
        LeafDirsApart(t, x, y);
      } else if p == y {
        LeafDirsApart(t, y, x);
      }
    }
  }

  lemma UnbranchedListing(t: Tree, ds: seq<nat>)
    requires t.Valid() && Unbranched(t) && NoRepeats(ds) && forall d: nat :: d in ds <==> OnlyLeaves(t, d)
    ensures IsListing(t, ds)
  {
    hide OnlyLeaves;
    assert forall i :: 0 <= i < |ds| ==> ds[i] in ds;
    forall p: nat | p < |t.kind|
      ensures Together(t, ds, p)
    {
      assert forall i, k :: 0 <= i < k < |ds| ==> ds[i] != ds[k];
    }
  }
}
