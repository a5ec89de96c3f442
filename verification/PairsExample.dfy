/** A tree in which nearness is not transitive and the order does not matter all
    the same, since it keeps pairs of directories together.  Two of its
    directories are duplicates. */
module PairsExample {
  import opened Basics
  import opened Sums
  import opened Similarity
  import opened FileTree
  import opened Propagation
  import opened Worklist
  import opened Traversal
  import opened OrderMatters
  import opened EntryOrder
  import opened Linking
  import opened OrderExample

  type PairNode = n: nat | n < 13

  type PairDir = n: nat | n < 4

  /** The root 6 holds 4 and 5; 4 holds the directories 0 and 1, 5 holds 2 and 3.
      Directory 0 holds the file 7, directory 2 holds the file 10, and each of 1
      and 3 holds copies of both: 8 and 9, 11 and 12. */
  ghost function EntriesAt(n: nat): seq<nat> {
    if n == 6 then [4, 5] else if n == 4 then [0, 1] else if n == 5 then [2, 3]
    else if n == 0 then [7] else if n == 1 then [8, 9] else if n == 2 then [10] else if n == 3 then [11, 12]
    else []
  }

  ghost function Holder(n: nat): Option<nat> {
    if n == 6 then None
    else if n == 4 || n == 5 then Some(6)
    else if n < 2 then Some(4) else if n < 4 then Some(5)
    else Some(if n == 7 then 0 else if n < 10 then 1 else if n == 10 then 2 else 3)
  }

  ghost function Level(n: nat): nat {
    if n == 6 then 3 else if n == 4 || n == 5 then 2 else if n < 4 then 1 else 0
  }

  ghost predicate IsSecond(n: nat) {
    n == 9 || n == 10 || n == 12
  }

  ghost function Pairs(): Tree {
    Tree(seq(13, n requires n >= 0 => if n < 7 then Dir else File),
         seq(13, n => 1),
         seq(13, n requires n >= 0 => if IsSecond(n) then 2 else 1),
         seq(13, n requires n >= 0 => Holder(n)),
         seq(13, n requires n >= 0 => EntriesAt(n)),
         seq(13, n requires n >= 0 => Level(n)))
  }

  /** The files have got their classes. */
  ghost function PairFiles(): Classes {
    Classes(seq(13, n requires n >= 0 => if n < 7 then None else Some(if IsSecond(n) then 1 else 0)),
            [[7, 8, 11], [9, 10, 12]],
            [1.0, 1.0],
            [[1.0, 1.0, 1.0], [1.0, 1.0, 1.0]])
  }

  // -------------------------------------------------------------- it is a tree

  lemma ListedAreHeld(p: nat, i: nat)
    requires p < 13 && i < |EntriesAt(p)|
    ensures EntriesAt(p)[i] < 13 && Holder(EntriesAt(p)[i]) == Some(p) && Level(EntriesAt(p)[i]) < Level(p)
    ensures forall j :: 0 <= j < i ==> EntriesAt(p)[j] != EntriesAt(p)[i]
  {
  }

  lemma HolderLists(n: PairNode)
    ensures n != 6 ==> Holder(n).Some? && Holder(n).value < 13 && n in EntriesAt(Holder(n).value)
  {
    assert EntriesAt(4)[0] == 0 && EntriesAt(4)[1] == 1 && EntriesAt(5)[0] == 2 && EntriesAt(5)[1] == 3;
    assert EntriesAt(6)[0] == 4 && EntriesAt(6)[1] == 5 && EntriesAt(0)[0] == 7 && EntriesAt(2)[0] == 10;
    assert EntriesAt(1)[0] == 8 && EntriesAt(1)[1] == 9 && EntriesAt(3)[0] == 11 && EntriesAt(3)[1] == 12;
  }

  lemma PairsChildren()
    ensures var t := Pairs();
            && (forall p, i :: 0 <= p < 13 && 0 <= i < |t.children[p]| ==> t.IsChild(p, t.children[p][i]))
            && forall p, i, j :: 0 <= p < 13 && 0 <= i < j < |t.children[p]| ==> t.children[p][i] != t.children[p][j]
  {
    hide EntriesAt, Holder, Level;
    forall p: nat, i: nat | p < 13 && i < |EntriesAt(p)| {
      ListedAreHeld(p, i);
    }
  }

  lemma PairsParents()
    ensures var t := Pairs();
            forall n :: 0 <= n < 13 && t.parent[n].Some? ==>
              t.parent[n].value < 13 && n in t.children[t.parent[n].value]
  {
    assert Holder(6) == None;
    hide EntriesAt, Holder, Level;
    forall n: nat | n < 13 && n != 6 {
      HolderLists(n);
    }
  }

  lemma PairsLists()
    ensures var t := Pairs();
            && |t.kind| == |t.weight| == |t.sum| == |t.parent| == |t.children| == |t.height| == 13
            && forall n :: 0 <= n < 13 && t.kind[n].File? ==> t.children[n] == []
  {
  }

  lemma PairsValid()
    ensures Pairs().Valid() && |Pairs().kind| == 13
  {
    hide *;
    PairsLists();
    PairsChildren();
    PairsParents();
    MakesValid(Pairs());
  }

  lemma PairsRooted()
    ensures Pairs().Valid() && Pairs().Rooted(6)
  {
    PairsValid();
    var t := Pairs();
    forall n: nat | n < 13
      ensures t.Under(6, n)
    {
      ClimbsToRoot(n);
    }
  }

  lemma {:induction false} ClimbsToRoot(n: PairNode)
    ensures Pairs().Valid() && Pairs().Under(6, n)
    decreases 3 - Level(n)
  {
    PairsValid();
    UnderClimbs(Pairs(), 6, n);
    if n != 6 {
      HolderLists(n);
      ListedAreHeld(Holder(n).value, 0);
      ClimbsToRoot(Holder(n).value);
    }
  }

  // ------------------------------------------------------ the files are placed

  lemma KindsOfPairs(n: PairNode)
    ensures var t := Pairs();
            && t.Valid() && |t.kind| == 13
            && (t.kind[n].File? <==> 7 <= n) && (t.FullDir(n) <==> t.kind[n].Dir?)
            && t.sum[n] == if IsSecond(n) then 2 else 1
    ensures Evaluated(PairFiles(), n) <==> 7 <= n
    ensures 7 <= n ==> Pairs().Weighty(n) && PairFiles().of[n] == Some(if IsSecond(n) then 1 else 0)
  {
    PairsValid();
    hide Tree.Valid;
  }

  /** The files of the two classes. */
  ghost function Member(c: nat, i: nat): nat {
    if c == 0 then if i == 0 then 7 else if i == 1 then 8 else 11
    else if i == 0 then 9 else if i == 1 then 10 else 12
  }

  lemma MembersOfPairs()
    ensures var k := PairFiles();
            && |k.members| == |k.weight| == |k.entry| == 2 && |k.members[0]| == |k.members[1]| == 3
            && (forall c, i :: 0 <= c < 2 && 0 <= i < 3 ==> k.members[c][i] == Member(c, i))
            && forall c :: 0 <= c < 2 ==> k.weight[c] == 1.0
  {
  }

  lemma PlacesOfPairs(n: PairNode)
    ensures var c := if IsSecond(n) then 1 else 0;
            n >= 7 ==> exists i :: 0 <= i < 3 && Member(c, i) == n
  {
    assert Member(0, 0) == 7 && Member(0, 1) == 8 && Member(0, 2) == 11;
    assert Member(1, 0) == 9 && Member(1, 1) == 10 && Member(1, 2) == 12;
  }

  lemma ListedMembers()
    ensures var k := PairFiles();
            && |k.of| == 13 && |k.members| == |k.weight| == |k.entry| == 2
            && (forall n :: 0 <= n < 13 && k.of[n].Some? ==> k.of[n].value < 2 && n in k.members[k.of[n].value])
  {
    MembersOfPairs();
    var k := PairFiles();
    forall n: nat | n < 13 {
      KindsOfPairs(n);
    }
    assert |k.of| == 13;
    hide Pairs, PairFiles, Member, IsSecond, Tree.Valid, Tree.Weighty, Tree.FullDir;
    forall n | 7 <= n < 13
      ensures k.of[n].value < 2 && n in k.members[k.of[n].value]
    {
      PlacesOfPairs(n);
      var c := if IsSecond(n) then 1 else 0;
      var i :| 0 <= i < 3 && Member(c, i) == n;
      assert k.members[c][i] == n;
    }
  }

  lemma MembersPlaced()
    ensures var k := PairFiles();
            && |k.of| == 13 && |k.members| == |k.weight| == 2 && NonNegative(k.weight)
            && (forall c :: 0 <= c < 2 ==> k.members[c] != [])
            && (forall c, i :: 0 <= c < 2 && 0 <= i < |k.members[c]| ==>
                  k.members[c][i] < 13 && k.of[k.members[c][i]] == Some(c))
            && forall c, i, j :: 0 <= c < 2 && 0 <= i < j < |k.members[c]| ==> k.members[c][i] != k.members[c][j]
  {
    MembersOfPairs();
    var k := PairFiles();
    forall n: nat | n < 13 {
      KindsOfPairs(n);
    }
    assert |k.of| == 13;
    assert forall c, i :: 0 <= c < 2 && 0 <= i < 3 ==> IsSecond(Member(c, i)) == (c == 1) && 7 <= Member(c, i) < 13;
    assert forall c, i, j :: 0 <= c < 2 && 0 <= i < j < 3 ==> Member(c, i) != Member(c, j);
    hide Pairs, PairFiles, Member, IsSecond, Tree.Valid, Tree.Weighty, Tree.FullDir;
  }

  lemma PairsPartition()
    ensures Pairs().Valid() && Partition(Pairs(), PairFiles())
  {
    PairsValid();
    ListedMembers();
    MembersPlaced();
    hide Tree.Valid, Pairs, PairFiles, NonNegative;
  }

  lemma PairsSorted()
    ensures WellSorted(Pairs(), PairFiles())
  {
    PairsPartition();
    forall n: nat | n < 13 {
      KindsOfPairs(n);
    }
    hide Partition, Tree.Valid, Pairs;
    assert Closed(Pairs(), PairFiles());
  }

  lemma PairsBySum()
    ensures Pairs().Valid() && |PairFiles().of| == |Pairs().kind|
    ensures FilesBySum(Pairs(), PairFiles()) && EmptyDirsTogether(Pairs(), PairFiles())
  {
    PairsValid();
    forall n: nat | n < 13 {
      KindsOfPairs(n);
    }
    hide Tree.Valid, Pairs;
  }

  lemma PairsGap()
    ensures Pairs().Valid() && |PairFiles().of| == |Pairs().kind| && |PairFiles().weight| == |PairFiles().members| == 2
    ensures Gap(Pairs(), PairFiles()) && NoEmptyClass(PairFiles())
  {
    PairsValid();
    forall n: nat | n < 13 {
      KindsOfPairs(n);
    }
    assert forall c :: 0 <= c < 2 ==> PairFiles().members[c] != [] && PairFiles().weight[c] == 1.0;
    hide Tree.Valid, Pairs;
  }

  lemma PairsStarted()
    ensures Started(Pairs(), PairFiles()) && Classified(Pairs(), PairFiles())
  {
    PairsSorted();
    PairsBySum();
    PairsGap();
    forall n: nat | n < 13 {
      KindsOfPairs(n);
    }
    hide Partition, Tree.Valid, WellSorted, Pairs, PairFiles, Gap, NoEmptyClass, FilesBySum, EmptyDirsTogether;
  }

  // --------------------------------------------------------------- who is near

  ghost function PairClasses(d: nat): set<nat> {
    if d == 0 then {0} else if d == 2 then {1} else {0, 1}
  }

  lemma ClassesOfListed(d: PairDir)
    ensures Pairs().Valid() && ChildClasses(Pairs(), PairFiles(), d) == PairClasses(d)
    ensures OnlyLeaves(Pairs(), d)
  {
    PairsValid();
    hide Tree.Valid;
    var t, k := Pairs(), PairFiles();
    forall n: nat | n < 13 {
      KindsOfPairs(n);
    }
    var first := EntriesAt(d)[0];
    assert t.children[d] == EntriesAt(d) && first in t.children[d] && k.of[first].value in ChildClasses(t, k, d);
    if |EntriesAt(d)| == 2 {
      var second := EntriesAt(d)[1];
      assert second in t.children[d] && k.of[second].value in ChildClasses(t, k, d);
    }
  }

  lemma OnlyFour(n: nat)
    ensures Pairs().Valid() && (OnlyLeaves(Pairs(), n) <==> n < 4)
  {
    PairsValid();
    if n < 4 {
      ClassesOfListed(n);
    } else if n < 13 {
      KindsOfPairs(n);
      KindsOfPairs(0);
      KindsOfPairs(2);
      KindsOfPairs(4);
      assert n == 6 ==> EntriesAt(6)[0] == 4;
      assert n == 4 ==> EntriesAt(4)[0] == 0;
      assert n == 5 ==> EntriesAt(5)[0] == 2;
    }
  }

  lemma SameIsZero()
    ensures Distance([1.0, 1.0], {0, 1}, {0, 1}) == 0.0 && {0, 1} * {0, 1} != {}
  {
    assert 0 in {0, 1} * {0, 1};
    assert {0, 1} + {0, 1} == {0, 1} && SymDiff({0, 1}, {0, 1}) == {};
    WeightOf({0, 1});
    WeightOf({});
  }

  /** 1 and 3 hold the same, 0 and 2 have nothing in common, and all other pairs
      differ by half. */
  lemma NearInPairs(tolerance: real, x: PairDir, y: PairDir)
    ensures Pairs().Valid()
    ensures x != y ==>
              (Near(Pairs(), tolerance, PairFiles(), x, y) <==>
               if x + y == 2 then false else if x + y == 4 then tolerance > 0.0 else tolerance > 0.5)
  {
    ClassesOfListed(x);
    ClassesOfListed(y);
    if x == y {
    } else if x + y == 2 {
      assert PairClasses(x) * PairClasses(y) == {};
    } else if x + y == 4 {
      SameIsZero();
    } else {
      HalfAway(PairClasses(x), PairClasses(y));
    }
  }

  lemma PairsTransitive(tolerance: real)
    ensures Pairs().Valid()
    ensures NearIsTransitive(Pairs(), tolerance, PairFiles()) <==> tolerance <= 0.5
  {
    PairsValid();
    var t, k := Pairs(), PairFiles();
    forall n: nat {
      OnlyFour(n);
    }
    hide OnlyLeaves, Near, Pairs, PairFiles;
    if tolerance <= 0.5 {
      forall x, y | x < 4 && y < 4 && x != y
        ensures Near(t, tolerance, k, x, y) ==> x + y == 4
      {
        NearInPairs(tolerance, x, y);
      }
    } else {
      NearInPairs(tolerance, 0, 1);
      NearInPairs(tolerance, 1, 2);
      NearInPairs(tolerance, 0, 2);
      assert !SameOrNear(t, tolerance, k, 0, 2);
    }
  }

  // ------------------------------------------------ the order does not matter

  lemma UnderByParent(t: Tree, p: nat, n: nat, h: nat)
    requires t.Valid() && p < |t.kind| && n < |t.kind| && t.parent[n] == Some(h) && h < |t.kind|
    ensures t.Under(p, n) <==> n == p || t.Under(p, h)
    ensures t.Under(p, p)
  {
    UnderClimbs(t, p, n);
  }

  lemma ParentsHere(n: PairDir)
    ensures Pairs().Valid() && |Pairs().kind| == |Pairs().parent| == 13
    ensures Pairs().parent[n] == Some(if n < 2 then 4 else 5) && Pairs().parent[4] == Some(6) == Pairs().parent[5]
  {
    PairsValid();
  }

  lemma HeldBy(n: PairDir)
    ensures Pairs().Valid() && |Pairs().kind| == 13
    ensures Pairs().Under(4, n) <==> n < 2
    ensures Pairs().Under(5, n) <==> n >= 2
  {
    hide *;
    ParentsHere(n);
    var t, h := Pairs(), if n < 2 then 4 else 5;
    UnderByParent(t, 4, n, h);
    UnderByParent(t, 5, n, h);
    UnderByParent(t, 4, h, 6);
    UnderByParent(t, 5, h, 6);
    NotAboveRoot();
  }

  lemma NotAboveRoot()
    ensures Pairs().Valid() && |Pairs().kind| == 13 && !Pairs().Under(4, 6) && !Pairs().Under(5, 6)
  {
    PairsValid();
    var t := Pairs();
    assert t.height[4] < t.height[6] && t.height[5] < t.height[6];
    hide Tree.Valid, Tree.Under, Pairs;
    if t.Under(4, 6) {
      UnderHeight(t, 4, 6);
    }
    if t.Under(5, 6) {
      UnderHeight(t, 5, 6);
    }
  }

  /** A listing does not begin with 0 and 2. */
  lemma NotBothFirst(ds: seq<nat>)
    requires Pairs().Valid() && IsListing(Pairs(), ds)
    ensures |ds| == 4 && (forall i :: 0 <= i < 4 ==> ds[i] < 4) && ds[0] + ds[1] != 2
  {
    var t := Pairs();
    PairsValid();
    forall n: nat {
      OnlyFour(n);
    }
    forall n: nat | n < 4 {
      HeldBy(n);
    }
    assert Together(t, ds, 4) && Together(t, ds, 5);
    hide Pairs, OnlyLeaves, Contiguous;
    FourOf(ds);
    var i, j := Index(ds, 1), Index(ds, 3);
    assert ds[0] < 4 && ds[1] < 4;
  }

  lemma FourOf(ds: seq<nat>)
    requires NoRepeats(ds) && forall d: nat :: d in ds <==> d < 4
    ensures |ds| == 4 && forall i :: 0 <= i < 4 ==> ds[i] < 4
  {
    assert 0 in ds && 1 in ds && 2 in ds && 3 in ds;
    SizeOfFirst(ds, |ds|);
    assert ds[..|ds|] == ds;
    assert FirstOf(ds, |ds|) == {0, 1, 2, 3};
    assert forall i :: 0 <= i < |ds| ==> ds[i] in ds;
  }

  /** Above one half, every listing grows along nearness. */
  lemma ListingGrows(tolerance: real, ds: seq<nat>)
    requires tolerance > 0.5 && Pairs().Valid() && IsListing(Pairs(), ds)
    ensures |ds| == 4 && Grows(Pairs(), tolerance, PairFiles(), ds, 4)
  {
    NotBothFirst(ds);
    assert NoRepeats(ds);
    var t, k := Pairs(), PairFiles();
    hide Pairs, PairFiles, IsListing, Near;
    forall j | 0 < j < 4
      ensures NearEarlier(t, tolerance, k, ds, j)
    {
      var m := if ds[j] + ds[0] == 2 then 1 else 0;
      assert m < j && ds[m] != ds[j] && ds[m] + ds[j] != 2;
      NearInPairs(tolerance, ds[j], ds[m]);
      assert Near(t, tolerance, k, ds[j], ds[m]);
    }
  }

  /** Transitivity is not necessary: in this tree the order never matters, while
      nearness is transitive for tolerances up to one half only. */
  lemma NotNecessary(tolerance: real)
    ensures Pairs().Valid()
    ensures SameInEveryOrder(Pairs(), 6, tolerance, PairFiles())
    ensures NearIsTransitive(Pairs(), tolerance, PairFiles()) <==> tolerance <= 0.5
  {
    PairsRooted();
    PairsStarted();
    PairsTransitive(tolerance);
    if tolerance <= 0.5 {
      TransitiveIsEnough(Pairs(), 6, tolerance, PairFiles());
    } else {
      forall ds | IsListing(Pairs(), ds) {
        ListingGrows(tolerance, ds);
      }
      hide IsListing, Grows, Pairs, PairFiles;
      GrowingIsEnough(Pairs(), 6, tolerance, PairFiles());
    }
  }

  // ------------------------------------------------- duplicates at zero percent

  lemma ContentOfTwo(t: Tree, d: nat, a: nat, b: nat)
    requires t.Valid() && d < |t.kind| && t.kind[d].Dir? && t.children[d] == [a, b] && a < |t.kind| && b < |t.kind|
    requires t.kind[a].File? && t.kind[b].File? && t.Weighty(a) && t.Weighty(b)
    ensures ContentOf(t, d) == DirOf({FileOf(t.sum[a]), FileOf(t.sum[b])}) && t.Weighty(d)
  {
    assert ContentOf(t, a) == FileOf(t.sum[a]) && ContentOf(t, b) == FileOf(t.sum[b]);
    assert t.children[d][0] == a && t.children[d][1] == b;
    hide Tree.Valid;
    assert ContentOf(t, d).entries == {FileOf(t.sum[a]), FileOf(t.sum[b])};
  }

  lemma SameContents()
    ensures Pairs().Valid() && |Pairs().kind| == 13
    ensures ContentOf(Pairs(), 1) == ContentOf(Pairs(), 3) && Pairs().Weighty(1) && Pairs().Weighty(3)
    ensures Pairs().FullDir(1)
  {
    PairsValid();
    var t := Pairs();
    forall n: nat | n < 13 {
      KindsOfPairs(n);
    }
    assert t.children[1] == [8, 9] && t.children[3] == [11, 12];
    assert !IsSecond(8) && !IsSecond(11) && IsSecond(9) && IsSecond(12);
    hide Pairs, IsSecond, Tree.Valid, Tree.Weighty, ContentOf;
    ContentOfTwo(t, 1, 8, 9);
    ContentOfTwo(t, 3, 11, 12);
  }

  /** With a tolerance of zero percent the program does not find that directories
      1 and 3 are duplicates, with one percent it does. */
  lemma DuplicatesMissed()
      returns (order: seq<nat>, ks: seq<Classes>, order': seq<nat>, ks': seq<Classes>)
    ensures var t, k := Pairs(), PairFiles();
            && Classified(t, k) && ContentOf(t, 1) == ContentOf(t, 3)
            && ProgramRun(t, 6, 0.0, k, order, ks) && ProgramRun(t, 6, 0.01, k, order', ks')
            && !SameClass(ks[|order|], 1, 3) && SameClass(ks'[|order'|], 1, 3)
  {
    hide *;
    PairsRooted();
    PairsStarted();
    SameContents();
    var t, k := Pairs(), PairFiles();
    order, ks := CanRun(t, 6, 0.0, k);
    order', ks' := CanRun(t, 6, 0.01, k);
    RunOfProgram(t, 6, 0.0, k, order, ks);
    RunOfProgram(t, 6, 0.01, k, order', ks');
    DuplicatesFoundExactlyWhen(t, 0.0, order, ks, 1, 3);
    DuplicatesFoundExactlyWhen(t, 0.01, order', ks', 1, 3);
    PairIsPlaced(ks[|order|]);
    PairIsPlaced(ks'[|order'|]);
  }

  lemma PairIsPlaced(k: Classes)
    ensures Complete(Pairs(), k) ==>
              1 < |k.of| && 3 < |k.of| && (SameClass(k, 1, 3) <==> k.of[1] == k.of[3])
  {
    assert Complete(Pairs(), k) ==> Evaluated(k, 1) && Evaluated(k, 3);
  }
}
