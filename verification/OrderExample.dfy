/** The smallest tree whose analysis depends on the order. */
module OrderExample {
  import opened Basics
  import opened Sums
  import opened Similarity
  import opened FileTree
  import opened Propagation
  import opened Worklist
  import opened Traversal
  import opened OrderMatters
  import opened EntryOrder
  import opened Linking

  type FolderNode = n: nat | n < 8

  type FolderDir = n: nat | n < 3

  /** Directories 0, 1 and 2 are in the root 7.  Directory 0 holds the file 3,
      directory 2 holds the file 6, and directory 1 holds copies of both, 4 and 5. */
  ghost function Entries(n: nat): seq<nat> {
    if n == 7 then [0, 1, 2] else if n == 0 then [3] else if n == 1 then [4, 5] else if n == 2 then [6] else []
  }

  ghost function Above(n: nat): Option<nat> {
    if n == 7 then None
    else if n < 3 then Some(7)
    else Some(if n == 3 then 0 else if n < 6 then 1 else 2)
  }

  ghost function Depth(n: nat): nat {
    if n == 7 then 2 else if n < 3 then 1 else 0
  }

  ghost predicate InSecond(n: nat) {
    5 <= n <= 6
  }

  ghost function Folders(): Tree {
    Tree(seq(8, n requires n >= 0 => if n < 3 || n == 7 then Dir else File),
         seq(8, n => 1),
         seq(8, n requires n >= 0 => if InSecond(n) then 2 else 1),
         seq(8, n requires n >= 0 => Above(n)),
         seq(8, n requires n >= 0 => Entries(n)),
         seq(8, n requires n >= 0 => Depth(n)))
  }

  /** The files have got their classes. */
  ghost function FilesPlaced(): Classes {
    Classes(seq(8, n requires n >= 0 => if n < 3 || n == 7 then None else Some(if InSecond(n) then 1 else 0)),
            [[3, 4], [5, 6]],
            [1.0, 1.0],
            [[1.0, 1.0], [1.0, 1.0]])
  }

  lemma EntriesAreChildren(p: nat, i: nat)
    requires p < 8 && i < |Entries(p)|
    ensures Entries(p)[i] < 8 && Above(Entries(p)[i]) == Some(p) && Depth(Entries(p)[i]) < Depth(p)
    ensures forall j :: 0 <= j < i ==> Entries(p)[j] != Entries(p)[i]
  {
  }

  lemma AboveIsParent(n: FolderNode)
    ensures n != 7 ==> Above(n).Some? && Above(n).value < 8 && n in Entries(Above(n).value)
  {
    if n < 3 {
      assert Entries(7)[n] == n;
    } else if n == 4 || n == 5 {
      assert Entries(1)[n - 4] == n;
    }
  }

  lemma ListedAreChildren()
    ensures var t := Folders();
            && (forall p, i :: 0 <= p < 8 && 0 <= i < |t.children[p]| ==> t.IsChild(p, t.children[p][i]))
            && forall p, i, j :: 0 <= p < 8 && 0 <= i < j < |t.children[p]| ==> t.children[p][i] != t.children[p][j]
  {
    hide Entries, Above, Depth;
    forall p: nat, i: nat | p < 8 && i < |Entries(p)| {
      EntriesAreChildren(p, i);
    }
  }

  lemma ParentsList()
    ensures var t := Folders();
            forall n :: 0 <= n < 8 && t.parent[n].Some? ==> t.parent[n].value < 8 && n in t.children[t.parent[n].value]
  {
    assert Above(7) == None;
    hide Entries, Above, Depth;
    forall n: nat | n < 7 {
      AboveIsParent(n);
    }
  }

  lemma FilesHoldNothing()
    ensures var t := Folders();
            && |t.kind| == |t.weight| == |t.sum| == |t.parent| == |t.children| == |t.height| == 8
            && forall n :: 0 <= n < 8 && t.kind[n].File? ==> t.children[n] == []
  {
  }

  lemma FoldersValid()
    ensures Folders().Valid()
  {
    hide *;
    FilesHoldNothing();
    ListedAreChildren();
    ParentsList();
    MakesValid(Folders());
  }

  lemma MakesValid(t: Tree)
    requires |t.weight| == |t.sum| == |t.parent| == |t.children| == |t.height| == |t.kind|
    requires forall p, i :: 0 <= p < |t.kind| && 0 <= i < |t.children[p]| ==> t.IsChild(p, t.children[p][i])
    requires forall p, i, j :: 0 <= p < |t.kind| && 0 <= i < j < |t.children[p]| ==>
               t.children[p][i] != t.children[p][j]
    requires forall n :: 0 <= n < |t.kind| && t.parent[n].Some? ==>
               t.parent[n].value < |t.kind| && n in t.children[t.parent[n].value]
    requires forall n :: 0 <= n < |t.kind| && t.kind[n].File? ==> t.children[n] == []
    ensures t.Valid()
  {
    hide Tree.IsChild;
  }

  lemma FilePointers()
    ensures var k := FilesPlaced();
            && |k.of| == 8 && k.members == [[3, 4], [5, 6]] && k.weight == [1.0, 1.0] && |k.entry| == 2
            && k.of[3] == k.of[4] == Some(0) && k.of[5] == k.of[6] == Some(1)
            && forall n :: 0 <= n < 8 && k.of[n].Some? ==> 3 <= n < 7
  {
  }

  lemma FilesPartition()
    ensures Folders().Valid() && Partition(Folders(), FilesPlaced())
  {
    hide *;
    FoldersValid();
    FilesHoldNothing();
    FilePointers();
    MakesPartition(Folders(), FilesPlaced());
  }

  lemma MakesPartition(t: Tree, k: Classes)
    requires t.Valid() && |t.kind| == |k.of| == 8
    requires k.members == [[3, 4], [5, 6]] && k.weight == [1.0, 1.0] && |k.entry| == 2
    requires k.of[3] == k.of[4] == Some(0) && k.of[5] == k.of[6] == Some(1)
    requires forall n :: 0 <= n < 8 && k.of[n].Some? ==> 3 <= n < 7
    ensures Partition(t, k)
  {
    hide Tree.Valid;
    var first, second := k.members[0], k.members[1];
    assert first[0] == 3 && first[1] == 4 && second[0] == 5 && second[1] == 6;
    assert 3 in first && 4 in first && 5 in second && 6 in second;
    forall c, i | 0 <= c < 2 && 0 <= i < |k.members[c]|
      ensures k.members[c][i] == 3 + 2 * c + i && k.of[k.members[c][i]] == Some(c)
    {
      if c == 0 {
      } else {
      }
    }
  }

  /** Nodes 3 to 6 are files, the others have entries. */
  lemma Kinds(n: FolderNode)
    ensures var t := Folders();
            && t.Valid() && |t.kind| == 8
            && (t.kind[n].File? <==> 3 <= n < 7) && (t.FullDir(n) <==> t.kind[n].Dir?)
            && t.sum[n] == if InSecond(n) then 2 else 1
    ensures Evaluated(FilesPlaced(), n) <==> 3 <= n < 7
    ensures 3 <= n < 7 ==> Folders().Weighty(n) && FilesPlaced().of[n] == Some(if InSecond(n) then 1 else 0)
  {
    FoldersValid();
    hide Tree.Valid;
  }

  lemma FilesSorted()
    ensures WellSorted(Folders(), FilesPlaced())
  {
    FilesPartition();
    var t, k := Folders(), FilesPlaced();
    forall n: nat | n < 8 {
      Kinds(n);
    }
    hide Partition, Tree.Valid;
    assert Closed(t, k);
  }

  lemma FilesByTheirSums()
    ensures Folders().Valid() && |FilesPlaced().of| == |Folders().kind|
    ensures FilesBySum(Folders(), FilesPlaced()) && EmptyDirsTogether(Folders(), FilesPlaced())
  {
    FoldersValid();
    forall n: nat | n < 8 {
      Kinds(n);
    }
    hide Tree.Valid, Folders;
  }

  lemma FilesGap()
    ensures Folders().Valid() && |FilesPlaced().of| == |Folders().kind|
    ensures |FilesPlaced().weight| == |FilesPlaced().members| == 2
    ensures Gap(Folders(), FilesPlaced()) && NoEmptyClass(FilesPlaced())
  {
    FoldersValid();
    forall n: nat | n < 8 {
      Kinds(n);
    }
    assert forall c :: 0 <= c < 2 ==> FilesPlaced().members[c] != [] && FilesPlaced().weight[c] == 1.0;
    hide Tree.Valid, Folders;
  }

  lemma FilesClassified()
    ensures Classified(Folders(), FilesPlaced())
  {
    FilesSorted();
    FilesByTheirSums();
    FilesGap();
    forall n: nat | n < 8 {
      Kinds(n);
    }
    hide Partition, Tree.Valid, WellSorted, Folders, FilesPlaced, Gap, NoEmptyClass, FilesBySum, EmptyDirsTogether;
  }

  /** The classes of the entries of 0, 1 and 2. */
  ghost function EntryClasses(d: nat): set<nat> {
    if d == 0 then {0} else if d == 1 then {0, 1} else {1}
  }

  lemma ClassesOfEntries(d: FolderDir)
    ensures Folders().Valid() && ChildClasses(Folders(), FilesPlaced(), d) == EntryClasses(d)
    ensures OnlyLeaves(Folders(), d)
  {
    FoldersValid();
    hide Tree.Valid;
    var t, k := Folders(), FilesPlaced();
    forall n: nat | n < 8 {
      Kinds(n);
    }
    var first := Entries(d)[0];
    assert t.children[d] == Entries(d) && first in t.children[d] && k.of[first].value in ChildClasses(t, k, d);
    if d == 1 {
      var second := Entries(1)[1];
      assert second in t.children[1] && k.of[second].value in ChildClasses(t, k, 1);
    }
  }

  lemma OnlyThree(n: nat)
    ensures Folders().Valid() && (OnlyLeaves(Folders(), n) <==> n < 3)
  {
    FoldersValid();
    if n < 3 {
      ClassesOfEntries(n);
    } else if n < 8 {
      Kinds(n);
      Kinds(0);
      assert n == 7 ==> Entries(7)[0] == 0;
    }
  }

  /** What classes weigh together, each of them weighing one. */
  lemma WeightOf(A: set<nat>)
    ensures A <= {0, 1} ==> Total(Floors([1.0, 1.0]), A) == if A == {} then 0.0 else if A == {0, 1} then 2.0 else 1.0
  {
    var w := Floors([1.0, 1.0]);
    assert w == [1.0, 1.0];
    TotalEmpty(w);
    TotalAdd(w, {}, 0);
    TotalAdd(w, {}, 1);
    TotalAdd(w, {0}, 1);
    assert {} + {0} == {0} && {} + {1} == {1} && {0} + {1} == {0, 1};
    assert A <= {0, 1} ==> A == {} || A == {0} || A == {1} || A == {0, 1} by {
      hide *;
      assert A <= {0, 1} && 0 in A && 1 in A ==> A == {0, 1};
      assert A <= {0, 1} && 0 in A && 1 !in A ==> A == {0};
      assert A <= {0, 1} && 0 !in A && 1 in A ==> A == {1};
      assert A <= {0, 1} && 0 !in A && 1 !in A ==> A == {};
    }
  }

  lemma HalfAway(A: set<nat>, B: set<nat>)
    requires (A == {0, 1} && (B == {0} || B == {1})) || (B == {0, 1} && (A == {0} || A == {1}))
    ensures Distance([1.0, 1.0], A, B) == 0.5 && A * B != {}
  {
    assert A + B == {0, 1};
    assert SymDiff(A, B) == {0} || SymDiff(A, B) == {1};
    assert 0 in A * B || 1 in A * B;
    WeightOf(A + B);
    WeightOf(SymDiff(A, B));
  }

  /** Directories 0 and 2 differ by half from 1, and have nothing in common. */
  lemma NearHere(tolerance: real, x: FolderDir, y: FolderDir)
    ensures Folders().Valid()
    ensures x != y ==>
              (Near(Folders(), tolerance, FilesPlaced(), x, y) <==> (x == 1 || y == 1) && tolerance > 0.5)
  {
    ClassesOfEntries(x);
    ClassesOfEntries(y);
    var A, B := EntryClasses(x), EntryClasses(y);
    if x == y {
    } else if x == 1 || y == 1 {
      HalfAway(A, B);
    } else {
      assert A * B == {};
    }
  }

  lemma FilesStarted()
    ensures Started(Folders(), FilesPlaced()) && Classified(Folders(), FilesPlaced())
  {
    FilesClassified();
    hide WellSorted;
  }

  lemma FoldersRooted()
    ensures Folders().Valid() && Folders().Rooted(7) && Unbranched(Folders())
  {
    FoldersValid();
    var t := Folders();
    forall n: nat
      ensures n < 8 ==> t.Under(7, n)
      ensures OnlyLeaves(t, n) ==> t.parent[n] == Some(7)
    {
      OnlyThree(n);
      if n < 7 {
        AboveIsParent(n);
        assert Above(n) == Some(7) || Above(Above(n).value) == Some(7);
        assert t.Under(7, 7);
        UnderClimbs(t, 7, n);
        UnderClimbs(t, 7, Above(n).value);
      }
    }
    SiblingsUnbranched(t, 7);
  }

  /** In this tree the order matters exactly for tolerances above one half. */
  lemma MattersAboveHalf(tolerance: real)
    ensures Folders().Valid()
    ensures SameInEveryOrder(Folders(), 7, tolerance, FilesPlaced()) <==> tolerance <= 0.5
  {
    FilesStarted();
    FoldersRooted();
    OrderIrrelevantExactlyWhen(Folders(), 7, tolerance, FilesPlaced());
    TransitiveBelowHalf(tolerance);
  }

  lemma TransitiveBelowHalf(tolerance: real)
    ensures Folders().Valid()
    ensures NearIsTransitive(Folders(), tolerance, FilesPlaced()) <==> tolerance <= 0.5
  {
    FoldersValid();
    var t, k := Folders(), FilesPlaced();
    forall n: nat {
      OnlyThree(n);
    }
    hide OnlyLeaves, Near, Folders, FilesPlaced;
    if tolerance <= 0.5 {
      forall x, y | x < 3 && y < 3 && x != y
        ensures !Near(t, tolerance, k, x, y)
      {
        NearHere(tolerance, x, y);
      }
    } else {
      NearHere(tolerance, 0, 1);
      NearHere(tolerance, 1, 2);
      NearHere(tolerance, 0, 2);
      assert !SameOrNear(t, tolerance, k, 0, 2);
    }
  }

  lemma IsListingOfThree(ds: seq<nat>)
    requires |ds| == 3 && NoRepeats(ds) && forall i :: 0 <= i < 3 ==> ds[i] < 3
    ensures Folders().Valid() && IsListing(Folders(), ds)
  {
    FoldersRooted();
    forall d: nat
      ensures d in ds <==> OnlyLeaves(Folders(), d)
    {
      OnlyThree(d);
      assert d < 3 ==> d == ds[0] || d == ds[1] || d == ds[2];
    }
    UnbranchedListing(Folders(), ds);
  }

  /** Two runs of the program over this tree with a tolerance of 60 percent, which
      differ in the order of the entries of 7: one puts directories 0 and 2 into
      the same class, the other does not. */
  lemma TwoOutcomes()
      returns (t1: Tree, order: seq<nat>, ks: seq<Classes>, t2: Tree, order': seq<nat>, ks': seq<Classes>)
    ensures var t, k := Folders(), FilesPlaced();
            && Classified(t, k) && |ks| == |order| + 1 && |ks'| == |order'| + 1
            && RunOn(t, t1, 7, 0.6, k, order, ks) && RunOn(t, t2, 7, 0.6, k, order', ks')
            && SameClass(ks[|order|], 0, 2) && !SameClass(ks'[|order'|], 0, 2)
  {
    FilesStarted();
    FoldersRooted();
    OnlyThree(0);
    OnlyThree(2);
    var t, k := Folders(), FilesPlaced();
    var f := LinksOfChain();
    var g := LinksOfOthers();
    hide Folders, FilesPlaced, Started, Classified, RunOn, Links, SameClass, OnlyLeaves, IsListing;
    assert LinkedListing(t, 0.6, k, [0, 1, 2], f) && LinkedListing(t, 0.6, k, [0, 2, 1], g);
    t1, order, ks := LinkedIsRun(t, 7, 0.6, k, [0, 1, 2], f);
    t2, order', ks' := LinkedIsRun(t, 7, 0.6, k, [0, 2, 1], g);
  }

  /** In the order 0, 1, 2 all links lead to 0. */
  lemma LinksOfChain() returns (f: seq<nat>)
    ensures Folders().Valid() && IsListing(Folders(), [0, 1, 2])
    ensures Links(Folders(), 0.6, FilesPlaced(), [0, 1, 2], f)
    ensures HeadOf([0, 1, 2], f, 0) == HeadOf([0, 1, 2], f, 2)
  {
    hide *;
    Permutations();
    IsListingOfThree([0, 1, 2]);
    NearHere(0.6, 1, 0);
    NearHere(0.6, 2, 1);
    f := CanLinkAll(Folders(), 0.6, FilesPlaced(), [0, 1, 2]);
    GrowsByThree(Folders(), 0.6, FilesPlaced(), 0, 1, 2, [0, 1, 2]);
    GrownLinks(Folders(), 0.6, FilesPlaced(), [0, 1, 2], f, 3, 0);
    GrownLinks(Folders(), 0.6, FilesPlaced(), [0, 1, 2], f, 3, 2);
    HeadAt([0, 1, 2], f, 0);
    HeadAt([0, 1, 2], f, 2);
  }

  /** In the order 0, 2, 1 those of 0 and 2 do not. */
  lemma LinksOfOthers() returns (f: seq<nat>)
    ensures Folders().Valid() && IsListing(Folders(), [0, 2, 1])
    ensures Links(Folders(), 0.6, FilesPlaced(), [0, 2, 1], f)
    ensures HeadOf([0, 2, 1], f, 0) != HeadOf([0, 2, 1], f, 2)
  {
    hide *;
    Permutations();
    IsListingOfThree([0, 2, 1]);
    NearHere(0.6, 2, 0);
    f := CanLinkAll(Folders(), 0.6, FilesPlaced(), [0, 2, 1]);
    FarLinks(Folders(), 0.6, FilesPlaced(), [0, 2, 1], f);
    HeadAt([0, 2, 1], f, 0);
    HeadAt([0, 2, 1], f, 1);
  }

  lemma HeadAt(ds: seq<nat>, f: seq<nat>, i: nat)
    requires NoRepeats(ds) && i < |ds|
    ensures HeadOf(ds, f, ds[i]) == Head(f, i)
  {
    IndexIs(ds, i);
  }

  lemma Permutations()
    ensures NoRepeats([0, 1, 2]) && NoRepeats([0, 2, 1])
  {
  }
}
