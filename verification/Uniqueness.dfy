/** How much of a directory exists nowhere else. */
module Uniqueness {
  import opened Basics
  import opened Sums
  import opened FileTree
  import opened Propagation

  /** All files below n (n itself, if it is a file). */
  ghost function Files(t: Tree, n: nat): set<nat>
    requires t.Valid() && n < |t.kind|
  {
    set f: nat | f < |t.kind| && t.kind[f].File? && t.Under(n, f)
  }

  /** All members of the class of f lie in S. */
  ghost predicate OnlyIn(k: Classes, f: nat, S: set<nat>) {
    Evaluated(k, f) && k.of[f].value < |k.members| && forall m :: m in k.members[k.of[f].value] ==> m in S
  }

  /** The files below n without a duplicate outside of n. */
  ghost function UniqueFiles(t: Tree, k: Classes, n: nat): set<nat>
    requires t.Valid() && n < |t.kind|
  {
    set f | f in Files(t, n) && OnlyIn(k, f, Files(t, n))
  }

  /** What each node weighs once it is evaluated: as much as its class. */
  ghost function ClassWeights(k: Classes): (w: seq<real>)
    ensures |w| == |k.of|
  {
    seq(|k.of|, n requires 0 <= n < |k.of| =>
      if k.of[n].Some? && k.of[n].value < |k.weight| then k.weight[k.of[n].value] else 0.0)
  }

  ghost function FilesWeight(t: Tree, k: Classes, n: nat): real
    requires t.Valid() && n < |t.kind|
  {
    Total(ClassWeights(k), Files(t, n))
  }

  ghost function UniqueWeight(t: Tree, k: Classes, n: nat): real
    requires t.Valid() && n < |t.kind|
  {
    Total(ClassWeights(k), UniqueFiles(t, k, n))
  }

  ghost function UniqueFraction(t: Tree, k: Classes, n: nat): real
    requires t.Valid() && n < |t.kind|
  {
    if FilesWeight(t, k, n) == 0.0 then 0.0 else UniqueWeight(t, k, n) / FilesWeight(t, k, n)
  }

  /** The recorded fraction: for a file, whether it is the only one of its kind. */
  ghost function NodeFraction(t: Tree, k: Classes, n: nat): real
    requires t.Valid() && Partition(t, k) && n < |t.kind|
  {
    if t.kind[n].Dir? then UniqueFraction(t, k, n)
    else if Evaluated(k, n) && |k.members[k.of[n].value]| == 1 then 1.0 else 0.0
  }

  lemma ClassWeightsNonNegative(t: Tree, k: Classes)
    requires t.Valid() && Partition(t, k)
    ensures NonNegative(ClassWeights(k))
  {
  }

  lemma FilesOfDir(t: Tree, n: nat, f: nat)
    requires t.Valid() && n < |t.kind| && t.kind[n].Dir?
    ensures f in Files(t, n) <==> exists c :: c in t.children[n] && f in Files(t, c)
  {
    if f in Files(t, n) {
      var c :| c in t.children[n] && t.Under(c, f);
      assert f in Files(t, c);
    }
  }

  /** The fraction is a fraction.  It is one exactly when nothing below that
      weighs has a duplicate elsewhere, and zero exactly when everything has. */
  lemma FractionMeaning(t: Tree, k: Classes, n: nat)
    requires t.Valid() && Partition(t, k) && n < |t.kind|
    ensures 0.0 <= UniqueFraction(t, k, n) <= 1.0
    ensures FilesWeight(t, k, n) > 0.0 ==>
              (UniqueFraction(t, k, n) == 1.0 <==>
               forall f :: f in Files(t, n) && ClassWeights(k)[f] > 0.0 ==> OnlyIn(k, f, Files(t, n)))
    ensures UniqueFraction(t, k, n) == 0.0 <==>
              forall f :: f in Files(t, n) && ClassWeights(k)[f] > 0.0 ==> !OnlyIn(k, f, Files(t, n))
  {
    ClassWeightsNonNegative(t, k);
    var w, F, U := ClassWeights(k), Files(t, n), UniqueFiles(t, k, n);
    TotalMonotone(w, U, F);
    TotalNonNegative(w, U);
    TotalDisjoint(w, U, F - U);
    assert U + (F - U) == F;
    TotalZero(w, F - U);
    TotalZero(w, U);
    if Total(w, F) > 0.0 {
      FractionOf(Total(w, U), Total(w, F));
    }
  }

  lemma FractionOf(x: real, y: real)
    requires 0.0 <= x <= y && y > 0.0
    ensures 0.0 <= x / y <= 1.0
    ensures x / y == 1.0 <==> x == y
    ensures x / y == 0.0 <==> x == 0.0
  {
    var q := x / y;
    assert q * y == x;
  }

  /** Nothing lies outside of the root, so all of it is unique. */
  lemma RootIsUnique(t: Tree, k: Classes, root: nat)
    requires t.Valid() && Partition(t, k) && Homogeneous(t, k) && Complete(t, k) && t.Rooted(root)
    ensures UniqueFraction(t, k, root) == if FilesWeight(t, k, root) > 0.0 then 1.0 else 0.0
    ensures t.kind[root].Dir? ==> NodeFraction(t, k, root) == UniqueFraction(t, k, root)
  {
    forall f | f in Files(t, root)
      ensures OnlyIn(k, f, Files(t, root))
    {
      assert Evaluated(k, f);
      forall m | m in k.members[k.of[f].value]
        ensures m in Files(t, root)
      {
        assert k.of[m] == k.of[f];
        assert SortOf(t, m) == SortOf(t, f);
      }
    }
    ClassWeightsNonNegative(t, k);
    FractionMeaning(t, k, root);
    TotalNonNegative(ClassWeights(k), Files(t, root));
    assert UniqueFiles(t, k, root) == Files(t, root);
  }

  // ----------------------------------------------- what it means in checksums

  /** Another file has the same checksum. */
  ghost predicate HasTwin(t: Tree, n: nat)
    requires t.Valid() && n < |t.kind|
  {
    exists m: nat :: m < |t.kind| && m != n && t.kind[m].File? && t.sum[m] == t.sum[n]
  }

  /** Every file with the checksum of f lies below n. */
  ghost predicate NotElsewhere(t: Tree, f: nat, n: nat)
    requires t.Valid() && f < |t.kind| && n < |t.kind|
  {
    forall m: nat :: m < |t.kind| && t.kind[m].File? && t.sum[m] == t.sum[f] ==> t.Under(n, m)
  }

  ghost function FilesOnlyIn(t: Tree, n: nat): set<nat>
    requires t.Valid() && n < |t.kind|
  {
    set f: nat | f < |t.kind| && t.kind[f].File? && t.Under(n, f) && NotElsewhere(t, f, n)
  }

  /** The members of the class of file f are the files with its checksum. */
  lemma ClassOfSum(t: Tree, k: Classes, f: nat, m: nat)
    requires t.Valid() && Partition(t, k) && Complete(t, k) && Homogeneous(t, k) && FilesBySum(t, k)
    requires f < |t.kind| && t.kind[f].File?
    ensures Evaluated(k, f) && k.of[f].value < |k.members| && f in k.members[k.of[f].value]
    ensures m in k.members[k.of[f].value] <==> m < |t.kind| && t.kind[m].File? && t.sum[m] == t.sum[f]
  {
    assert Evaluated(k, f);
    if m in k.members[k.of[f].value] {
      assert k.of[m] == k.of[f];
      assert SortOf(t, m) == SortOf(t, f);
    }
    if m < |t.kind| && t.kind[m].File? && t.sum[m] == t.sum[f] {
      assert Evaluated(k, m) && k.of[m] == k.of[f];
    }
  }

  /** A file's fraction is one exactly if no other file has its checksum. */
  lemma FileFraction(t: Tree, k: Classes, f: nat)
    requires t.Valid() && Partition(t, k) && Complete(t, k) && Homogeneous(t, k) && FilesBySum(t, k)
    requires f < |t.kind| && t.kind[f].File?
    ensures NodeFraction(t, k, f) == if HasTwin(t, f) then 0.0 else 1.0
  {
    ClassOfSum(t, k, f, f);
    var ms := k.members[k.of[f].value];
    var i :| 0 <= i < |ms| && ms[i] == f;
    if HasTwin(t, f) {
      var m: nat :| m < |t.kind| && m != f && t.kind[m].File? && t.sum[m] == t.sum[f];
      ClassOfSum(t, k, f, m);
    }
    if |ms| > 1 {
      var m := if i == 0 then ms[1] else ms[0];
      assert m in ms && m != f;
      ClassOfSum(t, k, f, m);
    }
  }

  lemma UniqueBySum(t: Tree, k: Classes, n: nat)
    requires t.Valid() && Partition(t, k) && Complete(t, k) && Homogeneous(t, k) && FilesBySum(t, k) && n < |t.kind|
    ensures UniqueFiles(t, k, n) == FilesOnlyIn(t, n)
  {
    forall f | f in Files(t, n)
      ensures OnlyIn(k, f, Files(t, n)) <==> NotElsewhere(t, f, n)
    {
      forall m: nat
        ensures Evaluated(k, f) && k.of[f].value < |k.members|
        ensures m in k.members[k.of[f].value] <==> m < |t.kind| && t.kind[m].File? && t.sum[m] == t.sum[f]
      {
        ClassOfSum(t, k, f, m);
      }
    }
  }

  /** The fraction of a directory: of the weight of the files below, the share of
      those whose checksums are found nowhere else. */
  ghost predicate IsFraction(t: Tree, k: Classes, n: nat, x: real)
    requires t.Valid() && n < |t.kind|
  {
    && x * Total(ClassWeights(k), Files(t, n)) == Total(ClassWeights(k), FilesOnlyIn(t, n))
    && (Total(ClassWeights(k), Files(t, n)) == 0.0 ==> x == 0.0)
  }

  lemma FractionValue(t: Tree, k: Classes, n: nat)
    requires t.Valid() && Partition(t, k) && Complete(t, k) && Homogeneous(t, k) && FilesBySum(t, k) && n < |t.kind|
    ensures IsFraction(t, k, n, UniqueFraction(t, k, n))
  {
    UniqueBySum(t, k, n);
    ClassWeightsNonNegative(t, k);
    var w, F, U := ClassWeights(k), Files(t, n), FilesOnlyIn(t, n);
    TotalMonotone(w, U, F);
    TotalNonNegative(w, U);
    if Total(w, F) != 0.0 {
      QuotientOf(Total(w, U), Total(w, F));
    }
  }

  lemma QuotientOf(x: real, y: real)
    requires y != 0.0
    ensures (x / y) * y == x
  {
  }

  /** The same in numbers of files. */
  ghost predicate IsCountedFraction(t: Tree, n: nat, x: real)
    requires t.Valid() && n < |t.kind|
  {
    x * |Files(t, n)| as real == |FilesOnlyIn(t, n)| as real && (Files(t, n) == {} ==> x == 0.0)
  }

  /** Where every file weighs one, the fraction counts files. */
  lemma FractionByCount(t: Tree, k: Classes, n: nat)
    requires t.Valid() && Partition(t, k) && Complete(t, k) && Homogeneous(t, k) && FilesBySum(t, k) && n < |t.kind|
    requires forall f: nat :: f < |t.kind| && t.kind[f].File? ==> ClassWeights(k)[f] == 1.0
    ensures IsCountedFraction(t, n, UniqueFraction(t, k, n))
  {
    FractionValue(t, k, n);
    TotalOnes(ClassWeights(k), Files(t, n));
    TotalOnes(ClassWeights(k), FilesOnlyIn(t, n));
  }

  // ---------------------------------------------- a directory and its entries

  /** The files of the first i entries of p, weighed entry by entry. */
  ghost function SumFiles(t: Tree, k: Classes, p: nat, i: nat): real
    requires t.Valid() && p < |t.kind| && i <= |t.children[p]|
  {
    if i == 0 then 0.0 else SumFiles(t, k, p, i - 1) + FilesWeight(t, k, t.children[p][i - 1])
  }

  ghost function SumUnique(t: Tree, k: Classes, p: nat, i: nat): real
    requires t.Valid() && p < |t.kind| && i <= |t.children[p]|
  {
    if i == 0 then 0.0 else SumUnique(t, k, p, i - 1) + UniqueWeight(t, k, t.children[p][i - 1])
  }

  ghost function FilesOfFirst(t: Tree, p: nat, i: nat): set<nat>
    requires t.Valid() && p < |t.kind| && i <= |t.children[p]|
  {
    if i == 0 then {} else FilesOfFirst(t, p, i - 1) + Files(t, t.children[p][i - 1])
  }

  ghost function UniqueOfFirst(t: Tree, k: Classes, p: nat, i: nat): set<nat>
    requires t.Valid() && p < |t.kind| && i <= |t.children[p]|
  {
    if i == 0 then {} else UniqueOfFirst(t, k, p, i - 1) + UniqueFiles(t, k, t.children[p][i - 1])
  }

  lemma {:induction false} InFilesOfFirst(t: Tree, k: Classes, p: nat, i: nat, f: nat)
    requires t.Valid() && p < |t.kind| && i <= |t.children[p]|
    ensures f in FilesOfFirst(t, p, i) <==> exists j :: 0 <= j < i && f in Files(t, t.children[p][j])
    ensures f in UniqueOfFirst(t, k, p, i) ==> exists j :: 0 <= j < i && f in UniqueFiles(t, k, t.children[p][j])
  {
    if i > 0 {
      InFilesOfFirst(t, k, p, i - 1, f);
    }
  }

  lemma FilesOfAllEntries(t: Tree, k: Classes, p: nat)
    requires t.Valid() && p < |t.kind| && t.kind[p].Dir?
    ensures FilesOfFirst(t, p, |t.children[p]|) == Files(t, p)
  {
    forall f
      ensures f in Files(t, p) <==> f in FilesOfFirst(t, p, |t.children[p]|)
    {
      FilesOfDir(t, p, f);
      InFilesOfFirst(t, k, p, |t.children[p]|, f);
    }
  }

  /** m lies below one of the first i entries of p. */
  ghost predicate UnderFirst(t: Tree, p: nat, i: nat, m: nat)
    requires t.Valid() && p < |t.kind| && i <= |t.children[p]|
  {
    i > 0 && (UnderFirst(t, p, i - 1, m) || t.Under(t.children[p][i - 1], m))
  }

  lemma NoEntries(t: Tree, p: nat)
    requires t.Valid() && p < |t.kind|
    ensures FilesOfFirst(t, p, 0) == {} && forall m: nat :: !UnderFirst(t, p, 0, m)
  {
  }

  lemma OneMoreEntry(t: Tree, p: nat, i: nat)
    requires t.Valid() && p < |t.kind| && i < |t.children[p]|
    ensures t.children[p][i] < |t.kind| && t.height[t.children[p][i]] < t.height[p]
    ensures FilesOfFirst(t, p, i + 1) == FilesOfFirst(t, p, i) + Files(t, t.children[p][i])
    ensures forall m: nat :: UnderFirst(t, p, i + 1, m) <==> UnderFirst(t, p, i, m) || t.Under(t.children[p][i], m)
  {
    assert t.IsChild(p, t.children[p][i]);
  }

  lemma {:induction false} UnderSomeEntry(t: Tree, p: nat, i: nat, m: nat)
    requires t.Valid() && p < |t.kind| && i <= |t.children[p]|
    ensures UnderFirst(t, p, i, m) <==> exists j :: 0 <= j < i && t.Under(t.children[p][j], m)
  {
    if i > 0 {
      UnderSomeEntry(t, p, i - 1, m);
    }
  }

  lemma UnderEntries(t: Tree, p: nat)
    requires t.Valid() && p < |t.kind|
    ensures forall m: nat :: m != p ==> (UnderFirst(t, p, |t.children[p]|, m) <==> t.Under(p, m))
  {
    forall m: nat | m != p
      ensures UnderFirst(t, p, |t.children[p]|, m) <==> t.Under(p, m)
    {
      UnderSomeEntry(t, p, |t.children[p]|, m);
      if t.Under(p, m) {
        var c :| c in t.children[p] && t.Under(c, m);
      }
    }
  }

  /** Entries have no file in common. */
  lemma NextEntryDisjoint(t: Tree, k: Classes, p: nat, i: nat)
    requires t.Valid() && p < |t.kind| && i < |t.children[p]|
    ensures FilesOfFirst(t, p, i) !! Files(t, t.children[p][i])
    ensures UniqueOfFirst(t, k, p, i) !! UniqueFiles(t, k, t.children[p][i])
  {
    forall f | f in Files(t, t.children[p][i])
      ensures f !in FilesOfFirst(t, p, i) && f !in UniqueOfFirst(t, k, p, i)
    {
      InFilesOfFirst(t, k, p, i, f);
      if j :| 0 <= j < i && f in Files(t, t.children[p][j]) {
        SiblingsDisjoint(t, p, t.children[p][j], t.children[p][i], f);
      }
    }
  }

  lemma {:induction false} SumsOverEntries(t: Tree, k: Classes, p: nat, i: nat)
    requires t.Valid() && p < |t.kind| && i <= |t.children[p]|
    ensures SumFiles(t, k, p, i) == Total(ClassWeights(k), FilesOfFirst(t, p, i))
    ensures SumUnique(t, k, p, i) == Total(ClassWeights(k), UniqueOfFirst(t, k, p, i))
  {
    hide Files, UniqueFiles, ClassWeights, Total;
    var w := ClassWeights(k);
    if i == 0 {
      TotalEmpty(w);
    } else {
      SumsOverEntries(t, k, p, i - 1);
      NextEntryDisjoint(t, k, p, i - 1);
      TotalDisjoint(w, FilesOfFirst(t, p, i - 1), Files(t, t.children[p][i - 1]));
      TotalDisjoint(w, UniqueOfFirst(t, k, p, i - 1), UniqueFiles(t, k, t.children[p][i - 1]));
    }
  }

  /** The files of a directory weigh what those of its entries weigh together;
      its unique files weigh at least what those of its entries do, since a
      duplicate in a sibling entry no longer counts as elsewhere. */
  lemma UniqueWeightGrows(t: Tree, k: Classes, p: nat)
    requires t.Valid() && Partition(t, k) && p < |t.kind| && t.kind[p].Dir?
    ensures FilesWeight(t, k, p) == SumFiles(t, k, p, |t.children[p]|)
    ensures UniqueWeight(t, k, p) >= SumUnique(t, k, p, |t.children[p]|)
  {
    var n := |t.children[p]|;
    SumsOverEntries(t, k, p, n);
    FilesOfAllEntries(t, k, p);
    forall f
      ensures f in UniqueOfFirst(t, k, p, n) ==> f in UniqueFiles(t, k, p)
    {
      InFilesOfFirst(t, k, p, n, f);
      if f in UniqueOfFirst(t, k, p, n) {
        var j :| 0 <= j < n && f in UniqueFiles(t, k, t.children[p][j]);
        FilesBelow(t, p, t.children[p][j]);
      }
    }
    ClassWeightsNonNegative(t, k);
    TotalMonotone(ClassWeights(k), UniqueOfFirst(t, k, p, n), UniqueFiles(t, k, p));
  }

  lemma FilesBelow(t: Tree, p: nat, c: nat)
    requires t.Valid() && p < |t.kind| && c in t.children[p]
    ensures Files(t, c) <= Files(t, p)
  {
  }
}
