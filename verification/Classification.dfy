/** Classes of files and of empty directories: what the propagation starts from. */
module Classification {
  import opened Basics
  import opened Sums
  import opened FileTree
  import opened Propagation
  import opened Worklist
  import opened OrderMatters

  /** Files with equal checksums weigh both nothing or both something. */
  ghost predicate SumsAgree(t: Tree)
    requires t.Valid()
  {
    forall a, b :: 0 <= a < |t.kind| && 0 <= b < |t.kind| && t.kind[a].File? && t.kind[b].File?
                   && t.sum[a] == t.sum[b] ==>
      (t.weight[a] > 0 <==> t.weight[b] > 0)
  }

  /** The multimap from checksums to files that the scan hands over. */
  ghost predicate Indexes(t: Tree, sum2node: map<Cksum, seq<nat>>)
    requires t.Valid()
  {
    && (forall s :: s in sum2node ==> sum2node[s] != [] && NoRepeats(sum2node[s]))
    && (forall s, i :: s in sum2node && 0 <= i < |sum2node[s]| ==> IsFileWith(t, s, sum2node[s][i]))
    && (forall f: nat :: f < |t.kind| && t.kind[f].File? ==> t.sum[f] in sum2node && f in sum2node[t.sum[f]])
  }

  ghost predicate IsFileWith(t: Tree, s: Cksum, f: nat)
    requires t.Valid()
  {
    f < |t.kind| && t.kind[f].File? && t.sum[f] == s
  }

  /** What holds while the leaves are classified, before any directory with
      entries is.  Without SumsAgree a class of files may weigh a fraction. */
  ghost predicate LeafClasses(t: Tree, k: Classes) {
    && WellSorted(t, k)
    && FilesBySum(t, k)
    && EmptyDirsTogether(t, k)
    && (SumsAgree(t) ==> Gap(t, k))
    && forall n: nat :: n < |t.kind| && t.FullDir(n) ==> !Evaluated(k, n)
  }

  lemma PushKeepsLeafClasses(t: Tree, k: Classes)
    requires LeafClasses(t, k)
    ensures LeafClasses(t, Push(k))
  {
    PushKeepsPartition(t, k);
    forall m: nat | m < |t.kind| && Evaluated(Push(k), m)
      ensures Ready(t, Push(k), m)
    {
      assert Ready(t, k, m);
    }
  }

  /** Class c holds exactly the evaluated leaves that are like leaf n. */
  ghost predicate HoldsItsLike(t: Tree, k: Classes, c: nat, n: nat)
    requires t.Valid() && n < |t.kind| && c < |k.members|
  {
    forall a: nat :: a in k.members[c] <==>
      a < |t.kind| && Evaluated(k, a) && SortOf(t, a) == SortOf(t, n) && (t.kind[n].File? ==> t.sum[a] == t.sum[n])
  }

  lemma AddLeafKeeps(t: Tree, k: Classes, c: nat, n: nat)
    requires LeafClasses(t, k) && n < |t.kind| && !t.FullDir(n) && !Evaluated(k, n) && c < |k.members|
    requires HoldsItsLike(t, k, c, n)
    ensures LeafClasses(t, AddNode(t, k, c, n))
  {
    AddNodeKeepsSorts(t, k, c, n);
    if SumsAgree(t) {
      AddNodeKeepsSound(t, k, c, n);
    }
    LikeByClass(t, k, c, n);
    LeavesStay(t, k, c, n);
  }

  lemma LikeByClass(t: Tree, k: Classes, c: nat, n: nat)
    requires t.Valid() && Partition(t, k) && n < |t.kind| && c < |k.members| && HoldsItsLike(t, k, c, n)
    ensures forall a: nat :: a < |t.kind| && SortOf(t, a) == SortOf(t, n) && Evaluated(k, a) ==>
              (k.of[a] == Some(c) <==> t.kind[n].Dir? || t.sum[a] == t.sum[n])
  {
    forall a: nat | a < |t.kind| && Evaluated(k, a)
      ensures k.of[a] == Some(c) <==> a in k.members[c]
    {
      assert a in k.members[k.of[a].value];
    }
  }

  lemma LeavesStay(t: Tree, k: Classes, c: nat, n: nat)
    requires LeafClasses(t, k) && n < |t.kind| && !t.FullDir(n) && !Evaluated(k, n) && c < |k.members|
    requires forall a: nat :: a < |t.kind| && SortOf(t, a) == SortOf(t, n) && Evaluated(k, a) ==>
               (k.of[a] == Some(c) <==> t.kind[n].Dir? || t.sum[a] == t.sum[n])
    ensures var k' := AddNode(t, k, c, n); FilesBySum(t, k') && EmptyDirsTogether(t, k')
    ensures forall m: nat :: m < |t.kind| && t.FullDir(m) ==> !Evaluated(AddNode(t, k, c, n), m)
  {
    var k' := AddNode(t, k, c, n);
    assert k'.of == k.of[n := Some(c)];
  }

  // ------------------------------------------------ one class per checksum

  /** The files with a checksum outside of rest are classified. */
  ghost predicate SumsDone(t: Tree, k: Classes, rest: set<Cksum>) {
    && LeafClasses(t, k) && NoEmptyClass(k)
    && forall n: nat :: Evaluated(k, n) <==> n < |t.kind| && t.kind[n].File? && t.sum[n] !in rest
  }

  /** So are the files of part, which share the last class c. */
  ghost predicate SumInProgress(t: Tree, k: Classes, rest: set<Cksum>, part: seq<nat>, c: nat) {
    && LeafClasses(t, k) && |k.members| == c + 1 && k.members[c] == part
    && (forall d :: 0 <= d < c ==> k.members[d] != [])
    && forall n: nat :: Evaluated(k, n) <==>
         n < |t.kind| && t.kind[n].File? && (t.sum[n] !in rest || n in part)
  }

  lemma NothingDone(t: Tree, k: Classes, sum2node: map<Cksum, seq<nat>>)
    requires t.Valid() && Partition(t, k) && Indexes(t, sum2node)
    requires k.members == [] && forall n: nat :: !Evaluated(k, n)
    ensures SumsDone(t, k, sum2node.Keys)
  {
  }

  lemma BeginSum(t: Tree, k: Classes, rest: set<Cksum>)
    requires SumsDone(t, k, rest)
    ensures SumInProgress(t, Push(k), rest, [], |k.members|)
  {
    PushKeepsLeafClasses(t, k);
    assert forall n: nat :: Evaluated(Push(k), n) <==> Evaluated(k, n);
  }

  lemma NextFile(t: Tree, sum2node: map<Cksum, seq<nat>>, k: Classes, rest: set<Cksum>, s: Cksum, i: nat, c: nat)
    requires t.Valid() && Indexes(t, sum2node) && s in sum2node && s in rest && i < |sum2node[s]|
    requires SumInProgress(t, k, rest, sum2node[s][..i], c)
    ensures sum2node[s][i] < |t.kind| == |k.of| && c < |k.members|
    ensures !Evaluated(k, sum2node[s][i]) && Ready(t, k, sum2node[s][i])
    ensures SumInProgress(t, AddNode(t, k, c, sum2node[s][i]), rest, sum2node[s][..i + 1], c)
  {
    FileIsNext(t, sum2node, k, rest, s, i, c);
    var f := sum2node[s][i];
    AddLeafKeeps(t, k, c, f);
    FileAdded(t, k, rest, sum2node[s][..i], s, f, c);
    hide *;
  }

  lemma FileIsNext(t: Tree, sum2node: map<Cksum, seq<nat>>, k: Classes, rest: set<Cksum>, s: Cksum, i: nat, c: nat)
    requires t.Valid() && Indexes(t, sum2node) && s in sum2node && s in rest && i < |sum2node[s]|
    requires SumInProgress(t, k, rest, sum2node[s][..i], c)
    ensures LeafClasses(t, k) && sum2node[s][i] < |t.kind| == |k.of| && c < |k.members|
    ensures !Evaluated(k, sum2node[s][i]) && Ready(t, k, sum2node[s][i]) && !t.FullDir(sum2node[s][i])
    ensures IsFileWith(t, s, sum2node[s][i]) && HoldsItsLike(t, k, c, sum2node[s][i])
    ensures sum2node[s][..i + 1] == sum2node[s][..i] + [sum2node[s][i]]
  {
    var range := sum2node[s];
    assert |k.of| == |t.kind|;
    hide LeafClasses;
    assert forall j :: 0 <= j <= i ==> IsFileWith(t, s, range[j]);
    assert range[i] !in range[..i];
  }

  lemma FileAdded(t: Tree, k: Classes, rest: set<Cksum>, part: seq<nat>, s: Cksum, f: nat, c: nat)
    requires t.Valid() && Partition(t, k) && SumInProgress(t, k, rest, part, c) && IsFileWith(t, s, f)
    requires c < |k.members| && !Evaluated(k, f) && s in rest && LeafClasses(t, AddNode(t, k, c, f))
    ensures SumInProgress(t, AddNode(t, k, c, f), rest, part + [f], c)
  {
    hide LeafClasses, NodeWeight;
    var k' := AddNode(t, k, c, f);
    assert forall n: nat :: Evaluated(k', n) <==> Evaluated(k, n) || n == f;
  }

  lemma EndSum(t: Tree, sum2node: map<Cksum, seq<nat>>, k: Classes, rest: set<Cksum>, s: Cksum, c: nat)
    requires t.Valid() && Indexes(t, sum2node) && s in sum2node && s in rest
    requires SumInProgress(t, k, rest, sum2node[s], c)
    ensures SumsDone(t, k, rest - {s})
  {
    assert sum2node[s] != [];
    assert forall j :: 0 <= j < |sum2node[s]| ==> IsFileWith(t, s, sum2node[s][j]);
  }

  // -------------------------------------------- one class of empty directories

  /** All files are classified, and the empty directories among part, which
      share the last class c. */
  ghost predicate DirsInProgress(t: Tree, k: Classes, part: seq<nat>, c: nat) {
    && LeafClasses(t, k) && |k.members| == c + 1
    && (forall d :: 0 <= d < c ==> k.members[d] != [])
    && (forall n: nat :: Evaluated(k, n) <==>
          n < |t.kind| && (t.kind[n].File? || (t.EmptyDir(n) && n in part)))
    && forall n: nat :: n in k.members[c] <==> n < |t.kind| && t.EmptyDir(n) && n in part
  }

  lemma BeginDirs(t: Tree, k: Classes)
    requires SumsDone(t, k, {})
    ensures DirsInProgress(t, Push(k), [], |k.members|)
  {
    PushKeepsLeafClasses(t, k);
    assert forall n: nat :: Evaluated(Push(k), n) <==> Evaluated(k, n);
  }

  lemma NextDir(t: Tree, k: Classes, part: seq<nat>, n: nat, c: nat)
    requires t.Valid() && n < |t.kind| && n !in part && DirsInProgress(t, k, part, c)
    ensures !t.EmptyDir(n) ==> DirsInProgress(t, k, part + [n], c)
    ensures t.EmptyDir(n) ==> n < |k.of| && c < |k.members| && !Evaluated(k, n) && Ready(t, k, n)
    ensures t.EmptyDir(n) ==> DirsInProgress(t, AddNode(t, k, c, n), part + [n], c)
  {
    if t.EmptyDir(n) {
      assert HoldsItsLike(t, k, c, n);
      AddLeafKeeps(t, k, c, n);
      var k' := AddNode(t, k, c, n);
      assert forall m: nat :: Evaluated(k', m) <==> Evaluated(k, m) || m == n;
    }
  }

  /** With an empty last class forgotten, nothing but the directories with
      entries is left to do. */
  lemma EndDirs(t: Tree, k: Classes, part: seq<nat>, c: nat)
    requires DirsInProgress(t, k, part, c) && forall n: nat :: n < |t.kind| ==> n in part
    ensures LeavesDone(t, k)
    ensures k.members[c] != [] ==> LeavesReady(t, k)
    ensures k.members[c] == [] ==> LeavesReady(t, DropLast(k))
  {
    assert forall n: nat :: n < |t.kind| && !t.FullDir(n) ==> t.kind[n].File? || t.EmptyDir(n);
    if k.members[c] == [] {
      DropKeepsLeafClasses(t, k);
    }
  }

  lemma DropKeepsLeafClasses(t: Tree, k: Classes)
    requires LeafClasses(t, k) && k.members != [] && k.members[|k.members| - 1] == []
    ensures LeafClasses(t, DropLast(k))
  {
    var k' := DropLast(k);
    forall m: nat | m < |t.kind| && Evaluated(k', m)
      ensures Ready(t, k', m)
    {
      assert Ready(t, k, m);
    }
  }

  ghost function DropLast(k: Classes): Classes
    requires |k.members| == |k.weight| == |k.entry| > 0
  {
    var n := |k.members| - 1;
    Classes(k.of, k.members[..n], k.weight[..n], k.entry[..n])
  }

  /** The state the propagation starts from. */
  ghost predicate LeavesReady(t: Tree, k: Classes) {
    LeafClasses(t, k) && NoEmptyClass(k) && LeavesDone(t, k)
  }

  lemma LeavesAreClassified(t: Tree, k: Classes)
    requires LeavesReady(t, k) && SumsAgree(t)
    ensures Classified(t, k)
  {
  }

  lemma LeavesAreStarted(t: Tree, k: Classes)
    requires LeavesReady(t, k)
    ensures Started(t, k)
  {
  }

  /** What holds of the classes after any run, whatever the tolerance and the weights. */
  lemma RunKeepsLeaves(t: Tree, tolerance: real, order: seq<nat>, ks: seq<Classes>)
    requires t.Valid() && Run(t, tolerance, order, ks) && LeavesReady(t, ks[0])
    ensures |ks| == |order| + 1 && Partition(t, ks[0]) && Partition(t, ks[|order|])
    ensures WellSorted(t, ks[|order|]) && Extends(t, ks[0], ks[|order|]) && NoEmptyClass(ks[|order|])
    ensures FilesBySum(t, ks[|order|]) && EmptyDirsTogether(t, ks[|order|])
  {
    RunKeeps(t, tolerance, order, ks, |order|);
    FilesStayBySum(t, ks[0], ks[|order|]);
  }

  // ------------------------------------------------- what classes of files weigh

  /** The sum of the numbers w[n] over the nodes of ns. */
  ghost function SumOver(w: seq<nat>, ns: seq<nat>): nat {
    if ns == [] then 0
    else SumOver(w, ns[..|ns| - 1]) + if ns[|ns| - 1] < |w| then w[ns[|ns| - 1]] else 0
  }

  lemma {:induction false} SumOverOnes(w: seq<nat>, ns: seq<nat>)
    requires forall i :: 0 <= i < |ns| ==> ns[i] < |w| && w[ns[i]] == 1
    ensures SumOver(w, ns) == |ns|
  {
    if ns != [] {
      SumOverOnes(w, ns[..|ns| - 1]);
    }
  }

  lemma {:induction false} SumOfRecords(w: seq<nat>, ns: seq<nat>, es: seq<real>)
    requires |ns| == |es| && forall i :: 0 <= i < |ns| ==> ns[i] < |w| && es[i] == w[ns[i]] as real
    ensures SumSeq(es) == SumOver(w, ns) as real
  {
    if ns != [] {
      var i := |ns| - 1;
      SumOfRecords(w, ns[..i], es[..i]);
      IntsAsReals(SumOver(w, ns[..i]), w[ns[i]]);
    }
  }

  /** A class that holds a file weighs the mean of the weights of its members,
      all of which are files. */
  lemma FileClassWeight(t: Tree, k: Classes, n: nat)
    requires t.Valid() && Partition(t, k) && Means(k) && FilesRecorded(t, k) && Homogeneous(t, k)
    requires n < |t.kind| && t.kind[n].File? && Evaluated(k, n)
    ensures k.of[n].value < |k.members| == |k.weight|
    ensures forall m :: m in k.members[k.of[n].value] ==> m < |t.kind| && t.kind[m].File?
    ensures k.weight[k.of[n].value] * |k.members[k.of[n].value]| as real
         == SumOver(t.weight, k.members[k.of[n].value]) as real
    ensures k.members[k.of[n].value] != []
  {
    RecordsOfFiles(t, k, n);
    hide *;
    var c := k.of[n].value;
    SumOfRecords(t.weight, k.members[c], k.entry[c]);
    MeanTimesCount(SumSeq(k.entry[c]), |k.members[c]|);
  }

  lemma RecordsOfFiles(t: Tree, k: Classes, n: nat)
    requires t.Valid() && Partition(t, k) && Means(k) && FilesRecorded(t, k) && Homogeneous(t, k)
    requires n < |t.kind| && t.kind[n].File? && Evaluated(k, n)
    ensures n < |k.of| && k.of[n].Some? && k.of[n].value < |k.members| == |k.weight| == |k.entry|
    ensures var ms, es := k.members[k.of[n].value], k.entry[k.of[n].value];
            && |ms| == |es| > 0 && k.weight[k.of[n].value] == SumSeq(es) / |ms| as real
            && (forall m :: m in ms ==> m < |t.kind| == |t.weight| && t.kind[m].File?)
            && forall i :: 0 <= i < |ms| ==> ms[i] < |t.weight| && es[i] == t.weight[ms[i]] as real
  {
    var c := k.of[n].value;
    var ms, es := k.members[c], k.entry[c];
    assert TrueMean(k, c) && n in ms;
    forall i | 0 <= i < |ms|
      ensures ms[i] < |t.kind| && t.kind[ms[i]].File? && i < |es| && es[i] == t.weight[ms[i]] as real
    {
      assert RecordedAt(t, k, c, i) && k.of[ms[i]] == Some(c);
      assert SortOf(t, ms[i]) == SortOf(t, n);
    }
  }

  lemma MeanTimesCount(sum: real, count: nat)
    requires count > 0
    ensures sum / count as real * count as real == sum
  {
  }

  lemma SelfQuotient(x: real)
    requires x != 0.0
    ensures x / x == 1.0
  {
  }

  lemma FileClassOfOnes(t: Tree, k: Classes, n: nat)
    requires t.Valid() && Partition(t, k) && Means(k) && FilesRecorded(t, k) && Homogeneous(t, k)
    requires n < |t.kind| && t.kind[n].File? && Evaluated(k, n)
    requires forall m :: 0 <= m < |t.weight| ==> t.weight[m] == 1
    ensures k.of[n].value < |k.members| == |k.weight| && k.weight[k.of[n].value] == 1.0
  {
    RecordsOfFiles(t, k, n);
    hide *;
    OnesWeighOne(t.weight, k.members[k.of[n].value], k.entry[k.of[n].value]);
  }

  lemma OnesWeighOne(w: seq<nat>, ms: seq<nat>, es: seq<real>)
    requires |ms| == |es| > 0 && forall m :: 0 <= m < |w| ==> w[m] == 1
    requires forall i :: 0 <= i < |ms| ==> ms[i] < |w| && es[i] == w[ms[i]] as real
    ensures SumSeq(es) / |ms| as real == 1.0
  {
    hide *;
    SumOverOnes(w, ms);
    SumOfRecords(w, ms, es);
    SelfQuotient(|ms| as real);
  }

  lemma DropConsistent(t: Tree, k: Classes, pending: seq<nat>)
    requires Consistent(t, k, pending) && k.members != [] && k.members[|k.members| - 1] == []
    ensures Consistent(t, DropLast(k), pending)
  {
    var k' := DropLast(k);
    forall c | 0 <= c < |k'.members|
      ensures TrueMean(k', c)
    {
      assert TrueMean(k, c);
    }
    forall c, i | 0 <= c < |k'.members| && 0 <= i < |k'.members[c]|
      ensures RecordedAt(t, k', c, i)
    {
      assert RecordedAt(t, k, c, i);
    }
    assert forall n: nat :: Ready(t, k, n) ==> Ready(t, k', n);
    assert forall n: nat :: n < |t.kind| ==> Waiting(t, k', n) == Waiting(t, k, n);
  }
}
