/** The nodes and equivalence classes of one run in mutable form.  A pointer to
    a node or to a class is an index; the fields of all nodes (and of all
    classes) are held in sequences that the methods update. */
module Arenas {
  import opened Basics
  import opened Sums
  import opened Similarity
  import opened FileTree
  import opened Propagation
  import opened Worklist
  import opened Classification
  import opened TreeBuilding
  import opened Uniqueness
  import opened Interesting
  import opened Traversal
  import opened OrderMatters
  import opened EntryOrder
  import opened Linking
  import opened TreeCtor
  import ScanDb

  /** A file weighs one, or its size. */
  function FileWeight(useSize: bool, size: nat): (w: nat)
    ensures useSize ==> w == size
    ensures !useSize ==> w == 1
  {
    if useSize then size else 1
  }

  ghost function FileWeights(useSize: bool, sizes: seq<nat>): seq<nat> {
    seq(|sizes|, n requires 0 <= n < |sizes| => FileWeight(useSize, sizes[n]))
  }

  lemma FileWeightsPush(useSize: bool, sizes: seq<nat>, s: nat)
    ensures FileWeights(useSize, sizes + [s]) == FileWeights(useSize, sizes) + [FileWeight(useSize, s)]
  {
  }

  ghost function Unmarked(marks: map<nat, bool>): set<nat> {
    set c | c in marks && !marks[c]
  }

  /** Adding a double to an unsigned integer. */
  function AddTruncated(sum: nat, w: real): (r: nat)
    requires w >= 0.0
    ensures r as real == sum as real + w.Floor as real
  {
    FloorShift(sum, w);
    (sum as real + w).Floor
  }

  class Arena {
    const useSize: bool
    const tolerableDiffPct: int

    // Node
    var kind: seq<Kind>
    var size: seq<nat>
    var parent: seq<Option<nat>>
    var children: seq<seq<nat>>
    var eqClass: seq<Option<nat>>
    var pending: seq<nat>
    var uniqueFraction: seq<real>
    ghost var sum: seq<Cksum>
    ghost var height: seq<nat>

    // EqClass
    var members: seq<seq<nat>>
    var weight: seq<real>
    ghost var entry: seq<seq<real>>


    ghost function TreeView(): Tree
      reads `kind, `size, `sum, `parent, `children, `height
    {
      Tree(kind, FileWeights(useSize, size), sum, parent, children, height)
    }

    ghost function ClassView(): Classes
      reads `eqClass, `members, `weight, `entry
    {
      Classes(eqClass, members, weight, entry)
    }

    ghost predicate Valid()
      reads this
    {
      Consistent(TreeView(), ClassView(), pending) && |uniqueFraction| == |kind|
    }

    lemma TreeIsValid()
      requires Valid()
      ensures TreeView().Valid() && Partition(TreeView(), ClassView()) && |kind| == |TreeView().kind|
    {
    }

    ghost function Tolerance(): (r: real)
      ensures 100.0 * r == tolerableDiffPct as real
    {
      tolerableDiffPct as real / 100.0
    }

    predicate IsEvaluated(n: nat)
      requires n < |eqClass|
      reads `eqClass
    {
      eqClass[n].Some?
    }

    predicate IsReadyToEvaluate(n: nat)
      requires n < |pending|
      reads `pending
    {
      pending[n] == 0
    }

    // ------------------------------------------------- Node::Node, AddChild

    constructor (useSize: bool, tolerableDiffPct: int)
      ensures Valid() && this.useSize == useSize && this.tolerableDiffPct == tolerableDiffPct
      ensures kind == [] && members == []
    {
      this.useSize, this.tolerableDiffPct := useSize, tolerableDiffPct;
      kind, size, parent, children, eqClass, pending, uniqueFraction := [], [], [], [], [], [], [];
      sum, height, members, weight, entry := [], [], [], [], [];
    }

    /** A node without parent, children and class. */
    method NewNode(k: Kind, s: nat, ghost checksum: Cksum) returns (n: nat)
      requires Valid()
      modifies `kind, `size, `parent, `children, `eqClass, `pending, `uniqueFraction, `sum, `height
      ensures Valid() && n == |old(kind)|
      ensures TreeView() == WithNode(old(TreeView()), k, FileWeight(useSize, s), checksum)
      ensures eqClass == old(eqClass) + [None] && size == old(size) + [s]
    {
      hide Consistent, WithNode;
      ghost var t, c, z := TreeView(), ClassView(), size;
      Lengths(t, c, pending);
      WithNodeConsistent(t, c, pending, k, FileWeight(useSize, s), checksum);
      n := |kind|;
      Append(k, s, checksum);
      FileWeightsPush(useSize, z, s);
      WithNodeIs(t, TreeView(), k, FileWeight(useSize, s), checksum);
    }

    method Append(k: Kind, s: nat, ghost checksum: Cksum)
      modifies `kind, `size, `parent, `children, `eqClass, `pending, `uniqueFraction, `sum, `height
      ensures kind == old(kind) + [k] && size == old(size) + [s]
      ensures parent == old(parent) + [None] && children == old(children) + [[]]
      ensures eqClass == old(eqClass) + [None] && pending == old(pending) + [0]
      ensures |uniqueFraction| == |old(uniqueFraction)| + 1
      ensures sum == old(sum) + [checksum] && height == old(height) + [0]
    {
      kind, size, parent, children := kind + [k], size + [s], parent + [None], children + [[]];
      eqClass, pending, uniqueFraction := eqClass + [None], pending + [0], uniqueFraction + [0.0];
      sum, height := sum + [checksum], height + [0];
    }

    /** Makes child, so far without a parent, the last child of n. */
    method AddChild(n: nat, child: nat)
      requires Valid() && n < |kind| && child < |kind|
      requires kind[n].Dir? && !IsEvaluated(n) && !IsEvaluated(child) && parent[child].None?
      requires !TreeView().Under(child, n)
      modifies `parent, `children, `pending, `height
      ensures Valid() && TreeView() == WithChild(old(TreeView()), n, child)
      ensures parent == old(parent)[child := Some(n)]
      ensures children == old(children)[n := old(children)[n] + [child]]
      ensures pending == old(pending)[n := old(pending)[n] + 1]
    {
      ghost var t := TreeView();
      WithChildConsistent(t, ClassView(), pending, n, child);
      parent := parent[child := Some(n)];
      children := children[n := children[n] + [child]];
      pending := pending[n := pending[n] + 1];
      height := Lifted(t, child);
    }

    // --------------------------------------------------- TreeCtorProcessor

    ghost predicate NoneEvaluated()
      reads `eqClass
    {
      forall n: nat :: n < |eqClass| ==> eqClass[n].None?
    }

    /** The node for one call of the scan, and its place in the multimap. */
    method Construct(calls: Calls, i: nat, sum2node0: map<Cksum, seq<nat>>) returns (sum2node: map<Cksum, seq<nat>>)
      requires Valid() && ScanDb.WellFormed(calls) && i < |calls| && Mirrors(TreeView(), calls, i)
      requires Indexes(TreeView(), sum2node0) && NoneEvaluated()
      modifies `kind, `size, `parent, `children, `eqClass, `pending, `uniqueFraction, `sum, `height
      ensures Valid() && Mirrors(TreeView(), calls, i + 1) && Indexes(TreeView(), sum2node)
      ensures size == old(size) + [if calls[i].File? then calls[i].info.size else 0]
      ensures NoneEvaluated()
    {
      hide Consistent, Partition, Waiting, Indexes, Mirrors;
      TreeIsValid();
      ghost var t := TreeView();
      SizeOfMirror(t, calls, i);
      var k := if calls[i].File? then File else Dir;
      var bytes := if calls[i].File? then calls[i].info.size else 0;
      ghost var checksum := if calls[i].File? then calls[i].info.sum else 0;
      var n := NewNode(k, bytes, checksum);
      TreeIsValid();
      Lengths(TreeView(), ClassView(), pending);
      ghost var t', w := TreeView(), FileWeight(useSize, bytes);
      NodeForCall(t, calls, k, w, checksum);
      if calls[i].File? {
        sum2node := Added(sum2node0, calls[i].info.sum, n);
        IndexesFile(t, w, checksum, sum2node0);
      } else {
        sum2node := sum2node0;
        IndexesDir(t, w, checksum, sum2node0);
      }
      if !calls[i].Root? {
        ParentIsDir(t', t, calls, i, k, w, checksum);
        LinkForCall(t, calls, k, w, checksum, calls[i].parent);
        AddChild(calls[i].parent, n);
        TreeIsValid();
        IndexesSame(t', TreeView(), sum2node);
      }
    }

    /** Turns the calls of a scan into nodes and a multimap: what the analysis needs. */
    method BuildTree(calls: Calls) returns (root: nat, sum2node: map<Cksum, seq<nat>>)
      requires Valid() && kind == [] && members == [] && ScanDb.WellFormed(calls)
      modifies `kind, `size, `parent, `children, `eqClass, `pending, `uniqueFraction, `sum, `height
      ensures Valid() && Mirrors(TreeView(), calls, |calls|) && root == 0
      ensures TreeView().Rooted(root) && Indexes(TreeView(), sum2node)
      ensures |size| == |calls| && forall i :: 0 <= i < |calls| && calls[i].File? ==> size[i] == calls[i].info.size
      ensures members == [] && forall n: nat :: !Evaluated(ClassView(), n)
    {
      hide Partition, Means, FilesRecorded, Closed, Waiting, Indexes, Mirrors, Tree.Valid;
      TreeIsValid();
      Lengths(TreeView(), ClassView(), pending);
      sum2node := map[];
      NothingYet(TreeView(), calls);
      for i := 0 to |calls|
        invariant Valid() && Mirrors(TreeView(), calls, i) && Indexes(TreeView(), sum2node) && NoneEvaluated()
        invariant |size| == i && forall j :: 0 <= j < i && calls[j].File? ==> size[j] == calls[j].info.size
      {
        sum2node := Construct(calls, i, sum2node);
      }
      root := 0;
      TreeIsValid();
      MirrorsRooted(TreeView(), calls);
    }

    // ------------------------------------------------------- Node::GetWeight

    lemma ClassesInFields(n: nat)
      requires Valid() && n < |kind| && Ready(TreeView(), ClassView(), n)
      ensures forall i :: 0 <= i < |children[n]| ==>
                children[n][i] < |eqClass| && eqClass[children[n][i]].Some?
      ensures ChildClasses(TreeView(), ClassView(), n)
           == set i | 0 <= i < |children[n]| :: eqClass[children[n][i]].value
    {
    }

    method GetWeight(n: nat) returns (w: real)
      requires Valid() && n < |kind| && Ready(TreeView(), ClassView(), n)
      ensures w == NodeWeight(TreeView(), ClassView(), n)
      ensures eqClass[n].Some? ==> w == weight[eqClass[n].value]
      ensures eqClass[n].None? && kind[n].File? ==> w == if useSize then size[n] as real else 1.0
      ensures eqClass[n].None? && kind[n].Dir? ==>
                w == Total(weight, set i | 0 <= i < |children[n]| :: eqClass[children[n][i]].value)
    {
      if IsEvaluated(n) {
        return weight[eqClass[n].value];
      }
      match kind[n]
      case File =>
        w := FileWeight(useSize, size[n]) as real;
      case Dir =>
        var eqClasses: set<nat> := {};
        for i := 0 to |children[n]|
          invariant eqClasses == set j | 0 <= j < i :: eqClass[children[n][j]].value
        {
          eqClasses := eqClasses + {eqClass[children[n][i]].value};
        }
        ClassesInFields(n);
        w := SumWeights(eqClasses);
    }

    /** Adds up class weights in whatever order the set yields its elements. */
    method SumWeights(cs: set<nat>) returns (w: real)
      requires forall c :: c in cs ==> c < |weight|
      ensures w == Total(weight, cs)
    {
      var rest := cs;
      w := 0.0;
      TotalEmpty(weight);
      assert cs - rest == {};
      while rest != {}
        invariant rest <= cs
        invariant w == Total(weight, cs - rest)
      {
        var c :| c in rest;
        TotalAdd(weight, cs - rest, c);
        assert cs - rest + {c} == cs - (rest - {c});
        w := w + weight[c];
        rest := rest - {c};
      }
      assert cs - rest == cs;
    }

    // ---------------------------------------------------------- NodeDistance

    /** The classes of n1's entries, marked when n2 has them too, and the
        classes only n2's entries have. */
    method SplitClasses(n1: nat, n2: nat) returns (eqClasses1: map<nat, bool>, eqClassesOnly2: set<nat>)
      requires Valid() && n1 < |kind| && n2 < |kind|
      requires Ready(TreeView(), ClassView(), n1) && Ready(TreeView(), ClassView(), n2)
      ensures eqClasses1.Keys == ChildClasses(TreeView(), ClassView(), n1)
      ensures forall c :: c in eqClasses1 ==> (eqClasses1[c] <==> c in ChildClasses(TreeView(), ClassView(), n2))
      ensures eqClassesOnly2 == ChildClasses(TreeView(), ClassView(), n2) - eqClasses1.Keys
    {
      eqClasses1 := map[];
      for i := 0 to |children[n1]|
        invariant forall j :: 0 <= j < i ==> eqClass[children[n1][j]].value in eqClasses1
        invariant forall c :: c in eqClasses1 ==> !eqClasses1[c] && c in ChildClasses(TreeView(), ClassView(), n1)
      {
        var c := eqClass[children[n1][i]].value;
        if c !in eqClasses1 {
          eqClasses1 := eqClasses1[c := false];
        }
      }
      assert eqClasses1.Keys == ChildClasses(TreeView(), ClassView(), n1);
      eqClasses1, eqClassesOnly2 := MarkSecond(eqClasses1, n2);
    }

    method MarkSecond(first: map<nat, bool>, n2: nat) returns (eqClasses1: map<nat, bool>, eqClassesOnly2: set<nat>)
      requires Valid() && n2 < |kind| && Ready(TreeView(), ClassView(), n2)
      requires forall c :: c in first ==> !first[c]
      ensures eqClasses1.Keys == first.Keys
      ensures forall c :: c in eqClasses1 ==> (eqClasses1[c] <==> c in ChildClasses(TreeView(), ClassView(), n2))
      ensures eqClassesOnly2 == ChildClasses(TreeView(), ClassView(), n2) - eqClasses1.Keys
    {
      eqClasses1, eqClassesOnly2 := first, {};
      ghost var B := ChildClasses(TreeView(), ClassView(), n2);
      for i := 0 to |children[n2]|
        invariant eqClasses1.Keys == first.Keys
        invariant forall j :: 0 <= j < i ==>
                    var c := eqClass[children[n2][j]].value;
                    if c in first then eqClasses1[c] else c in eqClassesOnly2
        invariant forall c :: c in eqClassesOnly2 ==> c in B && c !in first
        invariant forall c :: c in first && eqClasses1[c] ==> c in B
      {
        var c := eqClass[children[n2][i]].value;
        assert c in B;
        if c !in eqClasses1 {
          eqClassesOnly2 := eqClassesOnly2 + {c};
        } else {
          eqClasses1 := eqClasses1[c := true];
        }
      }
    }

    /** Weights of the marked and unmarked classes.  The accumulators are
        integers: every addition of a weight truncates. */
    method SumFirst(eqClasses1: map<nat, bool>) returns (sum: nat, symDiff: nat)
      requires NonNegative(weight) && forall c :: c in eqClasses1 ==> c < |weight|
      ensures sum as real == Total(Floors(weight), eqClasses1.Keys)
      ensures symDiff as real == Total(Floors(weight), Unmarked(eqClasses1))
    {
      ghost var f, A := Floors(weight), eqClasses1.Keys;
      ghost var D := Unmarked(eqClasses1);
      sum, symDiff := 0, 0;
      var rest := eqClasses1.Keys;
      TotalEmpty(f);
      assert A - rest == {} && D - rest == {};
      while rest != {}
        invariant rest <= A
        invariant sum as real == Total(f, A - rest)
        invariant symDiff as real == Total(f, D - rest)
      {
        var c :| c in rest;
        TotalAdd(f, A - rest, c);
        assert A - rest + {c} == A - (rest - {c});
        sum := AddTruncated(sum, weight[c]);
        if !eqClasses1[c] {
          TotalAdd(f, D - rest, c);
          assert D - rest + {c} == D - (rest - {c});
          symDiff := AddTruncated(symDiff, weight[c]);
        } else {
          assert D - rest == D - (rest - {c});
        }
        rest := rest - {c};
      }
      assert A - rest == A && D - rest == D;
    }

    method SumSecond(sum0: nat, symDiff0: nat, eqClassesOnly2: set<nat>) returns (sum: nat, symDiff: nat)
      requires NonNegative(weight) && forall c :: c in eqClassesOnly2 ==> c < |weight|
      ensures sum as real == sum0 as real + Total(Floors(weight), eqClassesOnly2)
      ensures symDiff as real == symDiff0 as real + Total(Floors(weight), eqClassesOnly2)
    {
      ghost var f := Floors(weight);
      sum, symDiff := sum0, symDiff0;
      var rest := eqClassesOnly2;
      TotalEmpty(f);
      assert eqClassesOnly2 - rest == {};
      while rest != {}
        invariant rest <= eqClassesOnly2
        invariant sum as real == sum0 as real + Total(f, eqClassesOnly2 - rest)
        invariant symDiff as real == symDiff0 as real + Total(f, eqClassesOnly2 - rest)
      {
        var c :| c in rest;
        TotalAdd(f, eqClassesOnly2 - rest, c);
        assert eqClassesOnly2 - rest + {c} == eqClassesOnly2 - (rest - {c});
        sum := AddTruncated(sum, weight[c]);
        symDiff := AddTruncated(symDiff, weight[c]);
        rest := rest - {c};
      }
      assert eqClassesOnly2 - rest == eqClassesOnly2;
    }

    method NodeDistance(n1: nat, n2: nat) returns (d: real)
      requires Valid() && n1 < |kind| && n2 < |kind|
      requires Ready(TreeView(), ClassView(), n1) && Ready(TreeView(), ClassView(), n2)
      ensures d == Dist(TreeView(), ClassView(), n1, n2)
      ensures var A := set i | 0 <= i < |children[n1]| :: eqClass[children[n1][i]].value;
              var B := set i | 0 <= i < |children[n2]| :: eqClass[children[n2][i]].value;
              IsShare(d, Total(Floors(weight), A), Total(Floors(weight), B), Total(Floors(weight), A * B))
    {
      hide IsShare;
      ghost var A := ChildClasses(TreeView(), ClassView(), n1);
      ghost var B := ChildClasses(TreeView(), ClassView(), n2);
      ClassesInFields(n1);
      ClassesInFields(n2);
      DistanceValue(weight, A, B);
      hide Distance, ChildClasses, Total, Floors;
      var eqClasses1, eqClassesOnly2 := SplitClasses(n1, n2);
      var sum, symDiff := SumFirst(eqClasses1);
      sum, symDiff := SumSecond(sum, symDiff, eqClassesOnly2);
      assert Unmarked(eqClasses1) == A - B && eqClassesOnly2 == B - A;
      TotalDisjoint(Floors(weight), A, B - A);
      TotalDisjoint(Floors(weight), A - B, B - A);
      assert A + (B - A) == A + B;
      if sum == 0 {
        return 0.0;
      }
      d := symDiff as real / sum as real;
    }

    // ------------------------------------------ Node::GetPossibleEquivalents

    /** The evaluated parents, other than n, of the members of the class of
        n's entry child, other than child. */
    method ParentsVia(n: nat, child: nat) returns (nodes: set<nat>)
      requires Valid() && n < |kind| && child < |kind| && IsEvaluated(child)
      ensures nodes == Via(TreeView(), ClassView(), n, child)
    {
      ghost var t, k := TreeView(), ClassView();
      var equivalents := members[eqClass[child].value];
      nodes := {};
      for m := 0 to |equivalents|
        invariant forall e :: e in nodes ==> exists j :: 0 <= j < m && Leads(t, k, n, child, equivalents[j], e)
        invariant forall j, e: nat :: 0 <= j < m && Leads(t, k, n, child, equivalents[j], e) ==> e in nodes
      {
        var equivalent := equivalents[m];
        if equivalent != child && parent[equivalent].Some? && IsEvaluated(parent[equivalent].value)
           && parent[equivalent].value != n {
          assert Leads(t, k, n, child, equivalent, parent[equivalent].value);
          nodes := nodes + {parent[equivalent].value};
        }
      }
      forall e: nat
        ensures e in nodes <==> e in Via(t, k, n, child)
      {
        if e in nodes {
          var j :| 0 <= j < |equivalents| && Leads(t, k, n, child, equivalents[j], e);
        }
      }
    }

    method GetPossibleEquivalents(n: nat) returns (r: seq<nat>)
      requires Valid() && n < |kind| && Ready(TreeView(), ClassView(), n)
      ensures forall e: nat :: e in r <==> IsCandidate(TreeView(), ClassView(), n, e)
      ensures forall e: nat :: e in r <==>
                e < |kind| && e != n && eqClass[e].Some?
                && exists i, j :: 0 <= i < |children[n]| && 0 <= j < |children[e]|
                                  && OfOneClass(ClassView(), children[n][i], children[e][j])
      ensures NoRepeats(r)
    {
      ghost var t, k := TreeView(), ClassView();
      var nodes: set<nat> := {};
      for i := 0 to |children[n]|
        invariant forall e: nat :: e in nodes <==> exists j :: 0 <= j < i && e in Via(t, k, n, children[n][j])
      {
        var child := children[n][i];
        assert t.IsChild(n, child);
        var via := ParentsVia(n, child);
        nodes := nodes + via;
      }
      forall e: nat
        ensures e in nodes <==> IsCandidate(t, k, n, e)
      {
        CandidateVia(t, k, n, e);
      }
      r := AnyOrder(nodes);
      forall e: nat {
        CandidateByEntries(t, k, n, e);
      }
    }

    /** The elements of an unordered set in an order nobody knows. */
    static method AnyOrder(s: set<nat>) returns (r: seq<nat>)
      ensures forall e :: e in r <==> e in s
      ensures NoRepeats(r)
    {
      r := [];
      var rest := s;
      while rest != {}
        invariant rest <= s
        invariant forall e :: e in r <==> e in s - rest
        invariant NoRepeats(r)
      {
        var e :| e in rest;
        assert forall i :: 0 <= i < |r| ==> r[i] in r;
        r, rest := r + [e], rest - {e};
      }
    }

    // -------------------------------------------------------- GetClosestNode

    method GetClosestNode(n: nat, candidates: seq<nat>) returns (closest: nat, distance: real)
      requires Valid() && n < |kind| && Ready(TreeView(), ClassView(), n) && candidates != []
      requires forall e :: e in candidates ==> e < |kind| && Ready(TreeView(), ClassView(), e)
      ensures closest in candidates && distance == Dist(TreeView(), ClassView(), n, closest)
      ensures forall e :: e in candidates ==> distance <= Dist(TreeView(), ClassView(), n, e)
    {
      hide *;
      TreeIsValid();
      closest := candidates[0];
      assert forall i :: 0 <= i < |candidates| ==> candidates[i] in candidates;
      distance := NodeDistance(n, closest);
      for i := 1 to |candidates|
        invariant closest in candidates && distance == Dist(TreeView(), ClassView(), n, closest)
        invariant forall j :: 0 <= j < i ==>
                    candidates[j] in candidates && distance <= Dist(TreeView(), ClassView(), n, candidates[j])
      {
        var d := NodeDistance(n, candidates[i]);
        if d < distance {
          closest, distance := candidates[i], d;
        }
      }
    }

    // ---------------------------------------- EqClass::AddNode, Node::SetEqClass

    method PushClass()
      requires Valid()
      modifies `members, `weight, `entry
      ensures Valid() && ClassView() == Push(old(ClassView()))
    {
      PushConsistent(TreeView(), ClassView(), pending);
      members, weight, entry := members + [[]], weight + [0.0], entry + [[]];
    }

    method SetEqClass(n: nat, c: nat)
      requires n < |eqClass| == |parent| == |pending| && IsReadyToEvaluate(n) && !IsEvaluated(n)
      requires parent[n].Some? ==> parent[n].value < |pending| && pending[parent[n].value] > 0
      modifies `eqClass, `pending
      ensures eqClass == old(eqClass)[n := Some(c)]
      ensures pending == if parent[n].None? then old(pending)
                         else old(pending)[parent[n].value := old(pending)[parent[n].value] - 1]
    {
      eqClass := eqClass[n := Some(c)];
      if parent[n].Some? {
        pending := pending[parent[n].value := pending[parent[n].value] - 1];
      }
    }

    method AddNode(c: nat, n: nat)
      requires Valid() && n < |kind| && c < |members|
      requires !IsEvaluated(n) && Ready(TreeView(), ClassView(), n)
      modifies `eqClass, `pending, `members, `weight, `entry
      ensures Valid() && ClassView() == FileTree.AddNode(old(TreeView()), old(ClassView()), c, n)
      ensures eqClass == old(eqClass)[n := Some(c)] && members == old(members)[c := old(members)[c] + [n]]
      ensures |weight| == |old(weight)| && forall d :: 0 <= d < |weight| && d != c ==> weight[d] == old(weight)[d]
      ensures IsNextMean(weight[c], old(weight)[c], |old(members)[c]|,
                if kind[n].File? then (if useSize then size[n] as real else 1.0)
                else Total(old(weight), set i | 0 <= i < |children[n]| :: old(eqClass)[children[n][i]].value))
    {
      hide IsNextMean;
      ghost var t, k := TreeView(), ClassView();
      AddNodeConsistent(t, k, pending, c, n);
      var count := |members[c]|;
      var w := GetWeight(n);
      members := members[c := members[c] + [n]];
      MeanValue(weight[c], count, w);
      weight := weight[c := Mean(weight[c], count, w)];
      entry := entry[c := entry[c] + [w]];
      SetEqClass(n, c);
      assert TreeView() == t;
      assert ClassView() == FileTree.AddNode(t, k, c, n);
    }

    // -------------------------------------- Node::Traverse, Node::IsAncestorOf

    /** The subtree of n, every node once, those below it first. */
    method Traverse(n: nat) returns (visited: seq<nat>)
      requires Valid() && n < |kind|
      ensures visited == PostOrder(TreeView(), n)
      ensures forall m: nat :: m in visited <==> TreeView().Under(n, m)
      ensures NoRepeats(visited) && InTreeOrder(TreeView(), n, visited)
      decreases height[n]
    {
      ghost var t := TreeView();
      visited := [];
      for i := 0 to |children[n]|
        invariant visited == PostOrderOf(t, n, i)
      {
        assert t.IsChild(n, children[n][i]);
        var below := Traverse(children[n][i]);
        visited := visited + below;
      }
      visited := visited + [n];
      PostOrderNoRepeats(t, n);
      PostOrderInOrder(t, n);
      forall m: nat
        ensures m in visited <==> t.Under(n, m)
      {
        PostOrderVisits(t, n, m);
      }
    }

    /** Climbs from n until it meets a or leaves the tree. */
    method IsAncestorOf(a: nat, n: nat) returns (r: bool)
      requires Valid() && a < |kind| && n < |kind|
      ensures r == TreeView().Under(a, n)
    {
      ghost var t := TreeView();
      var m: Option<nat> := Some(n);
      ghost var top := Top(height);
      while m.Some? && m.value != a
        invariant m.Some? ==> m.value < |kind|
        invariant t.Under(a, n) <==> m.Some? && t.Under(a, m.value)
        decreases if m.Some? then top - height[m.value] + 1 else 0
      {
        UnderClimbs(t, a, m.value);
        if parent[m.value].Some? {
          assert t.IsChild(parent[m.value].value, m.value);
        }
        m := parent[m.value];
      }
      r := m.Some?;
    }

    // ------------------------------------- GetNodesReadyToEval, the worklist

    method GetNodesReadyToEval(root: nat) returns (queue: seq<nat>)
      requires Valid() && root < |kind|
      ensures queue == FirstQueue(TreeView(), ClassView(), root)
    {
      ghost var t, k := TreeView(), ClassView();
      var visited := Traverse(root);
      queue := [];
      for i := 0 to |visited|
        invariant queue == ReadyIn(t, k, visited[..i])
      {
        var n := visited[i];
        assert n in visited && visited[..i + 1][..i] == visited[..i];
        UnderHeight(t, root, n);
        ReadyIffNoneWaiting(t, k, pending, n);
        if IsReadyToEvaluate(n) && !IsEvaluated(n) {
          queue := queue + [n];
        }
      }
      assert visited[..|visited|] == visited;
    }

    /** The class of a closest candidate that is closer than the tolerance. */
    method ChooseClass(n: nat) returns (c: Option<nat>)
      requires Valid() && n < |kind| && Ready(TreeView(), ClassView(), n)
      ensures c.Some? ==> exists f: nat :: f < |eqClass| && eqClass[f] == c
                            && JoinTarget(TreeView(), Tolerance(), ClassView(), n, f)
      ensures c.Some? ==> c.value < |members|
      ensures n < |eqClass| && |members| == |weight| == |entry|
      ensures c.None? ==> forall e :: IsCandidate(TreeView(), ClassView(), n, e) ==>
                            Dist(TreeView(), ClassView(), n, e) >= Tolerance()
      ensures c.Some? ==> exists f: nat :: f < |eqClass| && eqClass[f] == c
                            && ClosestCandidate(TreeView(), ClassView(), n, f)
                            && 100.0 * Dist(TreeView(), ClassView(), n, f) < tolerableDiffPct as real
      ensures c.None? ==> forall e: nat :: IsCandidate(TreeView(), ClassView(), n, e) ==>
                            100.0 * Dist(TreeView(), ClassView(), n, e) >= tolerableDiffPct as real
    {
      ghost var t, k := TreeView(), ClassView();
      var candidates := GetPossibleEquivalents(n);
      if candidates == [] {
        return None;
      }
      assert forall e: nat :: e in candidates ==> IsCandidate(t, k, n, e) && Ready(t, k, e);
      var f, distance := GetClosestNode(n, candidates);
      if distance < tolerableDiffPct as real / 100.0 {
        assert JoinTarget(t, Tolerance(), k, n, f) && ClosestCandidate(t, k, n, f);
        return eqClass[f];
      }
      return None;
    }

    /** Places one node. */
    method Place(n: nat)
      requires Valid() && n < |kind| && Ready(TreeView(), ClassView(), n) && !IsEvaluated(n)
      modifies `eqClass, `pending, `members, `weight, `entry
      ensures Valid()
      ensures Step(TreeView(), Tolerance(), old(ClassView()), n, ClassView())
    {
      hide Partition, Means, FilesRecorded, Closed, Waiting, IsNextMean, ClosestCandidate, JoinTarget, IsCandidate,
           Dist, ChildClasses, NodeWeight, FileTree.AddNode, Total;
      ghost var t, k := TreeView(), ClassView();
      var c := ChooseClass(n);
      if c.Some? {
        ghost var f: nat :| f < |eqClass| && eqClass[f] == c && JoinTarget(t, Tolerance(), k, n, f);
        AddNode(c.value, n);
        assert Joins(t, Tolerance(), k, n, f, ClassView());
      } else {
        PushClass();
        AddNode(|members| - 1, n);
        assert Founds(t, Tolerance(), k, n, ClassView());
      }
    }

    /** Evaluates everything in the tree, from the bottom to the root. */
    method PropagateEquivalence(root: nat) returns (ghost order: seq<nat>, ghost ks: seq<Classes>)
      requires Valid() && TreeView().Rooted(root)
      modifies `eqClass, `pending, `members, `weight, `entry
      ensures Valid() && Complete(TreeView(), ClassView())
      ensures |ks| == |order| + 1 && ks[0] == old(ClassView()) && ks[|order|] == ClassView()
      ensures ProgramRun(TreeView(), root, Tolerance(), ks[0], order, ks)
      ensures RunByPercent(TreeView(), tolerableDiffPct, order, ks)
    {
      hide InQueueOrder, FirstQueue, Contiguous;
      ghost var t := TreeView();
      var queue := GetNodesReadyToEval(root);
      FirstQueueIsWorklist(t, ClassView(), root);
      ghost var first := queue;
      order, ks := [], [ClassView()];
      QueueStarts(t, first, ClassView());
      while queue != []
        invariant Valid() && TreeView() == t
        invariant IsWorklist(t, ClassView(), queue)
        invariant InQueueOrder(t, first, order, ks, queue)
        invariant Run(t, Tolerance(), order, ks)
        invariant ks[0] == old(ClassView()) && ks[|order|] == ClassView()
        decreases Unevaluated(eqClass)
      {
        var n := queue[0];
        ghost var k, before := ClassView(), queue;
        FrontIsReady(t, k, queue);
        queue := queue[1..];
        Place(n);
        ghost var c := StepAddsOne(t, Tolerance(), k, n, ClassView());
        RunPush(t, Tolerance(), order, ks, n, ClassView());
        QueueMoves(t, first, order, ks, before, ClassView());
        order, ks := order + [n], ks + [ClassView()];
        if parent[n].Some? {
          ReadyIffNoneWaiting(t, ClassView(), pending, parent[n].value);
        }
        if parent[n].Some? && IsReadyToEvaluate(parent[n].value) {
          queue := queue + [parent[n].value];
        }
        NextWorklist(t, k, ClassView(), before, queue, c);
      }
      AllPlaced(t, ClassView());
      RunIsByPercent(t, Tolerance(), tolerableDiffPct, order, ks);
    }

    // ---------------------------------------------- leaves of the tree

    /** One class for every checksum. */
    method ClassifyDuplicateFiles(sum2node: map<Cksum, seq<nat>>)
      requires Valid() && Indexes(TreeView(), sum2node)
      requires SumsDone(TreeView(), ClassView(), sum2node.Keys)
      modifies `eqClass, `pending, `members, `weight, `entry
      ensures Valid() && SumsDone(TreeView(), ClassView(), {})
    {
      hide Partition, Means, FilesRecorded, Closed, Waiting, LeafClasses;
      ghost var t := TreeView();
      var rest := sum2node.Keys;
      while rest != {}
        invariant rest <= sum2node.Keys
        invariant Valid() && TreeView() == t && SumsDone(t, ClassView(), rest)
      {
        var s :| s in rest;
        ClassifyRange(sum2node, rest, s);
        rest := rest - {s};
      }
    }

    /** A new class for the files with checksum s. */
    method ClassifyRange(sum2node: map<Cksum, seq<nat>>, ghost rest: set<Cksum>, s: Cksum)
      requires Valid() && Indexes(TreeView(), sum2node) && s in sum2node && s in rest
      requires SumsDone(TreeView(), ClassView(), rest)
      modifies `eqClass, `pending, `members, `weight, `entry
      ensures Valid() && SumsDone(TreeView(), ClassView(), rest - {s})
    {
      hide Partition, Means, FilesRecorded, Closed, Waiting, LeafClasses;
      ghost var t := TreeView();
      var range := sum2node[s];
      BeginSum(t, ClassView(), rest);
      PushClass();
      var c := |members| - 1;
      for i := 0 to |range|
        invariant Valid() && TreeView() == t && SumInProgress(t, ClassView(), rest, range[..i], c)
      {
        NextFile(t, sum2node, ClassView(), rest, s, i, c);
        AddNode(c, range[i]);
      }
      assert range[..|range|] == range;
      EndSum(t, sum2node, ClassView(), rest, s, c);
    }

    /** What the traversal does at node n. */
    method ClassifyIfEmpty(n: nat, c: nat, ghost visited: seq<nat>)
      requires Valid() && n < |kind| && n !in visited && DirsInProgress(TreeView(), ClassView(), visited, c)
      modifies `eqClass, `pending, `members, `weight, `entry
      ensures Valid() && DirsInProgress(TreeView(), ClassView(), visited + [n], c)
    {
      hide Partition, Means, FilesRecorded, Closed, Waiting, LeafClasses, IsNextMean;
      NextDir(TreeView(), ClassView(), visited, n, c);
      if kind[n].Dir? && children[n] == [] {
        AddNode(c, n);
      }
    }

    /** One class for all empty directories below root; it stays empty if there
        are none. */
    method ClassifyEmptyDirs(root: nat) returns (c: nat)
      requires Valid() && TreeView().Rooted(root) && SumsDone(TreeView(), ClassView(), {})
      modifies `eqClass, `pending, `members, `weight, `entry
      ensures Valid() && c < |members| && LeavesDone(TreeView(), ClassView())
      ensures members[c] != [] ==> LeavesReady(TreeView(), ClassView())
      ensures members[c] == [] ==> c == |members| - 1 && LeavesReady(TreeView(), DropLast(ClassView()))
    {
      hide Partition, Means, FilesRecorded, Closed, Waiting, LeafClasses, PostOrder, InTreeOrder;
      ghost var t := TreeView();
      BeginDirs(t, ClassView());
      PushClass();
      c := |members| - 1;
      var visited := Traverse(root);
      for i := 0 to |visited|
        invariant Valid() && TreeView() == t && DirsInProgress(t, ClassView(), visited[..i], c)
      {
        var n := visited[i];
        assert n in visited && n !in visited[..i] && visited[..i + 1] == visited[..i] + [n];
        UnderHeight(t, root, n);
        ClassifyIfEmpty(n, c, visited[..i]);
      }
      assert visited[..|visited|] == visited;
      EndDirs(t, ClassView(), visited, c);
    }

    /** Forgets a class that nothing was added to. */
    method DropEmptyClass()
      requires Valid() && members != [] && members[|members| - 1] == []
      modifies `members, `weight, `entry
      ensures Valid() && ClassView() == DropLast(old(ClassView()))
    {
      DropConsistent(TreeView(), ClassView(), pending);
      var last := |members| - 1;
      members, weight, entry := members[..last], weight[..last], entry[..last];
    }

    // ------------------------------------------------------------ uniqueness

    method HasDuplicateElsewhere(n: nat, notHere: set<nat>) returns (r: bool)
      requires Valid() && n < |kind| && IsEvaluated(n)
      ensures r == !OnlyIn(ClassView(), n, notHere)
      ensures r == exists m :: m in members[eqClass[n].value] && m !in notHere
    {
      var siblings := members[eqClass[n].value];
      for i := 0 to |siblings|
        invariant forall j :: 0 <= j < i ==> siblings[j] in notHere
      {
        if siblings[i] !in notHere {
          return true;
        }
      }
      return false;
    }

    /** Sets the fraction of every node below n and returns the files below n. */
    method CalculateUniqueness(n: nat) returns (files: seq<nat>)
      requires Valid() && n < |kind| && Complete(TreeView(), ClassView())
      modifies `uniqueFraction
      ensures Valid()
      ensures NoRepeats(files) && forall f: nat :: f in files <==> f in Files(TreeView(), n)
      ensures forall f: nat :: f in files <==> f < |kind| && kind[f].File? && TreeView().Under(n, f)
      ensures forall m: nat :: m < |kind| ==>
                uniqueFraction[m] == if TreeView().Under(n, m) then NodeFraction(TreeView(), ClassView(), m)
                                     else old(uniqueFraction)[m]
      decreases height[n], 1
    {
      ghost var t, k := TreeView(), ClassView();
      match kind[n]
      case File =>
        ClassInRange(t, k, n);
        uniqueFraction := uniqueFraction[n := if |members[eqClass[n].value]| == 1 then 1.0 else 0.0];
        return [n];
      case Dir =>
        var descendants := VisitEntries(n);
        var fraction := FractionOfFiles(n, descendants);
        uniqueFraction := uniqueFraction[n := fraction];
        files := AnyOrder(descendants);
    }

    /** Visits the entries of directory n and collects the files below them. */
    method VisitEntries(n: nat) returns (descendants: set<nat>)
      requires Valid() && n < |kind| && kind[n].Dir? && Complete(TreeView(), ClassView())
      modifies `uniqueFraction
      ensures Valid()
      ensures descendants == Files(TreeView(), n)
      ensures forall m: nat :: m < |kind| && m != n ==>
                uniqueFraction[m] == if TreeView().Under(n, m) then NodeFraction(TreeView(), ClassView(), m)
                                     else old(uniqueFraction)[m]
      decreases height[n], 0
    {
      hide Consistent, Partition, NodeFraction, Tree.Under, Tree.Valid, Files, UnderFirst, FilesOfFirst, Complete;
      TreeIsValid();
      ghost var t, k := TreeView(), ClassView();
      Lengths(t, k, pending);
      NoEntries(t, n);
      descendants := {};
      for i := 0 to |children[n]|
        invariant Valid()
        invariant descendants == FilesOfFirst(t, n, i)
        invariant forall m: nat :: m < |kind| ==>
                    uniqueFraction[m] == if UnderFirst(t, n, i, m) then NodeFraction(t, k, m)
                                         else old(uniqueFraction)[m]
      {
        OneMoreEntry(t, n, i);
        var childNodes := CalculateUniqueness(children[n][i]);
        descendants := descendants + set f | f in childNodes;
        assert descendants == FilesOfFirst(t, n, i + 1);
      }
      FilesOfAllEntries(t, k, n);
      UnderEntries(t, n);
    }

    method FractionOfFiles(n: nat, descendants: set<nat>) returns (fraction: real)
      requires Valid() && n < |kind| && Complete(TreeView(), ClassView())
      requires descendants == Files(TreeView(), n)
      ensures fraction == UniqueFraction(TreeView(), ClassView(), n)
    {
      ghost var t, k := TreeView(), ClassView();
      ghost var w, U := ClassWeights(k), UniqueFiles(t, k, n);
      var totalWeight, uniqueWeight := 0.0, 0.0;
      var rest := descendants;
      TotalEmpty(w);
      assert descendants - rest == {} && U - rest == {};
      while rest != {}
        invariant rest <= descendants
        invariant totalWeight == Total(w, descendants - rest)
        invariant uniqueWeight == Total(w, U - rest)
      {
        var f :| f in rest;
        assert Evaluated(k, f);
        var weight := GetWeight(f);
        assert weight == w[f];
        TotalAdd(w, descendants - rest, f);
        assert descendants - rest + {f} == descendants - (rest - {f});
        totalWeight := totalWeight + weight;
        var elsewhere := HasDuplicateElsewhere(f, descendants);
        if !elsewhere {
          TotalAdd(w, U - rest, f);
          assert U - rest + {f} == U - (rest - {f});
          uniqueWeight := uniqueWeight + weight;
        } else {
          assert U - rest == U - (rest - {f});
        }
        rest := rest - {f};
      }
      assert descendants - rest == descendants && U - rest == U;
      fraction := if totalWeight == 0.0 then 0.0 else uniqueWeight / totalWeight;
    }

    // ------------------------------------------------- GetInteresingEqClasses

    method GetInterestingEqClasses() returns (res: seq<nat>)
      requires Valid() && Complete(TreeView(), ClassView()) && NoEmptyClass(ClassView())
      ensures NoRepeats(res)
      ensures forall c: nat :: c in res <==> IsInteresting(TreeView(), ClassView(), c)
      ensures forall c: nat :: c in res <==> WorthShowing(TreeView(), ClassView(), c)
    {
      ghost var t, k := TreeView(), ClassView();
      forall c: nat
        ensures IsInteresting(t, k, c) <==> WorthShowing(t, k, c)
      {
        InterestingExactly(t, k, c);
      }
      hide WorthShowing;
      res := [];
      for c := 0 to |members|
        invariant NoRepeats(res)
        invariant forall d: nat :: d in res <==> d < c && IsInteresting(t, k, d)
      {
        if |members[c]| == 1 {
          continue;
        }
        var allParentsAreDups := true;
        for i := 0 to |members[c]|
          invariant forall j :: 0 <= j < |members[c]| ==> members[c][j] < |kind|
          invariant allParentsAreDups <==> forall j :: 0 <= j < i ==> !Exposed(t, k, members[c][j])
        {
          var node := members[c][i];
          assert parent[node].Some? ==> Evaluated(k, parent[node].value);
          if parent[node].None? || |members[eqClass[parent[node].value].value]| == 1 {
            allParentsAreDups := false;
          }
        }
        if allParentsAreDups {
          continue;
        }
        assert c !in res;
        res := res + [c];
      }
    }

    // ------------------------------------------------------------- FuzzyDedup

    /** A class of files weighs one; with sizes, it weighs the mean of the sizes of
        its members. */
    ghost predicate FileClassesWeigh()
      reads `kind, `size, `eqClass, `members, `weight
    {
      forall n: nat :: n < |kind| && kind[n].File? && n < |eqClass| && eqClass[n].Some? ==>
        var c := eqClass[n].value;
        && c < |members| && c < |weight|
        && if useSize then weight[c] * |members[c]| as real == SumOver(size, members[c]) as real
           else weight[c] == 1.0
    }

    lemma ClassOfFileWeighs(n: nat)
      requires Valid() && Homogeneous(TreeView(), ClassView())
      requires n < |kind| && kind[n].File? && n < |eqClass| && eqClass[n].Some?
      ensures var c := eqClass[n].value;
              && c < |members| && c < |weight|
              && if useSize then weight[c] * |members[c]| as real == SumOver(size, members[c]) as real
                 else weight[c] == 1.0
    {
      ghost var t, k := TreeView(), ClassView();
      TreeIsValid();
      if useSize {
        assert t.weight == size;
        FileClassWeight(t, k, n);
      } else {
        FileClassOfOnes(t, k, n);
      }
    }

    lemma ClassesOfFilesWeigh()
      requires Valid() && Homogeneous(TreeView(), ClassView())
      ensures FileClassesWeigh()
    {
      forall n: nat | n < |kind| && kind[n].File? && n < |eqClass| && eqClass[n].Some? {
        ClassOfFileWeighs(n);
      }
    }

    /** The recorded fractions, in terms of checksums: one for a file without twin,
        for a directory the share of the files whose checksums occur only there. */
    ghost predicate FractionsTellDuplicates()
      requires TreeView().Valid() && |uniqueFraction| == |kind|
      reads this
    {
      forall n: nat :: n < |kind| ==>
        if kind[n].File? then uniqueFraction[n] == if HasTwin(TreeView(), n) then 0.0 else 1.0
        else
          && IsFraction(TreeView(), ClassView(), n, uniqueFraction[n])
          && (!useSize ==> IsCountedFraction(TreeView(), n, uniqueFraction[n]))
    }

    lemma FractionsAreRight()
      requires Valid() && Complete(TreeView(), ClassView())
      requires Homogeneous(TreeView(), ClassView()) && FilesBySum(TreeView(), ClassView()) && FileClassesWeigh()
      requires forall n: nat :: n < |kind| ==> uniqueFraction[n] == NodeFraction(TreeView(), ClassView(), n)
      ensures TreeView().Valid() && FractionsTellDuplicates()
    {
      ghost var t, k := TreeView(), ClassView();
      TreeIsValid();
      forall f: nat | !useSize && f < |t.kind| && t.kind[f].File?
        ensures f < |ClassWeights(k)| && ClassWeights(k)[f] == 1.0
      {
        assert Evaluated(k, f);
      }
      hide FileClassesWeigh, ClassWeights, Partition, FilesBySum, Homogeneous, Complete, Consistent;
      forall n: nat | n < |kind|
        ensures if kind[n].File? then uniqueFraction[n] == if HasTwin(t, n) then 0.0 else 1.0
                else IsFraction(t, k, n, uniqueFraction[n]) && (!useSize ==> IsCountedFraction(t, n, uniqueFraction[n]))
      {
        if kind[n].File? {
          FileFraction(t, k, n);
        } else {
          FractionValue(t, k, n);
          if !useSize {
            FractionByCount(t, k, n);
          }
        }
      }
    }

    /** Files and empty directories; the class of the latter is kept if there are any. */
    method ClassifyLeaves(root: nat, sum2node: map<Cksum, seq<nat>>)
      requires Valid() && TreeView().Rooted(root) && Indexes(TreeView(), sum2node)
      requires members == [] && forall n: nat :: !Evaluated(ClassView(), n)
      modifies `eqClass, `pending, `members, `weight, `entry
      ensures Valid() && LeavesReady(TreeView(), ClassView())
    {
      hide Partition, Means, FilesRecorded, Waiting, Closed, LeafClasses;
      NothingDone(TreeView(), ClassView(), sum2node);
      ClassifyDuplicateFiles(sum2node);
      var c := ClassifyEmptyDirs(root);
      if members[c] == [] {
        DropEmptyClass();
      }
    }

    /** Leaves first, then everything else. */
    method FindClasses(root: nat, sum2node: map<Cksum, seq<nat>>)
        returns (ghost order: seq<nat>, ghost ks: seq<Classes>)
      requires Valid() && TreeView().Rooted(root) && Indexes(TreeView(), sum2node)
      requires members == [] && forall n: nat :: !Evaluated(ClassView(), n)
      modifies `eqClass, `pending, `members, `weight, `entry
      ensures Valid() && Complete(TreeView(), ClassView())
      ensures |ks| == |order| + 1 && LeavesReady(TreeView(), ks[0]) && ks[|order|] == ClassView()
      ensures ProgramRun(TreeView(), root, Tolerance(), ks[0], order, ks)
      ensures RunByPercent(TreeView(), tolerableDiffPct, order, ks)
    {
      hide *;
      TreeIsValid();
      ClassifyLeaves(root, sum2node);
      order, ks := PropagateEquivalence(root);
    }

    /** What follows for the classes that a run ends with. */
    lemma ClassesAtTheEnd(root: nat, order: seq<nat>, ks: seq<Classes>)
      requires Valid() && TreeView().Rooted(root)
      requires |ks| == |order| + 1 && LeavesReady(TreeView(), ks[0]) && ks[|order|] == ClassView()
      requires ProgramRun(TreeView(), root, Tolerance(), ks[0], order, ks)
      ensures Homogeneous(TreeView(), ClassView()) && NoEmptyClass(ClassView())
      ensures FilesBySum(TreeView(), ClassView()) && EmptyDirsTogether(TreeView(), ClassView())
      ensures Partition(TreeView(), ks[0]) && Extends(TreeView(), ks[0], ClassView())
      ensures NearIsTransitive(TreeView(), Tolerance(), ks[0]) ==>
                LeafDirsByNearness(TreeView(), Tolerance(), ks[0], ClassView())
      ensures SumsAgree(TreeView()) && 0 < tolerableDiffPct <= 100 ==> DuplicatesTogether(TreeView(), ClassView())
    {
      hide Partition, Means, FilesRecorded, Waiting, Closed, DuplicatesTogether, LeafClasses, Run, Extends,
           InQueueOrder, FirstQueue, NearIsTransitive, LeafDirsByNearness, Started, Homogeneous, FilesBySum,
           EmptyDirsTogether, NoEmptyClass;
      RunKeepsLeaves(TreeView(), Tolerance(), order, ks);
      LeavesAreStarted(TreeView(), ks[0]);
      if NearIsTransitive(TreeView(), Tolerance(), ks[0]) {
        AllEndByNearness(TreeView(), root, Tolerance(), ks[0], order, ks);
      }
      if SumsAgree(TreeView()) && 0 < tolerableDiffPct <= 100 {
        LeavesAreClassified(TreeView(), ks[0]);
        AllDuplicatesTogether(TreeView(), Tolerance(), order, ks);
      }
    }

    /** The whole analysis of a scanned tree. */
    method FuzzyDedup(root: nat, sum2node: map<Cksum, seq<nat>>) returns (ghost order: seq<nat>, ghost ks: seq<Classes>)
      requires Valid() && TreeView().Rooted(root) && Indexes(TreeView(), sum2node)
      requires members == [] && forall n: nat :: !Evaluated(ClassView(), n)
      modifies `eqClass, `pending, `members, `weight, `entry, `uniqueFraction
      ensures Valid() && Complete(TreeView(), ClassView())
      ensures |ks| == |order| + 1 && LeavesReady(TreeView(), ks[0])
      ensures ProgramRun(TreeView(), root, Tolerance(), ks[0], order, ks)
      ensures RunByPercent(TreeView(), tolerableDiffPct, order, ks)
      ensures ks[|order|] == ClassView()
      ensures Homogeneous(TreeView(), ClassView()) && NoEmptyClass(ClassView())
      ensures FilesBySum(TreeView(), ClassView()) && EmptyDirsTogether(TreeView(), ClassView())
      ensures Partition(TreeView(), ks[0]) && Extends(TreeView(), ks[0], ClassView())
      ensures kind[root].Dir? ==>
                uniqueFraction[root] == if FilesWeight(TreeView(), ClassView(), root) > 0.0 then 1.0 else 0.0
      ensures forall n: nat :: n < |kind| ==> uniqueFraction[n] == NodeFraction(TreeView(), ClassView(), n)
      ensures FileClassesWeigh() && FractionsTellDuplicates()
      ensures NearIsTransitive(TreeView(), Tolerance(), ks[0]) ==>
                LeafDirsByNearness(TreeView(), Tolerance(), ks[0], ClassView())
      ensures SumsAgree(TreeView()) && 0 < tolerableDiffPct <= 100 ==> DuplicatesTogether(TreeView(), ClassView())
    {
      hide Partition, Means, FilesRecorded, Waiting, Closed, DuplicatesTogether, LeavesReady, ProgramRun, NodeFraction,
           UniqueFraction, Extends, NearIsTransitive, LeafDirsByNearness, Homogeneous, FilesBySum, EmptyDirsTogether,
           NoEmptyClass, FileClassesWeigh, FractionsTellDuplicates, RunByPercent;
      order, ks := FindClasses(root, sum2node);
      ClassesAtTheEnd(root, order, ks);
      RootIsUnique(TreeView(), ClassView(), root);
      ClassesOfFilesWeigh();
      var _ := CalculateUniqueness(root);
      FractionsAreRight();
    }

    /** From the calls of a scan, of which there are none if nothing was found, to
        the classes.  Everything FuzzyDedup asks for comes from BuildTree. */
    method DedupScan(calls: Calls) returns (ghost order: seq<nat>, ghost ks: seq<Classes>)
      requires Valid() && kind == [] && members == [] && (calls != [] ==> ScanDb.WellFormed(calls))
      modifies this
      ensures Valid() && Complete(TreeView(), ClassView()) && |kind| == |calls|
      ensures forall i :: 0 <= i < |calls| && calls[i].File? && i < |size| ==> size[i] == calls[i].info.size
      ensures calls != [] ==>
                && Mirrors(TreeView(), calls, |calls|) && TreeView().Rooted(0) && |size| == |calls|
                && |ks| == |order| + 1 && ks[|order|] == ClassView()
                && ProgramRun(TreeView(), 0, Tolerance(), ks[0], order, ks)
                && FilesBySum(TreeView(), ClassView()) && NoEmptyClass(ClassView())
                && RunByPercent(TreeView(), tolerableDiffPct, order, ks)
                && FileClassesWeigh() && FractionsTellDuplicates()
                && (SumsAgree(TreeView()) && 0 < tolerableDiffPct <= 100 ==>
                      DuplicatesTogether(TreeView(), ClassView()))
    {
      hide Partition, Means, FilesRecorded, Closed, Waiting, Indexes, Tree.Valid, ProgramRun, FilesBySum, NoEmptyClass,
           DuplicatesTogether, IsMirror, FileClassesWeigh, FractionsTellDuplicates, RunByPercent;
      TreeIsValid();
      order, ks := [], [];
      if calls != [] {
        var root, sum2node := BuildTree(calls);
        order, ks := FuzzyDedup(root, sum2node);
      }
    }
  }
}
