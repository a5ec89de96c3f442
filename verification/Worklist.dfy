/** The bookkeeping of the propagation: counters of unevaluated children, the
    worklist of ready nodes, and how candidates are found. */
module Worklist {
  import opened Basics
  import opened FileTree
  import opened Propagation

  /** The unevaluated children of n, which n's counter counts. */
  ghost function Waiting(t: Tree, k: Classes, n: nat): set<nat>
    requires t.Valid() && n < |t.kind|
  {
    set c | c in t.children[n] && !Evaluated(k, c)
  }

  /** Files were recorded with their own weights when they were added. */
  ghost predicate FilesRecorded(t: Tree, k: Classes)
    requires t.Valid()
  {
    forall c, i :: 0 <= c < |k.members| && 0 <= i < |k.members[c]| ==> RecordedAt(t, k, c, i)
  }

  ghost predicate RecordedAt(t: Tree, k: Classes, c: nat, i: nat)
    requires t.Valid()
  {
    c < |k.members| && c < |k.entry| && i < |k.members[c]| && i < |k.entry[c]| &&
    var m := k.members[c][i];
    m < |t.kind| && (t.kind[m].File? ==> k.entry[c][i] == t.weight[m] as real)
  }

  /** Nodes, classes and counters fit together. */
  ghost predicate Consistent(t: Tree, k: Classes, pending: seq<nat>) {
    && t.Valid() && Partition(t, k) && Means(k) && Closed(t, k) && FilesRecorded(t, k)
    && |pending| == |t.kind|
    && forall n :: 0 <= n < |t.kind| ==> pending[n] == |Waiting(t, k, n)|
  }

  /** The counters after n is evaluated. */
  ghost function Decrement(t: Tree, pending: seq<nat>, n: nat): seq<nat>
    requires n < |t.parent|
    requires t.parent[n].Some? ==> t.parent[n].value < |pending| && pending[t.parent[n].value] > 0
  {
    if t.parent[n].None? then pending
    else pending[t.parent[n].value := pending[t.parent[n].value] - 1]
  }

  lemma PushKeepsRecords(t: Tree, k: Classes)
    requires t.Valid() && FilesRecorded(t, k) && |k.members| == |k.entry|
    ensures FilesRecorded(t, Push(k))
  {
    var k' := Push(k);
    forall c, i | 0 <= c < |k'.members| && 0 <= i < |k'.members[c]|
      ensures RecordedAt(t, k', c, i)
    {
      assert RecordedAt(t, k, c, i);
    }
  }

  /** A file that has no class yet enters one with its own weight. */
  lemma AddNodeKeepsRecords(t: Tree, k: Classes, c: nat, n: nat)
    requires t.Valid() && Partition(t, k) && Means(k) && FilesRecorded(t, k)
    requires n < |t.kind| && c < |k.members| && !Evaluated(k, n)
    ensures FilesRecorded(t, AddNode(t, k, c, n))
  {
    var k' := AddNode(t, k, c, n);
    assert TrueMean(k, c);
    forall d, i | 0 <= d < |k'.members| && 0 <= i < |k'.members[d]|
      ensures RecordedAt(t, k', d, i)
    {
      if d != c || i < |k.members[c]| {
        assert RecordedAt(t, k, d, i);
      }
    }
  }

  lemma PushConsistent(t: Tree, k: Classes, pending: seq<nat>)
    requires Consistent(t, k, pending)
    ensures Consistent(t, Push(k), pending)
  {
    PushKeepsPartition(t, k);
    PushKeepsMeans(k);
    PushKeepsRecords(t, k);
    hide FilesRecorded, Means, Partition;
    assert forall n: nat :: Ready(t, k, n) ==> Ready(t, Push(k), n);
    assert forall n: nat :: n < |t.kind| ==> Waiting(t, Push(k), n) == Waiting(t, k, n);
  }

  lemma AddNodeConsistent(t: Tree, k: Classes, pending: seq<nat>, c: nat, n: nat)
    requires Consistent(t, k, pending) && n < |t.kind| && c < |k.members|
    requires !Evaluated(k, n) && Ready(t, k, n)
    ensures pending[n] == 0
    ensures t.parent[n].Some? ==> pending[t.parent[n].value] > 0
    ensures Consistent(t, AddNode(t, k, c, n), Decrement(t, pending, n))
  {
    ReadyIffNoneWaiting(t, k, pending, n);
    AddNodeKeepsPartition(t, k, c, n);
    AddNodeKeepsMeans(t, k, c, n);
    AddNodeKeepsRecords(t, k, c, n);
    CountersAfter(t, k, AddNode(t, k, c, n), n);
  }

  lemma ReadyIffNoneWaiting(t: Tree, k: Classes, pending: seq<nat>, n: nat)
    requires Consistent(t, k, pending) && n < |t.kind|
    ensures pending[n] == 0 <==> Ready(t, k, n)
  {
    var W := Waiting(t, k, n);
    if Ready(t, k, n) {
      assert W == {};
    } else {
      var c :| c in t.children[n] && !Evaluated(k, c);
      assert c in W;
    }
  }

  /** Evaluating n leaves one child fewer waiting for its parent, and nothing
      else changes for the counters. */
  lemma CountersAfter(t: Tree, k: Classes, k': Classes, n: nat)
    requires t.Valid() && |k.of| == |t.kind| && n < |t.kind| && !Evaluated(k, n)
    requires exists c :: k'.of == k.of[n := Some(c)]
    requires Closed(t, k) && Ready(t, k, n)
    ensures Closed(t, k')
    ensures forall p: nat :: p < |t.kind| ==>
              |Waiting(t, k', p)| == |Waiting(t, k, p)| - if t.parent[n] == Some(p) then 1 else 0
  {
    assert forall m: nat :: Evaluated(k', m) <==> Evaluated(k, m) || m == n;
    forall p: nat | p < |t.kind|
      ensures |Waiting(t, k', p)| == |Waiting(t, k, p)| - if t.parent[n] == Some(p) then 1 else 0
    {
      CounterAfter(t, k, k', n, p);
    }
    forall m: nat | m < |t.kind| && Evaluated(k', m)
      ensures Ready(t, k', m)
    {
      assert Ready(t, k, m);
    }
  }

  lemma CounterAfter(t: Tree, k: Classes, k': Classes, n: nat, p: nat)
    requires t.Valid() && |k.of| == |t.kind| && n < |t.kind| && !Evaluated(k, n) && p < |t.kind|
    requires forall m: nat :: Evaluated(k', m) <==> Evaluated(k, m) || m == n
    ensures |Waiting(t, k', p)| == |Waiting(t, k, p)| - if t.parent[n] == Some(p) then 1 else 0
  {
    ChildIffParent(t, n, p);
    hide Evaluated;
    assert Waiting(t, k', p) == Waiting(t, k, p) - {n};
    if t.parent[n] == Some(p) {
      assert n in Waiting(t, k, p);
    }
  }

  lemma ChildIffParent(t: Tree, n: nat, p: nat)
    requires t.Valid() && n < |t.kind| && p < |t.kind|
    ensures n in t.children[p] <==> t.parent[n] == Some(p)
  {
    assert forall i :: 0 <= i < |t.children[p]| ==> t.IsChild(p, t.children[p][i]);
  }

  /** q, which shares a class with n's child c, makes its parent e a candidate. */
  ghost predicate Leads(t: Tree, k: Classes, n: nat, c: nat, q: nat, e: nat)
    requires t.Valid()
  {
    && Evaluated(k, c) && k.of[c].value < |k.members| && q in k.members[k.of[c].value]
    && q != c && q < |t.kind| && t.parent[q] == Some(e) && Evaluated(k, e) && e != n
  }

  ghost predicate IsVia(t: Tree, k: Classes, n: nat, c: nat, e: nat)
    requires t.Valid()
  {
    exists q: nat :: Leads(t, k, n, c, q, e)
  }

  ghost function Via(t: Tree, k: Classes, n: nat, c: nat): set<nat>
    requires t.Valid()
  {
    set e: nat | e < |t.kind| && IsVia(t, k, n, c, e)
  }

  /** Candidates are found by way of the members of the entries' classes. */
  lemma CandidateVia(t: Tree, k: Classes, n: nat, e: nat)
    requires t.Valid() && Partition(t, k) && Closed(t, k) && n < |t.kind|
    ensures IsCandidate(t, k, n, e) <==> exists i :: 0 <= i < |t.children[n]| && e in Via(t, k, n, t.children[n][i])
  {
    if IsCandidate(t, k, n, e) {
      var i := ViaOf(t, k, n, e);
    }
    if i :| 0 <= i < |t.children[n]| && e in Via(t, k, n, t.children[n][i]) {
      ViaIsCandidate(t, k, n, e, i);
    }
  }

  ghost predicate OfOneClass(k: Classes, a: nat, b: nat) {
    a < |k.of| && b < |k.of| && k.of[a].Some? && k.of[a] == k.of[b]
  }

  lemma EntriesThatMeet(t: Tree, k: Classes, n: nat, e: nat) returns (i: nat, j: nat)
    requires t.Valid() && n < |t.kind| && e < |t.kind| && ChildClasses(t, k, n) * ChildClasses(t, k, e) != {}
    ensures i < |t.children[n]| && j < |t.children[e]| && OfOneClass(k, t.children[n][i], t.children[e][j])
  {
    var x :| x in ChildClasses(t, k, n) && x in ChildClasses(t, k, e);
    i :| 0 <= i < |t.children[n]| && Evaluated(k, t.children[n][i]) && k.of[t.children[n][i]].value == x;
    j :| 0 <= j < |t.children[e]| && Evaluated(k, t.children[e][j]) && k.of[t.children[e][j]].value == x;
  }

  lemma MeetInClass(t: Tree, k: Classes, n: nat, e: nat, i: nat, j: nat)
    requires t.Valid() && n < |t.kind| && e < |t.kind|
    requires i < |t.children[n]| && j < |t.children[e]| && OfOneClass(k, t.children[n][i], t.children[e][j])
    ensures ChildClasses(t, k, n) * ChildClasses(t, k, e) != {}
  {
    var x := k.of[t.children[n][i]].value;
    assert t.children[n][i] in t.children[n] && t.children[e][j] in t.children[e];
    assert x in ChildClasses(t, k, n) && x in ChildClasses(t, k, e);
    assert x in ChildClasses(t, k, n) * ChildClasses(t, k, e);
  }

  /** The candidates are the placed directories an entry of which has the class
      of an entry of n. */
  lemma CandidateByEntries(t: Tree, k: Classes, n: nat, e: nat)
    requires t.Valid() && |k.of| == |t.kind| && n < |t.kind|
    ensures IsCandidate(t, k, n, e) <==>
              e < |t.kind| && e != n && k.of[e].Some?
              && exists i, j :: 0 <= i < |t.children[n]| && 0 <= j < |t.children[e]|
                                && OfOneClass(k, t.children[n][i], t.children[e][j])
  {
    hide ChildClasses, OfOneClass;
    if IsCandidate(t, k, n, e) {
      var i, j := EntriesThatMeet(t, k, n, e);
    }
    if e < |t.kind| {
      if i, j :| 0 <= i < |t.children[n]| && 0 <= j < |t.children[e]|
                 && OfOneClass(k, t.children[n][i], t.children[e][j]) {
        MeetInClass(t, k, n, e, i, j);
      }
    }
  }

  lemma ViaOf(t: Tree, k: Classes, n: nat, e: nat) returns (i: nat)
    requires t.Valid() && Partition(t, k) && n < |t.kind| && IsCandidate(t, k, n, e)
    ensures i < |t.children[n]| && e in Via(t, k, n, t.children[n][i])
  {
    var x :| x in ChildClasses(t, k, n) && x in ChildClasses(t, k, e);
    i :| 0 <= i < |t.children[n]| && Evaluated(k, t.children[n][i]) && k.of[t.children[n][i]].value == x;
    var j :| 0 <= j < |t.children[e]| && Evaluated(k, t.children[e][j]) && k.of[t.children[e][j]].value == x;
    assert t.IsChild(n, t.children[n][i]) && t.IsChild(e, t.children[e][j]);
    assert Leads(t, k, n, t.children[n][i], t.children[e][j], e);
    assert IsVia(t, k, n, t.children[n][i], e);
  }

  lemma ViaIsCandidate(t: Tree, k: Classes, n: nat, e: nat, i: nat)
    requires t.Valid() && Partition(t, k) && Closed(t, k) && n < |t.kind|
    requires i < |t.children[n]| && e in Via(t, k, n, t.children[n][i])
    ensures IsCandidate(t, k, n, e)
  {
    var c := t.children[n][i];
    var q: nat :| Leads(t, k, n, c, q, e);
    var x := k.of[c].value;
    assert k.of[q] == Some(x) && q in t.children[e];
    assert x in ChildClasses(t, k, n) && x in ChildClasses(t, k, e);
    assert x in ChildClasses(t, k, n) * ChildClasses(t, k, e);
  }

  /** The worklist holds exactly the ready and unevaluated nodes, each once. */
  ghost predicate IsWorklist(t: Tree, k: Classes, queue: seq<nat>)
    requires t.Valid()
  {
    NoRepeats(queue) && forall n: nat :: n in queue <==> Ready(t, k, n) && !Evaluated(k, n)
  }

  lemma ClassInRange(t: Tree, k: Classes, n: nat)
    requires t.Valid() && Partition(t, k) && n < |t.kind| && Evaluated(k, n)
    ensures k.of[n].value < |k.members|
  {
  }

  lemma FrontIsReady(t: Tree, k: Classes, queue: seq<nat>)
    requires t.Valid() && IsWorklist(t, k, queue) && queue != []
    ensures Ready(t, k, queue[0]) && !Evaluated(k, queue[0])
  {
    assert queue[0] in queue;
  }

  /** Placing the front node and appending its parent, should it have become
      ready, keeps the worklist exact and makes progress. */
  lemma NextWorklist(t: Tree, k: Classes, k': Classes, queue: seq<nat>, queue': seq<nat>, c: nat)
    requires t.Valid() && |k.of| == |t.kind| && IsWorklist(t, k, queue)
    requires queue != [] && queue[0] < |t.kind| && !Evaluated(k, queue[0]) && k'.of == k.of[queue[0] := Some(c)]
    requires queue' == queue[1..] +
               if t.parent[queue[0]].Some? && Ready(t, k', t.parent[queue[0]].value)
               then [t.parent[queue[0]].value] else []
    requires Closed(t, k)
    ensures IsWorklist(t, k', queue')
    ensures Unevaluated(k'.of) < Unevaluated(k.of)
  {
    var n := queue[0];
    UnevaluatedDrops(k.of, n, c);
    NewlyReady(t, k, k', n);
    if t.parent[n].Some? {
      ParentWaits(t, k, n);
    }
    hide Unevaluated, Ready, Closed;
    forall m: nat
      ensures m in queue' <==> Ready(t, k', m) && !Evaluated(k', m)
    {
      InTail(queue, m);
    }
    assert forall i :: 0 <= i < |queue| ==> queue[i] in queue;
  }

  lemma InTail(queue: seq<nat>, m: nat)
    requires NoRepeats(queue) && queue != []
    ensures m in queue[1..] <==> m in queue && m != queue[0]
  {
  }

  /** The parent of an unevaluated node is neither ready nor evaluated. */
  lemma ParentWaits(t: Tree, k: Classes, n: nat)
    requires t.Valid() && |k.of| == |t.kind| && Closed(t, k)
    requires n < |t.kind| && !Evaluated(k, n) && t.parent[n].Some?
    ensures !Ready(t, k, t.parent[n].value) && !Evaluated(k, t.parent[n].value)
  {
    assert n in t.children[t.parent[n].value];
  }

  ghost predicate NoRepeats(s: seq<nat>) {
    forall i, j :: 0 <= i < j < |s| ==> s[i] != s[j]
  }

  ghost function Top(h: seq<nat>): (top: nat)
    ensures forall i :: 0 <= i < |h| ==> h[i] <= top
  {
    if h == [] then 0
    else
      var rest := Top(h[..|h| - 1]);
      if h[|h| - 1] > rest then h[|h| - 1] else rest
  }

  /** How many nodes have no class yet. */
  ghost function Unevaluated(of: seq<Option<nat>>): nat {
    |set n | 0 <= n < |of| && of[n].None?|
  }

  lemma UnevaluatedDrops(of: seq<Option<nat>>, n: nat, c: nat)
    requires n < |of| && of[n].None?
    ensures Unevaluated(of[n := Some(c)]) < Unevaluated(of)
  {
    var before := set m | 0 <= m < |of| && of[m].None?;
    var now := of[n := Some(c)];
    var after := set m | 0 <= m < |now| && now[m].None?;
    assert after == before - {n} && n in before;
  }

  lemma RunPush(t: Tree, tolerance: real, order: seq<nat>, ks: seq<Classes>, n: nat, k': Classes)
    requires t.Valid() && Run(t, tolerance, order, ks) && Partition(t, k')
    requires Step(t, tolerance, ks[|order|], n, k')
    ensures Run(t, tolerance, order + [n], ks + [k'])
  {
    var order', ks' := order + [n], ks + [k'];
    forall i | 0 <= i < |order'|
      ensures Step(t, tolerance, ks'[i], order'[i], ks'[i + 1])
    {
      if i < |order| {
        assert order'[i] == order[i];
      }
    }
  }

  /** Evaluating n can make no node but its parent ready. */
  lemma NewlyReady(t: Tree, k: Classes, k': Classes, n: nat)
    requires t.Valid() && |k.of| == |t.kind| && n < |t.kind| && !Evaluated(k, n)
    requires exists c :: k'.of == k.of[n := Some(c)]
    ensures forall m: nat :: Ready(t, k, m) ==> Ready(t, k', m)
    ensures forall m: nat :: Ready(t, k', m) && !Ready(t, k, m) ==> t.parent[n] == Some(m)
    ensures t.parent[n].Some? ==> !Ready(t, k, t.parent[n].value)
  {
    forall m: nat | Ready(t, k', m) && !Ready(t, k, m)
      ensures t.parent[n] == Some(m)
    {
      assert n in t.children[m];
      assert t.IsChild(m, n);
    }
  }

  /** If nothing is ready and unevaluated, everything is evaluated. */
  lemma AllPlaced(t: Tree, k: Classes)
    requires t.Valid() && |k.of| == |t.kind|
    requires forall n: nat :: !(Ready(t, k, n) && !Evaluated(k, n))
    ensures Complete(t, k)
  {
    forall n: nat | n < |t.kind|
      ensures Evaluated(k, n)
    {
      PlacedBelow(t, k, n);
    }
  }

  lemma {:induction false} PlacedBelow(t: Tree, k: Classes, n: nat)
    requires t.Valid() && |k.of| == |t.kind| && n < |t.kind|
    requires forall m: nat :: !(Ready(t, k, m) && !Evaluated(k, m))
    ensures Evaluated(k, n)
    decreases t.height[n]
  {
    forall c | c in t.children[n]
      ensures Evaluated(k, c)
    {
      assert t.IsChild(n, c);
      PlacedBelow(t, k, c);
    }
    assert Ready(t, k, n);
  }

  /** Nodes below different children of n are different. */
  lemma Apart(t: Tree, n: nat, c: nat, d: nat, x: nat, y: nat)
    requires t.Valid() && n < |t.kind| && c in t.children[n] && d in t.children[n] && c != d
    requires t.Under(c, x) && t.Under(d, y)
    ensures x != y
  {
    UnderHeight(t, c, x);
    if x == y {
      SiblingsDisjoint(t, n, c, d, x);
    }
  }
}
