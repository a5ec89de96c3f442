/** The order in which the nodes of a tree are visited, and in which the
    propagation places them. */
module Traversal {
  import opened Basics
  import opened FileTree
  import opened Propagation
  import opened Worklist

  /** First what lies below the entries, entry by entry, then n itself. */
  ghost function PostOrder(t: Tree, n: nat): seq<nat>
    requires t.Valid() && n < |t.kind|
    decreases t.height[n], |t.children[n]| + 1
  {
    PostOrderOf(t, n, |t.children[n]|) + [n]
  }

  /** The same of the first i entries of n. */
  ghost function PostOrderOf(t: Tree, n: nat, i: nat): seq<nat>
    requires t.Valid() && n < |t.kind| && i <= |t.children[n]|
    decreases t.height[n], i
  {
    if i == 0 then []
    else
      assert t.IsChild(n, t.children[n][i - 1]);
      PostOrderOf(t, n, i - 1) + PostOrder(t, t.children[n][i - 1])
  }

  lemma PostOrderNext(t: Tree, n: nat, i: nat)
    requires t.Valid() && n < |t.kind| && i < |t.children[n]|
    ensures t.children[n][i] < |t.kind| && t.height[t.children[n][i]] < t.height[n]
    ensures PostOrderOf(t, n, i + 1) == PostOrderOf(t, n, i) + PostOrder(t, t.children[n][i])
    ensures PostOrderOf(t, n, 0) == []
  {
    assert t.IsChild(n, t.children[n][i]);
  }

  lemma PostOrderEnds(t: Tree, n: nat)
    requires t.Valid() && n < |t.kind|
    ensures PostOrder(t, n) == PostOrderOf(t, n, |t.children[n]|) + [n]
  {
  }

  /** A traversal visits the subtree. */
  lemma {:induction false} PostOrderVisits(t: Tree, n: nat, m: nat)
    requires t.Valid() && n < |t.kind|
    ensures m in PostOrder(t, n) <==> t.Under(n, m)
    decreases t.height[n], |t.children[n]| + 1
  {
    PostOrderOfVisits(t, n, |t.children[n]|, m);
  }

  lemma {:induction false} PostOrderOfVisits(t: Tree, n: nat, i: nat, m: nat)
    requires t.Valid() && n < |t.kind| && i <= |t.children[n]|
    ensures m in PostOrderOf(t, n, i) <==> exists j :: 0 <= j < i && t.Under(t.children[n][j], m)
    decreases t.height[n], i
  {
    if i > 0 {
      PostOrderNext(t, n, i - 1);
      PostOrderOfVisits(t, n, i - 1, m);
      PostOrderVisits(t, t.children[n][i - 1], m);
      hide PostOrder, PostOrderOf, Tree.Under, Tree.Valid;
    }
  }

  lemma NoRepeatsJoin(a: seq<nat>, b: seq<nat>)
    requires NoRepeats(a) && NoRepeats(b) && forall m :: !(m in a && m in b)
    ensures NoRepeats(a + b)
  {
    assert forall i :: 0 <= i < |a| ==> a[i] in a;
    assert forall i :: 0 <= i < |b| ==> b[i] in b;
  }

  /** It visits every node once. */
  lemma {:induction false} PostOrderNoRepeats(t: Tree, n: nat)
    requires t.Valid() && n < |t.kind|
    ensures NoRepeats(PostOrder(t, n))
    decreases t.height[n], |t.children[n]| + 1
  {
    PostOrderOfNoRepeats(t, n, |t.children[n]|);
    PostOrderOfVisits(t, n, |t.children[n]|, n);
    forall j | 0 <= j < |t.children[n]|
      ensures !t.Under(t.children[n][j], n)
    {
      assert t.IsChild(n, t.children[n][j]);
      if t.Under(t.children[n][j], n) {
        UnderHeight(t, t.children[n][j], n);
      }
    }
    NoRepeatsJoin(PostOrderOf(t, n, |t.children[n]|), [n]);
  }

  lemma {:induction false} PostOrderOfNoRepeats(t: Tree, n: nat, i: nat)
    requires t.Valid() && n < |t.kind| && i <= |t.children[n]|
    ensures NoRepeats(PostOrderOf(t, n, i))
    decreases t.height[n], i
  {
    if i > 0 {
      var c := t.children[n][i - 1];
      assert t.IsChild(n, c);
      PostOrderOfNoRepeats(t, n, i - 1);
      PostOrderNoRepeats(t, c);
      forall m
        ensures !(m in PostOrderOf(t, n, i - 1) && m in PostOrder(t, c))
      {
        PostOrderOfVisits(t, n, i - 1, m);
        PostOrderVisits(t, c, m);
        if j :| 0 <= j < i - 1 && t.Under(t.children[n][j], m) && t.Under(c, m) {
          Apart(t, n, t.children[n][j], c, m, m);
        }
      }
      NoRepeatsJoin(PostOrderOf(t, n, i - 1), PostOrder(t, c));
    }
  }

  // ------------------------------------------- what is below a directory

  /** p's traversal is a stretch of s. */
  ghost predicate IsStretch(s: seq<nat>, p: seq<nat>, a: nat) {
    a + |p| <= |s| && s[a..a + |p|] == p
  }

  lemma StretchShifts(before: seq<nat>, s: seq<nat>, after: seq<nat>, p: seq<nat>, a: nat)
    requires IsStretch(s, p, a)
    ensures IsStretch(s + after, p, a) && IsStretch(before + s, p, |before| + a)
  {
    assert (s + after)[a..a + |p|] == p && (before + s)[|before| + a..|before| + a + |p|] == p;
  }

  lemma {:induction false} StretchOf(t: Tree, n: nat, p: nat) returns (a: nat)
    requires t.Valid() && n < |t.kind| && p < |t.kind| && t.Under(n, p)
    ensures IsStretch(PostOrder(t, n), PostOrder(t, p), a)
    decreases t.height[n], |t.children[n]| + 1
  {
    if p == n {
      a := 0;
    } else {
      var j :| 0 <= j < |t.children[n]| && t.Under(t.children[n][j], p);
      a := StretchOfEntries(t, n, |t.children[n]|, j, p);
      PostOrderEnds(t, n);
      StretchShifts([], PostOrderOf(t, n, |t.children[n]|), [n], PostOrder(t, p), a);
    }
  }

  lemma {:induction false} StretchOfEntries(t: Tree, n: nat, i: nat, j: nat, p: nat) returns (a: nat)
    requires t.Valid() && n < |t.kind| && p < |t.kind| && j < i <= |t.children[n]| && t.Under(t.children[n][j], p)
    ensures IsStretch(PostOrderOf(t, n, i), PostOrder(t, p), a)
    decreases t.height[n], i
  {
    PostOrderNext(t, n, i - 1);
    hide PostOrder, PostOrderOf, Tree.Under, IsStretch;
    var before, s := PostOrderOf(t, n, i - 1), PostOrder(t, t.children[n][i - 1]);
    if j == i - 1 {
      var b := StretchOf(t, t.children[n][j], p);
      StretchShifts(before, s, [], PostOrder(t, p), b);
      a := |before| + b;
    } else {
      a := StretchOfEntries(t, n, i - 1, j, p);
      StretchShifts([], before, s, PostOrder(t, p), a);
    }
  }

  /** What lies below p stands together in s. */
  ghost predicate Together(t: Tree, s: seq<nat>, p: nat)
    requires t.Valid() && p < |t.kind|
  {
    forall i, j, k :: 0 <= i < j < k < |s| && t.Under(p, s[i]) && t.Under(p, s[k]) ==> t.Under(p, s[j])
  }

  ghost predicate Contiguous(t: Tree, s: seq<nat>)
    requires t.Valid()
  {
    forall p: nat :: p < |t.kind| ==> Together(t, s, p)
  }

  /** In a traversal, what lies below any one node stands together. */
  lemma PostOrderContiguous(t: Tree, root: nat)
    requires t.Valid() && t.Rooted(root)
    ensures Contiguous(t, PostOrder(t, root))
  {
    forall p: nat | p < |t.kind|
      ensures Together(t, PostOrder(t, root), p)
    {
      var a := StretchOf(t, root, p);
      PostOrderNoRepeats(t, root);
      StretchTogether(t, PostOrder(t, root), p, a);
    }
  }

  lemma StretchTogether(t: Tree, s: seq<nat>, p: nat, a: nat)
    requires t.Valid() && p < |t.kind| && NoRepeats(s) && IsStretch(s, PostOrder(t, p), a)
    ensures Together(t, s, p)
  {
    var b := a + |PostOrder(t, p)|;
    forall i | 0 <= i < |s|
      ensures t.Under(p, s[i]) <==> a <= i < b
    {
      PostOrderVisits(t, p, s[i]);
      if a <= i < b {
        assert s[a..b][i - a] == s[i];
      }
      if s[i] in PostOrder(t, p) {
        var q :| 0 <= q < |PostOrder(t, p)| && PostOrder(t, p)[q] == s[i];
        assert s[a..b][q] == s[a + q] == s[i];
      }
    }
  }

  // --------------------------------------------------- which node comes first

  /** x lies below y, or below an earlier entry than y does of some directory
      below n. */
  ghost predicate Precedes(t: Tree, n: nat, x: nat, y: nat)
    requires t.Valid() && n < |t.kind|
  {
    || (x != y && y < |t.kind| && t.Under(n, y) && t.Under(y, x))
    || exists p: nat, i, j :: BelowEarlier(t, n, p, i, j, x, y)
  }

  ghost predicate BelowEarlier(t: Tree, n: nat, p: nat, i: int, j: int, x: nat, y: nat)
    requires t.Valid() && n < |t.kind|
  {
    && p < |t.kind| && t.Under(n, p) && 0 <= i < j < |t.children[p]|
    && t.Under(t.children[p][i], x) && t.Under(t.children[p][j], y)
  }

  ghost predicate InTreeOrder(t: Tree, n: nat, s: seq<nat>)
    requires t.Valid() && n < |t.kind|
  {
    forall i, j :: 0 <= i < j < |s| ==> !Precedes(t, n, s[j], s[i])
  }

  lemma {:induction false} PrefixOfEntries(t: Tree, n: nat, i: nat, j: nat)
    requires t.Valid() && n < |t.kind| && i <= j <= |t.children[n]|
    ensures PostOrderOf(t, n, i) <= PostOrderOf(t, n, j)
  {
    if i < j {
      PrefixOfEntries(t, n, i, j - 1);
      PostOrderNext(t, n, j - 1);
    }
  }

  lemma PlacesOfEntries(t: Tree, p: nat, i: nat, j: nat, x: nat, y: nat) returns (a: nat, b: nat)
    requires t.Valid() && p < |t.kind| && i < j < |t.children[p]|
    requires t.Under(t.children[p][i], x) && t.Under(t.children[p][j], y)
    ensures a < b < |PostOrder(t, p)| && PostOrder(t, p)[a] == x && PostOrder(t, p)[b] == y
  {
    PostOrderOfVisits(t, p, j, x);
    PostOrderNext(t, p, j);
    PostOrderVisits(t, t.children[p][j], y);
    PrefixOfEntries(t, p, j + 1, |t.children[p]|);
    PostOrderEnds(t, p);
    hide *;
    a, b := InTwoParts(PostOrderOf(t, p, j), PostOrder(t, t.children[p][j]), PostOrder(t, p), x, y);
  }

  lemma InTwoParts(first: seq<nat>, next: seq<nat>, s: seq<nat>, x: nat, y: nat) returns (a: nat, b: nat)
    requires x in first && y in next && first + next <= s
    ensures a < b < |s| && s[a] == x && s[b] == y
  {
    a :| 0 <= a < |first| && first[a] == x;
    var c :| 0 <= c < |next| && next[c] == y;
    b := |first| + c;
    assert (first + next)[a] == x && (first + next)[b] == y;
  }

  lemma PlaceBelow(t: Tree, p: nat, x: nat) returns (a: nat)
    requires t.Valid() && p < |t.kind| && t.Under(p, x) && x != p
    ensures a < |PostOrder(t, p)| - 1 && PostOrder(t, p)[a] == x && PostOrder(t, p)[|PostOrder(t, p)| - 1] == p
  {
    PostOrderEnds(t, p);
    PostOrderOfVisits(t, p, |t.children[p]|, x);
    var c :| c in t.children[p] && t.Under(c, x);
    var s := PostOrderOf(t, p, |t.children[p]|);
    a :| 0 <= a < |s| && s[a] == x;
  }

  lemma Places(t: Tree, n: nat, x: nat, y: nat) returns (a: nat, b: nat)
    requires t.Valid() && n < |t.kind| && Precedes(t, n, x, y)
    ensures a < b < |PostOrder(t, n)| && PostOrder(t, n)[a] == x && PostOrder(t, n)[b] == y
  {
    if x != y && y < |t.kind| && t.Under(n, y) && t.Under(y, x) {
      a := PlaceBelow(t, y, x);
      b := |PostOrder(t, y)| - 1;
      a, b := InStretch(t, n, y, a, b);
    } else {
      var p: nat, i, j :| BelowEarlier(t, n, p, i, j, x, y);
      a, b := PlacesOfEntries(t, p, i, j, x, y);
      a, b := InStretch(t, n, p, a, b);
    }
  }

  lemma InStretch(t: Tree, n: nat, p: nat, a: nat, b: nat) returns (a': nat, b': nat)
    requires t.Valid() && n < |t.kind| && p < |t.kind| && t.Under(n, p) && a < b < |PostOrder(t, p)|
    ensures a' < b' < |PostOrder(t, n)|
    ensures PostOrder(t, n)[a'] == PostOrder(t, p)[a] && PostOrder(t, n)[b'] == PostOrder(t, p)[b]
  {
    var o := StretchOf(t, n, p);
    hide PostOrder;
    a', b' := o + a, o + b;
    var s, l := PostOrder(t, n), |PostOrder(t, p)|;
    assert s[o..o + l][a] == s[a'] && s[o..o + l][b] == s[b'];
  }

  /** The order of a traversal: entries one after the other, and what lies below a
      directory before it. */
  lemma PostOrderInOrder(t: Tree, n: nat)
    requires t.Valid() && n < |t.kind|
    ensures InTreeOrder(t, n, PostOrder(t, n))
  {
    var s := PostOrder(t, n);
    PostOrderNoRepeats(t, n);
    hide PostOrder, Precedes;
    forall i, j | 0 <= i < j < |s|
      ensures !Precedes(t, n, s[j], s[i])
    {
      if Precedes(t, n, s[j], s[i]) {
        var a, b := Places(t, n, s[j], s[i]);
        assert false;
      }
    }
  }

  // ------------------------------------------------------ the initial queue

  /** The nodes of s that are ready and unevaluated, in their order. */
  ghost function ReadyIn(t: Tree, k: Classes, s: seq<nat>): seq<nat>
    requires t.Valid()
  {
    if s == [] then []
    else
      var n := s[|s| - 1];
      ReadyIn(t, k, s[..|s| - 1]) + if Ready(t, k, n) && !Evaluated(k, n) then [n] else []
  }

  lemma {:induction false} ReadyInMembers(t: Tree, k: Classes, s: seq<nat>, m: nat)
    requires t.Valid()
    ensures m in ReadyIn(t, k, s) <==> m in s && Ready(t, k, m) && !Evaluated(k, m)
  {
    if s != [] {
      ReadyInMembers(t, k, s[..|s| - 1], m);
      assert m in s <==> m in s[..|s| - 1] || m == s[|s| - 1];
    }
  }

  /** Where in s the i-th ready node stands. */
  ghost function PlaceIn(t: Tree, k: Classes, s: seq<nat>, i: nat): (j: nat)
    requires t.Valid() && i < |ReadyIn(t, k, s)|
    ensures j < |s| && s[j] == ReadyIn(t, k, s)[i]
  {
    if i < |ReadyIn(t, k, s[..|s| - 1])| then PlaceIn(t, k, s[..|s| - 1], i) else |s| - 1
  }

  lemma {:induction false} PlacesIncrease(t: Tree, k: Classes, s: seq<nat>, i: nat, j: nat)
    requires t.Valid() && i < j < |ReadyIn(t, k, s)|
    ensures PlaceIn(t, k, s, i) < PlaceIn(t, k, s, j)
  {
    if j < |ReadyIn(t, k, s[..|s| - 1])| {
      PlacesIncrease(t, k, s[..|s| - 1], i, j);
    }
  }

  lemma ReadyInNoRepeats(t: Tree, k: Classes, s: seq<nat>)
    requires t.Valid() && NoRepeats(s)
    ensures NoRepeats(ReadyIn(t, k, s))
  {
    var r := ReadyIn(t, k, s);
    forall i, j | 0 <= i < j < |r|
      ensures r[i] != r[j]
    {
      PlacesIncrease(t, k, s, i, j);
    }
  }

  lemma ReadyInContiguous(t: Tree, k: Classes, s: seq<nat>)
    requires t.Valid() && Contiguous(t, s)
    ensures Contiguous(t, ReadyIn(t, k, s))
  {
    var r := ReadyIn(t, k, s);
    forall p: nat, i, j, l | p < |t.kind| && 0 <= i < j < l < |r| && t.Under(p, r[i]) && t.Under(p, r[l])
      ensures t.Under(p, r[j])
    {
      PlacesIncrease(t, k, s, i, j);
      PlacesIncrease(t, k, s, j, l);
      assert Together(t, s, p);
    }
  }

  /** The queue the propagation starts with. */
  ghost function FirstQueue(t: Tree, k: Classes, root: nat): seq<nat>
    requires t.Valid() && root < |t.kind|
  {
    ReadyIn(t, k, PostOrder(t, root))
  }

  lemma FirstQueueIsWorklist(t: Tree, k: Classes, root: nat)
    requires t.Valid() && t.Rooted(root)
    ensures IsWorklist(t, k, FirstQueue(t, k, root)) && Contiguous(t, FirstQueue(t, k, root))
  {
    PostOrderNoRepeats(t, root);
    ReadyInNoRepeats(t, k, PostOrder(t, root));
    PostOrderContiguous(t, root);
    ReadyInContiguous(t, k, PostOrder(t, root));
    forall n: nat
      ensures n in FirstQueue(t, k, root) <==> Ready(t, k, n) && !Evaluated(k, n)
    {
      PostOrderVisits(t, root, n);
      ReadyInMembers(t, k, PostOrder(t, root), n);
    }
  }

  /** It lists them in the order of the traversal. */
  lemma FirstQueueInOrder(t: Tree, k: Classes, root: nat)
    requires t.Valid() && root < |t.kind|
    ensures InTreeOrder(t, root, FirstQueue(t, k, root))
  {
    var s := PostOrder(t, root);
    var r := ReadyIn(t, k, s);
    PostOrderInOrder(t, root);
    hide ReadyIn, PostOrder, Precedes;
    forall i, j | 0 <= i < j < |r|
      ensures !Precedes(t, root, r[j], r[i])
    {
      PlacesIncrease(t, k, s, i, j);
    }
  }

  // ------------------------------------------------------- first in first out

  /** What is appended to the queue when the i-th placement is done. */
  ghost function AppendedBy(t: Tree, order: seq<nat>, ks: seq<Classes>, i: nat): seq<nat>
    requires t.Valid() && i < |order| && i + 1 < |ks|
  {
    if order[i] < |t.kind| && t.parent[order[i]].Some? && Ready(t, ks[i + 1], t.parent[order[i]].value)
    then [t.parent[order[i]].value] else []
  }

  ghost function Appended(t: Tree, order: seq<nat>, ks: seq<Classes>, i: nat): seq<nat>
    requires t.Valid() && i <= |order| && i < |ks|
  {
    if i == 0 then [] else Appended(t, order, ks, i - 1) + AppendedBy(t, order, ks, i - 1)
  }

  lemma {:induction false} AppendedPrefix(t: Tree, order: seq<nat>, ks: seq<Classes>, order': seq<nat>,
                                          ks': seq<Classes>, i: nat)
    requires t.Valid() && i <= |order| && i < |ks| && order <= order' && ks <= ks'
    ensures Appended(t, order', ks', i) == Appended(t, order, ks, i)
  {
    if i > 0 {
      AppendedPrefix(t, order, ks, order', ks', i - 1);
    }
  }

  /** The nodes placed and those in the queue are the initial queue and what was
      appended to it since. */
  ghost predicate InQueueOrder(t: Tree, first: seq<nat>, order: seq<nat>, ks: seq<Classes>, queue: seq<nat>)
    requires t.Valid()
  {
    |ks| == |order| + 1 && order + queue == first + Appended(t, order, ks, |order|)
  }

  lemma QueueStarts(t: Tree, first: seq<nat>, k: Classes)
    requires t.Valid()
    ensures InQueueOrder(t, first, [], [k], first)
  {
    assert [] + first == first + [];
  }

  lemma QueueMoves(t: Tree, first: seq<nat>, order: seq<nat>, ks: seq<Classes>, queue: seq<nat>, k: Classes)
    requires t.Valid() && InQueueOrder(t, first, order, ks, queue) && queue != [] && queue[0] < |t.kind|
    ensures var p := t.parent[queue[0]];
            InQueueOrder(t, first, order + [queue[0]], ks + [k],
                         queue[1..] + if p.Some? && Ready(t, k, p.value) then [p.value] else [])
  {
    var order', ks', n := order + [queue[0]], ks + [k], |order|;
    AppendedPrefix(t, order, ks, order', ks', n);
    assert ks'[n + 1] == k && order'[n] == queue[0];
    QueueRotates(first, Appended(t, order, ks, n), order, queue, AppendedBy(t, order', ks', n));
  }

  lemma QueueRotates(first: seq<nat>, appended: seq<nat>, order: seq<nat>, queue: seq<nat>, tail: seq<nat>)
    requires order + queue == first + appended && queue != []
    ensures order + [queue[0]] + (queue[1..] + tail) == first + (appended + tail)
  {
    calc {
      order + [queue[0]] + (queue[1..] + tail);
      order + queue + tail;
      first + appended + tail;
      first + (appended + tail);
    }
  }

  /** What the propagation does: it places the ready nodes in the order of the
      traversal, and every other directory when its turn in the queue has come. */
  ghost predicate ProgramRun(t: Tree, root: nat, tolerance: real, k: Classes, order: seq<nat>, ks: seq<Classes>)
    requires t.Valid()
  {
    && root < |t.kind| && Run(t, tolerance, order, ks) && ks[0] == k && Complete(t, ks[|order|])
    && InQueueOrder(t, FirstQueue(t, k, root), order, ks, [])
  }

  lemma RunOfProgram(t: Tree, root: nat, tolerance: real, k: Classes, order: seq<nat>, ks: seq<Classes>)
    requires t.Valid() && ProgramRun(t, root, tolerance, k, order, ks)
    ensures Run(t, tolerance, order, ks) && |ks| == |order| + 1 && ks[0] == k && Complete(t, ks[|order|])
  {
  }

  lemma StartsWithFirst(t: Tree, root: nat, tolerance: real, k: Classes, order: seq<nat>, ks: seq<Classes>)
    requires t.Valid() && ProgramRun(t, root, tolerance, k, order, ks)
    ensures FirstQueue(t, k, root) <= order
  {
    assert order + [] == order;
  }
}
