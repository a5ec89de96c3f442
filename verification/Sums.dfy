/** Sums of weights over finite sets of class identifiers, and over sequences. */
module Sums {

  /** The sum of w[c] over the identifiers c of S that index w. */
  ghost function Total(w: seq<real>, S: set<nat>): real {
    if w == [] then 0.0
    else Total(w[..|w| - 1], S) + if |w| - 1 in S then w[|w| - 1] else 0.0
  }

  ghost function SumSeq(s: seq<real>): real {
    if s == [] then 0.0 else SumSeq(s[..|s| - 1]) + s[|s| - 1]
  }

  ghost predicate NonNegative(w: seq<real>) {
    forall c :: 0 <= c < |w| ==> w[c] >= 0.0
  }

  /** What is left of a double once it is added to an unsigned integer. */
  ghost function Floors(w: seq<real>): (f: seq<real>)
    ensures |f| == |w|
    ensures forall c :: 0 <= c < |w| ==> f[c] == w[c].Floor as real
    ensures NonNegative(w) ==> NonNegative(f)
  {
    seq(|w|, c requires 0 <= c < |w| => w[c].Floor as real)
  }

  lemma {:induction false} TotalEmpty(w: seq<real>)
    ensures Total(w, {}) == 0.0
  {
    if w != [] {
      TotalEmpty(w[..|w| - 1]);
    }
  }

  lemma {:induction false} TotalSame(w: seq<real>, v: seq<real>, S: set<nat>, T: set<nat>)
    requires |w| == |v|
    requires forall c: nat :: c < |w| ==> (c in S <==> c in T) && (c in S ==> w[c] == v[c])
    ensures Total(w, S) == Total(v, T)
  {
    if w != [] {
      TotalSame(w[..|w| - 1], v[..|w| - 1], S, T);
    }
  }

  lemma {:induction false} TotalAdd(w: seq<real>, S: set<nat>, c: nat)
    requires c < |w| && c !in S
    ensures Total(w, S + {c}) == Total(w, S) + w[c]
  {
    var v := w[..|w| - 1];
    if c == |w| - 1 {
      TotalSame(v, v, S + {c}, S);
    } else {
      TotalAdd(v, S, c);
    }
  }

  lemma {:induction false} TotalDisjoint(w: seq<real>, S: set<nat>, T: set<nat>)
    requires S !! T
    ensures Total(w, S + T) == Total(w, S) + Total(w, T)
  {
    if w != [] {
      TotalDisjoint(w[..|w| - 1], S, T);
    }
  }

  lemma {:induction false} TotalNonNegative(w: seq<real>, S: set<nat>)
    requires NonNegative(w)
    ensures Total(w, S) >= 0.0
  {
    if w != [] {
      TotalNonNegative(w[..|w| - 1], S);
    }
  }

  lemma TotalMonotone(w: seq<real>, S: set<nat>, T: set<nat>)
    requires NonNegative(w) && S <= T
    ensures Total(w, S) <= Total(w, T)
  {
    TotalDisjoint(w, S, T - S);
    TotalNonNegative(w, T - S);
    assert S + (T - S) == T;
  }

  /** Every single weight is a lower bound of the total. */
  lemma TotalAtLeast(w: seq<real>, S: set<nat>, c: nat)
    requires NonNegative(w) && c in S && c < |w|
    ensures Total(w, S) >= w[c]
  {
    TotalAdd(w, S - {c}, c);
    TotalNonNegative(w, S - {c});
    assert S - {c} + {c} == S;
  }

  /** A total of zero has only zero summands, and conversely. */
  lemma {:induction false} TotalZero(w: seq<real>, S: set<nat>)
    requires NonNegative(w)
    ensures Total(w, S) == 0.0 <==> forall c :: c in S && c < |w| ==> w[c] == 0.0
  {
    if forall c :: c in S && c < |w| ==> w[c] == 0.0 {
      TotalAllZero(w, S);
    } else {
      var c :| c in S && c < |w| && w[c] != 0.0;
      TotalAtLeast(w, S, c);
    }
  }

  lemma {:induction false} TotalAllZero(w: seq<real>, S: set<nat>)
    requires forall c :: c in S && c < |w| ==> w[c] == 0.0
    ensures Total(w, S) == 0.0
  {
    if w != [] {
      TotalAllZero(w[..|w| - 1], S);
    }
  }

  /** Where everything weighs one, the total is a number of elements. */
  lemma {:induction false} TotalOnes(w: seq<real>, S: set<nat>)
    requires forall c :: c in S ==> c < |w| && w[c] == 1.0
    ensures Total(w, S) == |S| as real
  {
    if S == {} {
      TotalEmpty(w);
    } else {
      var c :| c in S;
      TotalOnes(w, S - {c});
      TotalAdd(w, S - {c}, c);
      assert S - {c} + {c} == S;
      IntsAsReals(|S - {c}|, 1);
    }
  }

  lemma SumSeqPush(s: seq<real>, x: real)
    ensures SumSeq(s + [x]) == SumSeq(s) + x
  {
    assert (s + [x])[..|s|] == s;
  }

  lemma FloorUnique(x: real, k: int)
    requires k as real <= x < k as real + 1.0
    ensures x.Floor == k
  {
  }

  lemma IntsAsReals(i: int, j: int)
    ensures (i + j) as real == i as real + j as real
  {
  }

  /** Truncating after adding to a whole number is adding the truncated number. */
  lemma FloorShift(n: int, x: real)
    ensures (n as real + x).Floor as real == n as real + x.Floor as real
  {
    assert x.Floor as real <= x < x.Floor as real + 1.0;
    IntsAsReals(n, x.Floor);
    FloorUnique(n as real + x, n + x.Floor);
  }

  /** Only the weights of the summed identifiers matter. */
  lemma {:induction false} TotalLonger(w: seq<real>, v: seq<real>, S: set<nat>)
    requires |w| <= |v| && forall c :: c in S ==> c < |w| && w[c] == v[c]
    ensures Total(w, S) == Total(v, S)
  {
    if |w| == |v| {
      TotalSame(w, v, S, S);
    } else {
      TotalLonger(w, v[..|v| - 1], S);
    }
  }
}
