/** The similarity metric of two directories: weight of the symmetric
    difference over weight of the union of their sets of classes, where the
    class weights are truncated to whole numbers first. */
module Similarity {
  import opened Sums

  ghost function SymDiff(A: set<nat>, B: set<nat>): set<nat> {
    (A - B) + (B - A)
  }

  /** Independent definition of the distance on sets of classes. */
  ghost function Distance(w: seq<real>, A: set<nat>, B: set<nat>): real {
    var union := Total(Floors(w), A + B);
    if union == 0.0 then 0.0 else Total(Floors(w), SymDiff(A, B)) / union
  }

  /** d is the share of what only one of two sets has in what either has; a and b
      are the weights of the sets, and both that of what they share. */
  ghost predicate IsShare(d: real, a: real, b: real, both: real) {
    d * (a + b - both) == a + b - 2.0 * both && (a + b == both ==> d == 0.0)
  }

  /** The value of the distance, for any overlap. */
  lemma DistanceValue(w: seq<real>, A: set<nat>, B: set<nat>)
    requires NonNegative(w)
    ensures IsShare(Distance(w, A, B), Total(Floors(w), A), Total(Floors(w), B), Total(Floors(w), A * B))
  {
    var f := Floors(w);
    hide Distance, Total;
    TotalDisjoint(f, A, B - A);
    TotalDisjoint(f, A - B, B - A);
    TotalDisjoint(f, A - B, A * B);
    TotalDisjoint(f, B - A, A * B);
    assert A + (B - A) == A + B && A - B + A * B == A && B - A + A * B == B;
    var a, b, both := Total(f, A), Total(f, B), Total(f, A * B);
    TimesUnion(w, A, B, a + b - both, a + b - 2.0 * both);
    LightApart(w, A, B);
  }

  lemma LightApart(w: seq<real>, A: set<nat>, B: set<nat>)
    ensures Total(Floors(w), A + B) == 0.0 ==> Distance(w, A, B) == 0.0
  {
  }

  lemma Quotient(s: real, u: real)
    requires u != 0.0
    ensures (s / u) * u == s
  {
  }

  /** One more class c: on one side only it adds its whole weight to both parts of
      the fraction, on both sides to the denominator alone. */
  lemma OneMoreClass(w: seq<real>, A: set<nat>, B: set<nat>, c: nat)
    requires NonNegative(w) && c < |w| && c !in A + B
    ensures var u, x := Total(Floors(w), A + B), w[c].Floor as real;
            && Distance(w, A + {c}, B) * (u + x) == Distance(w, A, B) * u + x
            && Distance(w, A, B + {c}) * (u + x) == Distance(w, A, B) * u + x
            && Distance(w, A + {c}, B + {c}) * (u + x) == Distance(w, A, B) * u
  {
    hide *;
    OneMoreTotal(w, A, B, c);
    var f := Floors(w);
    var u, s, x := Total(f, A + B), Total(f, SymDiff(A, B)), w[c].Floor as real;
    TimesUnion(w, A, B, u, s);
    TimesUnion(w, A + {c}, B, u + x, s + x);
    TimesUnion(w, A, B + {c}, u + x, s + x);
    TimesUnion(w, A + {c}, B + {c}, u + x, s);
  }

  lemma OneMoreTotal(w: seq<real>, A: set<nat>, B: set<nat>, c: nat)
    requires c < |w| && c !in A + B
    ensures var f, u, s, x := Floors(w), Total(Floors(w), A + B), Total(Floors(w), SymDiff(A, B)), w[c].Floor as real;
            && Total(f, A + {c} + B) == Total(f, A + (B + {c})) == Total(f, A + {c} + (B + {c})) == u + x
            && Total(f, SymDiff(A + {c}, B)) == Total(f, SymDiff(A, B + {c})) == s + x
            && Total(f, SymDiff(A + {c}, B + {c})) == s
  {
    OneMoreElement(A, B, c);
    hide *;
    TotalAdd(Floors(w), A + B, c);
    TotalAdd(Floors(w), SymDiff(A, B), c);
  }

  lemma OneMoreElement(A: set<nat>, B: set<nat>, c: nat)
    requires c !in A + B
    ensures A + {c} + B == A + (B + {c}) == A + {c} + (B + {c}) == A + B + {c}
    ensures c !in SymDiff(A, B) && SymDiff(A + {c}, B) == SymDiff(A, B + {c}) == SymDiff(A, B) + {c}
    ensures SymDiff(A + {c}, B + {c}) == SymDiff(A, B)
  {
    assert A + {c} + B == A + B + {c};
    assert A + (B + {c}) == A + B + {c};
    assert A + {c} + (B + {c}) == A + B + {c};
    assert SymDiff(A + {c}, B) == SymDiff(A, B) + {c};
    assert SymDiff(A, B + {c}) == SymDiff(A, B) + {c};
  }

  lemma TimesUnion(w: seq<real>, A: set<nat>, B: set<nat>, u: real, s: real)
    requires NonNegative(w) && Total(Floors(w), A + B) == u && Total(Floors(w), SymDiff(A, B)) == s
    ensures Distance(w, A, B) * u == s
  {
    var f := Floors(w);
    TotalNonNegative(f, SymDiff(A, B));
    TotalMonotone(f, SymDiff(A, B), A + B);
    if u != 0.0 {
      Quotient(s, u);
    }
  }

  lemma DivBounds(s: real, u: real)
    requires 0.0 <= s <= u && u > 0.0
    ensures 0.0 <= s / u <= 1.0
  {
    var q := s / u;
    assert q * u == s;
  }

  lemma DivOne(s: real, u: real)
    requires u > 0.0
    ensures s / u == 1.0 <==> s == u
  {
    assert (s / u) * u == s;
  }

  lemma DistanceRange(w: seq<real>, A: set<nat>, B: set<nat>)
    requires NonNegative(w)
    ensures 0.0 <= Distance(w, A, B) <= 1.0
  {
    var f := Floors(w);
    TotalNonNegative(f, A + B);
    TotalNonNegative(f, SymDiff(A, B));
    TotalMonotone(f, SymDiff(A, B), A + B);
    if Total(f, A + B) > 0.0 {
      DivBounds(Total(f, SymDiff(A, B)), Total(f, A + B));
    }
  }

  lemma DistanceSymmetric(w: seq<real>, A: set<nat>, B: set<nat>)
    ensures Distance(w, A, B) == Distance(w, B, A)
  {
    assert A + B == B + A && SymDiff(A, B) == SymDiff(B, A);
  }

  /** Distance zero means: the two sets differ only in classes lighter than one. */
  lemma DistanceZero(w: seq<real>, A: set<nat>, B: set<nat>)
    requires NonNegative(w)
    ensures Distance(w, A, B) == 0.0
       <==> forall c :: c in SymDiff(A, B) && c < |w| ==> w[c] < 1.0
  {
    var f := Floors(w);
    TotalZero(f, SymDiff(A, B));
    TotalNonNegative(f, A + B);
    TotalMonotone(f, SymDiff(A, B), A + B);
    TotalNonNegative(f, SymDiff(A, B));
  }

  lemma OneByTotals(w: seq<real>, A: set<nat>, B: set<nat>)
    requires Total(Floors(w), A + B) > 0.0
    ensures Distance(w, A, B) == 1.0 <==> Total(Floors(w), SymDiff(A, B)) == Total(Floors(w), A + B)
  {
    DivOne(Total(Floors(w), SymDiff(A, B)), Total(Floors(w), A + B));
  }

  /** Sets that share no class at least one heavy are at the largest distance, and only those. */
  lemma DistanceOne(w: seq<real>, A: set<nat>, B: set<nat>)
    requires NonNegative(w)
    requires Total(Floors(w), A + B) > 0.0
    ensures Distance(w, A, B) == 1.0
       <==> forall c :: c in A * B && c < |w| ==> w[c] < 1.0
  {
    var f := Floors(w);
    assert A + B == SymDiff(A, B) + A * B;
    TotalDisjoint(f, SymDiff(A, B), A * B);
    TotalZero(f, A * B);
    OneByTotals(w, A, B);
    hide Distance;
    assert forall c :: c in A * B && c < |w| ==> (f[c] == 0.0 <==> w[c] < 1.0);
  }

  lemma DividedSum(s1: real, u1: real, s2: real, u2: real, n: real)
    requires 0.0 <= s1 <= u1 && 0.0 <= s2 <= u2
    requires 0.0 < u1 <= n && 0.0 < u2 <= n
    ensures (s1 + s2) / n <= s1 / u1 + s2 / u2
  {
    Shrink(s1, u1, n);
    Shrink(s2, u2, n);
    assert (s1 + s2) / n == s1 / n + s2 / n;
  }

  lemma Shrink(s: real, u: real, n: real)
    requires 0.0 <= s && 0.0 < u <= n
    ensures s / n <= s / u
  {
    var q := s / u;
    assert q * u == s;
    assert q >= 0.0;
    assert q * n >= s;
    assert (q * n) / n == q;
    assert s / n <= (q * n) / n;
  }

  /** Adding the same amount on both sides of a fraction below one enlarges it. */
  lemma Enlarge(s: real, u: real, b: real)
    requires 0.0 <= s <= u && 0.0 < u && 0.0 <= b
    ensures s / u <= (s + b) / (u + b)
  {
    var q := s / u;
    assert q * u == s;
    DivBounds(s, u);
    assert q * b <= b;
    assert q * (u + b) <= s + b;
    assert (q * (u + b)) / (u + b) == q;
  }

  /** Total over the union of three sets, split by the parts the proof compares. */
  lemma SplitThree(f: seq<real>, A: set<nat>, B: set<nat>, C: set<nat>)
    requires NonNegative(f)
    ensures Total(f, A + B + C) == Total(f, A + C) + Total(f, B - A - C)
    ensures Total(f, SymDiff(A, C)) + Total(f, B - A - C)
         <= Total(f, SymDiff(A, B)) + Total(f, SymDiff(B, C))
  {
    var onlyB := B - A - C;
    TotalDisjoint(f, A + C, onlyB);
    assert A + C + onlyB == A + B + C;
    TotalNonNegative(f, onlyB);
    // A class that tells A from C tells A from B or B from C.
    var X, Y := SymDiff(A, B), SymDiff(B, C);
    TotalDisjoint(f, SymDiff(A, C), onlyB);
    TotalMonotone(f, SymDiff(A, C) + onlyB, X + (Y - X));
    TotalDisjoint(f, X, Y - X);
    TotalMonotone(f, Y - X, Y);
  }

  /** The triangle inequality, including directories of total weight zero. */
  lemma DistanceTriangle(w: seq<real>, A: set<nat>, B: set<nat>, C: set<nat>)
    requires NonNegative(w)
    ensures Distance(w, A, C) <= Distance(w, A, B) + Distance(w, B, C)
  {
    var f := Floors(w);
    DistanceRange(w, A, B);
    DistanceRange(w, B, C);
    SplitThree(f, A, B, C);
    var n := Total(f, A + B + C);
    var sAC, sAB, sBC := Total(f, SymDiff(A, C)), Total(f, SymDiff(A, B)), Total(f, SymDiff(B, C));
    var uAC, uAB, uBC := Total(f, A + C), Total(f, A + B), Total(f, B + C);
    UnionBounds(f, A, B, C);
    UnionBounds(f, B, C, A);
    UnionBounds(f, A, C, B);
    assert A + B + C == B + C + A == A + C + B;
    if uAC == 0.0 {
    } else if uAB == 0.0 {
      // A weighs nothing, so the distances of A and of B to C are both one.
      LightUnion(f, A, B, C);
    } else if uBC == 0.0 {
      assert C + B == B + C && C + A == A + C && B + A == A + B;
      LightUnion(f, C, B, A);
      assert SymDiff(C, A) == SymDiff(A, C) && SymDiff(B, A) == SymDiff(A, B);
    } else {
      Enlarge(sAC, uAC, n - uAC);
      DividedSum(sAB, uAB, sBC, uBC, n);
      ByDenominator(sAC + (n - uAC), sAB + sBC, n);
    }
  }

  lemma ByDenominator(x: real, y: real, n: real)
    requires x <= y && n > 0.0
    ensures x / n <= y / n
  {
  }

  lemma UnionBounds(f: seq<real>, A: set<nat>, B: set<nat>, C: set<nat>)
    requires NonNegative(f)
    ensures 0.0 <= Total(f, SymDiff(A, B)) <= Total(f, A + B) <= Total(f, A + B + C)
  {
    TotalNonNegative(f, SymDiff(A, B));
    TotalMonotone(f, SymDiff(A, B), A + B);
    TotalMonotone(f, A + B, A + B + C);
  }

  /** If A and B weigh nothing together, both look the same from C. */
  lemma LightUnion(f: seq<real>, A: set<nat>, B: set<nat>, C: set<nat>)
    requires NonNegative(f)
    requires Total(f, A + B) == 0.0
    ensures Total(f, SymDiff(A, C)) == Total(f, SymDiff(B, C))
    ensures Total(f, A + C) == Total(f, B + C)
  {
    LightPart(f, A, C, A + B);
    LightPart(f, B, C, A + B);
  }

  lemma LightPart(f: seq<real>, A: set<nat>, C: set<nat>, L: set<nat>)
    requires NonNegative(f) && A <= L && Total(f, L) == 0.0
    ensures Total(f, SymDiff(A, C)) == Total(f, C) == Total(f, A + C)
  {
    TotalZero(f, L);
    TotalZero(f, A - C);
    TotalZero(f, A * C);
    TotalDisjoint(f, A - C, C - A);
    TotalDisjoint(f, A * C, C - A);
    TotalDisjoint(f, A - C, C);
    assert A * C + (C - A) == C && A - C + C == A + C;
  }
}
