/** Paths as sequences of components, and their common prefixes. */
module Paths {
  type Name = string
  type Path = seq<Name>

  ghost predicate IsPrefix(q: Path, p: Path) {
    q <= p
  }

  /** The longest common prefix, component by component. */
  ghost function CommonPrefix(p1: Path, p2: Path): Path {
    if p1 == [] || p2 == [] || p1[0] != p2[0] then [] else [p1[0]] + CommonPrefix(p1[1..], p2[1..])
  }

  /** It is the greatest lower bound with respect to being a prefix; that makes
      it commutative, associative and idempotent. */
  lemma {:induction false} CommonPrefixGreatest(p1: Path, p2: Path, q: Path)
    ensures IsPrefix(q, CommonPrefix(p1, p2)) <==> IsPrefix(q, p1) && IsPrefix(q, p2)
  {
    if q != [] && p1 != [] && p2 != [] && p1[0] == p2[0] && q[0] == p1[0] {
      CommonPrefixGreatest(p1[1..], p2[1..], q[1..]);
      Shift(q, p1);
      Shift(q, p2);
      Shift(q, CommonPrefix(p1, p2));
    }
  }

  lemma Shift(q: Path, p: Path)
    requires q != [] && p != [] && q[0] == p[0]
    ensures q <= p <==> q[1..] <= p[1..]
  {
    assert q == [q[0]] + q[1..] && p == [p[0]] + p[1..];
  }

  /** Only one path is the greatest lower bound. */
  lemma GreatestIsUnique(a: Path, b: Path)
    requires forall q: Path :: IsPrefix(q, a) <==> IsPrefix(q, b)
    ensures a == b
  {
    assert IsPrefix(a, a) && IsPrefix(b, b);
    assert IsPrefix(a, b) && IsPrefix(b, a);
  }

  lemma CommonPrefixLaws(p1: Path, p2: Path, p3: Path)
    ensures CommonPrefix(p1, p1) == p1
    ensures CommonPrefix(p1, p2) == CommonPrefix(p2, p1)
    ensures CommonPrefix(CommonPrefix(p1, p2), p3) == CommonPrefix(p1, CommonPrefix(p2, p3))
  {
    var left, right := CommonPrefix(CommonPrefix(p1, p2), p3), CommonPrefix(p1, CommonPrefix(p2, p3));
    forall q: Path
      ensures IsPrefix(q, CommonPrefix(p1, p1)) <==> IsPrefix(q, p1)
      ensures IsPrefix(q, CommonPrefix(p1, p2)) <==> IsPrefix(q, CommonPrefix(p2, p1))
      ensures IsPrefix(q, left) <==> IsPrefix(q, right)
    {
      CommonPrefixGreatest(p1, p1, q);
      CommonPrefixGreatest(p1, p2, q);
      CommonPrefixGreatest(p2, p1, q);
      CommonPrefixGreatest(p2, p3, q);
      CommonPrefixGreatest(CommonPrefix(p1, p2), p3, q);
      CommonPrefixGreatest(p1, CommonPrefix(p2, p3), q);
    }
    GreatestIsUnique(CommonPrefix(p1, p1), p1);
    GreatestIsUnique(CommonPrefix(p1, p2), CommonPrefix(p2, p1));
    GreatestIsUnique(left, right);
  }

  lemma OneFurther(p1: Path, p2: Path, i: nat)
    requires i < |p1| && i < |p2| && p1[i] == p2[i] && p1[..i] == p2[..i]
    ensures p1[..i] + CommonPrefix(p1[i..], p2[i..]) == p1[..i + 1] + CommonPrefix(p1[i + 1..], p2[i + 1..])
    ensures p1[..i + 1] == p2[..i + 1] == p1[..i] + [p1[i]]
  {
    assert p1[i..][1..] == p1[i + 1..] && p2[i..][1..] == p2[i + 1..];
  }

  /** Walks both paths at once while the components are equal. */
  method CommonPathPrefix(p1: Path, p2: Path) returns (res: Path)
    ensures forall q: Path :: IsPrefix(q, res) <==> IsPrefix(q, p1) && IsPrefix(q, p2)
    ensures res == CommonPrefix(p1, p2)
  {
    res := [];
    var i := 0;
    while i < |p1| && i < |p2| && p1[i] == p2[i]
      invariant i <= |p1| && i <= |p2|
      invariant res == p1[..i] == p2[..i]
      invariant CommonPrefix(p1, p2) == p1[..i] + CommonPrefix(p1[i..], p2[i..])
    {
      OneFurther(p1, p2, i);
      res := res + [p1[i]];
      i := i + 1;
    }
    forall q: Path {
      CommonPrefixGreatest(p1, p2, q);
    }
    hide IsPrefix;
    assert CommonPrefix(p1[i..], p2[i..]) == [];
  }
}
