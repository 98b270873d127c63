// The Jaccard index of two fingerprints, and the inequality that makes one minus
// it a distance.

module JaccardIndex {

  function Ratio(part: nat, whole: nat): real
    requires whole > 0
  {
    part as real / whole as real
  }

  // Zero when either fingerprint is empty.
  function Jaccard<T(==)>(a: set<T>, b: set<T>): (r: real)
    ensures 0.0 <= r <= 1.0
    ensures a != {} && a == b ==> r == 1.0
  {
    if a == {} || b == {} then 0.0
    else
      NonEmptyUnion(a, b);
      SubsetSize(a * b, a + b);
      RatioBounds(|a * b|, |a + b|);
      assert a == b ==> a * b == a + b;
      Ratio(|a * b|, |a + b|)
  }

  lemma RatioBounds(part: nat, whole: nat)
    requires part <= whole && whole > 0
    ensures 0.0 <= Ratio(part, whole) <= 1.0
    ensures part == whole ==> Ratio(part, whole) == 1.0
  {
    var x, n := Ratio(part, whole), whole as real;
    assert x * n == part as real;
    if part == whole { assert (x - 1.0) * n == 0.0; }
  }

  lemma NonEmptyUnion<T>(a: set<T>, b: set<T>)
    requires a != {}
    ensures |a + b| > 0
  {
    var x :| x in a;
    assert x in a + b;
  }

  lemma {:induction false} SubsetSize<T>(a: set<T>, b: set<T>)
    requires a <= b
    ensures |a| <= |b|
  {
    if a != {} {
      var x :| x in a;
      SubsetSize(a - {x}, b - {x});
    }
  }

  lemma UnionSize<T>(a: set<T>, b: set<T>)
    ensures |a + b| + |a * b| == |a| + |b|
    ensures |a + b| <= |a| + |b|
  {
    assert a + b == a + (b - a);
    assert b == (b - a) + (a * b);
    assert |b| == |b - a| + |a * b|;
  }

  lemma JaccardSymmetric<T>(a: set<T>, b: set<T>)
    ensures Jaccard(a, b) == Jaccard(b, a)
  {
    assert a * b == b * a && a + b == b + a;
  }

  // The index is the share of the elements of either that both have.
  lemma JaccardTimes<T>(a: set<T>, b: set<T>)
    requires a != {} && b != {}
    ensures Jaccard(a, b) * |a + b| as real == |a * b| as real
  {
    NonEmptyUnion(a, b);
    var x, n := |a * b| as real, |a + b| as real;
    assert x / n * n == x;
  }

  // It is positive exactly when they share an element.
  lemma JaccardPositive<T>(a: set<T>, b: set<T>)
    ensures Jaccard(a, b) > 0.0 <==> exists x :: x in a && x in b
  {
    hide Jaccard;
    if a != {} && b != {} {
      JaccardTimes(a, b);
      NonEmptyUnion(a, b);
      if x :| x in a && x in b {
        assert x in a * b;
      } else {
        assert a * b == {};
      }
    } else {
      EmptyJaccard(a, b);
    }
  }

  lemma EmptyJaccard<T>(a: set<T>, b: set<T>)
    ensures a == {} || b == {} ==> Jaccard(a, b) == 0.0
  {}

  // Few elements apart mean a high index.
  lemma JaccardAtLeast<T>(a: set<T>, b: set<T>, lost: nat, gained: nat)
    requires a != {} && b != {} && |a - b| <= lost && |b - a| <= gained
    ensures Jaccard(a, b) * (|a| + gained) as real >= (|a| as int - lost) as real
  {
    hide Jaccard;
    JaccardTimes(a, b);
    assert a + b == a + (b - a) && a == (a - b) + (a * b);
    var j, u, all := Jaccard(a, b), |a + b| as real, (|a| + gained) as real;
    assert u <= all;
    assert j * u <= j * all;
  }

  // ---- The triangle inequality ----

  // Elements in exactly one of the two.
  function Apart<T>(a: set<T>, b: set<T>): set<T> {
    (a - b) + (b - a)
  }

  lemma RatioAdds(p: nat, q: nat, whole: nat)
    requires whole > 0
    ensures Ratio(p + q, whole) == Ratio(p, whole) + Ratio(q, whole)
  {
    var x, y, n := p as real, q as real, whole as real;
    assert (x + y) / n == x / n + y / n;
  }

  lemma RatioMonotone(p: nat, q: nat, whole: nat)
    requires p <= q && whole > 0
    ensures Ratio(p, whole) <= Ratio(q, whole)
  {
    var x, n := Ratio(p, whole), whole as real;
    assert x * n == p as real;
    DivideBoth(x, n, q as real);
  }

  lemma JaccardIsOneMinusApart<T>(a: set<T>, b: set<T>)
    requires a != {} && b != {}
    ensures |a + b| > 0
    ensures Jaccard(a, b) == 1.0 - Ratio(|Apart(a, b)|, |a + b|)
  {
    NonEmptyUnion(a, b);
    hide Ratio;
    assert a + b == Apart(a, b) + a * b;
    RatioAdds(|Apart(a, b)|, |a * b|, |a + b|);
    RatioBounds(|a + b|, |a + b|);
  }

  // A fraction does not exceed one with the same amount added above and below.
  lemma FractionGrows(part: nat, whole: nat, more: nat)
    requires part <= whole && whole > 0
    ensures Ratio(part, whole) <= Ratio(part + more, whole + more)
  {
    var p, n, m := part as real, whole as real, more as real;
    assert (part + more) as real == p + m && (whole + more) as real == n + m;
    var x := p / n;
    assert x * n == p;
    assert x <= 1.0 by { RatioBounds(part, whole); }
    assert x * m <= m;
    assert x * (n + m) <= p + m;
    DivideBoth(x, n + m, p + m);
  }

  lemma DivideBoth(x: real, n: real, y: real)
    requires n > 0.0 && x * n <= y
    ensures x <= y / n
  {
    var q := y / n;
    assert q * n == y;
    assert (x - q) * n <= 0.0;
  }

  lemma FractionShrinks(part: nat, whole: nat, larger: nat)
    requires 0 < whole <= larger
    ensures Ratio(part, larger) <= Ratio(part, whole)
  {
    var p, n, m := part as real, whole as real, larger as real;
    var x := p / m;
    assert x * m == p && x >= 0.0;
    assert x * n <= x * m;
    DivideBoth(x, n, p);
  }

  // Two distances over the common union add up to at least the third.
  lemma ApartTriangle<T>(a: set<T>, b: set<T>, c: set<T>)
    ensures |Apart(a, c)| + |b - (a + c)| <= |Apart(a, b)| + |Apart(b, c)|
  {
    var left := Apart(a, c) + (b - (a + c));
    assert |left| == |Apart(a, c)| + |b - (a + c)|;
    SubsetSize(left, Apart(a, b) + Apart(b, c));
    UnionSize(Apart(a, b), Apart(b, c));
  }

  lemma UnionsOfThree<T>(a: set<T>, b: set<T>, c: set<T>)
    ensures |a + b| <= |a + c| + |b - (a + c)|
    ensures |b + c| <= |a + c| + |b - (a + c)|
    ensures |Apart(a, c)| <= |a + c|
  {
    var all := (a + c) + (b - (a + c));
    assert |all| == |a + c| + |b - (a + c)|;
    SubsetSize(a + b, all);
    SubsetSize(b + c, all);
    SubsetSize(Apart(a, c), a + c);
  }

  lemma RatioTriangle(ac: nat, unionAC: nat, extra: nat, ab: nat, unionAB: nat, bc: nat, unionBC: nat)
    requires ac <= unionAC && 0 < unionAC
    requires 0 < unionAB <= unionAC + extra && 0 < unionBC <= unionAC + extra
    requires ac + extra <= ab + bc
    ensures Ratio(ac, unionAC) <= Ratio(ab, unionAB) + Ratio(bc, unionBC)
  {
    hide Ratio;
    var all := unionAC + extra;
    FractionGrows(ac, unionAC, extra);
    RatioMonotone(ac + extra, ab + bc, all);
    RatioAdds(ab, bc, all);
    FractionShrinks(ab, unionAB, all);
    FractionShrinks(bc, unionBC, all);
  }

  // One minus the Jaccard index is a distance on non-empty fingerprints.
  lemma JaccardTriangle<T>(a: set<T>, b: set<T>, c: set<T>)
    requires a != {} && b != {} && c != {}
    ensures Jaccard(a, c) >= Jaccard(a, b) + Jaccard(b, c) - 1.0
  {
    hide Ratio, Jaccard, Apart;
    JaccardIsOneMinusApart(a, b);
    JaccardIsOneMinusApart(b, c);
    JaccardIsOneMinusApart(a, c);
    ApartTriangle(a, b, c);
    UnionsOfThree(a, b, c);
    RatioTriangle(|Apart(a, c)|, |a + c|, |b - (a + c)|, |Apart(a, b)|, |a + b|, |Apart(b, c)|, |b + c|);
  }
}
