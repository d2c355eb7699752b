/** Jaccard similarity of token lists, as exact ratios, and the metric it induces. */
module Similarity {

  function SetOf(ts: seq<string>): set<string> { set t | t in ts }

  function Jaccard(a: set<string>, b: set<string>): real
    requires a + b != {}
  {
    |a * b| as real / |a + b| as real
  }

  /** `calculateSimilarity`. */
  function CalculateSimilarity(a: seq<string>, b: seq<string>): (r: real)
    ensures 0.0 <= r <= 1.0
    ensures a == [] || b == [] ==> r == 0.0
  {
    if a == [] || b == [] then 0.0 else
      assert a[0] in SetOf(a);
      SubsetCard(SetOf(a) * SetOf(b), SetOf(a) + SetOf(b));
      RatioEnds(|SetOf(a) * SetOf(b)| as real, |SetOf(a) + SetOf(b)| as real);
      Jaccard(SetOf(a), SetOf(b))
  }

  /** `part` is this share of `whole`. */
  predicate IsShare(share: real, part: nat, whole: nat) { share * whole as real == part as real }

  lemma QuotientIsShare(part: nat, whole: nat)
    requires whole > 0
    ensures IsShare(part as real / whole as real, part, whole)
  {
  }

  /** The similarity of two token lists is the share of the words of either that are words of both. */
  lemma {:induction false} SimilarityIsShare(a: seq<string>, b: seq<string>)
    ensures IsShare(CalculateSimilarity(a, b), |SetOf(a) * SetOf(b)|, |SetOf(a) + SetOf(b)|)
  {
    if a != [] && b != [] {
      assert a[0] in SetOf(a) + SetOf(b);
      QuotientIsShare(|SetOf(a) * SetOf(b)|, |SetOf(a) + SetOf(b)|);
    } else {
      assert SetOf(a) * SetOf(b) == {};
    }
  }

  function Distance(a: set<string>, b: set<string>): real
    requires a != {} && b != {}
  {
    1.0 - Jaccard(a, b)
  }

  lemma {:induction false} SubsetCard<T>(a: set<T>, b: set<T>)
    requires a <= b
    ensures |a| <= |b| && (|a| == |b| ==> a == b)
  {
    assert |b| == |a| + |b - a| by {
      assert b == a + (b - a);
    }
    if |a| == |b| {
      assert b - a == {};
    }
  }

  /** The elements on which two sets differ. */
  function Difference(a: set<string>, b: set<string>): set<string> { (a - b) + (b - a) }

  lemma {:induction false} Quotient(n: real, u: real, q: real)
    requires u > 0.0 && q * u == n
    ensures n / u == q
  {
    var x := n / u;
    assert x * u == n;
    assert (x - q) * u == 0.0;
  }

  lemma {:induction false} Complement(d: real, i: real, u: real)
    requires u > 0.0 && u == d + i
    ensures 1.0 - i / u == d / u
  {
    var x := i / u;
    assert x * u == i;
    assert (1.0 - x) * u == u - x * u;
    Quotient(d, u, 1.0 - x);
  }

  lemma {:induction false} DistanceIsRatio(a: set<string>, b: set<string>)
    requires a != {} && b != {}
    ensures |Difference(a, b)| + |a * b| == |a + b| > 0
    ensures Distance(a, b) == |Difference(a, b)| as real / |a + b| as real
  {
    assert a + b == Difference(a, b) + a * b;
    assert a + b != {};
    Complement(|Difference(a, b)| as real, |a * b| as real, |a + b| as real);
  }

  lemma {:induction false} Cancel(x: real, y: real, u: real)
    requires u > 0.0 && x * u <= y * u
    ensures x <= y
  {
    assert (x - y) * u <= 0.0;
  }

  lemma {:induction false} RatioEnds(d: real, u: real)
    requires u > 0.0 && 0.0 <= d <= u
    ensures 0.0 <= d / u <= 1.0
    ensures d / u == 0.0 <==> d == 0.0
    ensures d / u == 1.0 <==> d == u
  {
    assert d / u * u == d;
    Cancel(0.0, d / u, u);
    Cancel(d / u, 1.0, u);
  }

  /** Adding the same amount above and below brings a fraction closer to one. */
  lemma {:induction false} AddToBoth(p: real, q: real, r: real)
    requires 0.0 <= p <= q && q > 0.0 && r >= 0.0
    ensures p / q <= (p + r) / (q + r)
  {
    var x, y := p / q, (p + r) / (q + r);
    assert p == x * q && p + r == y * (q + r);
    Cancel(x, 1.0, q);
    assert x * r <= 1.0 * r;
    assert x * (q + r) == p + x * r <= p + r == y * (q + r);
    Cancel(x, y, q + r);
  }

  lemma {:induction false} LargerBelow(n: real, u: real, w: real)
    requires 0.0 <= n && 0.0 < u <= w
    ensures n / w <= n / u
  {
    var x := n / u;
    assert n == x * u <= x * w;
    assert n == n / w * w;
    Cancel(n / w, x, w);
  }

  lemma {:induction false} DisjointCard<T>(a: set<T>, b: set<T>)
    requires a !! b
    ensures |a + b| == |a| + |b|
  {
  }

  lemma {:induction false} UnionCard<T>(a: set<T>, b: set<T>)
    ensures |a + b| <= |a| + |b|
  {
    assert a + b == a + (b - a);
    DisjointCard(a, b - a);
    SubsetCard(b - a, b);
  }

  /** Two distances to a third set bound the third side: the counting part of the triangle inequality. */
  lemma {:induction false} DifferencesCover(a: set<string>, b: set<string>, c: set<string>)
    ensures |Difference(a, c)| + |b - (a + c)| <= |Difference(a, b)| + |Difference(b, c)|
    ensures |a + c| + |b - (a + c)| == |a + b + c|
    ensures |a + b| <= |a + b + c| && |b + c| <= |a + b + c|
  {
    var extra := b - (a + c);
    CoveredBySteps(a, b, c);
    DisjointCard(Difference(a, c), extra);
    SubsetCard(Difference(a, c) + extra, Difference(a, b) + Difference(b, c));
    UnionCard(Difference(a, b), Difference(b, c));
    DisjointCard(a + c, extra);
    assert a + b + c == (a + c) + extra;
    SubsetCard(a + b, a + b + c);
    SubsetCard(b + c, a + b + c);
  }

  lemma CoveredBySteps(a: set<string>, b: set<string>, c: set<string>)
    ensures Difference(a, c) + (b - (a + c)) <= Difference(a, b) + Difference(b, c)
    ensures Difference(a, c) !! b - (a + c)
  {
  }

  lemma {:induction false} TriangleOfRatios(ac: real, ab: real, bc: real, extra: real, uac: real, uab: real, ubc: real,
      u: real)
    requires 0.0 <= ac <= uac && 0.0 <= ab && 0.0 <= bc && extra >= 0.0
    requires 0.0 < uac && 0.0 < uab <= u && 0.0 < ubc <= u && u == uac + extra
    requires ac + extra <= ab + bc
    ensures ac / uac <= ab / uab + bc / ubc
  {
    AddToBoth(ac, uac, extra);
    LargerBelow(ab, uab, u);
    LargerBelow(bc, ubc, u);
    SumOver(ab, bc, ac + extra, u);
  }

  lemma {:induction false} SumOver(x: real, y: real, z: real, u: real)
    requires u > 0.0 && z <= x + y
    ensures z / u <= x / u + y / u
  {
    Quotient(x + y, u, x / u + y / u);
    var q, r := z / u, (x + y) / u;
    assert q * u == z && r * u == x + y;
    Cancel(q, r, u);
  }

  /** The triangle inequality: with symmetry and zero exactly on equal sets, distance is a metric. */
  lemma {:induction false} Triangle(a: set<string>, b: set<string>, c: set<string>)
    requires a != {} && b != {} && c != {}
    ensures Distance(a, c) <= Distance(a, b) + Distance(b, c)
  {
    DistanceIsRatio(a, b);
    DistanceIsRatio(b, c);
    DistanceIsRatio(a, c);
    DifferencesCover(a, b, c);
    TriangleOfRatios(|Difference(a, c)| as real, |Difference(a, b)| as real, |Difference(b, c)| as real,
                     |b - (a + c)| as real, |a + c| as real, |a + b| as real, |b + c| as real, |a + b + c| as real);
  }

  lemma {:induction false} SymmetricAndDefinite(a: set<string>, b: set<string>)
    requires a != {} && b != {}
    ensures Distance(a, b) == Distance(b, a)
    ensures 0.0 <= Distance(a, b) <= 1.0
    ensures Distance(a, b) == 0.0 <==> a == b
    ensures Distance(a, b) == 1.0 <==> a !! b
  {
    assert a * b == b * a && a + b == b + a;
    DistanceIsRatio(a, b);
    RatioEnds(|Difference(a, b)| as real, |a + b| as real);
    assert |Difference(a, b)| == 0 <==> Difference(a, b) == {};
    assert Difference(a, b) == {} <==> a == b by {
      assert forall x | x in a && x !in b :: x in Difference(a, b);
      assert forall x | x in b && x !in a :: x in Difference(a, b);
    }
    if a * b == {} {
      forall x | x in a ensures x !in b {
        assert x in b ==> x in a * b;
      }
    } else {
      var x :| x in a * b;
      assert x in a && x in b;
    }
  }

  /** `1 - calculateSimilarity` on non-empty token lists is this distance on their token sets. */
  lemma {:induction false} SimilarityIsMetric(x: seq<string>, y: seq<string>, z: seq<string>)
    requires x != [] && y != [] && z != []
    ensures CalculateSimilarity(x, y) == CalculateSimilarity(y, x)
    ensures CalculateSimilarity(x, y) == 1.0 <==> SetOf(x) == SetOf(y)
    ensures 1.0 - CalculateSimilarity(x, z) <= (1.0 - CalculateSimilarity(x, y)) + (1.0 - CalculateSimilarity(y, z))
  {
    assert x[0] in SetOf(x) && y[0] in SetOf(y) && z[0] in SetOf(z);
    SymmetricAndDefinite(SetOf(x), SetOf(y));
    Triangle(SetOf(x), SetOf(y), SetOf(z));
  }

  /** Two patterns that both pass the one-half threshold for one input have a token in common. */
  lemma {:induction false} MatchesShareAToken(input: seq<string>, p: seq<string>, q: seq<string>)
    requires CalculateSimilarity(input, p) > 0.5 && CalculateSimilarity(input, q) > 0.5
    ensures exists t :: t in p && t in q
  {
    assert p[0] in SetOf(p) && q[0] in SetOf(q) && input[0] in SetOf(input);
    SimilarityIsMetric(p, input, q);
    SymmetricAndDefinite(SetOf(p), SetOf(input));
    SymmetricAndDefinite(SetOf(p), SetOf(q));
    var t :| t in SetOf(p) && t in SetOf(q);
  }
}
