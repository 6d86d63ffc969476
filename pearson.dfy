/** ComputePCC in correlate.py: the Pearson correlation of two users over the
    items both have rated, with a small constant under the square root so that
    the quotient is always defined. The square root itself is floating-point
    library code; it is a parameter `root` of which only positivity on
    positive arguments is assumed. */
module Pearson {
  import opened Sums
  import opened Ratings

  /** The stabilising constant added under the square root. */
  const Epsilon: real := 0.000001

  /** What the model needs of the square root: a positive argument has a
      positive root. */
  ghost predicate RootPositive(root: real -> real)
  {
    forall x :: x > 0.0 ==> root(x) > 0.0
  }

  /** The items rated by both users. */
  function Common(a: Profile, b: Profile): set<int>
  {
    a.ratings.Keys * b.ratings.Keys
  }

  /** A user's deviation from their own mean on one item. */
  function Dev(p: Profile, item: int): real
  {
    if item in p.ratings then p.ratings[item] as real - p.mean else 0.0
  }

  /** The product of two deviations. */
  function Product(x: real, y: real): real
  {
    x * y
  }

  /** The numerator term of one common item. */
  function ProductTerm(a: Profile, b: Profile): int -> real
  {
    item => Product(Dev(a, item), Dev(b, item))
  }

  /** pow(x, 2) on exact reals. */
  function Square(x: real): real
  {
    x * x
  }

  /** One user's denominator term of one common item. */
  function SquareTerm(p: Profile): int -> real
  {
    item => Square(Dev(p, item))
  }

  /** The numerator: the sum over the common items of the product of the
      two deviations. */
  ghost function Num(a: Profile, b: Profile): real
  {
    SetSum(Common(a, b), ProductTerm(a, b))
  }

  /** The first user's denominator term: squared deviations over the common items. */
  ghost function Den1(a: Profile, b: Profile): real
  {
    SetSum(Common(a, b), SquareTerm(a))
  }

  /** The second user's denominator term: squared deviations over the common items. */
  ghost function Den2(a: Profile, b: Profile): real
  {
    SetSum(Common(a, b), SquareTerm(b))
  }

  /** Both denominator terms are sums of squares, hence non-negative. */
  lemma DenNonNegative(a: Profile, b: Profile)
    ensures Den1(a, b) >= 0.0 && Den2(a, b) >= 0.0
    ensures Den1(a, b) * Den2(a, b) >= 0.0
  {
    SetSumNonNegative(Common(a, b), SquareTerm(a));
    SetSumNonNegative(Common(a, b), SquareTerm(b));
  }

  /** The value under the square root, from the two denominator terms. */
  function Stabilized(den1: real, den2: real): real
  {
    den1 * den2 + Epsilon
  }

  /** The value under the square root for two users. */
  ghost function UnderRoot(a: Profile, b: Profile): real
  {
    Stabilized(Den1(a, b), Den2(a, b))
  }

  /** The value under the square root is strictly positive, so the score is
      always defined, whatever the ratings. */
  lemma DenominatorPositive(a: Profile, b: Profile, root: real -> real)
    requires RootPositive(root)
    ensures UnderRoot(a, b) > 0.0
    ensures root(UnderRoot(a, b)) > 0.0
  {
    DenNonNegative(a, b);
  }

  /** The score: num / sqrt(den1 * den2 + epsilon). */
  ghost function Pcc(a: Profile, b: Profile, root: real -> real): real
    requires RootPositive(root)
  {
    DenominatorPositive(a, b, root);
    Num(a, b) / root(UnderRoot(a, b))
  }

  /** The overlap is the same seen from either user, and it is at most the
      number of items either user rated. */
  lemma OverlapSymmetric(a: Profile, b: Profile)
    ensures Common(a, b) == Common(b, a)
    ensures |Common(a, b)| == |Common(b, a)|
    ensures |Common(a, b)| <= |a.ratings| && |Common(a, b)| <= |b.ratings|
  {
    SubsetCardinality(Common(a, b), a.ratings.Keys);
    SubsetCardinality(Common(a, b), b.ratings.Keys);
    assert |a.ratings.Keys| == |a.ratings| && |b.ratings.Keys| == |b.ratings|;
  }

  /** The numerator and the product of the denominator terms do not depend
      on which user comes first. */
  lemma TermsSymmetric(a: Profile, b: Profile)
    ensures Num(a, b) == Num(b, a)
    ensures Den1(a, b) == Den2(b, a) && Den2(a, b) == Den1(b, a)
    ensures UnderRoot(a, b) == UnderRoot(b, a)
  {
    OverlapSymmetric(a, b);
    SetSumCongruent(Common(a, b), ProductTerm(a, b), ProductTerm(b, a));
  }

  /** The score is symmetric in the two users. */
  lemma PccSymmetric(a: Profile, b: Profile, root: real -> real)
    requires RootPositive(root)
    ensures Pcc(a, b, root) == Pcc(b, a, root)
  {
    TermsSymmetric(a, b);
  }

  /** With no common items the numerator is 0 and so is the score. */
  lemma NoOverlapZeroScore(a: Profile, b: Profile, root: real -> real)
    requires RootPositive(root)
    requires |Common(a, b)| == 0
    ensures Num(a, b) == 0.0 && Pcc(a, b, root) == 0.0
  {
  }

  /** The score has the sign of the numerator. */
  lemma PccSign(a: Profile, b: Profile, root: real -> real)
    requires RootPositive(root)
    ensures Pcc(a, b, root) > 0.0 <==> Num(a, b) > 0.0
    ensures Pcc(a, b, root) < 0.0 <==> Num(a, b) < 0.0
  {
    DenominatorPositive(a, b, root);
    QuotientSign(Num(a, b), root(UnderRoot(a, b)));
  }

  /** Dividing by a positive number keeps the sign. */
  lemma QuotientSign(n: real, d: real)
    requires d > 0.0
    ensures n / d > 0.0 <==> n > 0.0
    ensures n / d < 0.0 <==> n < 0.0
  {
  }

  /** The accumulation loop of ComputePCC, over the common items in whatever
      order the set yields them, with the three term functions as parameters:
      the numerator term and the two squared deviations. */
  method AccumulateTerms(items: set<int>, numTerm: int -> real, den1Term: int -> real, den2Term: int -> real)
    returns (num: real, den1: real, den2: real)
    ensures num == SetSum(items, numTerm)
    ensures den1 == SetSum(items, den1Term)
    ensures den2 == SetSum(items, den2Term)
  {
    num, den1, den2 := 0.0, 0.0, 0.0;
    var rest := items;
    ghost var visited: seq<int> := [];
    while rest != {}
      invariant rest <= items && Distinct(visited)
      invariant forall x :: x in visited <==> x in items && x !in rest
      invariant num == SeqSum(visited, numTerm)
      invariant den1 == SeqSum(visited, den1Term)
      invariant den2 == SeqSum(visited, den2Term)
      decreases |rest|
    {
      NonEmptyHasElement(rest);
      var item :| item in rest;
      assert (visited + [item])[..|visited|] == visited;
      num := num + numTerm(item);
      den1 := den1 + den1Term(item);
      den2 := den2 + den2Term(item);
      rest := rest - {item};
      visited := visited + [item];
    }
    SeqSumIsSetSum(visited, items, numTerm);
    SeqSumIsSetSum(visited, items, den1Term);
    SeqSumIsSetSum(visited, items, den2Term);
  }

  /** ComputePCC: intersect the key sets, accumulate the three sums over the
      common items, and divide. */
  method ComputePCC(a: Profile, b: Profile, root: real -> real) returns (pcc: real, ncommon: nat)
    requires RootPositive(root)
    ensures ncommon == |Common(a, b)|
    ensures pcc == Pcc(a, b, root)
  {
    var items := Common(a, b);
    ncommon := |items|;
    var num, den1, den2 := AccumulateTerms(items, ProductTerm(a, b), SquareTerm(a), SquareTerm(b));
    DenominatorPositive(a, b, root);
    pcc := num / root(Stabilized(den1, den2));
  }
}
