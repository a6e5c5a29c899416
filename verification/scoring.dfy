/**
 What a language-model score is made of. Each `score` method adds, per token,
 `math.log(factor * count)` and subtracts `math.log(den)`, where `factor` is
 1 or a power of the back-off discount and `count` and `den` are counts. The
 model keeps these three exactly and leaves the logarithm as a parameter.
 */
module Scoring {

  /** One contribution `log(factor * count) - log(den)` to a score. */
  datatype Term = Term(factor: real, count: nat, den: nat)

  /** The argument of the first logarithm. */
  function Num(t: Term): real
  {
    t.factor * t.count as real
  }

  /** The term log(count) - log(den) of two counts. */
  function Ratio(count: nat, den: nat): Term
  {
    Term(1.0, count, den)
  }

  /** A term whose numerator is multiplied by the discount f, as in `math.log(self.alpha * count)`. */
  function Scaled(f: real, t: Term): Term
  {
    t.(factor := f * t.factor)
  }

  /** The back-off discount `self.alpha` of the stupid-backoff and custom models. */
  const Alpha: real := 0.4

  /** `self.alpha * self.alpha`, the custom model's discount for falling back twice. */
  const AlphaSquared: real := 0.16

  /** Both logarithm arguments are positive and the factor `num / den` is at most `bound`. */
  predicate Within(t: Term, bound: real)
  {
    0.0 < t.factor && 0 < t.count && 0 < t.den && Num(t) <= bound * t.den as real
  }

  /** The score as the source accumulates it, starting from 0.0, for a given logarithm. */
  function LogScore(terms: seq<Term>, log: real -> real): real
    decreases |terms|
  {
    if |terms| == 0 then 0.0
    else
      var last := terms[|terms| - 1];
      LogScore(terms[..|terms| - 1], log) + log(Num(last)) - log(last.den as real)
  }

  ghost predicate Monotone(log: real -> real)
  {
    forall x: real, y: real :: 0.0 < x <= y ==> log(x) <= log(y)
  }

  /** When every factor is at most 1, the score is at most 0 under any increasing logarithm. */
  lemma {:induction false} LogScoreNonPositive(terms: seq<Term>, log: real -> real)
    requires Monotone(log)
    requires forall i :: 0 <= i < |terms| ==> Within(terms[i], 1.0)
    ensures LogScore(terms, log) <= 0.0
    decreases |terms|
  {
    if |terms| > 0 {
      LogScoreNonPositive(terms[..|terms| - 1], log);
      var last := terms[|terms| - 1];
      assert Within(last, 1.0);
      assert 0.0 < Num(last) <= last.den as real;
    }
  }

  ghost predicate StrictlyMonotone(log: real -> real)
  {
    forall x: real, y: real :: 0.0 < x < y ==> log(x) < log(y)
  }

  /** The same numerators over denominators at least as large: the score is no larger. */
  lemma {:induction false} LogScoreAtMost(terms: seq<Term>, terms': seq<Term>, log: real -> real)
    requires StrictlyMonotone(log)
    requires |terms'| == |terms|
    requires forall i :: 0 <= i < |terms| ==> Num(terms'[i]) == Num(terms[i]) && 0 < terms[i].den <= terms'[i].den
    ensures LogScore(terms', log) <= LogScore(terms, log)
    decreases |terms|
  {
    if |terms| > 0 {
      var n := |terms| - 1;
      var d, d' := terms[n].den as real, terms'[n].den as real;
      assert LogScore(terms'[..n], log) <= LogScore(terms[..n], log) by {
        PrefixAtMost(terms, terms', n);
        LogScoreAtMost(terms[..n], terms'[..n], log);
      }
      assert log(d) <= log(d') by {
        assert 0.0 < d <= d';
      }
    }
  }

  /** If, besides, denominator k is strictly larger, the score is strictly smaller. */
  lemma {:induction false} LogScoreBelow(terms: seq<Term>, terms': seq<Term>, log: real -> real, k: nat)
    requires StrictlyMonotone(log)
    requires |terms'| == |terms| && k < |terms|
    requires forall i :: 0 <= i < |terms| ==> Num(terms'[i]) == Num(terms[i]) && 0 < terms[i].den <= terms'[i].den
    requires terms[k].den < terms'[k].den
    ensures LogScore(terms', log) < LogScore(terms, log)
    decreases |terms|
  {
    var n := |terms| - 1;
    var d, d' := terms[n].den as real, terms'[n].den as real;
    PrefixAtMost(terms, terms', n);
    if k == n {
      assert LogScore(terms'[..n], log) <= LogScore(terms[..n], log) by {
        LogScoreAtMost(terms[..n], terms'[..n], log);
      }
      assert log(d) < log(d') by {
        assert 0.0 < d < d';
      }
    } else {
      assert LogScore(terms'[..n], log) < LogScore(terms[..n], log) by {
        assert terms[..n][k] == terms[k] && terms'[..n][k] == terms'[k];
        LogScoreBelow(terms[..n], terms'[..n], log, k);
      }
      assert log(d) <= log(d') by {
        assert 0.0 < d <= d';
      }
    }
  }

  /** The pointwise comparison of two term lists holds for their prefixes of length n. */
  lemma PrefixAtMost(terms: seq<Term>, terms': seq<Term>, n: nat)
    requires |terms'| == |terms| && n <= |terms|
    requires forall i :: 0 <= i < |terms| ==> Num(terms'[i]) == Num(terms[i]) && 0 < terms[i].den <= terms'[i].den
    ensures forall i :: 0 <= i < n ==> Num(terms'[..n][i]) == Num(terms[..n][i]) && 0 < terms[..n][i].den <= terms'[..n][i].den
  {
  }

  /** Discounting a term whose factor is at most 1 by a positive f bounds its factor by f. */
  lemma ScaledWithin(f: real, t: Term)
    requires 0.0 < f
    requires Within(t, 1.0)
    ensures Within(Scaled(f, t), f)
  {
    assert Num(Scaled(f, t)) == f * Num(t);
  }

  /** A factor bounded by b is bounded by any larger b'. */
  lemma WithinWeaken(t: Term, b: real, b': real)
    requires Within(t, b) && b <= b'
    ensures Within(t, b')
  {
    assert b * t.den as real <= b' * t.den as real;
  }

  /** Alpha and its square are positive factor bounds no larger than 1. */
  lemma AlphaBounds()
    ensures AlphaSquared == Alpha * Alpha
    ensures 0.0 < AlphaSquared <= Alpha <= 1.0
  {
  }
}
