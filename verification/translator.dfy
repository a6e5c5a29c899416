/**
 The two pure helpers of the translator script: `directTranslate`, a
 word-by-word dictionary lookup, and `computeBLEU`, a simplified BLEU. For
 each order i in 1..n it counts the candidate's i-grams (words joined by a
 space) that are credited against the space-joined reference, clipping
 repeated i-grams by their number of occurrences there, and multiplies the
 precisions `credited / (len(candidate) + 1 - i)` into the length factor
 `min(1, len(candidate) / len(reference))`. Matching is on the joined
 reference STRING: `in` is substring membership and `count` counts
 non-overlapping substring occurrences.
 */
module Translator {
  import opened Results
  import opened Counts
  import opened Strings

  /** Spanish word to English word. */
  type Dictionary = map<string, string>

  /** The translation of one word: its dictionary entry, or the word itself when it has none. */
  function TranslateWord(d: Dictionary, w: string): string
  {
    if w in d then d[w] else w
  }

  /**
   `directTranslate`: one translated sentence per input sentence, word by
   word; with an empty dictionary, the sentences themselves.
   */
  method DirectTranslate(sentences: seq<seq<string>>, d: Dictionary) returns (translations: seq<seq<string>>)
    ensures |translations| == |sentences|
    ensures forall k :: 0 <= k < |sentences| ==> |translations[k]| == |sentences[k]|
    ensures forall k, j :: 0 <= k < |sentences| && 0 <= j < |sentences[k]| ==>
              translations[k][j] == TranslateWord(d, sentences[k][j])
    ensures d == map[] ==> translations == sentences
  {
    translations := [];
    for k := 0 to |sentences|
      invariant |translations| == k
      invariant forall k' :: 0 <= k' < k ==> |translations[k']| == |sentences[k']|
      invariant forall k', j :: 0 <= k' < k && 0 <= j < |sentences[k']| ==>
                  translations[k'][j] == TranslateWord(d, sentences[k'][j])
    {
      var sentence := sentences[k];
      var translated: seq<string> := [];
      for j := 0 to |sentence|
        invariant |translated| == j
        invariant forall j' :: 0 <= j' < j ==> translated[j'] == TranslateWord(d, sentence[j'])
      {
        if sentence[j] in d {
          translated := translated + [d[sentence[j]]];
        } else {
          translated := translated + [sentence[j]];
        }
      }
      translations := translations + [translated];
    }
    if d == map[] {
      forall k | 0 <= k < |sentences|
        ensures translations[k] == sentences[k]
      {
        assert forall j :: 0 <= j < |sentences[k]| ==> translations[k][j] == sentences[k][j];
      }
    }
  }

  /** The separator of `' '.join`. */
  const Space: string := " "

  /** The candidate's i-grams, `' '.join(translation[pos:pos+i])` for every start position. */
  function Grams(cand: seq<string>, i: nat): (r: seq<string>)
    requires 1 <= i <= |cand| + 1
    ensures |r| == |cand| + 1 - i
  {
    seq(|cand| + 1 - i, pos requires 0 <= pos < |cand| + 1 - i => Join(cand[pos..pos + i], Space))
  }

  /** The clipping loop's state: the dictionary `matches` and the float `ref_count`. */
  datatype Clip = Clip(matches: map<string, nat>, refCount: nat)

  /** One iteration of the clipping loop on the i-gram `gram`. */
  function ClipStep(st: Clip, gram: string, refText: string): Clip
  {
    if gram in st.matches then
      var k := st.matches[gram] + 1;
      Clip(st.matches[gram := k], if Count(refText, gram) >= k then st.refCount + 1 else st.refCount)
    else if Contains(refText, gram) then
      Clip(st.matches[gram := 1], st.refCount + 1)
    else st
  }

  /** The clipping loop over the first n i-grams, starting from empty `matches` and zero `ref_count`. */
  function ClipLoop(grams: seq<string>, refText: string, n: nat): Clip
    requires n <= |grams|
  {
    if n == 0 then Clip(map[], 0) else ClipStep(ClipLoop(grams, refText, n - 1), grams[n - 1], refText)
  }

  /** Which occurrence of its i-gram position pos is: 1 for the first, 2 for the second, and so on. */
  function Occurrence<G(==)>(grams: seq<G>, pos: nat): nat
    requires pos < |grams|
  {
    multiset(grams[..pos + 1])[grams[pos]]
  }

  /** The reference account of clipping: the k-th occurrence of an i-gram is credited iff the reference holds it at least k times. */
  predicate Credited(grams: seq<string>, refText: string, pos: nat)
    requires pos < |grams|
  {
    Occurrence(grams, pos) <= Count(refText, grams[pos])
  }

  /** The number of credited positions among the first n. */
  function CreditedUpTo(grams: seq<string>, refText: string, n: nat): nat
    requires n <= |grams|
  {
    if n == 0 then 0 else CreditedUpTo(grams, refText, n - 1) + (if Credited(grams, refText, n - 1) then 1 else 0)
  }

  /** The number of credited positions among the first n that hold the i-gram g. */
  function CreditedOf(grams: seq<string>, refText: string, g: string, n: nat): nat
    requires n <= |grams|
  {
    if n == 0 then 0
    else CreditedOf(grams, refText, g, n - 1) + (if grams[n - 1] == g && Credited(grams, refText, n - 1) then 1 else 0)
  }

  /** The loop state after n iterations: `matches` counts exactly the seen i-grams found in the reference. */
  ghost predicate ClipState(grams: seq<string>, refText: string, n: nat, st: Clip)
    requires n <= |grams|
  {
    && (forall g :: g in st.matches <==> g in multiset(grams[..n]) && Contains(refText, g))
    && (forall g :: g in st.matches ==> st.matches[g] == multiset(grams[..n])[g])
    && st.refCount == CreditedUpTo(grams, refText, n)
  }

  /** One iteration keeps `ClipState`. */
  lemma ClipStepState(grams: seq<string>, refText: string, n: nat, st: Clip)
    requires n < |grams| && ClipState(grams, refText, n, st)
    ensures ClipState(grams, refText, n + 1, ClipStep(st, grams[n], refText))
  {
    var g := grams[n];
    var seen := multiset(grams[..n]);
    assert multiset(grams[..n + 1]) == seen + multiset{g} by {
      assert grams[..n + 1][..n] == grams[..n];
      ElemsLast(grams[..n + 1]);
    }
    assert Occurrence(grams, n) == seen[g] + 1;
    assert Contains(refText, g) <==> Count(refText, g) >= 1 by {
      ContainsIffCount(refText, g);
    }
    var next := ClipStep(st, g, refText);
    assert next.refCount == CreditedUpTo(grams, refText, n + 1);
    forall h
      ensures h in next.matches <==> h in seen + multiset{g} && Contains(refText, h)
    {
    }
    forall h | h in next.matches
      ensures next.matches[h] == (seen + multiset{g})[h]
    {
    }
  }

  /** The clipping loop computes the reference count of credited positions. */
  lemma {:induction false} ClipLoopState(grams: seq<string>, refText: string, n: nat)
    requires n <= |grams|
    ensures ClipState(grams, refText, n, ClipLoop(grams, refText, n))
    ensures ClipLoop(grams, refText, n).refCount == CreditedUpTo(grams, refText, n)
  {
    if n > 0 {
      var st := ClipLoop(grams, refText, n - 1);
      var next := ClipStep(st, grams[n - 1], refText);
      assert ClipLoop(grams, refText, n) == next;
      assert ClipState(grams, refText, n, next) by {
        ClipLoopState(grams, refText, n - 1);
        ClipStepState(grams, refText, n - 1, st);
      }
      assert next.refCount == CreditedUpTo(grams, refText, n);
    }
  }

  /**
   Clipping per i-gram: among the first n positions, an i-gram g occurring k
   times is credited min(k, count of g in the reference) times.
   */
  lemma {:induction false} CreditedOfMin(grams: seq<string>, refText: string, g: string, n: nat)
    requires n <= |grams|
    ensures CreditedOf(grams, refText, g, n) == Min(multiset(grams[..n])[g], Count(refText, g))
  {
    if n > 0 {
      CreditedOfMin(grams, refText, g, n - 1);
      assert grams[..n][..n - 1] == grams[..n - 1];
      ElemsLast(grams[..n]);
    }
  }

  /**
   A candidate word that is also a word of the reference passes the unigram
   `in` test against the joined reference, so its first occurrence is always credited.
   */
  lemma ReferenceWordCredited(cand: seq<string>, reference: seq<string>, pos: nat, k: nat)
    requires pos < |cand| && k < |reference| && cand[pos] == reference[k]
    ensures Contains(Join(reference, Space), Grams(cand, 1)[pos])
    ensures Occurrence(Grams(cand, 1), pos) == 1 ==> Credited(Grams(cand, 1), Join(reference, Space), pos)
  {
    var grams := Grams(cand, 1);
    var refText := Join(reference, Space);
    assert grams[pos] == cand[pos] by {
      assert cand[pos..pos + 1] == [cand[pos]];
    }
    JoinContainsWords(reference, Space, k);
    ContainsIffCount(refText, grams[pos]);
  }

  function Min(a: nat, b: nat): nat
  {
    if a <= b then a else b
  }

  /** No more positions are credited than there are. */
  lemma {:induction false} CreditedAtMost(grams: seq<string>, refText: string, n: nat)
    requires n <= |grams|
    ensures CreditedUpTo(grams, refText, n) <= n
  {
    if n > 0 {
      CreditedAtMost(grams, refText, n - 1);
    }
  }

  /**
   How an i-gram of the candidate is matched against the reference: as the
   source does, as a substring of the space-joined reference; or, as BLEU
   intends, as one of the reference's own i-grams of words.
   */
  datatype Matching = Substrings | WordGrams

  /** The i-grams of a word sequence as word tuples; none when it is shorter than i. */
  function WordGramsOf(ws: seq<string>, i: nat): (r: seq<seq<string>>)
    requires 1 <= i
    ensures i <= |ws| + 1 ==> |r| == |ws| + 1 - i
  {
    if |ws| + 1 < i then []
    else seq(|ws| + 1 - i, pos requires 0 <= pos < |ws| + 1 - i => ws[pos..pos + i])
  }

  /** Word-level clipping: the k-th occurrence of an i-gram is credited iff the reference has it among its i-grams at least k times. */
  function WordCreditedUpTo(grams: seq<seq<string>>, refGrams: multiset<seq<string>>, n: nat): nat
    requires n <= |grams|
  {
    if n == 0 then 0
    else WordCreditedUpTo(grams, refGrams, n - 1) + (if Occurrence(grams, n - 1) <= refGrams[grams[n - 1]] then 1 else 0)
  }

  /** The number of credited i-grams of order i under the given matching. */
  function CreditedAt(m: Matching, cand: seq<string>, reference: seq<string>, i: nat): nat
    requires 1 <= i <= |cand|
  {
    match m
    case Substrings => ClipLoop(Grams(cand, i), Join(reference, Space), |cand| + 1 - i).refCount
    case WordGrams => WordCreditedUpTo(WordGramsOf(cand, i), multiset(WordGramsOf(reference, i)), |cand| + 1 - i)
  }

  /** Under either matching, no more i-grams are credited than the candidate has. */
  lemma CreditedAtBounded(m: Matching, cand: seq<string>, reference: seq<string>, i: nat)
    requires 1 <= i <= |cand|
    ensures CreditedAt(m, cand, reference, i) <= |cand| + 1 - i
  {
    var nGramCount := |cand| + 1 - i;
    match m
    case Substrings =>
      ClipLoopState(Grams(cand, i), Join(reference, Space), nGramCount);
      CreditedAtMost(Grams(cand, i), Join(reference, Space), nGramCount);
    case WordGrams =>
      WordCreditedAtMost(WordGramsOf(cand, i), multiset(WordGramsOf(reference, i)), nGramCount);
  }

  lemma {:induction false} WordCreditedAtMost(grams: seq<seq<string>>, refGrams: multiset<seq<string>>, n: nat)
    requires n <= |grams|
    ensures WordCreditedUpTo(grams, refGrams, n) <= n
  {
    if n > 0 {
      WordCreditedAtMost(grams, refGrams, n - 1);
    }
  }

  /** The precision of order i: the credited i-grams over `n_gram_count`, the number of i-grams of the candidate. */
  function Precision(m: Matching, cand: seq<string>, reference: seq<string>, i: nat): real
    requires 1 <= i <= |cand|
  {
    Fraction(CreditedAt(m, cand, reference, i), |cand| + 1 - i)
  }

  /** `x / y` in floating point, kept exact. */
  function Fraction(x: nat, y: nat): real
    requires 0 < y
  {
    x as real / y as real
  }

  /** A precision lies in [0, 1]. */
  lemma PrecisionBounded(m: Matching, cand: seq<string>, reference: seq<string>, i: nat)
    requires 1 <= i <= |cand|
    ensures 0.0 <= Precision(m, cand, reference, i) <= 1.0
  {
    CreditedAtBounded(m, cand, reference, i);
    FractionBounded(CreditedAt(m, cand, reference, i), |cand| + 1 - i);
  }

  /** x / y lies in [0, 1] when 0 <= x <= y. */
  lemma FractionBounded(x: nat, y: nat)
    requires 0 < y && x <= y
    ensures 0.0 <= Fraction(x, y) <= 1.0
  {
    var q := x as real / y as real;
    assert q * y as real == x as real;
  }

  /** `min(1.0, float(len(sentence)) / float(len(reference)))`. */
  function LengthFactor(candLen: nat, refLen: nat): (r: real)
    requires refLen > 0
    ensures 0.0 <= r <= 1.0
  {
    var ratio := candLen as real / refLen as real;
    if ratio < 1.0 then ratio else 1.0
  }

  /** The precisions of the orders 1..len(candidate), order k + 1 at index k. */
  function Precisions(m: Matching, cand: seq<string>, reference: seq<string>): (ps: seq<real>)
    ensures |ps| == |cand|
  {
    seq(|cand|, k requires 0 <= k < |cand| => Precision(m, cand, reference, k + 1))
  }

  /** Every precision lies in [0, 1]. */
  lemma PrecisionsBounded(m: Matching, cand: seq<string>, reference: seq<string>)
    ensures forall k :: 0 <= k < |cand| ==> 0.0 <= Precisions(m, cand, reference)[k] <= 1.0
  {
    forall k | 0 <= k < |cand|
      ensures 0.0 <= Precisions(m, cand, reference)[k] <= 1.0
    {
      PrecisionBounded(m, cand, reference, k + 1);
    }
  }

  /**
   The loop over orders i..n, multiplying the precision `ps[i - 1]` of each
   order into `score`. At the order i = len(candidate) + 1, `n_gram_count`
   is 0 and the division raises ZeroDivisionError; a lower order divides by
   a positive count.
   */
  function Orders(ps: seq<real>, score: real, i: nat, n: int): (r: Result<real>)
    requires 1 <= i <= |ps| + 1
    ensures r.Err? <==> |ps| < n
    ensures r.Err? ==> r.error == ZeroDivisionError
    decreases n + 1 - i
  {
    if i > n then Ok(score)
    else if i == |ps| + 1 then Err(ZeroDivisionError)
    else Orders(ps, score * ps[i - 1], i + 1, n)
  }

  /** A product of two factors in [0, 1] lies in [0, 1]. */
  lemma ProductBounded(a: real, b: real)
    requires 0.0 <= a <= 1.0 && 0.0 <= b <= 1.0
    ensures 0.0 <= a * b <= 1.0
  {
    if a != 0.0 && b != 0.0 {
      assert 0.0 < a * b;
    }
    if a * b > 1.0 {
      assert a * b <= a * 1.0;
    }
  }

  /** Multiplying in factors from [0, 1] keeps the score in [0, 1]. */
  lemma {:induction false} OrdersBounded(ps: seq<real>, score: real, i: nat, n: int)
    requires 1 <= i <= |ps| + 1
    requires forall k :: 0 <= k < |ps| ==> 0.0 <= ps[k] <= 1.0
    requires 0.0 <= score <= 1.0
    ensures Orders(ps, score, i, n).Ok? ==> 0.0 <= Orders(ps, score, i, n).value <= 1.0
    decreases n + 1 - i
  {
    if i <= n && i <= |ps| {
      ProductBounded(score, ps[i - 1]);
      OrdersBounded(ps, score * ps[i - 1], i + 1, n);
    }
  }

  /** Orders of precision 1 leave a score of 1 unchanged. */
  lemma {:induction false} OrdersOfOnes(ps: seq<real>, i: nat, n: int)
    requires 1 <= i <= |ps| + 1 && n <= |ps|
    requires forall k :: 0 <= k < |ps| ==> ps[k] == 1.0
    ensures Orders(ps, 1.0, i, n) == Ok(1.0)
    decreases n + 1 - i
  {
    if i <= n {
      OrdersOfOnes(ps, i + 1, n);
    }
  }

  /**
   The score of one candidate against its reference. An empty reference
   raises ZeroDivisionError at the length factor; so does a candidate
   shorter than n, at the order len(candidate) + 1.
   */
  function Bleu(m: Matching, cand: seq<string>, reference: seq<string>, n: int): (r: Result<real>)
    ensures r.Err? <==> |reference| == 0 || |cand| < n
    ensures r.Err? ==> r.error == ZeroDivisionError
  {
    if |reference| == 0 then Err(ZeroDivisionError)
    else Orders(Precisions(m, cand, reference), LengthFactor(|cand|, |reference|), 1, n)
  }

  /** Every score lies in [0, 1]. */
  lemma BleuBounded(m: Matching, cand: seq<string>, reference: seq<string>, n: int)
    ensures Bleu(m, cand, reference, n).Ok? ==> 0.0 <= Bleu(m, cand, reference, n).value <= 1.0
  {
    if |reference| > 0 {
      PrecisionsBounded(m, cand, reference);
      OrdersBounded(Precisions(m, cand, reference), LengthFactor(|cand|, |reference|), 1, n);
    }
  }

  /** Translation k makes `computeBLEU` raise: its reference is missing, or its score divides by zero. */
  predicate Fails(translations: seq<seq<string>>, references: seq<seq<string>>, n: int, k: nat)
    requires k < |translations|
  {
    k >= |references| || Bleu(Substrings, translations[k], references[k], n).Err?
  }

  /** The exception translation k raises when it fails. */
  function ErrorAt(references: seq<seq<string>>, k: nat): Error
  {
    if k >= |references| then IndexError else ZeroDivisionError
  }

  /**
   `computeBLEU`: one score per translation, in order, each in [0, 1]; or
   the exception of the first translation that fails.
   */
  method ComputeBleu(translations: seq<seq<string>>, references: seq<seq<string>>, n: int) returns (r: Result<seq<real>>)
    ensures r.Ok? <==> forall k :: 0 <= k < |translations| ==> !Fails(translations, references, n, k)
    ensures r.Ok? ==> |r.value| == |translations|
    ensures r.Ok? ==> forall k :: 0 <= k < |translations| ==>
              k < |references| && Bleu(Substrings, translations[k], references[k], n) == Ok(r.value[k])
    ensures r.Ok? ==> forall k :: 0 <= k < |r.value| ==> 0.0 <= r.value[k] <= 1.0
    ensures r.Err? ==> (exists k :: 0 <= k < |translations| && Fails(translations, references, n, k) &&
                         (forall j :: 0 <= j < k ==> !Fails(translations, references, n, j)) &&
                         r.error == ErrorAt(references, k))
  {
    var scores: seq<real> := [];
    for idx := 0 to |translations|
      invariant |scores| == idx
      invariant forall k :: 0 <= k < idx ==> !Fails(translations, references, n, k)
      invariant forall k :: 0 <= k < idx ==>
                  k < |references| && Bleu(Substrings, translations[k], references[k], n) == Ok(scores[k])
      invariant forall k :: 0 <= k < idx ==> 0.0 <= scores[k] <= 1.0
    {
      if idx >= |references| {
        assert Fails(translations, references, n, idx);
        return Err(IndexError);
      }
      var score := Bleu(Substrings, translations[idx], references[idx], n);
      if score.Err? {
        assert Fails(translations, references, n, idx);
        return Err(score.error);
      }
      BleuBounded(Substrings, translations[idx], references[idx], n);
      scores := scores + [score.value];
    }
    return Ok(scores);
  }

  /** The precision of an order whose every i-gram is credited. */
  lemma FullPrecision(m: Matching, cand: seq<string>, reference: seq<string>, i: nat)
    requires 1 <= i <= |cand|
    requires CreditedAt(m, cand, reference, i) == |cand| + 1 - i
    ensures Precision(m, cand, reference, i) == 1.0
  {
    FractionOne(|cand| + 1 - i);
  }

  /** `x / x` is 1. */
  lemma FractionOne(c: nat)
    requires 0 < c
    ensures Fraction(c, c) == 1.0
  {
    var q := Fraction(c, c);
    assert q * c as real == c as real;
    assert (q - 1.0) * c as real == 0.0;
  }

  /** "a" is a substring of "cat". */
  lemma CatCreditsA()
    ensures CreditedAt(Substrings, ["a"], ["cat"], 1) == 1
  {
    var refText := Join(["cat"], Space);
    var grams := Grams(["a"], 1);
    CatContainsA();
    assert grams == ["a"] by {
      assert ["a"][0..1] == ["a"];
    }
    assert ClipLoop(grams, refText, 1) == ClipStep(Clip(map[], 0), "a", refText);
  }

  /** `"a" in ' '.join(["cat"])`. */
  lemma CatContainsA()
    ensures Contains(Join(["cat"], Space), "a")
  {
    var t := Join(["cat"], Space);
    assert t == "cat";
    assert t[1..2] == "a";
    assert IsAt(t, "a", 1);
  }

  /** ["a"] is not a word unigram of ["cat"]. */
  lemma CatLacksA()
    ensures CreditedAt(WordGrams, ["a"], ["cat"], 1) == 0
  {
    var cand := WordGramsOf(["a"], 1);
    assert cand == [["a"]] by {
      assert cand[0] == ["a"][0..1];
      assert ["a"][0..1] == ["a"];
    }
    var ref := WordGramsOf(["cat"], 1);
    assert ref == [["cat"]] by {
      assert ref[0] == ["cat"][0..1];
      assert ["cat"][0..1] == ["cat"];
    }
    assert multiset(ref)[["a"]] == 0 by {
      assert "a" != "cat";
      assert multiset(ref) == multiset{["cat"]};
    }
    assert Occurrence(cand, 0) == 1 by {
      assert cand[..1] == cand;
    }
    assert WordCreditedUpTo(cand, multiset(ref), 1) == 0;
  }

  /**
   As written, a candidate word is credited when it occurs anywhere inside
   the joined reference, even within another word: "a" against "cat"
   scores a perfect 1.0; matching word i-grams, it scores 0.0.
   */
  lemma SubstringCredit()
    ensures Bleu(Substrings, ["a"], ["cat"], 1) == Ok(1.0)
    ensures Bleu(WordGrams, ["a"], ["cat"], 1) == Ok(0.0)
  {
    assert LengthFactor(1, 1) == 1.0;
    var asWritten := Precisions(Substrings, ["a"], ["cat"]);
    assert asWritten[0] == 1.0 by {
      CatCreditsA();
      FullPrecision(Substrings, ["a"], ["cat"], 1);
    }
    assert Orders(asWritten, 1.0, 1, 1) == Orders(asWritten, 1.0 * 1.0, 2, 1);
    var intended := Precisions(WordGrams, ["a"], ["cat"]);
    assert intended[0] == 0.0 by {
      CatLacksA();
    }
    assert Orders(intended, 1.0, 1, 1) == Orders(intended, 1.0 * 0.0, 2, 1);
  }

  /** `' '.join(["a", "a", "a"])` is "a a a". */
  lemma JoinThree()
    ensures Join(["a", "a", "a"], Space) == "a a a"
  {
    var ws := ["a", "a", "a"];
    assert ws[..2] == ["a", "a"];
    assert ["a", "a"][..1] == ["a"];
  }

  /** `"a a a".count("a")` is 3. */
  lemma CountSingles()
    ensures Count("a a a", "a") == 3
  {
    var t := "a a a";
    assert CountFrom(t, "a", 5) == 0;
    assert CountFrom(t, "a", 4) == 1 by {
      assert IsAt(t, "a", 4);
    }
    assert CountFrom(t, "a", 3) == 1 by {
      assert t[3..4] == " ";
      assert !IsAt(t, "a", 3);
    }
    assert CountFrom(t, "a", 2) == 2 by {
      assert IsAt(t, "a", 2);
    }
    assert CountFrom(t, "a", 1) == 2 by {
      assert t[1..2] == " ";
      assert !IsAt(t, "a", 1);
    }
    assert CountFrom(t, "a", 0) == 3 by {
      assert IsAt(t, "a", 0);
    }
  }

  /** `"a a a".count("a a")` is 1: the scan resumes after the first match, at the last "a". */
  lemma CountPairs()
    ensures Count("a a a", "a a") == 1
  {
    var t := "a a a";
    assert CountFrom(t, "a a", 3) == 0;
    assert IsAt(t, "a a", 0);
  }

  /** All three unigrams of "a a a" are credited against itself. */
  lemma UnigramsCredited()
    ensures CreditedAt(Substrings, ["a", "a", "a"], ["a", "a", "a"], 1) == 3
  {
    var ws := ["a", "a", "a"];
    var t := "a a a";
    assert Join(ws, Space) == t by {
      JoinThree();
    }
    assert Grams(ws, 1) == ws by {
      assert ws[0..1] == ["a"] && ws[1..2] == ["a"] && ws[2..3] == ["a"];
    }
    assert Count(t, "a") == 3 by {
      CountSingles();
    }
    assert Contains(t, "a") by {
      assert IsAt(t, "a", 0);
    }
    var s1 := ClipStep(Clip(map[], 0), "a", t);
    assert s1.refCount == 1 && "a" in s1.matches && s1.matches["a"] == 1;
    var s2 := ClipStep(s1, "a", t);
    assert s2.refCount == 2 && "a" in s2.matches && s2.matches["a"] == 2;
    var s3 := ClipStep(s2, "a", t);
    assert s3.refCount == 3;
    assert ClipLoop(ws, t, 1) == s1;
    assert ClipLoop(ws, t, 2) == s2;
    assert ClipLoop(ws, t, 3) == s3;
  }

  /** Only one of the two bigrams "a a" of "a a a" is credited against itself. */
  lemma BigramsHalved()
    ensures CreditedAt(Substrings, ["a", "a", "a"], ["a", "a", "a"], 2) == 1
  {
    var ws := ["a", "a", "a"];
    var t := "a a a";
    var gs := ["a a", "a a"];
    JoinThree();
    assert Join(["a", "a"], Space) == "a a" by {
      assert ["a", "a"][..1] == ["a"];
    }
    assert Grams(ws, 2) == gs by {
      assert ws[0..2] == ["a", "a"] && ws[1..3] == ["a", "a"];
    }
    CountPairs();
    assert IsAt(t, "a a", 0);
    assert ClipLoop(gs, t, 1) == Clip(map["a a" := 1], 1);
  }

  /**
   As written, `count` finds non-overlapping substrings, so "a a" occurs
   once in "a a a": a translation identical to its reference scores 0.5 at
   n = 2.
   */
  lemma IdenticalHalved()
    ensures Bleu(Substrings, ["a", "a", "a"], ["a", "a", "a"], 2) == Ok(0.5)
  {
    var ws := ["a", "a", "a"];
    var ps := Precisions(Substrings, ws, ws);
    assert ps[0] == 1.0 by {
      UnigramsCredited();
      FullPrecision(Substrings, ws, ws, 1);
    }
    assert ps[1] == 0.5 by {
      BigramsHalved();
    }
    assert LengthFactor(3, 3) == 1.0;
    assert Orders(ps, 1.0, 1, 2) == Orders(ps, 1.0 * 1.0, 2, 2);
    assert Orders(ps, 1.0, 2, 2) == Orders(ps, 1.0 * 0.5, 3, 2);
  }

  /** An occurrence's rank is at most the gram's count in the whole sequence. */
  lemma OccurrenceAtMost<G>(grams: seq<G>, pos: nat)
    requires pos < |grams|
    ensures Occurrence(grams, pos) <= multiset(grams)[grams[pos]]
  {
    assert grams == grams[..pos + 1] + grams[pos + 1..];
  }

  /** Against its own word i-grams, every position of a sequence is credited. */
  lemma {:induction false} SelfCredited(grams: seq<seq<string>>, n: nat)
    requires n <= |grams|
    ensures WordCreditedUpTo(grams, multiset(grams), n) == n
  {
    if n > 0 {
      SelfCredited(grams, n - 1);
      OccurrenceAtMost(grams, n - 1);
    }
  }

  /** With word-level matching, every order of a translation identical to its reference has precision 1. */
  lemma IdenticalPrecisions(ws: seq<string>)
    ensures forall k :: 0 <= k < |ws| ==> Precisions(WordGrams, ws, ws)[k] == 1.0
  {
    forall k | 0 <= k < |ws|
      ensures Precisions(WordGrams, ws, ws)[k] == 1.0
    {
      IdenticalPrecision(ws, k + 1);
    }
  }

  lemma IdenticalPrecision(ws: seq<string>, i: nat)
    requires 1 <= i <= |ws|
    ensures Precision(WordGrams, ws, ws, i) == 1.0
  {
    assert CreditedAt(WordGrams, ws, ws, i) == |ws| + 1 - i by {
      SelfCredited(WordGramsOf(ws, i), |ws| + 1 - i);
    }
    FullPrecision(WordGrams, ws, ws, i);
  }

  /** With word-level matching, a non-empty translation identical to its reference scores 1.0 for every n it is long enough for. */
  lemma IdenticalScoresOne(ws: seq<string>, n: int)
    requires 0 < |ws| && n <= |ws|
    ensures Bleu(WordGrams, ws, ws, n) == Ok(1.0)
  {
    assert LengthFactor(|ws|, |ws|) == 1.0;
    IdenticalPrecisions(ws);
    OrdersOfOnes(Precisions(WordGrams, ws, ws), 1, n);
  }

  /** The unigrams of a word sequence are its words, one per position. */
  lemma WordUnigrams(ws: seq<string>)
    ensures forall k :: 0 <= k < |ws| ==> WordGramsOf(ws, 1)[k] == [ws[k]]
  {
    forall k | 0 <= k < |ws|
      ensures WordGramsOf(ws, 1)[k] == [ws[k]]
    {
      assert ws[k..k + 1] == [ws[k]];
    }
  }

  /** A position whose i-gram is absent from the reference is never credited. */
  lemma {:induction false} NoneCredited(grams: seq<seq<string>>, refGrams: multiset<seq<string>>, n: nat)
    requires n <= |grams|
    requires forall k :: 0 <= k < n ==> refGrams[grams[k]] == 0
    ensures WordCreditedUpTo(grams, refGrams, n) == 0
  {
    if n > 0 {
      NoneCredited(grams, refGrams, n - 1);
      assert grams[..n][n - 1] == grams[n - 1];
      assert Occurrence(grams, n - 1) >= 1;
    }
  }

  /** A score of 0 stays 0 through the remaining orders. */
  lemma {:induction false} OrdersOfZero(ps: seq<real>, i: nat, n: int)
    requires 1 <= i <= |ps| + 1 && n <= |ps|
    ensures Orders(ps, 0.0, i, n) == Ok(0.0)
    decreases n + 1 - i
  {
    if i <= n {
      OrdersOfZero(ps, i + 1, n);
    }
  }

  /** A word absent from a sequence is not one of its unigrams. */
  lemma AbsentUnigram(ws: seq<string>, w: string)
    requires w !in ws
    ensures multiset(WordGramsOf(ws, 1))[[w]] == 0
  {
    WordUnigrams(ws);
  }

  /** With word-level matching, no unigram of a candidate sharing no word with its reference is credited. */
  lemma DisjointUnigrams(cand: seq<string>, reference: seq<string>)
    requires 0 < |cand|
    requires forall w :: w in cand ==> w !in reference
    ensures Precision(WordGrams, cand, reference, 1) == 0.0
  {
    var grams := WordGramsOf(cand, 1);
    WordUnigrams(cand);
    forall k | 0 <= k < |cand|
      ensures multiset(WordGramsOf(reference, 1))[grams[k]] == 0
    {
      AbsentUnigram(reference, cand[k]);
    }
    NoneCredited(grams, multiset(WordGramsOf(reference, 1)), |cand|);
  }

  /** With word-level matching, a candidate sharing no word with its reference scores 0.0. */
  lemma DisjointScoresZero(cand: seq<string>, reference: seq<string>, n: int)
    requires 0 < |reference| && 1 <= n <= |cand|
    requires forall w :: w in cand ==> w !in reference
    ensures Bleu(WordGrams, cand, reference, n) == Ok(0.0)
  {
    var ps := Precisions(WordGrams, cand, reference);
    var lf := LengthFactor(|cand|, |reference|);
    assert Bleu(WordGrams, cand, reference, n) == Orders(ps, lf, 1, n);
    assert ps[0] == 0.0 by {
      DisjointUnigrams(cand, reference);
    }
    OrdersFirstZero(ps, lf, n);
  }

  /** A first order of precision 0 makes the score 0, whatever follows. */
  lemma OrdersFirstZero(ps: seq<real>, score: real, n: int)
    requires 1 <= n <= |ps| && ps[0] == 0.0
    ensures Orders(ps, score, 1, n) == Ok(0.0)
  {
    assert Orders(ps, score, 1, n) == Orders(ps, score * 0.0, 2, n);
    OrdersOfZero(ps, 2, n);
  }
}
