/**
 `LaplaceBigramLanguageModel`: an add-one smoothed bigram model. Training
 counts the adjacent pairs of every sentence in `bigramCounts` and their
 number in `total`; scoring adds, for every adjacent pair of the scored
 sentence, `log(count + 1) - log(total + len(bigramCounts))`.
 */
module LaplaceBigram {
  import opened Results
  import opened Counts
  import opened NGrams
  import opened Scoring

  datatype Model = Model(bigramCounts: Table<Bigram>, total: nat)

  /** The state `__init__` creates before calling `train`. */
  const Untrained: Model := Model(map[], 0)

  /** The body of the training loop for one token, given the previous token of the sentence. */
  function Observe(m: Model, prev: Option<string>, token: string): Model
  {
    if prev.Some? then Model(Bump(m.bigramCounts, (prev.value, token)), m.total + 1) else m
  }

  /** The model after one sentence, with the loop variable `previousWord` at its end. */
  datatype Pass = Pass(model: Model, prev: Option<string>)

  /** The inner training loop over one sentence; `previousWord` starts as `None`. */
  function TrainSentence(m: Model, s: Sentence): (r: Pass)
    ensures r.prev == LastOf(s)
    ensures r.model.total == m.total + |Bigrams(s)|
    ensures r.model.bigramCounts.Keys == m.bigramCounts.Keys + Elems(Bigrams(s))
    ensures forall k :: Get(r.model.bigramCounts, k) == Get(m.bigramCounts, k) + multiset(Bigrams(s))[k]
    decreases |s|
  {
    if |s| == 0 then Pass(m, None)
    else
      var p := TrainSentence(m, s[..|s| - 1]);
      BigramsStep(s);
      Pass(Observe(p.model, p.prev, s[|s| - 1]), Some(s[|s| - 1]))
  }

  /** `train` on a fresh model: the count of every pair is its number of occurrences within sentences. */
  function Train(c: Corpus): (r: Model)
    ensures Tabulates(r.bigramCounts, multiset(CorpusBigrams(c)))
    ensures r.total == |CorpusBigrams(c)|
    decreases |c|
  {
    if |c| == 0 then Untrained else TrainSentence(Train(c[..|c| - 1]), c[|c| - 1]).model
  }

  /** After training, `total` is the number of neighbouring-token pairs of the corpus. */
  lemma TrainTotal(c: Corpus)
    ensures Train(c).total == PairTotal(c)
  {
    CorpusBigramCount(c);
  }

  /** Every count is at most `total`: the state invariant that keeps each factor at most 1. */
  ghost predicate Valid(m: Model)
  {
    forall k :: k in m.bigramCounts ==> m.bigramCounts[k] <= m.total
  }

  lemma TrainValid(c: Corpus)
    ensures Valid(Train(c))
  {
    var m := Train(c);
    forall k | k in m.bigramCounts
      ensures m.bigramCounts[k] <= m.total
    {
      CountAtMostLength(CorpusBigrams(c), k);
    }
  }

  /** The scoring loop's state between tokens: the (read-inserted) table and `previousWord`. */
  datatype Scan = Scan(model: Model, prev: Option<string>)

  /** The contribution the loop body adds for a token that has a predecessor. */
  function TokenTerm(sc: Scan, token: string): Term
    requires sc.prev.Some?
  {
    var read := Read(sc.model.bigramCounts, (sc.prev.value, token));
    Ratio(read.0 + 1, sc.model.total + |read.1.Keys|)
  }

  /** The state after the loop body: the read pair is now a key, and `previousWord` is the token. */
  function Step(sc: Scan, token: string): Scan
  {
    if sc.prev.None? then Scan(sc.model, Some(token))
    else Scan(sc.model.(bigramCounts := Read(sc.model.bigramCounts, (sc.prev.value, token)).1), Some(token))
  }

  /**
   The loop state after the first n tokens. Every token after the first reads
   `bigramCounts[(prev, token)]`, which inserts the pair with count zero.
   */
  function StateAfter(m: Model, s: seq<string>, n: nat): (r: Scan)
    requires n <= |s|
    ensures r.prev == (if n == 0 then None else Some(s[n - 1]))
    ensures r.model.total == m.total
  {
    if n == 0 then Scan(m, None) else Step(StateAfter(m, s, n - 1), s[n - 1])
  }

  /** What `score` computes: the terms it adds up, and the model it leaves behind. */
  datatype Scored = Scored(terms: seq<Term>, model: Model)

  /** `score(s)`: term j, for the pair (s[j], s[j + 1]), is added with the state the first j + 1 tokens left. */
  function Score(m: Model, s: seq<string>): (r: Scored)
    ensures |r.terms| == if |s| == 0 then 0 else |s| - 1
  {
    var n := if |s| == 0 then 0 else |s| - 1;
    Scored(seq(n, j requires 0 <= j < n => TokenTerm(StateAfter(m, s, j + 1), s[j + 1])), StateAfter(m, s, |s|).model)
  }

  /** The adjacent pairs among the first n tokens: the keys the first n iterations read. */
  function PairsRead(s: seq<string>, n: nat): set<Bigram>
    requires n <= |s|
  {
    if n <= 1 then {} else PairsRead(s, n - 1) + {(s[n - 2], s[n - 1])}
  }

  /** `total + len(bigramCounts)` once the first n tokens of s have been scored. */
  function DenAfter(m: Model, s: seq<string>, n: nat): nat
    requires n <= |s|
  {
    m.total + |m.bigramCounts.Keys + PairsRead(s, n)|
  }

  /** One iteration inserts, with count zero, only the pair it reads. */
  lemma StateAfterReadsStep(m: Model, s: seq<string>, n: nat)
    requires 1 <= n <= |s|
    ensures StateAfter(m, s, n).model.bigramCounts.Keys ==
              StateAfter(m, s, n - 1).model.bigramCounts.Keys + (if n >= 2 then {(s[n - 2], s[n - 1])} else {})
    ensures OnlyZerosAdded(StateAfter(m, s, n - 1).model.bigramCounts, StateAfter(m, s, n).model.bigramCounts)
  {
    var sc := StateAfter(m, s, n - 1);
    if n >= 2 {
      assert StateAfter(m, s, n).model.bigramCounts == Read(sc.model.bigramCounts, (s[n - 2], s[n - 1])).1;
      ReadEffect(sc.model.bigramCounts, (s[n - 2], s[n - 1]));
    } else {
      assert StateAfter(m, s, n).model == sc.model;
    }
  }

  /** The loop only inserts the pairs it reads, each with count zero. */
  lemma {:induction false} StateAfterReads(m: Model, s: seq<string>, n: nat)
    requires n <= |s|
    ensures StateAfter(m, s, n).model.bigramCounts.Keys == m.bigramCounts.Keys + PairsRead(s, n)
    ensures OnlyZerosAdded(m.bigramCounts, StateAfter(m, s, n).model.bigramCounts)
  {
    var r := StateAfter(m, s, n).model.bigramCounts;
    if n > 0 {
      StateAfterReads(m, s, n - 1);
      StateAfterReadsStep(m, s, n);
      assert r.Keys == m.bigramCounts.Keys + PairsRead(s, n);
      assert OnlyZerosAdded(m.bigramCounts, r);
    } else {
      assert r.Keys == m.bigramCounts.Keys + PairsRead(s, n);
      assert OnlyZerosAdded(m.bigramCounts, r);
    }
  }

  /** Term j is the loop body's term for token j + 1 and the state the first j + 1 tokens left. */
  lemma ScoreTermAt(m: Model, s: seq<string>, j: nat)
    requires j + 1 < |s|
    ensures StateAfter(m, s, j + 1).prev == Some(s[j])
    ensures Score(m, s).terms[j] == TokenTerm(StateAfter(m, s, j + 1), s[j + 1])
  {
  }

  /**
   Term j of the score belongs to the adjacent pair (s[j], s[j + 1]): its
   numerator is the pair's count before the call plus one, its denominator
   `total` plus the number of keys once pairs 0..j have been read, the pair
   of term j itself included.
   */
  lemma ScoreTerm(m: Model, s: seq<string>, j: nat)
    requires j + 1 < |s|
    ensures Score(m, s).terms[j] == Ratio(Get(m.bigramCounts, (s[j], s[j + 1])) + 1, DenAfter(m, s, j + 2))
  {
    var sc := StateAfter(m, s, j + 1);
    ScoreTermAt(m, s, j);
    StateAfterReads(m, s, j + 1);
    TokenTermFrom(m, sc, s[j + 1], PairsRead(s, j + 1));
  }

  /** The loop body's term from a state that differs from m only by zero counts for the keys `read`. */
  lemma TokenTermFrom(m: Model, sc: Scan, token: string, read: set<Bigram>)
    requires sc.prev.Some?
    requires sc.model.total == m.total
    requires sc.model.bigramCounts.Keys == m.bigramCounts.Keys + read
    requires OnlyZerosAdded(m.bigramCounts, sc.model.bigramCounts)
    ensures TokenTerm(sc, token) ==
              Ratio(Get(m.bigramCounts, (sc.prev.value, token)) + 1,
                    m.total + |m.bigramCounts.Keys + (read + {(sc.prev.value, token)})|)
  {
    var k := (sc.prev.value, token);
    ReadEffect(sc.model.bigramCounts, k);
    assert sc.model.bigramCounts.Keys + {k} == m.bigramCounts.Keys + (read + {k});
  }

  /**
   On a valid model every logarithm argument is positive and every factor is
   at most 1, and the model stays valid for later calls.
   */
  lemma ScoreSafe(m: Model, s: seq<string>)
    requires Valid(m)
    ensures forall j :: 0 <= j < |Score(m, s).terms| ==> Within(Score(m, s).terms[j], 1.0)
    ensures Valid(Score(m, s).model)
  {
    var r := Score(m, s);
    forall j | 0 <= j < |r.terms|
      ensures Within(r.terms[j], 1.0)
    {
      ScoreTerm(m, s, j);
      var keys := m.bigramCounts.Keys + PairsRead(s, j + 2);
      assert (s[j], s[j + 1]) in keys;
      assert |keys| >= 1;
      assert DenAfter(m, s, j + 2) >= m.total + 1;
    }
    StateAfterReads(m, s, |s|);
    forall k | k in r.model.bigramCounts
      ensures r.model.bigramCounts[k] <= r.model.total
    {
      assert r.model.bigramCounts[k] == Get(r.model.bigramCounts, k) == Get(m.bigramCounts, k);
    }
  }

  /** A trained model's score is at most 0 under any increasing logarithm; a sentence of length <= 1 scores 0. */
  lemma ScoreNonPositive(c: Corpus, s: seq<string>, log: real -> real)
    requires Monotone(log)
    ensures LogScore(Score(Train(c), s).terms, log) <= 0.0
    ensures |s| <= 1 ==> LogScore(Score(Train(c), s).terms, log) == 0.0
  {
    TrainValid(c);
    ScoreSafe(Train(c), s);
    LogScoreNonPositive(Score(Train(c), s).terms, log);
  }

  /** Pair i is among the pairs read once the first n tokens are scored, for i + 2 <= n. */
  lemma PairsReadHas(s: seq<string>, n: nat, i: nat)
    requires i + 2 <= n <= |s|
    ensures (s[i], s[i + 1]) in PairsRead(s, n)
  {
    if i + 2 < n {
      PairsReadHas(s, n - 1, i);
    }
  }

  /** The adjacent pairs of s at i and at k are the same pair. */
  predicate SamePair(s: seq<string>, i: nat, k: nat)
    requires i + 1 < |s| && k + 1 < |s|
  {
    s[i] == s[k] && s[i + 1] == s[k + 1]
  }

  /** Two of the adjacent pairs of s differ. */
  predicate DistinctPairs(s: seq<string>)
  {
    exists i, k :: 0 <= i < k < |s| - 1 && !SamePair(s, i, k)
  }

  /** When two adjacent pairs differ, some pair after the first differs from the first. */
  lemma OtherThanFirst(s: seq<string>) returns (k: nat)
    requires DistinctPairs(s)
    ensures 1 <= k < |s| - 1 && !SamePair(s, 0, k)
  {
    var i, k' :| 0 <= i < k' < |s| - 1 && !SamePair(s, i, k');
    if !SamePair(s, 0, k') {
      k := k';
    } else {
      k := i;
    }
  }

  /**
   Two identical calls in a row differ: on the untrained model, the first call
   inserts every pair it reads, and the second call's denominators count them.
   */
  lemma RepeatedScoreDiffers(s: seq<string>)
    requires DistinctPairs(s)
    ensures Score(Score(Untrained, s).model, s).terms[0].den > Score(Untrained, s).terms[0].den
    ensures Score(Score(Untrained, s).model, s).terms != Score(Untrained, s).terms
  {
    var first := Score(Untrained, s);
    var j: nat := 0;
    var k := OtherThanFirst(s);
    ScoreTerm(Untrained, s, j);
    ScoreTerm(first.model, s, j);
    FirstPairDen(s, j);
    SecondPairDen(s, j, k);
    assert Score(first.model, s).terms[j].den > first.terms[j].den;
  }

  /**
   The repeated call scores strictly lower under any strictly increasing
   logarithm: both calls see the same counts, zero for every pair, but every
   denominator of the second call is at least as large, and the first one
   strictly larger.
   */
  lemma RepeatedScoreLower(s: seq<string>, log: real -> real)
    requires StrictlyMonotone(log)
    requires DistinctPairs(s)
    ensures LogScore(Score(Score(Untrained, s).model, s).terms, log) < LogScore(Score(Untrained, s).terms, log)
  {
    var first := Score(Untrained, s);
    var a, b := first.terms, Score(first.model, s).terms;
    assert |a| == |b| == |s| - 1;
    assert forall j :: 0 <= j < |a| ==> Num(b[j]) == Num(a[j]) && 0 < a[j].den <= b[j].den by {
      forall j | 0 <= j < |a|
        ensures Num(b[j]) == Num(a[j]) && 0 < a[j].den <= b[j].den
      {
        RepeatedTermAtLeast(s, j);
      }
    }
    assert a[0].den < b[0].den by {
      RepeatedScoreDiffers(s);
    }
    LogScoreBelow(a, b, log, 0);
  }

  /** Term j of the repeated call has the same numerator and a denominator at least as large. */
  lemma RepeatedTermAtLeast(s: seq<string>, j: nat)
    requires j + 1 < |s|
    ensures Num(Score(Score(Untrained, s).model, s).terms[j]) == Num(Score(Untrained, s).terms[j])
    ensures 0 < Score(Untrained, s).terms[j].den <= Score(Score(Untrained, s).model, s).terms[j].den
  {
    var m := Score(Untrained, s).model;
    var read := PairsRead(s, j + 2);
    ScoreTerm(Untrained, s, j);
    ScoreTerm(m, s, j);
    assert Get(m.bigramCounts, (s[j], s[j + 1])) == 0 by {
      StateAfterReads(Untrained, s, |s|);
    }
    assert 0 < |read| by {
      PairsReadHas(s, j + 2, j);
    }
    assert Untrained.bigramCounts.Keys + read == read;
    SubsetCard(read, m.bigramCounts.Keys + read);
  }

  /** On the untrained model the first pair's denominator counts that pair alone. */
  lemma FirstPairDen(s: seq<string>, j: nat)
    requires j == 0 && |s| >= 2
    ensures DenAfter(Untrained, s, j + 2) == 1
  {
    assert Untrained.bigramCounts.Keys + PairsRead(s, j + 2) == {(s[0], s[1])};
  }

  /** After one call, the first pair's denominator also counts a later pair k that differs from it. */
  lemma SecondPairDen(s: seq<string>, j: nat, k: nat)
    requires j == 0 && 1 <= k < |s| - 1 && !SamePair(s, 0, k)
    ensures DenAfter(Score(Untrained, s).model, s, j + 2) >= 2
  {
    var m := Score(Untrained, s).model;
    var p, q := (s[0], s[1]), (s[k], s[k + 1]);
    var keys := m.bigramCounts.Keys + PairsRead(s, j + 2);
    StateAfterReads(Untrained, s, |s|);
    PairsReadHas(s, |s|, 0);
    PairsReadHas(s, |s|, k);
    assert p in keys && q in keys;
    assert |{p, q}| == 2;
    SubsetCard({p, q}, keys);
  }
}
