/**
 `StupidBackoffLanguageModel`: training counts tokens, their number and the
 adjacent pairs within sentences. Scoring uses, for a token whose pair with the
 previous token was seen, `log(count(pair)) - log(count(previous))`, and
 otherwise backs off to the discounted add-one unigram estimate
 `log(alpha * (count(token) + 1)) - log(unigramTotal + len(unigramCounts))`.
 */
module StupidBackoff {
  import opened Results
  import opened Counts
  import opened NGrams
  import opened Scoring

  datatype Model = Model(bigramCounts: Table<Bigram>, unigramCounts: Table<string>, unigramTotal: nat)

  /** The state `__init__` creates before calling `train`. */
  const Untrained: Model := Model(map[], map[], 0)

  /** The body of the training loop for one token, given the previous token of the sentence. */
  function Observe(m: Model, prev: Option<string>, token: string): Model
  {
    var m' := m.(unigramCounts := Bump(m.unigramCounts, token), unigramTotal := m.unigramTotal + 1);
    if prev.Some? then m'.(bigramCounts := Bump(m.bigramCounts, (prev.value, token))) else m'
  }

  /** The model after one sentence, with the loop variable `previousWord` at its end. */
  datatype Pass = Pass(model: Model, prev: Option<string>)

  /** The inner training loop over one sentence; `previousWord` starts as `None`. */
  function TrainSentence(m: Model, s: Sentence): (r: Pass)
    ensures r.prev == LastOf(s)
    ensures r.model.unigramTotal == m.unigramTotal + |s|
    decreases |s|
  {
    if |s| == 0 then Pass(m, None)
    else
      var p := TrainSentence(m, s[..|s| - 1]);
      Pass(Observe(p.model, p.prev, s[|s| - 1]), Some(s[|s| - 1]))
  }

  /** One sentence adds each of its tokens to `unigramCounts` once per occurrence. */
  lemma {:induction false} TrainSentenceUnigrams(m: Model, s: Sentence)
    ensures Adds(m.unigramCounts, TrainSentence(m, s).model.unigramCounts, s)
    decreases |s|
  {
    if |s| > 0 {
      var s', x := s[..|s| - 1], s[|s| - 1];
      var p := TrainSentence(m, s');
      assert TrainSentence(m, s).model.unigramCounts == Bump(p.model.unigramCounts, x);
      assert Adds(m.unigramCounts, Bump(p.model.unigramCounts, x), s' + [x]) by {
        TrainSentenceUnigrams(m, s');
        AddsBump(m.unigramCounts, p.model.unigramCounts, s', x);
      }
      assert s' + [x] == s;
    }
  }

  /** One sentence adds each of its adjacent pairs to `bigramCounts` once per occurrence. */
  lemma {:induction false} TrainSentenceBigrams(m: Model, s: Sentence)
    ensures Adds(m.bigramCounts, TrainSentence(m, s).model.bigramCounts, Bigrams(s))
    decreases |s|
  {
    if |s| > 0 {
      var s', x := s[..|s| - 1], s[|s| - 1];
      var p := TrainSentence(m, s');
      var after := TrainSentence(m, s).model.bigramCounts;
      assert Bigrams(s) == Bigrams(s') + (if |s| >= 2 then [(s[|s| - 2], x)] else []) by {
        BigramsStep(s);
      }
      if |s| >= 2 {
        assert after == Bump(p.model.bigramCounts, (s[|s| - 2], x)) by {
          assert p.prev == Some(s[|s| - 2]);
          assert TrainSentence(m, s).model == Observe(p.model, p.prev, x);
        }
        assert Adds(m.bigramCounts, after, Bigrams(s') + [(s[|s| - 2], x)]) by {
          TrainSentenceBigrams(m, s');
          AddsBump(m.bigramCounts, p.model.bigramCounts, Bigrams(s'), (s[|s| - 2], x));
        }
      } else {
        assert after == p.model.bigramCounts by {
          assert p.prev == None;
          assert TrainSentence(m, s).model == Observe(p.model, p.prev, x);
        }
        assert Bigrams(s) == Bigrams(s');
        TrainSentenceBigrams(m, s');
      }
    }
  }

  /** `train` on a fresh model: `unigramTotal` is the number of tokens of the corpus. */
  function Train(c: Corpus): (r: Model)
    ensures r.unigramTotal == |Tokens(c)|
    decreases |c|
  {
    if |c| == 0 then Untrained else TrainSentence(Train(c[..|c| - 1]), c[|c| - 1]).model
  }

  /** After training, the count of every token is its number of occurrences in the corpus. */
  lemma {:induction false} TrainUnigrams(c: Corpus)
    ensures Tabulates(Train(c).unigramCounts, multiset(Tokens(c)))
    decreases |c|
  {
    if |c| > 0 {
      TrainUnigrams(c[..|c| - 1]);
      var m := Train(c[..|c| - 1]);
      TrainSentenceUnigrams(m, c[|c| - 1]);
      TabulatesAdds(m.unigramCounts, TrainSentence(m, c[|c| - 1]).model.unigramCounts, multiset(Tokens(c[..|c| - 1])), c[|c| - 1]);
    }
  }

  /** After training, the count of every pair is its number of occurrences within sentences. */
  lemma {:induction false} TrainBigrams(c: Corpus)
    ensures Tabulates(Train(c).bigramCounts, multiset(CorpusBigrams(c)))
    decreases |c|
  {
    if |c| > 0 {
      TrainBigrams(c[..|c| - 1]);
      var m := Train(c[..|c| - 1]);
      TrainSentenceBigrams(m, c[|c| - 1]);
      TabulatesAdds(m.bigramCounts, TrainSentence(m, c[|c| - 1]).model.bigramCounts, multiset(CorpusBigrams(c[..|c| - 1])), Bigrams(c[|c| - 1]));
    }
  }

  /**
   The state invariant: every seen pair is counted at least once and at most
   as often as its first token, and no token more often than `unigramTotal`.
   */
  ghost predicate Valid(m: Model)
  {
    && (forall k :: k in m.bigramCounts ==> 1 <= m.bigramCounts[k] <= Get(m.unigramCounts, k.0))
    && (forall w :: w in m.unigramCounts ==> m.unigramCounts[w] <= m.unigramTotal)
  }

  lemma TrainValid(c: Corpus)
    ensures Valid(Train(c))
  {
    var m := Train(c);
    TrainUnigrams(c);
    TrainBigrams(c);
    forall k | k in m.bigramCounts
      ensures 1 <= m.bigramCounts[k] <= Get(m.unigramCounts, k.0)
    {
      BigramAtMostContext(c, k.0, k.1);
    }
    forall w | w in m.unigramCounts
      ensures m.unigramCounts[w] <= m.unigramTotal
    {
      CountAtMostLength(Tokens(c), w);
    }
  }

  /** The scoring loop's state between tokens: the (read-inserted) tables and `previousWord`. */
  datatype Scan = Scan(model: Model, prev: Option<string>)

  /** The token's pair with `previousWord` is a key of `bigramCounts`: the test of line 34. */
  predicate Hit(sc: Scan, token: string)
  {
    sc.prev.Some? && (sc.prev.value, token) in sc.model.bigramCounts
  }

  /** The key the loop body reads from `unigramCounts`: `previousWord` on a hit, the token otherwise. */
  function KeyOf(sc: Scan, token: string): string
  {
    if Hit(sc, token) then sc.prev.value else token
  }

  /** The contribution the loop body adds for one token. */
  function TokenTerm(sc: Scan, token: string): Term
  {
    var read := Read(sc.model.unigramCounts, KeyOf(sc, token));
    if Hit(sc, token) then Ratio(sc.model.bigramCounts[(sc.prev.value, token)], read.0)
    else Scaled(Alpha, Ratio(read.0 + 1, sc.model.unigramTotal + |read.1.Keys|))
  }

  /** The state after the loop body: the read key is now present, and `previousWord` is the token. */
  function Step(sc: Scan, token: string): Scan
  {
    Scan(sc.model.(unigramCounts := Read(sc.model.unigramCounts, KeyOf(sc, token)).1), Some(token))
  }

  /**
   The loop state after the first n tokens. Reads of `unigramCounts` insert
   missing keys with count zero; `bigramCounts` is only read for keys it
   holds, so it never changes.
   */
  function StateAfter(m: Model, s: seq<string>, n: nat): (r: Scan)
    requires n <= |s|
    ensures r.prev == (if n == 0 then None else Some(s[n - 1]))
    ensures r.model.bigramCounts == m.bigramCounts
    ensures r.model.unigramTotal == m.unigramTotal
  {
    if n == 0 then Scan(m, None) else Step(StateAfter(m, s, n - 1), s[n - 1])
  }

  /** What `score` computes: the terms it adds up, and the model it leaves behind. */
  datatype Scored = Scored(terms: seq<Term>, model: Model)

  /** `score(s)`: term j is added with the state the first j tokens left. */
  function Score(m: Model, s: seq<string>): (r: Scored)
    ensures |r.terms| == |s|
  {
    Scored(seq(|s|, j requires 0 <= j < |s| => TokenTerm(StateAfter(m, s, j), s[j])), StateAfter(m, s, |s|).model)
  }

  /** Token j of s follows a token whose pair with it is a key of `bigramCounts`. */
  predicate BigramHit(m: Model, s: seq<string>, j: nat)
    requires j < |s|
  {
    1 <= j && (s[j - 1], s[j]) in m.bigramCounts
  }

  /** The unigram key iteration j reads: the previous token on a bigram hit, the token itself otherwise. */
  function KeyRead(m: Model, s: seq<string>, j: nat): string
    requires j < |s|
  {
    if BigramHit(m, s, j) then s[j - 1] else s[j]
  }

  /** The unigram keys the first n iterations read. */
  function KeysRead(m: Model, s: seq<string>, n: nat): set<string>
    requires n <= |s|
  {
    if n == 0 then {} else KeysRead(m, s, n - 1) + {KeyRead(m, s, n - 1)}
  }

  /** `unigramTotal + len(unigramCounts)` once the first n tokens of s have been scored. */
  function DenAfter(m: Model, s: seq<string>, n: nat): nat
    requires n <= |s|
  {
    m.unigramTotal + |m.unigramCounts.Keys + KeysRead(m, s, n)|
  }

  /** The contribution of token j, in terms of the tables before the call. */
  function Expected(m: Model, s: seq<string>, j: nat): Term
    requires j < |s|
  {
    if BigramHit(m, s, j) then Ratio(m.bigramCounts[(s[j - 1], s[j])], Get(m.unigramCounts, s[j - 1]))
    else Scaled(Alpha, Ratio(Get(m.unigramCounts, s[j]) + 1, DenAfter(m, s, j + 1)))
  }

  /** One iteration inserts, with count zero, only the unigram key it reads. */
  lemma StateAfterReadsStep(m: Model, s: seq<string>, n: nat)
    requires 1 <= n <= |s|
    ensures StateAfter(m, s, n).model.unigramCounts.Keys ==
              StateAfter(m, s, n - 1).model.unigramCounts.Keys + {KeyRead(m, s, n - 1)}
    ensures OnlyZerosAdded(StateAfter(m, s, n - 1).model.unigramCounts, StateAfter(m, s, n).model.unigramCounts)
  {
    var sc := StateAfter(m, s, n - 1);
    assert KeyOf(sc, s[n - 1]) == KeyRead(m, s, n - 1);
    assert StateAfter(m, s, n).model.unigramCounts == Read(sc.model.unigramCounts, KeyRead(m, s, n - 1)).1;
    ReadEffect(sc.model.unigramCounts, KeyRead(m, s, n - 1));
  }

  /** The loop only inserts the unigram keys it reads, each with count zero. */
  lemma {:induction false} StateAfterReads(m: Model, s: seq<string>, n: nat)
    requires n <= |s|
    ensures StateAfter(m, s, n).model.unigramCounts.Keys == m.unigramCounts.Keys + KeysRead(m, s, n)
    ensures OnlyZerosAdded(m.unigramCounts, StateAfter(m, s, n).model.unigramCounts)
  {
    var r := StateAfter(m, s, n).model.unigramCounts;
    if n > 0 {
      StateAfterReads(m, s, n - 1);
      StateAfterReadsStep(m, s, n);
      assert r.Keys == m.unigramCounts.Keys + KeysRead(m, s, n);
      assert OnlyZerosAdded(m.unigramCounts, r);
    } else {
      assert r.Keys == m.unigramCounts.Keys + KeysRead(m, s, n);
      assert OnlyZerosAdded(m.unigramCounts, r);
    }
  }

  /**
   Term j of the score belongs to token j. When (s[j - 1], s[j]) was seen it is
   count(pair) over count(s[j - 1]); otherwise, and always for the first token,
   it is alpha times count(s[j]) + 1 over `unigramTotal` plus the number of
   unigram keys once tokens 0..j have been read, token j included.
   */
  lemma ScoreTerm(m: Model, s: seq<string>, j: nat)
    requires j < |s|
    ensures Score(m, s).terms[j] == Expected(m, s, j)
  {
    if BigramHit(m, s, j) {
      ScoreTermHit(m, s, j);
    } else {
      ScoreTermMiss(m, s, j);
    }
  }

  lemma ScoreTermHit(m: Model, s: seq<string>, j: nat)
    requires j < |s| && BigramHit(m, s, j)
    ensures Score(m, s).terms[j] == Ratio(m.bigramCounts[(s[j - 1], s[j])], Get(m.unigramCounts, s[j - 1]))
  {
    ScoreTermAt(m, s, j);
    StateAfterReads(m, s, j);
    TokenTermHit(m, StateAfter(m, s, j), s[j], KeysRead(m, s, j));
  }

  lemma ScoreTermMiss(m: Model, s: seq<string>, j: nat)
    requires j < |s| && !BigramHit(m, s, j)
    ensures Score(m, s).terms[j] == Scaled(Alpha, Ratio(Get(m.unigramCounts, s[j]) + 1, DenAfter(m, s, j + 1)))
  {
    ScoreTermAt(m, s, j);
    StateAfterReads(m, s, j);
    TokenTermMiss(m, StateAfter(m, s, j), s[j], KeysRead(m, s, j));
    assert KeyRead(m, s, j) == s[j];
  }

  /** Term j is the loop body's term for the state the first j tokens left. */
  lemma ScoreTermAt(m: Model, s: seq<string>, j: nat)
    requires j < |s|
    ensures Score(m, s).terms[j] == TokenTerm(StateAfter(m, s, j), s[j])
    ensures Hit(StateAfter(m, s, j), s[j]) == BigramHit(m, s, j)
  {
  }

  /** A state that differs from m only by zero counts for the unigram keys `read`. */
  ghost predicate ReadFrom(m: Model, sc: Scan, read: set<string>)
  {
    && sc.model.bigramCounts == m.bigramCounts
    && sc.model.unigramTotal == m.unigramTotal
    && sc.model.unigramCounts.Keys == m.unigramCounts.Keys + read
    && OnlyZerosAdded(m.unigramCounts, sc.model.unigramCounts)
  }

  /** On a hit, the loop body's term is the pair's count over the count of `previousWord`. */
  lemma TokenTermHit(m: Model, sc: Scan, token: string, read: set<string>)
    requires ReadFrom(m, sc, read) && Hit(sc, token)
    ensures TokenTerm(sc, token) == Ratio(m.bigramCounts[(sc.prev.value, token)], Get(m.unigramCounts, sc.prev.value))
  {
    ReadEffect(sc.model.unigramCounts, sc.prev.value);
  }

  /** Otherwise it is the discounted add-one count of the token, over the total plus the keys now present. */
  lemma TokenTermMiss(m: Model, sc: Scan, token: string, read: set<string>)
    requires ReadFrom(m, sc, read) && !Hit(sc, token)
    ensures TokenTerm(sc, token) ==
              Scaled(Alpha, Ratio(Get(m.unigramCounts, token) + 1, m.unigramTotal + |m.unigramCounts.Keys + (read + {token})|))
  {
    ReadEffect(sc.model.unigramCounts, token);
    assert sc.model.unigramCounts.Keys + {token} == m.unigramCounts.Keys + (read + {token});
  }

  /** On a valid model, a bigram term has a factor of at most 1 and a backed-off term one of at most alpha. */
  lemma TermSafe(m: Model, s: seq<string>, j: nat)
    requires Valid(m) && j < |s|
    ensures Within(Score(m, s).terms[j], if BigramHit(m, s, j) then 1.0 else Alpha)
  {
    ScoreTerm(m, s, j);
    ExpectedSafe(m, s, j);
  }

  /** The closed form of each branch respects that branch's bound. */
  lemma ExpectedSafe(m: Model, s: seq<string>, j: nat)
    requires Valid(m) && j < |s|
    ensures Within(Expected(m, s, j), if BigramHit(m, s, j) then 1.0 else Alpha)
  {
    if !BigramHit(m, s, j) {
      var keys := m.unigramCounts.Keys + KeysRead(m, s, j + 1);
      assert s[j] in keys;
      assert |keys| >= 1;
      assert Get(m.unigramCounts, s[j]) <= m.unigramTotal;
      ScaledWithin(Alpha, Ratio(Get(m.unigramCounts, s[j]) + 1, DenAfter(m, s, j + 1)));
    }
  }

  /** Scoring keeps a valid model valid: it only adds zero unigram counts. */
  lemma ScoreKeepsValid(m: Model, s: seq<string>)
    requires Valid(m)
    ensures Valid(Score(m, s).model)
  {
    var r := Score(m, s).model;
    StateAfterReads(m, s, |s|);
    forall k | k in r.bigramCounts
      ensures 1 <= r.bigramCounts[k] <= Get(r.unigramCounts, k.0)
    {
      assert Get(r.unigramCounts, k.0) == Get(m.unigramCounts, k.0);
    }
    forall w | w in r.unigramCounts
      ensures r.unigramCounts[w] <= r.unigramTotal
    {
      assert r.unigramCounts[w] == Get(r.unigramCounts, w) == Get(m.unigramCounts, w);
    }
  }

  /**
   On a valid model every logarithm argument is positive, a bigram factor is at
   most 1, a backed-off factor at most alpha, and the model stays valid.
   */
  lemma ScoreSafe(m: Model, s: seq<string>)
    requires Valid(m)
    ensures forall j :: 0 <= j < |s| && BigramHit(m, s, j) ==> Within(Score(m, s).terms[j], 1.0)
    ensures forall j :: 0 <= j < |s| && !BigramHit(m, s, j) ==> Within(Score(m, s).terms[j], Alpha)
    ensures Valid(Score(m, s).model)
  {
    forall j | 0 <= j < |s|
      ensures Within(Score(m, s).terms[j], if BigramHit(m, s, j) then 1.0 else Alpha)
    {
      TermSafe(m, s, j);
    }
    ScoreKeepsValid(m, s);
  }

  /** A trained model's score is at most 0 under any increasing logarithm. */
  lemma ScoreNonPositive(c: Corpus, s: seq<string>, log: real -> real)
    requires Monotone(log)
    ensures LogScore(Score(Train(c), s).terms, log) <= 0.0
  {
    var m := Train(c);
    TrainValid(c);
    ScoreSafe(m, s);
    AlphaBounds();
    LogScoreNonPositive(Score(m, s).terms, log);
  }

  /**
   The back-off in corpus terms: after training, token j (j >= 1) whose pair
   with its predecessor occurs in the corpus contributes the pair's corpus
   count over the predecessor's; every other token, the first included,
   contributes a numerator of alpha times its corpus count plus one.
   */
  lemma ScoreTrained(c: Corpus, s: seq<string>, j: nat)
    requires j < |s|
    ensures 1 <= j && (s[j - 1], s[j]) in multiset(CorpusBigrams(c)) ==>
              Score(Train(c), s).terms[j] ==
                Ratio(multiset(CorpusBigrams(c))[(s[j - 1], s[j])], multiset(Tokens(c))[s[j - 1]])
    ensures !(1 <= j && (s[j - 1], s[j]) in multiset(CorpusBigrams(c))) ==>
              Score(Train(c), s).terms[j].factor == Alpha && Score(Train(c), s).terms[j].count == multiset(Tokens(c))[s[j]] + 1
  {
    var m := Train(c);
    TrainUnigrams(c);
    TrainBigrams(c);
    ScoreTerm(m, s, j);
  }
}
