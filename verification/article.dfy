/**
 `ArticleTester`: a discriminator for the word after "the". Training counts
 tokens (and is meant to count adjacent pairs); `score(pair)` is 0.0 unless
 the pair is `("the", w)`, and otherwise the smoothed ratio
 `(bigramCounts[("the", w)] + 1) / (unigramCounts[w] + 1)` — a plain ratio,
 not a logarithm. The counts are Python floats; every one is a whole number,
 modelled as a `nat`.
 */
module ArticleTester {
  import opened Results
  import opened Counts
  import opened NGrams

  datatype Model = Model(unigramCounts: Table<string>, bigramCounts: Table<Bigram>)

  /** The state `__init__` creates before calling `train`. */
  const Untrained: Model := Model(map[], map[])

  /** The determiner whose successor the score judges. */
  const The: string := "the"

  /** The body of the training loop for one token, given `previousWord`. */
  function Observe(m: Model, prev: Option<string>, token: string): Model
  {
    var uni := Bump(m.unigramCounts, token);
    if prev.Some? then Model(uni, Bump(m.bigramCounts, (prev.value, token))) else Model(uni, m.bigramCounts)
  }

  /** What one token does to each table. */
  lemma ObserveTables(m: Model, prev: Option<string>, token: string)
    ensures Observe(m, prev, token).unigramCounts == Bump(m.unigramCounts, token)
    ensures prev.Some? ==> Observe(m, prev, token).bigramCounts == Bump(m.bigramCounts, (prev.value, token))
    ensures prev.None? ==> Observe(m, prev, token).bigramCounts == m.bigramCounts
  {
  }

  /** The model after one sentence, with the loop variable `previousWord` at its end. */
  datatype Pass = Pass(model: Model, prev: Option<string>)

  /**
   The inner training loop as written: `previousWord` starts as `None` and the
   loop never assigns it, so the bigram update never fires.
   */
  function TrainSentence(m: Model, s: Sentence): (r: Pass)
    ensures r.prev == None
    ensures r.model.bigramCounts == m.bigramCounts
    decreases |s|
  {
    if |s| == 0 then Pass(m, None)
    else
      var p := TrainSentence(m, s[..|s| - 1]);
      Pass(Observe(p.model, p.prev, s[|s| - 1]), p.prev)
  }

  /** One sentence adds each of its tokens to `unigramCounts` once per occurrence. */
  lemma {:induction false} TrainSentenceUnigrams(m: Model, s: Sentence)
    ensures Adds(m.unigramCounts, TrainSentence(m, s).model.unigramCounts, s)
    decreases |s|
  {
    if |s| > 0 {
      var s', x := s[..|s| - 1], s[|s| - 1];
      var p := TrainSentence(m, s');
      assert TrainSentence(m, s).model.unigramCounts == Bump(p.model.unigramCounts, x);
      assert Adds(m.unigramCounts, Bump(p.model.unigramCounts, x), s' + [x]) by {
        TrainSentenceUnigrams(m, s');
        AddsBump(m.unigramCounts, p.model.unigramCounts, s', x);
      }
      assert s' + [x] == s;
    }
  }

  /** `train` on a fresh model, as written. */
  function Train(c: Corpus): (r: Model)
    ensures r.bigramCounts == map[]
    decreases |c|
  {
    if |c| == 0 then Untrained else TrainSentence(Train(c[..|c| - 1]), c[|c| - 1]).model
  }

  /** After training, the count of every token is its number of occurrences in the corpus. */
  lemma {:induction false} TrainUnigrams(c: Corpus)
    ensures Tabulates(Train(c).unigramCounts, multiset(Tokens(c)))
    decreases |c|
  {
    if |c| > 0 {
      TrainUnigrams(c[..|c| - 1]);
      var m := Train(c[..|c| - 1]);
      TrainSentenceUnigrams(m, c[|c| - 1]);
      TabulatesAdds(m.unigramCounts, TrainSentence(m, c[|c| - 1]).model.unigramCounts, multiset(Tokens(c[..|c| - 1])), c[|c| - 1]);
    }
  }

  /** As written, training misses the pair ("the", "cat") of the one-sentence corpus "the cat". */
  lemma BigramMissed()
    ensures ("the", "cat") in multiset(CorpusBigrams([["the", "cat"]]))
    ensures Get(Train([["the", "cat"]]).bigramCounts, ("the", "cat")) == 0
  {
    var c: Corpus := [["the", "cat"]];
    assert c[..0] == [];
    assert Bigrams(c[0])[0] == ("the", "cat");
    assert CorpusBigrams(c) == Bigrams(c[0]);
  }

  /** The inner training loop as evidently intended, ending with `previousWord = token` like the other models. */
  function TrainSentenceIntended(m: Model, s: Sentence): (r: Pass)
    ensures r.prev == LastOf(s)
    decreases |s|
  {
    if |s| == 0 then Pass(m, None)
    else
      var p := TrainSentenceIntended(m, s[..|s| - 1]);
      Pass(Observe(p.model, p.prev, s[|s| - 1]), Some(s[|s| - 1]))
  }

  /** Trained as intended, one sentence still adds each of its tokens once per occurrence. */
  lemma {:induction false} TrainSentenceIntendedUnigrams(m: Model, s: Sentence)
    ensures Adds(m.unigramCounts, TrainSentenceIntended(m, s).model.unigramCounts, s)
    decreases |s|
  {
    if |s| > 0 {
      var s', x := s[..|s| - 1], s[|s| - 1];
      var p := TrainSentenceIntended(m, s');
      assert TrainSentenceIntended(m, s).model.unigramCounts == Bump(p.model.unigramCounts, x) by {
        assert TrainSentenceIntended(m, s).model == Observe(p.model, p.prev, x);
        ObserveTables(p.model, p.prev, x);
      }
      assert Adds(m.unigramCounts, Bump(p.model.unigramCounts, x), s' + [x]) by {
        TrainSentenceIntendedUnigrams(m, s');
        AddsBump(m.unigramCounts, p.model.unigramCounts, s', x);
      }
      assert s' + [x] == s;
    }
  }

  /** With `previousWord` updated, one sentence adds each of its adjacent pairs once per occurrence. */
  lemma {:induction false} TrainSentenceIntendedBigrams(m: Model, s: Sentence)
    ensures Adds(m.bigramCounts, TrainSentenceIntended(m, s).model.bigramCounts, Bigrams(s))
    decreases |s|
  {
    if |s| > 0 {
      var s', x := s[..|s| - 1], s[|s| - 1];
      var p := TrainSentenceIntended(m, s');
      assert TrainSentenceIntended(m, s).model == Observe(p.model, p.prev, x);
      ObserveTables(p.model, p.prev, x);
      if |s| >= 2 {
        var b := (s[|s| - 2], x);
        assert p.prev == Some(s[|s| - 2]);
        assert Adds(m.bigramCounts, Bump(p.model.bigramCounts, b), Bigrams(s') + [b]) by {
          TrainSentenceIntendedBigrams(m, s');
          AddsBump(m.bigramCounts, p.model.bigramCounts, Bigrams(s'), b);
        }
        assert Bigrams(s) == Bigrams(s') + [b] by {
          BigramsStep(s);
        }
      } else {
        assert p.prev == None;
        assert Bigrams(s) == Bigrams(s') by {
          BigramsStep(s);
        }
        TrainSentenceIntendedBigrams(m, s');
      }
    }
  }

  /** `train` as evidently intended. */
  function TrainIntended(c: Corpus): Model
    decreases |c|
  {
    if |c| == 0 then Untrained else TrainSentenceIntended(TrainIntended(c[..|c| - 1]), c[|c| - 1]).model
  }

  /** Trained as intended, the count of every token is still its number of occurrences. */
  lemma {:induction false} TrainIntendedUnigrams(c: Corpus)
    ensures Tabulates(TrainIntended(c).unigramCounts, multiset(Tokens(c)))
    decreases |c|
  {
    if |c| > 0 {
      TrainIntendedUnigrams(c[..|c| - 1]);
      var m := TrainIntended(c[..|c| - 1]);
      TrainSentenceIntendedUnigrams(m, c[|c| - 1]);
      TabulatesAdds(m.unigramCounts, TrainSentenceIntended(m, c[|c| - 1]).model.unigramCounts,
                    multiset(Tokens(c[..|c| - 1])), c[|c| - 1]);
    }
  }

  /** Trained as intended, the count of every pair is its number of occurrences within sentences. */
  lemma {:induction false} TrainIntendedBigrams(c: Corpus)
    ensures Tabulates(TrainIntended(c).bigramCounts, multiset(CorpusBigrams(c)))
    decreases |c|
  {
    if |c| > 0 {
      TrainIntendedBigrams(c[..|c| - 1]);
      var m := TrainIntended(c[..|c| - 1]);
      TrainSentenceIntendedBigrams(m, c[|c| - 1]);
      TabulatesAdds(m.bigramCounts, TrainSentenceIntended(m, c[|c| - 1]).model.bigramCounts,
                    multiset(CorpusBigrams(c[..|c| - 1])), Bigrams(c[|c| - 1]));
    }
  }

  /** The add-one ratio `(count + 1.0) / (unigram + 1.0)` that `score` returns for ("the", w). */
  function Smoothed(count: nat, unigram: nat): real
  {
    (count + 1) as real / (unigram + 1) as real
  }

  /** The value `score` returns, and the tables after its reads. */
  datatype Scored = Scored(value: real, model: Model)

  /**
   `score(pair)`. `pair[0]` is evaluated first, so an empty pair raises
   IndexError; a pair not starting with "the", or not of length 2, scores 0.0
   without touching the tables; otherwise both `[]` reads insert their key.
   */
  function Score(m: Model, pair: seq<string>): (r: Result<Scored>)
    ensures r.Err? <==> |pair| == 0
    ensures r.Err? ==> r.error == IndexError
    ensures r.Ok? && (pair[0] != The || |pair| != 2) ==> r.value == Scored(0.0, m)
  {
    if |pair| == 0 then Err(IndexError)
    else if pair[0] != The || |pair| != 2 then Ok(Scored(0.0, m))
    else
      var count := Read(m.bigramCounts, (pair[0], pair[1]));
      var unigram := Read(m.unigramCounts, pair[1]);
      Ok(Scored(Smoothed(count.0, unigram.0), Model(unigram.1, count.1)))
  }

  /**
   On ("the", w) the score is the smoothed ratio of the counts before the call,
   is positive, and the call only adds zero counts for ("the", w) and w.
   */
  lemma ScoreRatio(m: Model, w: string)
    ensures Score(m, [The, w]).Ok?
    ensures Score(m, [The, w]).value.value == Smoothed(Get(m.bigramCounts, (The, w)), Get(m.unigramCounts, w))
    ensures Score(m, [The, w]).value.value > 0.0
    ensures Score(m, [The, w]).value.model.unigramCounts.Keys == m.unigramCounts.Keys + {w}
    ensures Score(m, [The, w]).value.model.bigramCounts.Keys == m.bigramCounts.Keys + {(The, w)}
    ensures OnlyZerosAdded(m.unigramCounts, Score(m, [The, w]).value.model.unigramCounts)
    ensures OnlyZerosAdded(m.bigramCounts, Score(m, [The, w]).value.model.bigramCounts)
  {
    ReadEffect(m.bigramCounts, (The, w));
    ReadEffect(m.unigramCounts, w);
  }

  /** Unlike the log-probability models, a repeated `score` returns the same value: it reads only counts. */
  lemma ScoreRepeatable(m: Model, pair: seq<string>)
    requires |pair| > 0
    ensures Score(Score(m, pair).value.model, pair).Ok?
    ensures Score(Score(m, pair).value.model, pair).value.value == Score(m, pair).value.value
  {
    if pair[0] == The && |pair| == 2 {
      assert pair == [The, pair[1]];
      ScoreRatio(m, pair[1]);
      ScoreRatio(Score(m, pair).value.model, pair[1]);
    }
  }

  /** With no pair counted, the ratio is 1 / (k + 1): in (0, 1], and 1 exactly when k is 0. */
  lemma UnitRatio(k: nat)
    ensures Smoothed(0, k) == 1.0 / (k + 1) as real
    ensures 0.0 < Smoothed(0, k) <= 1.0
    ensures Smoothed(0, k) == 1.0 <==> k == 0
  {
    var d := (k + 1) as real;
    assert 1.0 / d * d == 1.0;
    if k > 0 {
      assert 1.0 / d < 1.0;
    }
  }

  /**
   After training as written, the score of ("the", w) is 1 / (count(w) + 1):
   at most 1, and exactly 1 when w never occurs in the corpus.
   */
  lemma ScoreTrained(c: Corpus, w: string)
    ensures Score(Train(c), [The, w]).Ok?
    ensures Score(Train(c), [The, w]).value.value == Smoothed(0, multiset(Tokens(c))[w]) == 1.0 / (multiset(Tokens(c))[w] + 1) as real
    ensures 0.0 < Score(Train(c), [The, w]).value.value <= 1.0
    ensures Score(Train(c), [The, w]).value.value == 1.0 <==> w !in Tokens(c)
  {
    var m, k := Train(c), multiset(Tokens(c))[w];
    assert Get(m.unigramCounts, w) == k by {
      TrainUnigrams(c);
    }
    assert Score(m, [The, w]).Ok? && Score(m, [The, w]).value.value == Smoothed(0, k) by {
      ScoreRatio(m, w);
    }
    UnitRatio(k);
  }

  /** Trained as intended, the score of ("the", w) is (count("the" w) + 1) / (count(w) + 1). */
  lemma ScoreTrainedIntended(c: Corpus, w: string)
    ensures Score(TrainIntended(c), [The, w]).Ok?
    ensures Score(TrainIntended(c), [The, w]).value.value == Smoothed(multiset(CorpusBigrams(c))[(The, w)], multiset(Tokens(c))[w])
  {
    var m, pairs, tokens := TrainIntended(c), multiset(CorpusBigrams(c)), multiset(Tokens(c));
    assert Tabulates(m.bigramCounts, pairs) by {
      TrainIntendedBigrams(c);
    }
    assert Tabulates(m.unigramCounts, tokens) by {
      TrainIntendedUnigrams(c);
    }
    ScoreTabulated(m, pairs, tokens, w);
  }

  /** On tables that count the multisets `pairs` and `tokens`, the score of ("the", w) is their smoothed ratio. */
  lemma ScoreTabulated(m: Model, pairs: multiset<Bigram>, tokens: multiset<string>, w: string)
    requires Tabulates(m.bigramCounts, pairs) && Tabulates(m.unigramCounts, tokens)
    ensures Score(m, [The, w]).Ok?
    ensures Score(m, [The, w]).value.value == Smoothed(pairs[(The, w)], tokens[w])
  {
    assert Get(m.bigramCounts, (The, w)) == pairs[(The, w)];
    assert Get(m.unigramCounts, w) == tokens[w];
    ScoreRatio(m, w);
  }
}
