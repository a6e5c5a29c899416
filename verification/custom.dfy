/**
 `CustomLanguageModel`: a stupid-backoff model over trigrams. Training counts
 tokens, their number, and the adjacent pairs and triples within sentences.
 Scoring uses, per token, the trigram estimate `count(triple) / count(context
 pair)` when the triple was seen, else `alpha * count(pair) / count(previous)`
 when the pair was seen, else the discounted add-one unigram estimate
 `alpha * alpha * (count(token) + 1) / (unigramTotal + len(unigramCounts))`.
 */
module CustomModel {
  import opened Results
  import opened Counts
  import opened NGrams
  import opened Scoring

  datatype Model = Model(trigramCounts: Table<Trigram>, bigramCounts: Table<Bigram>,
                         unigramCounts: Table<string>, unigramTotal: nat)

  /** The state `__init__` creates before calling `train`. */
  const Untrained: Model := Model(map[], map[], map[], 0)

  /** The body of the training loop for one token, given `holeWord` and `previousWord`. */
  function Observe(m: Model, hole: Option<string>, prev: Option<string>, token: string): Model
  {
    var m1 := m.(unigramCounts := Bump(m.unigramCounts, token), unigramTotal := m.unigramTotal + 1);
    if prev.None? then m1
    else
      var m2 := m1.(bigramCounts := Bump(m.bigramCounts, (prev.value, token)));
      if hole.None? then m2 else m2.(trigramCounts := Bump(m.trigramCounts, (hole.value, prev.value, token)))
  }

  /** What one training step does to each table. */
  lemma ObserveTables(m: Model, hole: Option<string>, prev: Option<string>, token: string)
    ensures Observe(m, hole, prev, token).unigramCounts == Bump(m.unigramCounts, token)
    ensures Observe(m, hole, prev, token).bigramCounts ==
              if prev.None? then m.bigramCounts else Bump(m.bigramCounts, (prev.value, token))
    ensures Observe(m, hole, prev, token).trigramCounts ==
              if prev.None? || hole.None? then m.trigramCounts else Bump(m.trigramCounts, (hole.value, prev.value, token))
  {
  }

  /** The model after one sentence, with the loop variables `holeWord` and `previousWord` at its end. */
  datatype Pass = Pass(model: Model, hole: Option<string>, prev: Option<string>)

  /** The inner training loop over one sentence; both loop variables start as `None`. */
  function TrainSentence(m: Model, s: Sentence): (r: Pass)
    ensures r.prev == LastOf(s)
    ensures r.hole == (if |s| >= 2 then Some(s[|s| - 2]) else None)
    ensures r.model.unigramTotal == m.unigramTotal + |s|
    decreases |s|
  {
    if |s| == 0 then Pass(m, None, None)
    else
      var p := TrainSentence(m, s[..|s| - 1]);
      Pass(Observe(p.model, p.hole, p.prev, s[|s| - 1]), p.prev, Some(s[|s| - 1]))
  }

  /** One sentence adds each of its tokens to `unigramCounts` once per occurrence. */
  lemma {:induction false} TrainSentenceUnigrams(m: Model, s: Sentence)
    ensures Adds(m.unigramCounts, TrainSentence(m, s).model.unigramCounts, s)
    decreases |s|
  {
    if |s| > 0 {
      var s', x := s[..|s| - 1], s[|s| - 1];
      var p := TrainSentence(m, s');
      assert TrainSentence(m, s).model.unigramCounts == Bump(p.model.unigramCounts, x) by {
        ObserveTables(p.model, p.hole, p.prev, x);
      }
      assert Adds(m.unigramCounts, Bump(p.model.unigramCounts, x), s' + [x]) by {
        TrainSentenceUnigrams(m, s');
        AddsBump(m.unigramCounts, p.model.unigramCounts, s', x);
      }
      assert s' + [x] == s;
    }
  }

  /** One sentence adds each of its adjacent pairs to `bigramCounts` once per occurrence. */
  lemma {:induction false} TrainSentenceBigrams(m: Model, s: Sentence)
    ensures Adds(m.bigramCounts, TrainSentence(m, s).model.bigramCounts, Bigrams(s))
    decreases |s|
  {
    if |s| > 0 {
      var s', x := s[..|s| - 1], s[|s| - 1];
      var p := TrainSentence(m, s');
      var after := TrainSentence(m, s).model.bigramCounts;
      assert Bigrams(s) == Bigrams(s') + (if |s| >= 2 then [(s[|s| - 2], x)] else []) by {
        BigramsStep(s);
      }
      if |s| >= 2 {
        assert after == Bump(p.model.bigramCounts, (s[|s| - 2], x)) by {
          assert p.prev == Some(s[|s| - 2]);
          ObserveTables(p.model, p.hole, p.prev, x);
        }
        assert Adds(m.bigramCounts, after, Bigrams(s') + [(s[|s| - 2], x)]) by {
          TrainSentenceBigrams(m, s');
          AddsBump(m.bigramCounts, p.model.bigramCounts, Bigrams(s'), (s[|s| - 2], x));
        }
      } else {
        assert after == p.model.bigramCounts by {
          assert p.prev == None;
          ObserveTables(p.model, p.hole, p.prev, x);
        }
        assert Bigrams(s) == Bigrams(s');
        TrainSentenceBigrams(m, s');
      }
    }
  }

  /** One sentence adds each of its adjacent triples to `trigramCounts` once per occurrence. */
  lemma {:induction false} TrainSentenceTrigrams(m: Model, s: Sentence)
    ensures Adds(m.trigramCounts, TrainSentence(m, s).model.trigramCounts, Trigrams(s))
    decreases |s|
  {
    if |s| > 0 {
      var s', x := s[..|s| - 1], s[|s| - 1];
      var p := TrainSentence(m, s');
      var after := TrainSentence(m, s).model.trigramCounts;
      assert Trigrams(s) == Trigrams(s') + (if |s| >= 3 then [(s[|s| - 3], s[|s| - 2], x)] else []) by {
        TrigramsStep(s);
      }
      if |s| >= 3 {
        assert after == Bump(p.model.trigramCounts, (s[|s| - 3], s[|s| - 2], x)) by {
          assert p.hole == Some(s[|s| - 3]) && p.prev == Some(s[|s| - 2]);
          ObserveTables(p.model, p.hole, p.prev, x);
        }
        assert Adds(m.trigramCounts, after, Trigrams(s') + [(s[|s| - 3], s[|s| - 2], x)]) by {
          TrainSentenceTrigrams(m, s');
          AddsBump(m.trigramCounts, p.model.trigramCounts, Trigrams(s'), (s[|s| - 3], s[|s| - 2], x));
        }
      } else {
        assert after == p.model.trigramCounts by {
          assert p.hole == None;
          ObserveTables(p.model, p.hole, p.prev, x);
        }
        assert Trigrams(s) == Trigrams(s');
        TrainSentenceTrigrams(m, s');
      }
    }
  }

  /** `train` on a fresh model: `unigramTotal` is the number of tokens of the corpus. */
  function Train(c: Corpus): (r: Model)
    ensures r.unigramTotal == |Tokens(c)|
    decreases |c|
  {
    if |c| == 0 then Untrained else TrainSentence(Train(c[..|c| - 1]), c[|c| - 1]).model
  }

  /** After training, the count of every token is its number of occurrences in the corpus. */
  lemma {:induction false} TrainUnigrams(c: Corpus)
    ensures Tabulates(Train(c).unigramCounts, multiset(Tokens(c)))
    decreases |c|
  {
    if |c| > 0 {
      TrainUnigrams(c[..|c| - 1]);
      var m := Train(c[..|c| - 1]);
      TrainSentenceUnigrams(m, c[|c| - 1]);
      TabulatesAdds(m.unigramCounts, TrainSentence(m, c[|c| - 1]).model.unigramCounts, multiset(Tokens(c[..|c| - 1])), c[|c| - 1]);
    }
  }

  /** After training, the count of every pair is its number of occurrences within sentences. */
  lemma {:induction false} TrainBigrams(c: Corpus)
    ensures Tabulates(Train(c).bigramCounts, multiset(CorpusBigrams(c)))
    decreases |c|
  {
    if |c| > 0 {
      TrainBigrams(c[..|c| - 1]);
      var m := Train(c[..|c| - 1]);
      TrainSentenceBigrams(m, c[|c| - 1]);
      TabulatesAdds(m.bigramCounts, TrainSentence(m, c[|c| - 1]).model.bigramCounts, multiset(CorpusBigrams(c[..|c| - 1])), Bigrams(c[|c| - 1]));
    }
  }

  /** After training, the count of every triple is its number of occurrences within sentences. */
  lemma {:induction false} TrainTrigrams(c: Corpus)
    ensures Tabulates(Train(c).trigramCounts, multiset(CorpusTrigrams(c)))
    decreases |c|
  {
    if |c| > 0 {
      TrainTrigrams(c[..|c| - 1]);
      var m := Train(c[..|c| - 1]);
      TrainSentenceTrigrams(m, c[|c| - 1]);
      TabulatesAdds(m.trigramCounts, TrainSentence(m, c[|c| - 1]).model.trigramCounts, multiset(CorpusTrigrams(c[..|c| - 1])), Trigrams(c[|c| - 1]));
    }
  }

  /**
   The state invariant: every seen triple is counted at least once and at most
   as often as its context pair, every seen pair at least once and at most as
   often as its first token, and no token more often than `unigramTotal`.
   */
  ghost predicate Valid(m: Model)
  {
    && (forall k :: k in m.trigramCounts ==> 1 <= m.trigramCounts[k] <= Get(m.bigramCounts, (k.0, k.1)))
    && (forall k :: k in m.bigramCounts ==> 1 <= m.bigramCounts[k] <= Get(m.unigramCounts, k.0))
    && (forall w :: w in m.unigramCounts ==> m.unigramCounts[w] <= m.unigramTotal)
  }

  lemma TrainValid(c: Corpus)
    ensures Valid(Train(c))
  {
    var m := Train(c);
    TrainUnigrams(c);
    TrainBigrams(c);
    TrainTrigrams(c);
    forall k | k in m.trigramCounts
      ensures 1 <= m.trigramCounts[k] <= Get(m.bigramCounts, (k.0, k.1))
    {
      TrigramAtMostContext(c, k.0, k.1, k.2);
    }
    forall k | k in m.bigramCounts
      ensures 1 <= m.bigramCounts[k] <= Get(m.unigramCounts, k.0)
    {
      BigramAtMostContext(c, k.0, k.1);
    }
    forall w | w in m.unigramCounts
      ensures m.unigramCounts[w] <= m.unigramTotal
    {
      CountAtMostLength(Tokens(c), w);
    }
  }

  /** The scoring loop's state between tokens: the (read-inserted) tables, `holeWord` and `previousWord`. */
  datatype Scan = Scan(model: Model, hole: Option<string>, prev: Option<string>)

  /** The test of line 41: the triple (holeWord, previousWord, token) is a key of `trigramCounts`. */
  predicate TriHit(sc: Scan, token: string)
  {
    sc.hole.Some? && sc.prev.Some? && (sc.hole.value, sc.prev.value, token) in sc.model.trigramCounts
  }

  /** The test of line 45: the pair (previousWord, token) is a key of `bigramCounts`. */
  predicate BiHit(sc: Scan, token: string)
  {
    sc.prev.Some? && (sc.prev.value, token) in sc.model.bigramCounts
  }

  /** The key the bigram and unigram branches read from `unigramCounts`. */
  function UniKey(sc: Scan, token: string): string
  {
    if BiHit(sc, token) then sc.prev.value else token
  }

  /** The contribution the loop body adds for one token. */
  function TokenTerm(sc: Scan, token: string): Term
  {
    if TriHit(sc, token) then
      Ratio(sc.model.trigramCounts[(sc.hole.value, sc.prev.value, token)],
            Read(sc.model.bigramCounts, (sc.hole.value, sc.prev.value)).0)
    else if BiHit(sc, token) then
      Scaled(Alpha, Ratio(sc.model.bigramCounts[(sc.prev.value, token)], Read(sc.model.unigramCounts, sc.prev.value).0))
    else
      var read := Read(sc.model.unigramCounts, token);
      Scaled(AlphaSquared, Ratio(read.0 + 1, sc.model.unigramTotal + |read.1.Keys|))
  }

  /** The state after the loop body: the read key is now present, and the history shifts by one token. */
  function Step(sc: Scan, token: string): Scan
  {
    var model :=
      if TriHit(sc, token) then
        sc.model.(bigramCounts := Read(sc.model.bigramCounts, (sc.hole.value, sc.prev.value)).1)
      else
        sc.model.(unigramCounts := Read(sc.model.unigramCounts, UniKey(sc, token)).1);
    Scan(model, sc.prev, Some(token))
  }

  /** The loop state after the first n tokens. Only `bigramCounts` and `unigramCounts` are read with `[]`. */
  function StateAfter(m: Model, s: seq<string>, n: nat): (r: Scan)
    requires n <= |s|
    ensures r.prev == (if n == 0 then None else Some(s[n - 1]))
    ensures r.hole == (if n <= 1 then None else Some(s[n - 2]))
    ensures r.model.trigramCounts == m.trigramCounts
    ensures r.model.unigramTotal == m.unigramTotal
  {
    if n == 0 then Scan(m, None, None) else Step(StateAfter(m, s, n - 1), s[n - 1])
  }

  /** What `score` computes: the terms it adds up, and the model it leaves behind. */
  datatype Scored = Scored(terms: seq<Term>, model: Model)

  /** `score(s)`: term j is added with the state the first j tokens left. */
  function Score(m: Model, s: seq<string>): (r: Scored)
    ensures |r.terms| == |s|
  {
    Scored(seq(|s|, j requires 0 <= j < |s| => TokenTerm(StateAfter(m, s, j), s[j])), StateAfter(m, s, |s|).model)
  }

  /** Every seen triple's context pair is a key of `bigramCounts`; then scoring never inserts into it. */
  ghost predicate ContextsKnown(m: Model)
  {
    forall k :: k in m.trigramCounts ==> (k.0, k.1) in m.bigramCounts
  }

  /** Token j, with its two predecessors, forms a triple seen in training. */
  predicate TrigramHit(m: Model, s: seq<string>, j: nat)
    requires j < |s|
  {
    2 <= j && (s[j - 2], s[j - 1], s[j]) in m.trigramCounts
  }

  /** Token j, with its predecessor, forms a pair seen in training. */
  predicate BigramHit(m: Model, s: seq<string>, j: nat)
    requires j < |s|
  {
    1 <= j && (s[j - 1], s[j]) in m.bigramCounts
  }

  /** The unigram key iteration j reads when it misses the trigram table. */
  function KeyRead(m: Model, s: seq<string>, j: nat): string
    requires j < |s|
  {
    if BigramHit(m, s, j) then s[j - 1] else s[j]
  }

  /** The unigram keys the first n iterations read: none on a trigram hit. */
  function KeysRead(m: Model, s: seq<string>, n: nat): set<string>
    requires n <= |s|
  {
    if n == 0 then {}
    else if TrigramHit(m, s, n - 1) then KeysRead(m, s, n - 1)
    else KeysRead(m, s, n - 1) + {KeyRead(m, s, n - 1)}
  }

  /** `unigramTotal + len(unigramCounts)` while token j is scored: the keys read before, and the token itself. */
  function UniDen(m: Model, s: seq<string>, j: nat): nat
    requires j < |s|
  {
    m.unigramTotal + |m.unigramCounts.Keys + (KeysRead(m, s, j) + {s[j]})|
  }

  /** A state that differs from m only by zero counts for the unigram keys `read`. */
  ghost predicate ReadFrom(m: Model, sc: Scan, read: set<string>)
  {
    && sc.model.trigramCounts == m.trigramCounts
    && sc.model.bigramCounts == m.bigramCounts
    && sc.model.unigramTotal == m.unigramTotal
    && sc.model.unigramCounts.Keys == m.unigramCounts.Keys + read
    && OnlyZerosAdded(m.unigramCounts, sc.model.unigramCounts)
  }

  /** One loop body keeps a state `ReadFrom` m, adding the unigram key it reads, if any. */
  lemma StepFrom(m: Model, sc: Scan, token: string, read: set<string>)
    requires ContextsKnown(m) && ReadFrom(m, sc, read)
    ensures TriHit(sc, token) ==> ReadFrom(m, Step(sc, token), read)
    ensures !TriHit(sc, token) ==> ReadFrom(m, Step(sc, token), read + {UniKey(sc, token)})
  {
    if TriHit(sc, token) {
      ReadEffect(sc.model.bigramCounts, (sc.hole.value, sc.prev.value));
    } else {
      var k := UniKey(sc, token);
      ReadEffect(sc.model.unigramCounts, k);
      assert Step(sc, token).model.unigramCounts.Keys == m.unigramCounts.Keys + (read + {k});
    }
  }

  /** Under `ContextsKnown`, the loop only inserts the unigram keys it reads, each with count zero. */
  lemma {:induction false} StateAfterReads(m: Model, s: seq<string>, n: nat)
    requires ContextsKnown(m) && n <= |s|
    ensures ReadFrom(m, StateAfter(m, s, n), KeysRead(m, s, n))
  {
    if n > 0 {
      StateAfterReads(m, s, n - 1);
      var sc := StateAfter(m, s, n - 1);
      StepFrom(m, sc, s[n - 1], KeysRead(m, s, n - 1));
      assert TriHit(sc, s[n - 1]) == TrigramHit(m, s, n - 1);
      assert BiHit(sc, s[n - 1]) == BigramHit(m, s, n - 1);
      assert UniKey(sc, s[n - 1]) == KeyRead(m, s, n - 1);
    }
  }

  /** Term j is the loop body's term for the state the first j tokens left. */
  lemma ScoreTermAt(m: Model, s: seq<string>, j: nat)
    requires j < |s|
    ensures Score(m, s).terms[j] == TokenTerm(StateAfter(m, s, j), s[j])
  {
  }

  /** On a trigram hit, the loop body's term is the triple's count over its context pair's. */
  lemma TokenTermTri(m: Model, sc: Scan, token: string, read: set<string>)
    requires ReadFrom(m, sc, read) && TriHit(sc, token)
    ensures TokenTerm(sc, token) ==
              Ratio(m.trigramCounts[(sc.hole.value, sc.prev.value, token)], Get(m.bigramCounts, (sc.hole.value, sc.prev.value)))
  {
  }

  /** On a bigram hit only, it is alpha times the pair's count over the count of `previousWord`. */
  lemma TokenTermBi(m: Model, sc: Scan, token: string, read: set<string>)
    requires ReadFrom(m, sc, read) && !TriHit(sc, token) && BiHit(sc, token)
    ensures TokenTerm(sc, token) ==
              Scaled(Alpha, Ratio(m.bigramCounts[(sc.prev.value, token)], Get(m.unigramCounts, sc.prev.value)))
  {
    ReadEffect(sc.model.unigramCounts, sc.prev.value);
  }

  /** Otherwise it is alpha squared times the token's count plus one, over the total plus the keys now present. */
  lemma TokenTermUni(m: Model, sc: Scan, token: string, read: set<string>)
    requires ReadFrom(m, sc, read) && !TriHit(sc, token) && !BiHit(sc, token)
    ensures TokenTerm(sc, token) ==
              Scaled(AlphaSquared, Ratio(Get(m.unigramCounts, token) + 1, m.unigramTotal + |m.unigramCounts.Keys + (read + {token})|))
  {
    ReadEffect(sc.model.unigramCounts, token);
    assert sc.model.unigramCounts.Keys + {token} == m.unigramCounts.Keys + (read + {token});
  }

  /** The trigram branch: the triple's count over its context pair's count. */
  lemma TermTri(m: Model, s: seq<string>, j: nat)
    requires ContextsKnown(m) && j < |s| && TrigramHit(m, s, j)
    ensures TokenTerm(StateAfter(m, s, j), s[j]) ==
              Ratio(m.trigramCounts[(s[j - 2], s[j - 1], s[j])], Get(m.bigramCounts, (s[j - 2], s[j - 1])))
  {
    StateAfterReads(m, s, j);
    TokenTermTri(m, StateAfter(m, s, j), s[j], KeysRead(m, s, j));
  }

  /** The bigram branch: alpha times the pair's count over the previous token's count. */
  lemma TermBi(m: Model, s: seq<string>, j: nat)
    requires ContextsKnown(m) && j < |s| && !TrigramHit(m, s, j) && BigramHit(m, s, j)
    ensures TokenTerm(StateAfter(m, s, j), s[j]) ==
              Scaled(Alpha, Ratio(m.bigramCounts[(s[j - 1], s[j])], Get(m.unigramCounts, s[j - 1])))
  {
    StateAfterReads(m, s, j);
    var sc := StateAfter(m, s, j);
    assert TriHit(sc, s[j]) == TrigramHit(m, s, j);
    TokenTermBi(m, sc, s[j], KeysRead(m, s, j));
  }

  /**
   The unigram branch: alpha squared times the token's count plus one, over
   `unigramTotal` plus the number of unigram keys once tokens 0..j have been
   read, token j included.
   */
  lemma TermUni(m: Model, s: seq<string>, j: nat)
    requires ContextsKnown(m) && j < |s| && !TrigramHit(m, s, j) && !BigramHit(m, s, j)
    ensures TokenTerm(StateAfter(m, s, j), s[j]) ==
              Scaled(AlphaSquared, Ratio(Get(m.unigramCounts, s[j]) + 1, UniDen(m, s, j)))
  {
    var t := TokenTerm(StateAfter(m, s, j), s[j]);
    assert t.factor == AlphaSquared * 1.0 && t.count == Get(m.unigramCounts, s[j]) + 1 && t.den == UniDen(m, s, j) by {
      StateAfterReads(m, s, j);
      TokenTermUni(m, StateAfter(m, s, j), s[j], KeysRead(m, s, j));
    }
  }

  /** The contribution of token j, in terms of the tables before the call. */
  function Expected(m: Model, s: seq<string>, j: nat): Term
    requires j < |s|
  {
    if TrigramHit(m, s, j) then Ratio(m.trigramCounts[(s[j - 2], s[j - 1], s[j])], Get(m.bigramCounts, (s[j - 2], s[j - 1])))
    else if BigramHit(m, s, j) then Scaled(Alpha, Ratio(m.bigramCounts[(s[j - 1], s[j])], Get(m.unigramCounts, s[j - 1])))
    else Scaled(AlphaSquared, Ratio(Get(m.unigramCounts, s[j]) + 1, UniDen(m, s, j)))
  }

  /**
   Term j of the score belongs to token j and follows the first branch whose
   n-gram was seen: trigram, then bigram (for j >= 1), then unigram.
   */
  lemma ScoreTerm(m: Model, s: seq<string>, j: nat)
    requires ContextsKnown(m) && j < |s|
    ensures Score(m, s).terms[j] == Expected(m, s, j)
  {
    ScoreTermAt(m, s, j);
    if TrigramHit(m, s, j) {
      TermTri(m, s, j);
    } else if BigramHit(m, s, j) {
      TermBi(m, s, j);
    } else {
      TermUni(m, s, j);
    }
  }

  /** A valid model knows the context pair of every triple it has seen. */
  lemma ValidContextsKnown(m: Model)
    requires Valid(m)
    ensures ContextsKnown(m)
  {
    forall k | k in m.trigramCounts
      ensures (k.0, k.1) in m.bigramCounts
    {
      assert Get(m.bigramCounts, (k.0, k.1)) >= 1;
    }
  }

  /** The bound on the factor of term j, by branch: 1, alpha or alpha squared. */
  function Bound(m: Model, s: seq<string>, j: nat): real
    requires j < |s|
  {
    if TrigramHit(m, s, j) then 1.0 else if BigramHit(m, s, j) then Alpha else AlphaSquared
  }

  /** On a valid model the factor of each term is at most its branch's bound. */
  lemma TermSafe(m: Model, s: seq<string>, j: nat)
    requires Valid(m) && j < |s|
    ensures Within(Score(m, s).terms[j], Bound(m, s, j))
  {
    ValidContextsKnown(m);
    ScoreTerm(m, s, j);
    ExpectedSafe(m, s, j);
  }

  /** The closed form of each branch respects that branch's bound. */
  lemma ExpectedSafe(m: Model, s: seq<string>, j: nat)
    requires Valid(m) && j < |s|
    ensures Within(Expected(m, s, j), Bound(m, s, j))
  {
    AlphaBounds();
    if TrigramHit(m, s, j) {
      assert Get(m.bigramCounts, (s[j - 2], s[j - 1])) >= m.trigramCounts[(s[j - 2], s[j - 1], s[j])];
    } else if BigramHit(m, s, j) {
      ScaledWithin(Alpha, Ratio(m.bigramCounts[(s[j - 1], s[j])], Get(m.unigramCounts, s[j - 1])));
    } else {
      var keys := m.unigramCounts.Keys + (KeysRead(m, s, j) + {s[j]});
      assert s[j] in keys;
      assert |keys| >= 1;
      assert Get(m.unigramCounts, s[j]) <= m.unigramTotal;
      ScaledWithin(AlphaSquared, Ratio(Get(m.unigramCounts, s[j]) + 1, UniDen(m, s, j)));
    }
  }

  /** Scoring keeps a valid model valid: it only adds zero unigram counts. */
  lemma ScoreKeepsValid(m: Model, s: seq<string>)
    requires Valid(m)
    ensures Valid(Score(m, s).model)
  {
    ValidContextsKnown(m);
    var r := Score(m, s).model;
    StateAfterReads(m, s, |s|);
    forall k | k in r.bigramCounts
      ensures 1 <= r.bigramCounts[k] <= Get(r.unigramCounts, k.0)
    {
      assert Get(r.unigramCounts, k.0) == Get(m.unigramCounts, k.0);
    }
    forall w | w in r.unigramCounts
      ensures r.unigramCounts[w] <= r.unigramTotal
    {
      assert r.unigramCounts[w] == Get(r.unigramCounts, w) == Get(m.unigramCounts, w);
    }
  }

  /**
   On a valid model every logarithm argument is positive, each factor is at
   most 1, alpha or alpha squared by branch, and the model stays valid.
   */
  lemma ScoreSafe(m: Model, s: seq<string>)
    requires Valid(m)
    ensures forall j :: 0 <= j < |s| ==> Within(Score(m, s).terms[j], Bound(m, s, j))
    ensures Valid(Score(m, s).model)
  {
    forall j | 0 <= j < |s|
      ensures Within(Score(m, s).terms[j], Bound(m, s, j))
    {
      TermSafe(m, s, j);
    }
    ScoreKeepsValid(m, s);
  }

  /** A valid model's score is at most 0 under any increasing logarithm. */
  lemma ValidScoreNonPositive(m: Model, s: seq<string>, log: real -> real)
    requires Valid(m) && Monotone(log)
    ensures LogScore(Score(m, s).terms, log) <= 0.0
  {
    AlphaBounds();
    forall j | 0 <= j < |s|
      ensures Within(Score(m, s).terms[j], 1.0)
    {
      TermSafe(m, s, j);
      WithinWeaken(Score(m, s).terms[j], Bound(m, s, j), 1.0);
    }
    LogScoreNonPositive(Score(m, s).terms, log);
  }

  /** A trained model's score is at most 0 under any increasing logarithm. */
  lemma ScoreNonPositive(c: Corpus, s: seq<string>, log: real -> real)
    requires Monotone(log)
    ensures LogScore(Score(Train(c), s).terms, log) <= 0.0
  {
    TrainValid(c);
    ValidScoreNonPositive(Train(c), s, log);
  }

  /**
   The back-off in corpus terms: after training, a token whose triple with its
   two predecessors occurs in the corpus contributes the triple's count over
   the context pair's; else one whose pair with its predecessor occurs
   contributes alpha times the pair's count over the predecessor's; any other
   token contributes a numerator of alpha squared times its count plus one.
   */
  lemma ScoreTrained(c: Corpus, s: seq<string>, j: nat)
    requires j < |s|
    ensures 2 <= j && (s[j - 2], s[j - 1], s[j]) in multiset(CorpusTrigrams(c)) ==>
              Score(Train(c), s).terms[j] ==
                Ratio(multiset(CorpusTrigrams(c))[(s[j - 2], s[j - 1], s[j])], multiset(CorpusBigrams(c))[(s[j - 2], s[j - 1])])
    ensures !(2 <= j && (s[j - 2], s[j - 1], s[j]) in multiset(CorpusTrigrams(c))) &&
            1 <= j && (s[j - 1], s[j]) in multiset(CorpusBigrams(c)) ==>
              Score(Train(c), s).terms[j] ==
                Scaled(Alpha, Ratio(multiset(CorpusBigrams(c))[(s[j - 1], s[j])], multiset(Tokens(c))[s[j - 1]]))
    ensures !(2 <= j && (s[j - 2], s[j - 1], s[j]) in multiset(CorpusTrigrams(c))) &&
            !(1 <= j && (s[j - 1], s[j]) in multiset(CorpusBigrams(c))) ==>
              Score(Train(c), s).terms[j].factor == AlphaSquared && Score(Train(c), s).terms[j].count == multiset(Tokens(c))[s[j]] + 1
  {
    var m := Train(c);
    assert Score(m, s).terms[j] == Expected(m, s, j) by {
      TrainValid(c);
      ValidContextsKnown(m);
      ScoreTerm(m, s, j);
    }
    TrainUnigrams(c);
    TrainBigrams(c);
    TrainTrigrams(c);
    ExpectedTabulated(m, c, s, j);
  }

  /** `Expected` over tables that tabulate a corpus, in the corpus's own counts. */
  lemma ExpectedTabulated(m: Model, c: Corpus, s: seq<string>, j: nat)
    requires j < |s|
    requires Tabulates(m.unigramCounts, multiset(Tokens(c)))
    requires Tabulates(m.bigramCounts, multiset(CorpusBigrams(c)))
    requires Tabulates(m.trigramCounts, multiset(CorpusTrigrams(c)))
    ensures TrigramHit(m, s, j) <==> 2 <= j && (s[j - 2], s[j - 1], s[j]) in multiset(CorpusTrigrams(c))
    ensures BigramHit(m, s, j) <==> 1 <= j && (s[j - 1], s[j]) in multiset(CorpusBigrams(c))
    ensures TrigramHit(m, s, j) ==>
              Expected(m, s, j) ==
                Ratio(multiset(CorpusTrigrams(c))[(s[j - 2], s[j - 1], s[j])], multiset(CorpusBigrams(c))[(s[j - 2], s[j - 1])])
    ensures !TrigramHit(m, s, j) && BigramHit(m, s, j) ==>
              Expected(m, s, j) ==
                Scaled(Alpha, Ratio(multiset(CorpusBigrams(c))[(s[j - 1], s[j])], multiset(Tokens(c))[s[j - 1]]))
    ensures !TrigramHit(m, s, j) && !BigramHit(m, s, j) ==>
              Expected(m, s, j).factor == AlphaSquared && Expected(m, s, j).count == multiset(Tokens(c))[s[j]] + 1
  {
    AlphaBounds();
    if TrigramHit(m, s, j) {
      var k := (s[j - 2], s[j - 1]);
      assert Get(m.bigramCounts, k) == multiset(CorpusBigrams(c))[k];
    } else if BigramHit(m, s, j) {
      assert Get(m.unigramCounts, s[j - 1]) == multiset(Tokens(c))[s[j - 1]];
    } else {
      assert Get(m.unigramCounts, s[j]) == multiset(Tokens(c))[s[j]];
    }
  }
}
