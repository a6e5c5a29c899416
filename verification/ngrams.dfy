/**
 The reference account of what a corpus contains: its tokens, and the bigram
 and trigram occurrences inside each sentence. Training is proved to tabulate
 exactly these occurrences. A sentence is a sequence of word tokens and a
 corpus a sequence of sentences; n-grams never span two sentences.
 */
module NGrams {

  type Sentence = seq<string>
  type Corpus = seq<Sentence>
  type Bigram = (string, string)
  type Trigram = (string, string, string)

  /** The adjacent pairs of one sentence, left to right. */
  function Bigrams(s: Sentence): (r: seq<Bigram>)
    ensures |r| == if |s| == 0 then 0 else |s| - 1
  {
    if |s| == 0 then [] else seq(|s| - 1, i requires 0 <= i < |s| - 1 => (s[i], s[i + 1]))
  }

  /** The adjacent triples of one sentence, left to right. */
  function Trigrams(s: Sentence): (r: seq<Trigram>)
    ensures |r| == if |s| < 2 then 0 else |s| - 2
  {
    if |s| < 2 then [] else seq(|s| - 2, i requires 0 <= i < |s| - 2 => (s[i], s[i + 1], s[i + 2]))
  }

  /** Every token of the corpus, sentence after sentence. */
  function Tokens(c: Corpus): seq<string>
    decreases |c|
  {
    if |c| == 0 then [] else Tokens(c[..|c| - 1]) + c[|c| - 1]
  }

  /** Every bigram occurrence of the corpus, taken within single sentences. */
  function CorpusBigrams(c: Corpus): seq<Bigram>
    decreases |c|
  {
    if |c| == 0 then [] else CorpusBigrams(c[..|c| - 1]) + Bigrams(c[|c| - 1])
  }

  /** Every trigram occurrence of the corpus, taken within single sentences. */
  function CorpusTrigrams(c: Corpus): seq<Trigram>
    decreases |c|
  {
    if |c| == 0 then [] else CorpusTrigrams(c[..|c| - 1]) + Trigrams(c[|c| - 1])
  }

  /** The number of adjacent pairs a corpus holds: one fewer than each non-empty sentence's length. */
  function PairTotal(c: Corpus): nat
    decreases |c|
  {
    if |c| == 0 then 0 else PairTotal(c[..|c| - 1]) + (if |c[|c| - 1]| == 0 then 0 else |c[|c| - 1]| - 1)
  }

  function Context1(b: Bigram): string { b.0 }
  function Context2(t: Trigram): Bigram { (t.0, t.1) }

  function MapSeq<A, B>(f: A -> B, xs: seq<A>): (r: seq<B>)
    ensures |r| == |xs|
    ensures forall i :: 0 <= i < |xs| ==> r[i] == f(xs[i])
  {
    seq(|xs|, i requires 0 <= i < |xs| => f(xs[i]))
  }

  /** Appending one token to a sentence appends exactly one bigram, made of the last two tokens. */
  lemma BigramsSnoc(s: Sentence)
    requires |s| >= 2
    ensures Bigrams(s) == Bigrams(s[..|s| - 1]) + [(s[|s| - 2], s[|s| - 1])]
  {
    var init := s[..|s| - 1];
    assert forall i :: 0 <= i < |s| - 2 ==> Bigrams(s)[i] == Bigrams(init)[i];
  }

  /** Appending one token appends one bigram, unless the sentence had no token before. */
  lemma BigramsStep(s: Sentence)
    requires |s| >= 1
    ensures Bigrams(s) == Bigrams(s[..|s| - 1]) + (if |s| >= 2 then [(s[|s| - 2], s[|s| - 1])] else [])
  {
    if |s| >= 2 { BigramsSnoc(s); }
  }

  /** Appending one token appends one trigram, unless the sentence had fewer than two tokens before. */
  lemma TrigramsStep(s: Sentence)
    requires |s| >= 1
    ensures Trigrams(s) == Trigrams(s[..|s| - 1]) + (if |s| >= 3 then [(s[|s| - 3], s[|s| - 2], s[|s| - 1])] else [])
  {
    if |s| >= 3 { TrigramsSnoc(s); }
  }

  /** Appending one token to a sentence appends exactly one trigram, made of the last three tokens. */
  lemma TrigramsSnoc(s: Sentence)
    requires |s| >= 3
    ensures Trigrams(s) == Trigrams(s[..|s| - 1]) + [(s[|s| - 3], s[|s| - 2], s[|s| - 1])]
  {
    var init := s[..|s| - 1];
    assert forall i :: 0 <= i < |s| - 3 ==> Trigrams(s)[i] == Trigrams(init)[i];
  }

  /** The corpus holds one bigram per pair of neighbouring tokens in a sentence. */
  lemma {:induction false} CorpusBigramCount(c: Corpus)
    ensures |CorpusBigrams(c)| == PairTotal(c)
    decreases |c|
  {
    if |c| > 0 {
      CorpusBigramCount(c[..|c| - 1]);
    }
  }

  /** Words a and b stand next to each other in sentence s. */
  ghost predicate AdjacentInSentence(s: Sentence, a: string, b: string)
  {
    exists i :: 0 <= i < |s| - 1 && s[i] == a && s[i + 1] == b
  }

  /** Words a and b stand next to each other in some sentence of c. */
  ghost predicate AdjacentIn(c: Corpus, a: string, b: string)
  {
    exists j :: 0 <= j < |c| && AdjacentInSentence(c[j], a, b)
  }

  /** The bigrams of one sentence are exactly its adjacent word pairs. */
  lemma BigramsAdjacent(s: Sentence, a: string, b: string)
    ensures (a, b) in Bigrams(s) <==> AdjacentInSentence(s, a, b)
  {
    if (a, b) in Bigrams(s) {
      var i :| 0 <= i < |Bigrams(s)| && Bigrams(s)[i] == (a, b);
      assert s[i] == a && s[i + 1] == b;
    }
    if AdjacentInSentence(s, a, b) {
      var i :| 0 <= i < |s| - 1 && s[i] == a && s[i + 1] == b;
      assert Bigrams(s)[i] == (a, b);
    }
  }

  /** Adjacency in a corpus is adjacency in its prefix or in its last sentence. */
  lemma AdjacentInLast(c: Corpus, a: string, b: string)
    requires |c| > 0
    ensures AdjacentIn(c, a, b) <==> AdjacentIn(c[..|c| - 1], a, b) || AdjacentInSentence(c[|c| - 1], a, b)
  {
    var init := c[..|c| - 1];
    if AdjacentIn(c, a, b) {
      var j :| 0 <= j < |c| && AdjacentInSentence(c[j], a, b);
      if j < |c| - 1 {
        assert init[j] == c[j];
      }
    }
    if AdjacentIn(init, a, b) {
      var j :| 0 <= j < |init| && AdjacentInSentence(init[j], a, b);
      assert c[j] == init[j];
    }
  }

  /**
   A pair is a corpus bigram exactly when its two words stand next to each
   other in ONE sentence: no bigram spans a sentence boundary.
   */
  lemma {:induction false} CorpusBigramsWithinSentences(c: Corpus, a: string, b: string)
    ensures (a, b) in CorpusBigrams(c) <==> AdjacentIn(c, a, b)
    decreases |c|
  {
    if |c| > 0 {
      CorpusBigramsWithinSentences(c[..|c| - 1], a, b);
      BigramsAdjacent(c[|c| - 1], a, b);
      AdjacentInLast(c, a, b);
    }
  }

  lemma MapSeqConcat<A, B>(f: A -> B, xs: seq<A>, ys: seq<A>)
    ensures MapSeq(f, xs + ys) == MapSeq(f, xs) + MapSeq(f, ys)
  {
  }

  /** Mapping a sequence can only merge occurrences, never lose them. */
  lemma {:induction false} CountAtMostMappedCount<A, B>(f: A -> B, xs: seq<A>, x: A)
    ensures multiset(xs)[x] <= multiset(MapSeq(f, xs))[f(x)]
    decreases |xs|
  {
    if |xs| > 0 {
      var init := xs[..|xs| - 1];
      CountAtMostMappedCount(f, init, x);
      assert xs == init + [xs[|xs| - 1]];
      MapSeqConcat(f, init, [xs[|xs| - 1]]);
    }
  }

  /** The context words of a sentence's bigrams are its tokens, less the last one. */
  lemma BigramContextsInTokens(s: Sentence)
    ensures multiset(MapSeq(Context1, Bigrams(s))) <= multiset(s)
  {
    if |s| > 0 {
      assert MapSeq(Context1, Bigrams(s)) == s[..|s| - 1];
      assert s == s[..|s| - 1] + [s[|s| - 1]];
    }
  }

  /** The two-word contexts of a sentence's trigrams are its bigrams, less the last one. */
  lemma TrigramContextsInBigrams(s: Sentence)
    ensures multiset(MapSeq(Context2, Trigrams(s))) <= multiset(Bigrams(s))
  {
    if |s| >= 2 {
      var bs := Bigrams(s);
      assert MapSeq(Context2, Trigrams(s)) == bs[..|bs| - 1];
      assert bs == bs[..|bs| - 1] + [bs[|bs| - 1]];
    }
  }

  lemma {:induction false} CorpusBigramContexts(c: Corpus)
    ensures multiset(MapSeq(Context1, CorpusBigrams(c))) <= multiset(Tokens(c))
    decreases |c|
  {
    if |c| > 0 {
      CorpusBigramContexts(c[..|c| - 1]);
      BigramContextsInTokens(c[|c| - 1]);
      MapSeqConcat(Context1, CorpusBigrams(c[..|c| - 1]), Bigrams(c[|c| - 1]));
    }
  }

  lemma {:induction false} CorpusTrigramContexts(c: Corpus)
    ensures multiset(MapSeq(Context2, CorpusTrigrams(c))) <= multiset(CorpusBigrams(c))
    decreases |c|
  {
    if |c| > 0 {
      CorpusTrigramContexts(c[..|c| - 1]);
      TrigramContextsInBigrams(c[|c| - 1]);
      MapSeqConcat(Context2, CorpusTrigrams(c[..|c| - 1]), Trigrams(c[|c| - 1]));
    }
  }

  /** A bigram (a, b) occurs in a corpus no more often than its first word a does. */
  lemma BigramAtMostContext(c: Corpus, a: string, b: string)
    ensures multiset(CorpusBigrams(c))[(a, b)] <= multiset(Tokens(c))[a]
  {
    CountAtMostMappedCount(Context1, CorpusBigrams(c), (a, b));
    CorpusBigramContexts(c);
  }

  /** A trigram (a, b, x) occurs in a corpus no more often than its context bigram (a, b) does. */
  lemma TrigramAtMostContext(c: Corpus, a: string, b: string, x: string)
    ensures multiset(CorpusTrigrams(c))[(a, b, x)] <= multiset(CorpusBigrams(c))[(a, b)]
  {
    CountAtMostMappedCount(Context2, CorpusTrigrams(c), (a, b, x));
    CorpusTrigramContexts(c);
  }
}
