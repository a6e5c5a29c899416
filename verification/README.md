# N-gram language models and BLEU of a Spanish-to-English translator, in Dafny

This project models the scoring core of a small statistical machine-translation
project written in Python 2:

- Four count-based language models:
  - `LaplaceBigramLanguageModel`: add-one bigram model.
  - `StupidBackoffLanguageModel`: bigram model that backs off to unigrams with a discount of 0.4.
  - `CustomLanguageModel`: trigram model that backs off to bigrams (×0.4) and then to unigrams (×0.4²).
  - `ArticleTester`: the smoothed ratio `(count("the" w) + 1) / (count(w) + 1)` used to judge the word after "the".

  Each model is trained once on a corpus of sentences and then asked to `score` token sequences.
- Two pure helpers of the translator script:
  - `directTranslate`: word-by-word dictionary lookup.
  - `computeBLEU`: a simplified BLEU score of each translation against its reference.

Modules, leaf first:

| module | file | models |
|---|---|---|
| `Results` | results.dfy | `Option`, `Result` and the two Python exceptions that can escape (`IndexError`, `ZeroDivisionError`) |
| `Counts` | counts.dfy | a `collections.defaultdict(lambda: 0)` as `map<K, nat>`: `t[k] += 1` is `Bump`, and the read `t[k]` is `Read`, which inserts a missing key with count 0 |
| `NGrams` | ngrams.dfy | the reference the trained tables are checked against: the token, bigram and trigram occurrences of a corpus, taken within sentences |
| `Scoring` | scoring.dfy | a score as the list of its terms `log(factor * count) - log(den)`; `math.log` is a parameter |
| `LaplaceBigram`, `StupidBackoff`, `CustomModel`, `ArticleTester` | laplace.dfy, stupid_backoff.dfy, custom.dfy, article.dfy | `train` and `score` of each model |
| `Strings` | strings.dfy | `' '.join`, substring `in`, and `str.count` (non-overlapping) |
| `Translator` | translator.dfy | `directTranslate` and `computeBLEU` |

Both loops of `train` are left recursions over prefixes: first the corpus, then one
sentence. The loop variables `previousWord` and `holeWord` are outputs of the
recursion, proved equal to the last tokens seen. `score` is modelled the same way:
- `StateAfter(m, s, n)` is the model and history after the first n tokens;
- term j of the score is the loop body's term in that state.

A `score` call returns the log terms together with the model as the call leaves it.
Each `score` method reads its tables with `[]`, and on a `defaultdict` that read
inserts the key. The headline contracts are stated against an independent reference:
- trained tables against the n-gram multisets of the corpus (`Counts.Tabulates`);
- each score term in closed form against the tables before the call;
- the BLEU clipping loop against a per-position account of which n-grams are credited.

Consequences of the code that its docstrings do not mention (each `score` docstring,
for example code/LaplaceBigramLanguageModel.py:26-27, only says it returns the
log-probability of the sentence):
- **`score` writes to the tables.** Reading an unseen pair or token with `[]` adds a zero entry, and `len(...)` then counts it.
- **Denominators grow within a call.** A denominator read later in the same call, or in a later call, is never smaller, and it is larger when a key not yet in the table was read in between. A second identical call on the same model can therefore return different terms (`LaplaceBigram.RepeatedScoreDiffers`) and, under a strictly increasing logarithm, a strictly lower score (`LaplaceBigram.RepeatedScoreLower`).
- **The Laplace denominator is never 0.** The read on line 33 of the Laplace model comes before `len(self.bigramCounts)` on line 35, so that denominator is always at least 1, even on an empty table. The model needs no floor.
- **The discriminator can raise.** `ArticleTester.score` evaluates `pair[0]` before `len(pair)` (code/ArticleTester.py:21), so an empty pair raises `IndexError`.
- **The discriminator never counts bigrams.** Its training never assigns `previousWord` (see Findings).

## Model

| member | source | states |
|---|---|---|
| Counts.Bump | code/LaplaceBigramLanguageModel.py:20 | `t[k] = t[k] + 1` on a defaultdict adds `k` as a key, raises its count by one and leaves every other count as it was |
| Counts.ReadEffect | code/LaplaceBigramLanguageModel.py:33 | the read `t[k]` yields the stored count, or 0 when `k` is absent, and inserts `k` with count 0; it changes no count, and it leaves a table that already holds `k` unchanged |
| Counts.TabulatesAdds | code/StupidBackoffLanguageModel.py:21 | bumping a table that counts a multiset of occurrences once for each element of a list gives a table that counts the multiset plus that list |
| NGrams.BigramsAdjacent | code/LaplaceBigramLanguageModel.py:17-20 | a pair is among a sentence's bigrams exactly when its two words stand next to each other in it |
| NGrams.CorpusBigramsWithinSentences | code/LaplaceBigramLanguageModel.py:15-22 | a pair is a corpus bigram exactly when its two words stand next to each other in one sentence: `previousWord` restarts at `None` per sentence, so no pair spans a sentence boundary |
| NGrams.CorpusBigramCount | code/LaplaceBigramLanguageModel.py:19-21 | the number of bigram occurrences is the sum over sentences of one less than the sentence length |
| NGrams.BigramAtMostContext | code/StupidBackoffLanguageModel.py:21-24 | a pair occurs in a corpus no more often than its first word, so the bigram branch's factor is at most 1 |
| NGrams.TrigramAtMostContext | code/CustomLanguageModel.py:25-28 | a triple occurs no more often than its context pair |
| Scoring.LogScoreNonPositive | code/LaplaceBigramLanguageModel.py:29-37 | a score accumulated from 0.0 by adding `log(num)` and subtracting `log(den)` is at most 0 under any increasing logarithm when every `num <= den` |
| Scoring.LogScoreBelow | code/LaplaceBigramLanguageModel.py:29-37 | with equal numerators and every denominator at least as large, one of them strictly larger, the accumulated score is strictly lower under every strictly increasing logarithm |
| Scoring.AlphaBounds | code/CustomLanguageModel.py:11 | the discount 0.4 and its square `self.alpha * self.alpha` (line 51) are positive and at most 1 |
| LaplaceBigram.TrainSentence | code/LaplaceBigramLanguageModel.py:16-22 | one sentence adds each of its adjacent pairs once per occurrence to `bigramCounts` and their number to `total`, and leaves `previousWord` at its last token |
| LaplaceBigram.Train | code/LaplaceBigramLanguageModel.py:11-22 | after training, the count of each pair is its number of occurrences within sentences of the corpus, and `total` is the number of such occurrences |
| LaplaceBigram.TrainTotal | code/LaplaceBigramLanguageModel.py:21 | `total` is the sum over sentences of length minus one |
| LaplaceBigram.TrainValid | code/LaplaceBigramLanguageModel.py:11-22 | training leaves every count at most `total` |
| LaplaceBigram.StateAfter | code/LaplaceBigramLanguageModel.py:30-36 | after n tokens `previousWord` is token n-1 and `total` is unchanged |
| LaplaceBigram.Score | code/LaplaceBigramLanguageModel.py:25-37 | a sentence of length k contributes k-1 terms, none for the first token |
| LaplaceBigram.StateAfterReads | code/LaplaceBigramLanguageModel.py:33 | scoring inserts exactly the adjacent pairs it reads, each with count 0 |
| LaplaceBigram.ScoreTerm | code/LaplaceBigramLanguageModel.py:32-35 | term j is `log(count(s[j], s[j+1]) + 1) - log(total + keys)`: the count is taken before the call, and the keys are those after pairs 0..j have been read, pair j included |
| LaplaceBigram.TokenTermFrom | code/LaplaceBigramLanguageModel.py:33-35 | from any state that only added zero entries, the loop body's numerator is the original count plus one, and its denominator counts the keys read so far plus the current pair |
| LaplaceBigram.ScoreSafe | code/LaplaceBigramLanguageModel.py:33-35 | on a model whose counts are at most `total`, both logarithm arguments are positive, each term's factor is at most 1, and the model stays valid |
| LaplaceBigram.ScoreNonPositive | code/LaplaceBigramLanguageModel.py:25-37 | a trained model scores at most 0 under any increasing logarithm, and exactly 0 for a sequence of at most one token |
| LaplaceBigram.RepeatedScoreDiffers | code/LaplaceBigramLanguageModel.py:33-35 | two identical calls in a row on the untrained model return different terms once the sequence has two distinct adjacent pairs, anywhere in it: the first denominator of the second call is larger |
| LaplaceBigram.RepeatedScoreLower | code/LaplaceBigramLanguageModel.py:25-37 | repeating a call on the untrained model, for a sequence with two distinct adjacent pairs, anywhere in it, yields a strictly lower score under every strictly increasing logarithm: the counts read are the same and every denominator is at least as large, the first one strictly |
| StupidBackoff.TrainSentence | code/StupidBackoffLanguageModel.py:18-25 | one sentence adds its length to `unigramTotal` and leaves `previousWord` at its last token |
| StupidBackoff.TrainSentenceUnigrams | code/StupidBackoffLanguageModel.py:21 | one sentence adds each of its tokens once per occurrence to `unigramCounts` |
| StupidBackoff.TrainSentenceBigrams | code/StupidBackoffLanguageModel.py:23-24 | one sentence adds each of its adjacent pairs once per occurrence to `bigramCounts` |
| StupidBackoff.Train | code/StupidBackoffLanguageModel.py:13-25 | `unigramTotal` is the number of tokens of the corpus |
| StupidBackoff.TrainUnigrams | code/StupidBackoffLanguageModel.py:13-25 | after training, each token's count is its number of occurrences in the corpus |
| StupidBackoff.TrainBigrams | code/StupidBackoffLanguageModel.py:13-25 | after training, each pair's count is its number of occurrences within sentences |
| StupidBackoff.TrainValid | code/StupidBackoffLanguageModel.py:13-25 | every trained pair has a count of at least 1 and at most its first word's count, and no token count exceeds `unigramTotal` |
| StupidBackoff.StateAfter | code/StupidBackoffLanguageModel.py:32-42 | after n tokens `previousWord` is token n-1; scoring never changes `bigramCounts` or `unigramTotal` |
| StupidBackoff.Score | code/StupidBackoffLanguageModel.py:27-43 | every token, the first included, contributes exactly one term |
| StupidBackoff.StateAfterReads | code/StupidBackoffLanguageModel.py:37-41 | scoring inserts into `unigramCounts` exactly the keys it reads, each with count 0 |
| StupidBackoff.ScoreTerm | code/StupidBackoffLanguageModel.py:33-41 | term j follows the branch its pair's presence selects, in counts before the call |
| StupidBackoff.ScoreTermHit | code/StupidBackoffLanguageModel.py:34-37 | on a seen pair the term is `log(count(pair)) - log(count(previousWord))` |
| StupidBackoff.ScoreTermMiss | code/StupidBackoffLanguageModel.py:38-41 | otherwise, the first token included, it is `log(0.4 * (count(token) + 1)) - log(unigramTotal + keys)`, where the keys include every unigram key read so far and this token |
| StupidBackoff.TokenTermHit | code/StupidBackoffLanguageModel.py:35-37 | from any state that only added zero unigram entries, the hit branch reads the original counts |
| StupidBackoff.TokenTermMiss | code/StupidBackoffLanguageModel.py:39-41 | from such a state, the back-off denominator counts the original keys, the keys read and the token |
| StupidBackoff.TermSafe | code/StupidBackoffLanguageModel.py:33-41 | on a valid model a bigram term's factor is at most 1 and a backed-off term's at most 0.4, with positive logarithm arguments |
| StupidBackoff.ScoreKeepsValid | code/StupidBackoffLanguageModel.py:37-41 | the zero entries that scoring inserts keep the model valid |
| StupidBackoff.ScoreSafe | code/StupidBackoffLanguageModel.py:33-41 | all terms of a valid model are within their branch's bound, and the model stays valid for later calls |
| StupidBackoff.ScoreNonPositive | code/StupidBackoffLanguageModel.py:27-43 | a trained model scores at most 0 under any increasing logarithm |
| StupidBackoff.ScoreTrained | code/StupidBackoffLanguageModel.py:13-43 | after training, token j whose pair with its predecessor occurs in the corpus contributes that pair's corpus count over the predecessor's; any other token, the first included, has numerator 0.4 × (its corpus count + 1) |
| CustomModel.TrainSentence | code/CustomLanguageModel.py:18-30 | one sentence adds its length to `unigramTotal` and leaves `previousWord` and `holeWord` at its last two tokens |
| CustomModel.TrainSentenceUnigrams | code/CustomLanguageModel.py:23 | one sentence adds each token once per occurrence |
| CustomModel.TrainSentenceBigrams | code/CustomLanguageModel.py:25-26 | one sentence adds each adjacent pair once per occurrence |
| CustomModel.TrainSentenceTrigrams | code/CustomLanguageModel.py:27-28 | one sentence adds each adjacent triple once per occurrence |
| CustomModel.Train | code/CustomLanguageModel.py:14-30 | `unigramTotal` is the number of tokens of the corpus |
| CustomModel.TrainUnigrams | code/CustomLanguageModel.py:14-30 | each token's count is its number of occurrences in the corpus |
| CustomModel.TrainBigrams | code/CustomLanguageModel.py:14-30 | each pair's count is its number of occurrences within sentences |
| CustomModel.TrainTrigrams | code/CustomLanguageModel.py:14-30 | each triple's count is its number of occurrences within sentences |
| CustomModel.TrainValid | code/CustomLanguageModel.py:14-30 | every trained triple has a count of at least 1 and at most its context pair's; every pair likewise against its first word; no token count exceeds `unigramTotal` |
| CustomModel.StateAfter | code/CustomLanguageModel.py:38-54 | after n tokens the history holds tokens n-2 and n-1; scoring never changes `trigramCounts` or `unigramTotal` |
| CustomModel.Score | code/CustomLanguageModel.py:33-55 | every token contributes exactly one term |
| CustomModel.StepFrom | code/CustomLanguageModel.py:41-54 | when the model knows every triple's context pair, one loop body inserts at most the unigram key it reads, with count 0, and nothing on a trigram hit |
| CustomModel.StateAfterReads | code/CustomLanguageModel.py:40-54 | over the whole call, scoring only inserts the unigram keys it reads, each with count 0 |
| CustomModel.TokenTermTri | code/CustomLanguageModel.py:41-44 | on a seen triple the term is `log(count(triple)) - log(count(context pair))` |
| CustomModel.TokenTermBi | code/CustomLanguageModel.py:45-48 | else, on a seen pair, it is `log(0.4 * count(pair)) - log(count(previousWord))` |
| CustomModel.TokenTermUni | code/CustomLanguageModel.py:49-52 | else it is `log(0.4 * 0.4 * (count(token) + 1)) - log(unigramTotal + keys)`, where the keys include those read so far and the token |
| CustomModel.TermTri | code/CustomLanguageModel.py:41-44 | the trigram branch for token j, in counts before the call |
| CustomModel.TermBi | code/CustomLanguageModel.py:45-48 | the bigram branch for token j, in counts before the call |
| CustomModel.TermUni | code/CustomLanguageModel.py:49-52 | the unigram branch for token j, whose denominator counts the keys once tokens 0..j have been read |
| CustomModel.ScoreTerm | code/CustomLanguageModel.py:40-52 | term j follows the first branch whose n-gram was seen: trigram, then bigram, then unigram |
| CustomModel.ValidContextsKnown | code/CustomLanguageModel.py:44 | on a valid model the context pair read on line 44 is always a key, so that read inserts nothing |
| CustomModel.TermSafe | code/CustomLanguageModel.py:41-52 | on a valid model each term's factor is at most 1, 0.4 or 0.16 by branch, with positive logarithm arguments |
| CustomModel.ScoreKeepsValid | code/CustomLanguageModel.py:44-52 | the zero entries that scoring inserts keep the model valid |
| CustomModel.ScoreSafe | code/CustomLanguageModel.py:40-52 | all terms of a valid model are within their branch's bound, and the model stays valid for later calls |
| CustomModel.ValidScoreNonPositive | code/CustomLanguageModel.py:33-55 | a valid model scores at most 0 under any increasing logarithm |
| CustomModel.ScoreNonPositive | code/CustomLanguageModel.py:33-55 | a trained model scores at most 0 under any increasing logarithm |
| CustomModel.ExpectedTabulated | code/CustomLanguageModel.py:41-52 | on tables that count a corpus, the trigram and bigram tests hold exactly when the n-gram occurs in the corpus, and each branch's term is in corpus counts |
| CustomModel.ScoreTrained | code/CustomLanguageModel.py:14-55 | after training, each token's term follows the first back-off level whose n-gram occurs in the corpus, in corpus counts |
| ArticleTester.TrainSentence | code/ArticleTester.py:12-17 | as written, `previousWord` stays `None` through a sentence, so `bigramCounts` never changes |
| ArticleTester.TrainSentenceUnigrams | code/ArticleTester.py:15 | one sentence adds each token once per occurrence |
| ArticleTester.Train | code/ArticleTester.py:10-17 | as written, training leaves `bigramCounts` empty |
| ArticleTester.TrainUnigrams | code/ArticleTester.py:10-17 | each token's count is its number of occurrences in the corpus |
| ArticleTester.BigramMissed | code/ArticleTester.py:12-17 | the corpus "the cat" holds the pair ("the", "cat"), yet its trained count is 0 |
| ArticleTester.TrainSentenceIntended | code/ArticleTester.py:12-17 | with `previousWord = token` added, the loop ends with `previousWord` at the sentence's last token |
| ArticleTester.TrainSentenceIntendedUnigrams | code/ArticleTester.py:15 | so corrected, one sentence still adds each token once per occurrence |
| ArticleTester.TrainSentenceIntendedBigrams | code/ArticleTester.py:16-17 | so corrected, one sentence adds each adjacent pair once per occurrence |
| ArticleTester.TrainIntendedUnigrams | code/ArticleTester.py:10-17 | so corrected, each token's count is its number of occurrences |
| ArticleTester.TrainIntendedBigrams | code/ArticleTester.py:10-17 | so corrected, each pair's count is its number of occurrences within sentences |
| ArticleTester.Score | code/ArticleTester.py:19-25 | an empty pair raises IndexError and nothing else raises; a pair not starting with "the", or not of length 2, scores 0.0 and leaves the tables untouched |
| ArticleTester.ScoreRatio | code/ArticleTester.py:23-24 | on ("the", w) the score is `Smoothed`, that is `(count("the", w) + 1) / (count(w) + 1)` in counts before the call, is positive, and the call only adds zero entries for ("the", w) and w |
| ArticleTester.ScoreRepeatable | code/ArticleTester.py:19-25 | unlike the log-probability models, a second identical call returns the same value |
| ArticleTester.ScoreTrained | code/ArticleTester.py:10-25 | after training as written, ("the", w) scores 1 / (count(w) + 1): in (0, 1], and 1 exactly when w is not in the corpus |
| ArticleTester.ScoreTabulated | code/ArticleTester.py:23-24 | on tables that count a multiset of pairs and one of tokens, ("the", w) scores (pairs of ("the", w) + 1) / (tokens of w + 1) |
| ArticleTester.ScoreTrainedIntended | code/ArticleTester.py:10-25 | after the corrected training, ("the", w) scores (corpus count of "the w" + 1) / (count(w) + 1) |
| Strings.ContainsIffCount | code/translator.py:98-104 | `p in s` holds exactly when `s.count(p) >= 1`, so the `elif` of line 102 credits exactly the first occurrence of an n-gram that `count` finds |
| Strings.JoinContainsWords | code/translator.py:102 | every word of the reference is `in` its space-joined string |
| Translator.DirectTranslate | code/translator.py:61-70 | one output sentence per input sentence, of the same length, each word replaced by its dictionary entry or kept when it has none; an empty dictionary returns the sentences unchanged |
| Translator.LengthFactor | code/translator.py:89 | the brevity factor `min(1, len(candidate) / len(reference))` lies in [0, 1] |
| Translator.ClipStepState | code/translator.py:97-104 | one iteration keeps `matches` equal to the multiplicities of the seen n-grams found in the reference, and `ref_count` equal to the credited positions |
| Translator.ClipLoopState | code/translator.py:94-104 | the clipping loop credits position p exactly when p is the k-th occurrence of its n-gram and the reference's `count` of it is at least k |
| Translator.CreditedOfMin | code/translator.py:96-104 | an n-gram occurring k times in the candidate is credited min(k, its count in the reference) times |
| Translator.ReferenceWordCredited | code/translator.py:96-104 | a candidate word that is a word of the reference passes the unigram `in` test against the joined reference, so its first occurrence is credited |
| Translator.PrecisionBounded | code/translator.py:93-105 | each order's factor `ref_count / n_gram_count` lies in [0, 1] |
| Translator.Orders | code/translator.py:90-105 | the loop over orders raises ZeroDivisionError exactly when it reaches the order len(candidate) + 1, that is when the candidate is shorter than n |
| Translator.OrdersBounded | code/translator.py:90-105 | multiplying in precisions from [0, 1] keeps the score in [0, 1] |
| Translator.Bleu | code/translator.py:89-105 | one translation's score raises ZeroDivisionError exactly when its reference is empty or it is shorter than n |
| Translator.BleuBounded | code/translator.py:89-105 | every score lies in [0, 1] |
| Translator.ComputeBleu | code/translator.py:86-107 | one score per translation, in order, each in [0, 1]; otherwise the exception of the first translation that fails: IndexError for a missing reference, ZeroDivisionError as above |
| Translator.SubstringCredit | code/translator.py:100-102 | as written, "a" against the reference "cat" scores 1.0, because "a" is a substring of "cat"; under word matching it scores 0.0 |
| Translator.IdenticalHalved | code/translator.py:100 | as written, ["a", "a", "a"] against itself scores 0.5 at n = 2, because `count` finds "a a" only once in "a a a" |
| Translator.DisjointScoresZero | code/translator.py:96-105 | under word n-gram matching, a candidate sharing no word with its reference scores 0.0 |
| Translator.IdenticalScoresOne | code/translator.py:96-105 | under word n-gram matching, a non-empty translation identical to its reference scores 1.0 for every n up to its length |

## Left out

- `parseTrainFile`, `parseDict`, `printTranslations`, `main` and the module-level driver: file parsing, printing and program flow, not the scoring core.
- `spanishTagger.py`: a wrapper around an external part-of-speech tagger, not part of this model.
- `math.log`: Dafny has no logarithm. A score is kept as its list of terms `log(factor * count) - log(den)`, and `Scoring.LogScore` sums them under any function passed in. Sign results hold for every increasing function.
- Floating point: counts, which are Python ints or whole floats, are `nat`; the discount 0.4 and BLEU's ratios are exact reals. Rounding is not modelled.
- The corpus objects (`corpus.corpus`, `sentence.data`, `datum.word`) are flattened to a sequence of sentences, each a sequence of words.
- `__init__` is modelled as `Train` applied to the empty tables (`Untrained`); it has no separate member.
- `ArticleTester.TrainIntended`: it has no contract of its own; its facts are in `ArticleTester.TrainIntendedUnigrams` and `ArticleTester.TrainIntendedBigrams`.
- StupidBackoff.ScoreTrained: for a backed-off token it states the numerator in corpus counts but not the denominator. The denominator also counts unigram keys inserted by earlier reads in the same call, and `StupidBackoff.ScoreTermMiss` gives it exactly.
- CustomModel.ScoreTrained: the same holds for the unigram branch. `CustomModel.TermUni` gives that denominator exactly.
- Translator.Bleu: the `matches` dictionary mixes floats and ints; only the comparison on line 100 reads it, so the model keeps naturals.
- Translator.Grams: a word containing a space would make two different word sequences join to the same string. The model uses the joined strings, as the code does.

## Findings

| source | as written | input that shows it | evidently intended | confidence | as-written member | corrected member |
|---|---|---|---|---|---|---|
| code/ArticleTester.py:12-17 | `previousWord` is set to `None` and never reassigned, so the bigram update on line 17 never runs and `bigramCounts` stays empty | corpus `[["the", "cat"]]`: the trained count of ("the", "cat") is 0 | `previousWord = token` at the end of the loop, as in the other three models | high, not executed | ArticleTester.BigramMissed | ArticleTester.TrainIntendedBigrams |
| code/translator.py:102 | an n-gram is credited when it is a substring of the space-joined reference, even inside another word | candidate `["a"]`, reference `["cat"]`, n = 1: score 1.0 | match the reference's own word n-grams | high, not executed | Translator.SubstringCredit | Translator.DisjointScoresZero |
| code/translator.py:100 | repeated n-grams are clipped by `str.count`, which counts non-overlapping substrings | candidate and reference `["a", "a", "a"]`, n = 2: an identical translation scores 0.5 | clip by the number of occurrences among the reference's word n-grams | high, not executed | Translator.IdenticalHalved | Translator.IdenticalScoresOne |
