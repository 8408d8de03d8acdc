/**
 What the dot products of a search mean (docs/javascripts/all.js, line 65): for every token that the query
 expands to, its weight in the query times its weight in the document.
 */
module Scores {
  import opened Strings
  import opened SortedSets
  import opened TokenStores
  import opened QueryVectors
  import opened Indexes
  import Vectors

  /** The term frequency of a token in a document, nothing when the document does not have it. */
  ghost function Frequency(from: Source, ref: string, t: string): real {
    if ref in from.tokens && t in from.tokens[ref] && Key(t, ref) in from.entries
    then from.entries[Key(t, ref)].tf else 0.0
  }

  /** Weight in the query times weight in the document, for a token of this term frequency. */
  function TokenScore(query: string, t: string, weights: Weights, tf: real, idf: string -> real): real {
    weights(query, t) * Weight(tf, idf, t)
  }

  lemma TokenScoreIs(query: string, t: string, weights: Weights, tf: real, idf: string -> real)
    ensures TokenScore(query, t, weights, tf, idf) == weights(query, t) * (tf * idf(t))
  {
  }

  /** The sum over some tokens that one query token expands to. */
  ghost function ScoreOf(query: string, words: seq<string>, weights: Weights, from: Source, ref: string,
      idf: string -> real): real
  {
    if words == [] then 0.0
    else
      var last := |words| - 1;
      ScoreOf(query, words[..last], weights, from, ref, idf) +
      TokenScore(query, words[last], weights, Frequency(from, ref, words[last]), idf)
  }

  /** The sum over all tokens that the query tokens expand to. */
  ghost function Score(es: seq<Expansion>, weights: Weights, from: Source, ref: string, idf: string -> real): real {
    if es == [] then 0.0
    else
      var last := |es| - 1;
      Score(es[..last], weights, from, ref, idf) +
      ScoreOf(es[last].query, es[last].words, weights, from, ref, idf)
  }

  lemma ValueOfToken(v: seq<Vectors.Entry>, words: seq<string>, corpus: seq<string>, entries: Entries, ref: string,
      idf: string -> real, i: nat, at: nat)
    requires Vectors.Increasing(v) && IsVectorOf(v, words, corpus, entries, ref, idf) && StrictlyIncreasing(corpus)
    requires i < |words| && at < |corpus| && corpus[at] == words[i]
    ensures Key(words[i], ref) in entries
    ensures Vectors.ValueAt(v, at) == Weight(entries[Key(words[i], ref)].tf, idf, words[i])
  {
    assert DescribesToken(v[i], words[i], corpus, entries, ref, idf);
    PositionsFollowWords(corpus, v[i].idx, at);
    Vectors.ValueAtEntry(v, i);
  }

  lemma ValueOfOther(v: seq<Vectors.Entry>, words: seq<string>, corpus: seq<string>, entries: Entries, ref: string,
      idf: string -> real, at: nat)
    requires IsVectorOf(v, words, corpus, entries, ref, idf) && at < |corpus| && corpus[at] !in words
    ensures Vectors.ValueAt(v, at) == 0.0
  {
    forall i | 0 <= i < |v|
      ensures v[i].idx != at
    {
      assert DescribesToken(v[i], words[i], corpus, entries, ref, idf);
    }
    Vectors.AbsentIsZero(v, at);
  }

  /** The vector of a document holds, at the corpus position of any token, the weight of the token. */
  lemma ValueIsWeight(v: seq<Vectors.Entry>, from: Source, ref: string, idf: string -> real, t: string)
    requires IsDocumentVector(v, from, ref, idf) && StrictlyIncreasing(from.corpus) && t in from.corpus
    ensures Vectors.ValueAt(v, IndexOf(from.corpus, t, 0, |from.corpus|)) == Weight(Frequency(from, ref, t), idf, t)
  {
    IndexOfFinds(from.corpus, t);
    var at := IndexOf(from.corpus, t, 0, |from.corpus|);
    if ref !in from.tokens {
      Vectors.AbsentIsZero(v, at);
    } else if t in from.tokens[ref] {
      var i :| 0 <= i < |from.tokens[ref]| && from.tokens[ref][i] == t;
      ValueOfToken(v, from.tokens[ref], from.corpus, from.entries, ref, idf, i, at);
    } else {
      ValueOfOther(v, from.tokens[ref], from.corpus, from.entries, ref, idf, at);
    }
  }

  lemma WordProduct(query: string, word: string, corpus: seq<string>, weights: Weights, v: seq<Vectors.Entry>,
      value: real)
    requires StrictlyIncreasing(corpus) && word in corpus
    requires Vectors.ValueAt(v, IndexOf(corpus, word, 0, |corpus|)) == value
    ensures Vectors.Product([WordEntry(query, word, corpus, weights)], v) == weights(query, word) * value
  {
    IndexOfFinds(corpus, word);
    Vectors.ProductOfOne(WordEntry(query, word, corpus, weights), v);
  }

  lemma {:induction false} ProductIsScoreOf(query: string, words: seq<string>, weights: Weights,
      v: seq<Vectors.Entry>, from: Source, ref: string, idf: string -> real)
    requires IsDocumentVector(v, from, ref, idf) && StrictlyIncreasing(from.corpus)
    requires forall w :: w in words ==> w in from.corpus
    ensures Vectors.Product(InsertionsOf(query, words, from.corpus, weights), v) ==
      ScoreOf(query, words, weights, from, ref, idf)
  {
    if words != [] {
      var front, word := words[..|words| - 1], words[|words| - 1];
      assert word in words;
      ProductIsScoreOf(query, front, weights, v, from, ref, idf);
      ScoreGoesOn(query, front, word, weights, v, from, ref, idf);
      assert words == front + [word];
    }
  }

  lemma ScoreGoesOn(query: string, front: seq<string>, word: string, weights: Weights, v: seq<Vectors.Entry>,
      from: Source, ref: string, idf: string -> real)
    requires IsDocumentVector(v, from, ref, idf) && StrictlyIncreasing(from.corpus) && word in from.corpus
    requires Vectors.Product(InsertionsOf(query, front, from.corpus, weights), v) ==
      ScoreOf(query, front, weights, from, ref, idf)
    ensures Vectors.Product(InsertionsOf(query, front + [word], from.corpus, weights), v) ==
      ScoreOf(query, front + [word], weights, from, ref, idf)
  {
    ValueIsWeight(v, from, ref, idf, word);
    TokenProduct(query, word, weights, v, from.corpus, Frequency(from, ref, word), idf);
    ProductSnoc(query, front, word, from.corpus, weights, v);
    ScoreSnoc(query, front, word, weights, from, ref, idf);
  }

  lemma TokenProduct(query: string, word: string, weights: Weights, v: seq<Vectors.Entry>, corpus: seq<string>,
      tf: real, idf: string -> real)
    requires StrictlyIncreasing(corpus) && word in corpus
    requires Vectors.ValueAt(v, IndexOf(corpus, word, 0, |corpus|)) == Weight(tf, idf, word)
    ensures Vectors.Product([WordEntry(query, word, corpus, weights)], v) == TokenScore(query, word, weights, tf, idf)
  {
    WordProduct(query, word, corpus, weights, v, Weight(tf, idf, word));
  }

  lemma ProductSnoc(query: string, front: seq<string>, word: string, corpus: seq<string>, weights: Weights,
      v: seq<Vectors.Entry>)
    ensures Vectors.Product(InsertionsOf(query, front + [word], corpus, weights), v) ==
      Vectors.Product(InsertionsOf(query, front, corpus, weights), v) +
      Vectors.Product([WordEntry(query, word, corpus, weights)], v)
  {
    assert (front + [word])[..|front|] == front;
    Vectors.ProductOfConcat(InsertionsOf(query, front, corpus, weights), [WordEntry(query, word, corpus, weights)], v);
  }

  lemma ScoreSnoc(query: string, front: seq<string>, word: string, weights: Weights, from: Source, ref: string,
      idf: string -> real)
    ensures ScoreOf(query, front + [word], weights, from, ref, idf) ==
      ScoreOf(query, front, weights, from, ref, idf) +
      TokenScore(query, word, weights, Frequency(from, ref, word), idf)
  {
    assert (front + [word])[..|front|] == front;
  }

  lemma {:induction false} ProductIsScore(es: seq<Expansion>, weights: Weights, v: seq<Vectors.Entry>, from: Source,
      ref: string, idf: string -> real)
    requires IsDocumentVector(v, from, ref, idf) && StrictlyIncreasing(from.corpus)
    requires forall e, w :: e in es && w in e.words ==> w in from.corpus
    ensures Vectors.Product(Insertions(es, from.corpus, weights), v) == Score(es, weights, from, ref, idf)
  {
    if es != [] {
      var front, last := es[..|es| - 1], es[|es| - 1];
      ProductIsScore(front, weights, v, from, ref, idf);
      ProductIsScoreOf(last.query, last.words, weights, v, from, ref, idf);
      Vectors.ProductOfConcat(Insertions(front, from.corpus, weights),
                              InsertionsOf(last.query, last.words, from.corpus, weights), v);
    }
  }

  /**
   When the first expanded token comes before all others and none comes twice, the dot products of a search are
   the sums, over the expanded tokens, of weight in the query times term frequency times inverse document frequency.
   */
  lemma DotsAreScores(dots: seq<real>, es: seq<Expansion>, weights: Weights, from: Source, refs: seq<string>,
      idf: string -> real, k: nat)
    requires StrictlyIncreasing(from.corpus) && forall e, w :: e in es && w in e.words ==> w in from.corpus
    requires AreDots(dots, Vectors.Built(Insertions(es, from.corpus, weights)), from, refs, idf) && k < |refs|
    requires RisesInOrder(Words(es))
    ensures dots[k] == Score(es, weights, from, refs[k], idf)
  {
    var insertions := Insertions(es, from.corpus, weights);
    assert IsDot(dots[k], Vectors.Built(insertions), from, refs[k], idf);
    var v :| IsDocumentVector(v, from, refs[k], idf) && dots[k] == Vectors.Merge(Vectors.Built(insertions), v);
    InsertionsPlace(es, from.corpus, weights);
    PlacedRiseExactly(insertions, Words(es), from.corpus);
    Vectors.BuiltIsIncreasingExactly(insertions);
    Vectors.MergeIsProduct(Vectors.Built(insertions), v);
    Vectors.ProductOfBuilt(insertions, v);
    ProductIsScore(es, weights, v, from, refs[k], idf);
  }
}
