/**
 The vector that lunr's `search` builds for a query (docs/javascripts/all.js, line 65): for every token of
 the query, in turn, an entry for each token it expands to. Scores are exact reals; how much an expanded
 token weighs for a query token is a parameter.
 */
module QueryVectors {
  import opened Strings
  import opened SortedSets
  import opened TokenStores
  import opened Vectors

  /** A token of the query and the tokens it expands to, in the order they are pushed. */
  datatype Expansion = Expansion(query: string, words: seq<string>)

  /** The weight of an expanded token for a query token. */
  type Weights = (string, string) -> real

  /** The words are the live tokens that extend the query token, once each, the query token itself first. */
  ghost predicate Expands(e: Expansion, entries: Entries) {
    && NoDuplicates(e.words)
    && (forall x :: x in e.words <==> e.query <= x && Live(entries, x))
    && (Live(entries, e.query) ==> e.words != [] && e.words[0] == e.query)
  }

  /** `insert(corpusTokens.indexOf(word), weight)`; the corpus has every word that a live token is expanded to. */
  function WordEntry(query: string, word: string, corpus: seq<string>, weights: Weights): Vectors.Entry {
    var at := IndexOf(corpus, word, 0, |corpus|);
    Vectors.Entry(if at >= 0 then at else 0, weights(query, word))
  }

  function InsertionsOf(query: string, words: seq<string>, corpus: seq<string>, weights: Weights): seq<Vectors.Entry> {
    if words == [] then []
    else
      var last := |words| - 1;
      InsertionsOf(query, words[..last], corpus, weights) + [WordEntry(query, words[last], corpus, weights)]
  }

  /** All insertions into the vector, in order. */
  function Insertions(es: seq<Expansion>, corpus: seq<string>, weights: Weights): seq<Vectors.Entry> {
    if es == [] then []
    else
      var last := |es| - 1;
      Insertions(es[..last], corpus, weights) + InsertionsOf(es[last].query, es[last].words, corpus, weights)
  }

  /** The words of all insertions, in order. */
  function Words(es: seq<Expansion>): seq<string> {
    if es == [] then [] else Words(es[..|es| - 1]) + es[|es| - 1].words
  }

  // When the dot products of a search are right

  /** The first word comes before all others, and no word comes twice. */
  ghost predicate RisesInOrder(words: seq<string>) {
    NoDuplicates(words) && forall i :: 0 < i < |words| ==> Less(words[0], words[i])
  }

  /** All weights that the search uses are positive. */
  ghost predicate AllPositive(es: seq<Expansion>, weights: Weights) {
    forall e, w :: e in es && w in e.words ==> weights(e.query, w) > 0.0
  }

  /** The entries sit at the positions of the words. */
  ghost predicate Places(insertions: seq<Vectors.Entry>, words: seq<string>, corpus: seq<string>) {
    && |insertions| == |words|
    && forall i :: 0 <= i < |words| ==> insertions[i].idx < |corpus| && corpus[insertions[i].idx] == words[i]
  }

  lemma PlacesConcat(a: seq<Vectors.Entry>, v: seq<string>, b: seq<Vectors.Entry>, w: seq<string>, corpus: seq<string>)
    requires Places(a, v, corpus) && Places(b, w, corpus)
    ensures Places(a + b, v + w, corpus) && (Positive(a) && Positive(b) ==> Positive(a + b))
  {
  }

  lemma {:induction false} InsertionsOfPlaces(query: string, words: seq<string>, corpus: seq<string>, weights: Weights)
    requires StrictlyIncreasing(corpus)
    requires forall w :: w in words ==> w in corpus
    ensures Places(InsertionsOf(query, words, corpus, weights), words, corpus)
    ensures (forall w :: w in words ==> weights(query, w) > 0.0) ==>
      Positive(InsertionsOf(query, words, corpus, weights))
  {
    if words != [] {
      var last := |words| - 1;
      InsertionsOfPlaces(query, words[..last], corpus, weights);
      IndexOfFinds(corpus, words[last]);
      assert words == words[..last] + [words[last]];
      PlacesConcat(InsertionsOf(query, words[..last], corpus, weights), words[..last],
                   [WordEntry(query, words[last], corpus, weights)], [words[last]], corpus);
    }
  }

  lemma {:induction false} InsertionsPlace(es: seq<Expansion>, corpus: seq<string>, weights: Weights)
    requires StrictlyIncreasing(corpus) && forall e, w :: e in es && w in e.words ==> w in corpus
    ensures Places(Insertions(es, corpus, weights), Words(es), corpus)
    ensures AllPositive(es, weights) ==> Positive(Insertions(es, corpus, weights))
  {
    if es != [] {
      var last := |es| - 1;
      InsertionsPlace(es[..last], corpus, weights);
      InsertionsOfPlaces(es[last].query, es[last].words, corpus, weights);
      PlacesConcat(Insertions(es[..last], corpus, weights), Words(es[..last]),
                   InsertionsOf(es[last].query, es[last].words, corpus, weights), es[last].words, corpus);
    }
  }

  /** Positions in the sorted corpus are ordered as the words. */
  lemma PositionsFollowWords(corpus: seq<string>, i: nat, j: nat)
    requires StrictlyIncreasing(corpus) && i < |corpus| && j < |corpus|
    ensures i < j <==> Less(corpus[i], corpus[j])
    ensures i == j <==> corpus[i] == corpus[j]
  {
    LessIsTotalOrder();
  }

  lemma PlacedRiseExactly(insertions: seq<Vectors.Entry>, words: seq<string>, corpus: seq<string>)
    requires StrictlyIncreasing(corpus) && Places(insertions, words, corpus)
    ensures RisesFromFirst(insertions) <==> RisesInOrder(words)
  {
    forall i, j | 0 <= i < j < |words|
      ensures insertions[i].idx < insertions[j].idx <==> Less(words[i], words[j])
      ensures insertions[i].idx != insertions[j].idx <==> words[i] != words[j]
    {
      PositionsFollowWords(corpus, insertions[i].idx, insertions[j].idx);
    }
  }

  /**
   The dot products of a search are right, whatever the document, exactly when the first expanded word comes
   before all others and no word is expanded twice.
   */
  lemma QueryDotsRightExactly(es: seq<Expansion>, corpus: seq<string>, weights: Weights)
    requires StrictlyIncreasing(corpus) && AllPositive(es, weights)
    requires forall e, w :: e in es && w in e.words ==> w in corpus
    ensures DotsRight(Built(Insertions(es, corpus, weights))) <==> RisesInOrder(Words(es))
  {
    InsertionsPlace(es, corpus, weights);
    BuiltDotsRightExactly(Insertions(es, corpus, weights));
    PlacedRiseExactly(Insertions(es, corpus, weights), Words(es), corpus);
  }

  lemma WordsOfOne(e: Expansion)
    ensures Words([e]) == e.words
  {
    assert [e][..0] == [];
  }

  lemma WordsOfTwo(d: Expansion, e: Expansion)
    ensures Words([d, e]) == d.words + e.words
  {
    WordsOfOne(d);
    assert [d, e][..1] == [d];
  }

  /** A query of one token that some document has is scored right. */
  lemma OneLiveTokenIsRight(e: Expansion, entries: Entries)
    requires Expands(e, entries) && Live(entries, e.query)
    ensures RisesInOrder(Words([e]))
  {
    WordsOfOne(e);
    forall i | 0 < i < |e.words|
      ensures Less(e.words[0], e.words[i])
    {
      assert e.words[i] in e.words && e.words[0] != e.words[i];
      PrefixLess(e.query, e.words[i]);
    }
  }

  lemma CommonRepeats(v: seq<string>, w: seq<string>, word: string)
    requires word in v && word in w
    ensures !NoDuplicates(v + w)
  {
    var i :| 0 <= i < |v| && v[i] == word;
    var j :| 0 <= j < |w| && w[j] == word;
    assert (v + w)[i] == (v + w)[|v| + j];
  }

  /** A query in which two tokens expand to a common word is not. */
  lemma CommonWordIsWrong(d: Expansion, e: Expansion, word: string)
    requires word in d.words && word in e.words
    ensures !RisesInOrder(Words([d, e]))
  {
    WordsOfTwo(d, e);
    CommonRepeats(d.words, e.words, word);
  }
}
