/**
 lunr's `Store` and `Index` (docs/javascripts/all.js, lines 65 and 69) over the heap: every operation
 is tied to the operation of the same meaning in `IndexModel`.
 */
module Indexes {
  import opened Strings
  import opened SortedSets
  import opened TokenStores
  import opened IndexModel
  import opened QueryVectors
  import Vectors

  // What the loops of `search` have collected

  /** All references stored under some of the tokens `words`. */
  ghost function RefsOfAll(entries: Entries, words: seq<string>): set<string> {
    set k | k in entries && k.token in words :: k.ref
  }

  lemma RefsOfAllSnoc(entries: Entries, words: seq<string>, k: nat)
    requires k < |words|
    ensures RefsOfAll(entries, words[..k + 1]) == RefsOfAll(entries, words[..k]) + Refs(entries, words[k])
  {
    assert words[..k + 1] == words[..k] + [words[k]];
  }

  lemma ExpansionCoversHits(entries: Entries, words: seq<string>, q: string)
    requires forall x :: x in words[0..] <==> q <= x && Live(entries, x)
    ensures RefsOfAll(entries, words[..|words|]) == HitSet(entries, q)
  {
    assert words[0..] == words == words[..|words|];
    forall k | k in entries && q <= k.token
      ensures k.token in words
    {
      assert Key(k.token, k.ref) == k;
      assert Live(entries, k.token);
    }
  }

  // What the loops of `add`, `remove` and `documentVector` have done after some of the tokens

  ghost function PostingsOf(doc: Doc, boosts: seq<real>, words: seq<string>): Entries
    requires |doc.fields| == |boosts|
  {
    map t | t in words :: Key(t, doc.ref) := Posting(doc.ref, Tf(doc.fields, boosts, t))
  }

  lemma PostingsOfSnoc(start: Entries, doc: Doc, boosts: seq<real>, words: seq<string>, s: nat)
    requires |doc.fields| == |boosts| && s < |words|
    ensures start + PostingsOf(doc, boosts, words[..s + 1]) ==
      (start + PostingsOf(doc, boosts, words[..s]))
        [Key(words[s], doc.ref) := Posting(doc.ref, Tf(doc.fields, boosts, words[s]))]
  {
    assert words[..s + 1] == words[..s] + [words[s]];
  }

  lemma PostingsOfAll(doc: Doc, boosts: seq<real>, words: seq<string>)
    requires |doc.fields| == |boosts| && Elements(words) == Tokens(doc)
    ensures PostingsOf(doc, boosts, words) == Postings(doc, boosts)
  {
    assert forall t :: t in words <==> t in Elements(words);
  }

  lemma TokensSnoc(doc: Doc, k: nat)
    requires k < |doc.fields|
    ensures Tokens(Doc(doc.ref, doc.fields[..k + 1])) == Tokens(Doc(doc.ref, doc.fields[..k])) + Elements(doc.fields[k])
  {
    var next := doc.fields[..k + 1];
    assert next == doc.fields[..k] + [doc.fields[k]];
    assert doc.fields[k] in next && forall f :: f in doc.fields[..k] ==> f in next;
  }

  ghost function Without(entries: Entries, words: seq<string>, ref: string): Entries {
    map k | k in entries && !(k.ref == ref && k.token in words) :: entries[k]
  }

  lemma WithoutSnoc(entries: Entries, words: seq<string>, s: nat, ref: string)
    requires s < |words|
    ensures Without(entries, words[..s + 1], ref) == Without(entries, words[..s], ref) - {Key(words[s], ref)}
  {
    assert words[..s + 1] == words[..s] + [words[s]];
  }

  lemma WithoutAll(v: View, words: seq<string>, ref: string)
    requires ref in v.lists && Elements(words) == v.lists[ref]
    ensures Without(v.entries, words, ref) == Removed(v, ref).entries
  {
    assert forall t :: t in words <==> t in Elements(words);
  }

  /** Term frequency times inverse document frequency; the logarithm behind `idf` is a parameter. */
  function Weight(tf: real, idf: string -> real, t: string): real {
    tf * idf(t)
  }

  /** The vector entry of one token of the document `ref`. */
  ghost function EntryOf(t: string, corpus: seq<string>, entries: Entries, ref: string, idf: string -> real)
    : Vectors.Entry
    requires t in corpus && StrictlyIncreasing(corpus) && Key(t, ref) in entries
  {
    IndexOfFinds(corpus, t);
    Vectors.Entry(IndexOf(corpus, t, 0, |corpus|), Weight(entries[Key(t, ref)].tf, idf, t))
  }

  /** The words are in the sorted corpus and have postings for the document. */
  ghost predicate Indexed(words: seq<string>, corpus: seq<string>, entries: Entries, ref: string) {
    StrictlyIncreasing(corpus) && forall t :: t in words ==> t in corpus && Key(t, ref) in entries
  }

  /** The vector of a document whose sorted tokens are `words`. */
  ghost function VectorOf(words: seq<string>, corpus: seq<string>, entries: Entries, ref: string, idf: string -> real)
    : (v: seq<Vectors.Entry>)
    requires Indexed(words, corpus, entries, ref)
    ensures |v| == |words|
  {
    if words == [] then []
    else
      var last := |words| - 1;
      VectorOf(words[..last], corpus, entries, ref, idf) + [EntryOf(words[last], corpus, entries, ref, idf)]
  }

  lemma {:induction false} VectorOfAt(words: seq<string>, corpus: seq<string>, entries: Entries, ref: string,
      idf: string -> real)
    requires Indexed(words, corpus, entries, ref)
    ensures var v := VectorOf(words, corpus, entries, ref, idf);
      forall i :: 0 <= i < |v| ==> v[i] == EntryOf(words[i], corpus, entries, ref, idf)
  {
    if words != [] {
      VectorOfAt(words[..|words| - 1], corpus, entries, ref, idf);
    }
  }

  lemma VectorOfNext(words: seq<string>, o: nat, corpus: seq<string>, entries: Entries, ref: string,
      idf: string -> real)
    requires Indexed(words, corpus, entries, ref) && o < |words|
    ensures VectorOf(words[..o + 1], corpus, entries, ref, idf) ==
      VectorOf(words[..o], corpus, entries, ref, idf) + [EntryOf(words[o], corpus, entries, ref, idf)]
  {
    assert words[..o + 1][..o] == words[..o];
  }

  /** Sorted tokens sit at increasing corpus positions, so the list `insert` builds is increasing. */
  lemma VectorIncreases(words: seq<string>, corpus: seq<string>, entries: Entries, ref: string, idf: string -> real)
    requires Indexed(words, corpus, entries, ref) && StrictlyIncreasing(words)
    ensures Vectors.Increasing(VectorOf(words, corpus, entries, ref, idf))
  {
    var v := VectorOf(words, corpus, entries, ref, idf);
    VectorOfAt(words, corpus, entries, ref, idf);
    forall i, j | 0 <= i < j < |v|
      ensures v[i].idx < v[j].idx
    {
      IndexOfFinds(corpus, words[i]);
      IndexOfFinds(corpus, words[j]);
      assert Less(words[i], words[j]);
      if v[j].idx < v[i].idx {
        assert Less(corpus[v[j].idx], corpus[v[i].idx]);
        CompareFlip(words[i], words[j]);
      }
    }
  }

  /** The entry sits at the corpus position of the token and holds its weight in the document. */
  ghost predicate DescribesToken(e: Vectors.Entry, t: string, corpus: seq<string>, entries: Entries, ref: string,
      idf: string -> real)
  {
    && e.idx < |corpus| && corpus[e.idx] == t
    && Key(t, ref) in entries && e.val == Weight(entries[Key(t, ref)].tf, idf, t)
  }

  /** The entries are, one for one and in order, those of the tokens. */
  ghost predicate IsVectorOf(v: seq<Vectors.Entry>, words: seq<string>, corpus: seq<string>, entries: Entries,
      ref: string, idf: string -> real)
  {
    |v| == |words| && forall i :: 0 <= i < |v| ==> DescribesToken(v[i], words[i], corpus, entries, ref, idf)
  }

  lemma VectorOfDescribes(words: seq<string>, corpus: seq<string>, entries: Entries, ref: string, idf: string -> real)
    requires Indexed(words, corpus, entries, ref) && StrictlyIncreasing(words)
    ensures IsVectorOf(VectorOf(words, corpus, entries, ref, idf), words, corpus, entries, ref, idf)
    ensures Vectors.Increasing(VectorOf(words, corpus, entries, ref, idf))
  {
    VectorIncreases(words, corpus, entries, ref, idf);
    VectorOfAt(words, corpus, entries, ref, idf);
    forall i | 0 <= i < |words|
      ensures DescribesToken(VectorOf(words, corpus, entries, ref, idf)[i], words[i], corpus, entries, ref, idf)
    {
      IndexOfFinds(corpus, words[i]);
    }
  }

  /** What `documentVector` reads: the sorted tokens of the stored documents, the corpus and the postings. */
  datatype Source = Source(tokens: map<string, seq<string>>, corpus: seq<string>, entries: Entries)

  /** The vector of a document; a reference without tokens in the store has an empty one. */
  ghost predicate IsDocumentVector(v: seq<Vectors.Entry>, from: Source, ref: string, idf: string -> real) {
    && Vectors.Increasing(v)
    && if ref in from.tokens then IsVectorOf(v, from.tokens[ref], from.corpus, from.entries, ref, idf) else v == []
  }

  /** The dot product, as `dot` computes it, of a query vector and the vector of a document. */
  ghost predicate IsDot(d: real, q: seq<Vectors.Entry>, from: Source, ref: string, idf: string -> real) {
    exists v :: IsDocumentVector(v, from, ref, idf) && d == Vectors.Merge(q, v)
  }

  /** The dot products of the query vector with the vectors of these documents. */
  ghost predicate AreDots(dots: seq<real>, q: seq<Vectors.Entry>, from: Source, refs: seq<string>,
      idf: string -> real)
  {
    |dots| == |refs| && forall k :: 0 <= k < |refs| ==> IsDot(dots[k], q, from, refs[k], idf)
  }

  ghost predicate AreDocumentVectors(vs: seq<seq<Vectors.Entry>>, from: Source, refs: seq<string>,
      idf: string -> real)
  {
    |vs| == |refs| && forall k :: 0 <= k < |refs| ==> IsDocumentVector(vs[k], from, refs[k], idf)
  }

  lemma DotsOfVectors(dots: seq<real>, q: seq<Vectors.Entry>, vs: seq<seq<Vectors.Entry>>, from: Source,
      refs: seq<string>, idf: string -> real)
    requires AreDocumentVectors(vs, from, refs, idf) && |dots| == |vs|
    requires forall k :: 0 <= k < |dots| ==> dots[k] == Vectors.Merge(q, vs[k])
    ensures AreDots(dots, q, from, refs, idf)
  {
    forall k | 0 <= k < |refs|
      ensures IsDot(dots[k], q, from, refs[k], idf)
    {
      assert IsDocumentVector(vs[k], from, refs[k], idf);
    }
  }

  /** One expansion for every token of the query. */
  ghost predicate AreExpansions(es: seq<Expansion>, query: seq<string>, entries: Entries) {
    |es| == |query| && forall k :: 0 <= k < |es| ==> es[k].query == query[k] && Expands(es[k], entries)
  }

  lemma SortedHasNoDuplicates(s: seq<string>)
    requires StrictlyIncreasing(s)
    ensures NoDuplicates(s)
  {
    LessIsTotalOrder();
  }

  /** `Store`: from document reference to the sorted set of its tokens. */
  class Store {
    var store: map<string, SortedSet>
    var length: int
    ghost var lists: map<string, set<string>>
    ghost var sets: set<SortedSet>

    ghost predicate Valid()
      reads this, sets
    {
      && lists.Keys == store.Keys
      && forall r {:trigger store[r]} :: r in store ==>
           store[r] in sets && store[r].Valid() && store[r].Contents() == lists[r]
    }

    constructor ()
      ensures Valid() && lists == map[] && sets == {} && length == 0
    {
      store, lists, sets, length := map[], map[], {}, 0;
    }

    method Set(ref: string, tokens: SortedSet)
      requires Valid() && tokens.Valid()
      modifies this
      ensures Valid() && lists == old(lists)[ref := tokens.Contents()] && sets == old(sets) + {tokens}
      ensures length == if old(Has(ref)) then old(length) else old(length) + 1
    {
      if !Has(ref) {
        length := length + 1;
      }
      store, lists := store[ref := tokens], lists[ref := tokens.Contents()];
      sets := sets + {tokens};
    }

    /** `ref in this.store` also sees the names every object inherits. */
    predicate Has(ref: string)
      reads this
    {
      ref in store || ref in INHERITED
    }

    method Remove(ref: string)
      requires Valid()
      modifies this
      ensures Valid() && lists == old(lists) - {ref} && sets == old(sets)
      ensures ref !in old(lists) ==> lists == old(lists)
      ensures length == if old(Has(ref)) then old(length) - 1 else old(length)
    {
      if Has(ref) {
        store, lists := store - {ref}, lists - {ref};
        length := length - 1;
      }
    }
  }

  class Index {
    /** The boosts of the index fields. */
    const boosts: seq<real>
    const documentStore: Store
    const tokenStore: TokenStore
    const corpusTokens: SortedSet

    ghost predicate Valid()
      reads this, documentStore, documentStore.sets, tokenStore, tokenStore.repr, corpusTokens
    {
      PartsValid() && Listed(Value())
    }

    ghost predicate PartsValid()
      reads this, documentStore, documentStore.sets, tokenStore, tokenStore.repr, corpusTokens
    {
      && documentStore.Valid() && tokenStore.Valid() && corpusTokens.Valid()
      && corpusTokens !in documentStore.sets
    }

    ghost function Value(): View
      reads this, documentStore, tokenStore, corpusTokens
    {
      View(tokenStore.entries, documentStore.lists, corpusTokens.Contents())
    }

    constructor (boosts: seq<real>)
      ensures Valid() && Value() == EMPTY && this.boosts == boosts
      ensures fresh(documentStore) && fresh(tokenStore) && fresh(tokenStore.repr) && fresh(corpusTokens)
      ensures documentStore.sets == {}
    {
      this.boosts := boosts;
      documentStore := new Store();
      tokenStore := new TokenStore();
      corpusTokens := new SortedSet();
    }

    method Add(doc: Doc)
      requires Valid() && Fits(doc, boosts)
      modifies documentStore, tokenStore, tokenStore.repr, corpusTokens
      ensures Valid() && Value() == Added(old(Value()), doc, boosts)
      ensures fresh(tokenStore.repr - old(tokenStore.repr)) && fresh(documentStore.sets - old(documentStore.sets))
    {
      OperationsKeepListed(Value(), doc, boosts, doc.ref);
      AddParts(doc);
    }

    method AddParts(doc: Doc)
      requires PartsValid() && Fits(doc, boosts)
      modifies documentStore, tokenStore, tokenStore.repr, corpusTokens
      ensures PartsValid() && Value() == Added(old(Value()), doc, boosts)
      ensures fresh(tokenStore.repr - old(tokenStore.repr)) && fresh(documentStore.sets - old(documentStore.sets))
    {
      var tokens := StoreTokens(doc);
      PostingsOfAll(doc, boosts, tokens.elements);
      ghost var repr := tokenStore.repr;
      IndexTokens(doc, tokens);
      assert documentStore.Valid() && fresh(tokenStore.repr - repr);
    }

    /** The new document in the store. */
    method StoreTokens(doc: Doc) returns (tokens: SortedSet)
      requires PartsValid()
      modifies documentStore
      ensures PartsValid() && fresh(tokens) && tokens.Valid() && tokens.Contents() == Tokens(doc)
      ensures documentStore.lists == old(documentStore.lists)[doc.ref := Tokens(doc)]
      ensures documentStore.sets == old(documentStore.sets) + {tokens}
    {
      tokens := CollectTokens(doc);
      documentStore.Set(doc.ref, tokens);
    }

    /** The tokens of the new document join the corpus and the trie. */
    method IndexTokens(doc: Doc, tokens: SortedSet)
      requires tokenStore.Valid() && corpusTokens.Valid() && tokens.Valid() && tokens != corpusTokens
      requires "" !in tokens.elements && |doc.fields| == |boosts|
      modifies tokenStore, tokenStore.repr, corpusTokens
      ensures tokenStore.Valid() && fresh(tokenStore.repr - old(tokenStore.repr)) && corpusTokens.Valid()
      ensures tokenStore.entries == old(tokenStore.entries) + PostingsOf(doc, boosts, tokens.elements)
      ensures corpusTokens.Contents() == old(corpusTokens.Contents()) + Elements(tokens.elements)
    {
      corpusTokens.Add(tokens.elements);
      AddPostings(doc, tokens.elements);
    }

    /** `tokenStore.add` for every token of the new document. */
    method AddPostings(doc: Doc, tokens: seq<string>)
      requires tokenStore.Valid() && "" !in tokens && |doc.fields| == |boosts|
      modifies tokenStore, tokenStore.repr
      ensures tokenStore.Valid() && fresh(tokenStore.repr - old(tokenStore.repr))
      ensures tokenStore.entries == old(tokenStore.entries) + PostingsOf(doc, boosts, tokens)
    {
      ghost var start := tokenStore.entries;
      for s := 0 to |tokens|
        invariant tokenStore.Valid() && fresh(tokenStore.repr - old(tokenStore.repr))
        invariant tokenStore.entries == start + PostingsOf(doc, boosts, tokens[..s])
      {
        var a := tokens[s];
        PostingsOfSnoc(start, doc, boosts, tokens, s);
        tokenStore.Add(a, Posting(doc.ref, Tf(doc.fields, boosts, a)));
      }
      assert tokens[..|tokens|] == tokens;
    }

    /** The tokens of all fields in one sorted set. */
    method CollectTokens(doc: Doc) returns (tokens: SortedSet)
      ensures fresh(tokens) && tokens.Valid() && tokens.Contents() == Tokens(doc)
    {
      tokens := new SortedSet();
      for k := 0 to |doc.fields|
        invariant fresh(tokens) && tokens.Valid()
        invariant tokens.Contents() == Tokens(Doc(doc.ref, doc.fields[..k]))
      {
        tokens.Add(doc.fields[k]);
        TokensSnoc(doc, k);
      }
      assert doc.fields[..|doc.fields|] == doc.fields;
    }

    /** `remove`; `threw` is the failure on a name that was never stored but is inherited. */
    method Remove(ref: string) returns (threw: bool)
      requires Valid()
      modifies documentStore, tokenStore, tokenStore.repr
      ensures Valid() && Value() == Removed(old(Value()), ref)
      ensures tokenStore.repr == old(tokenStore.repr) && documentStore.sets == old(documentStore.sets)
      ensures threw <==> RemoveThrows(old(documentStore.lists).Keys, ref)
    {
      OperationsKeepListed(Value(), Doc(ref, []), boosts, ref);
      threw := RemoveParts(ref);
    }

    method RemoveParts(ref: string) returns (threw: bool)
      requires PartsValid()
      modifies documentStore, tokenStore, tokenStore.repr
      ensures PartsValid() && Value() == Removed(old(Value()), ref)
      ensures tokenStore.repr == old(tokenStore.repr) && documentStore.sets == old(documentStore.sets)
      ensures threw <==> RemoveThrows(old(documentStore.lists).Keys, ref)
    {
      threw := false;
      if documentStore.Has(ref) {
        if ref in documentStore.store {
          WithoutAll(Value(), documentStore.store[ref].elements, ref);
          RemoveStored(ref);
        } else {
          documentStore.Remove(ref);
          threw := true;
        }
      }
    }

    method RemoveStored(ref: string)
      requires documentStore.Valid() && tokenStore.Valid() && ref in documentStore.store
      modifies documentStore, tokenStore`entries, tokenStore.repr
      ensures documentStore.Valid() && documentStore.lists == old(documentStore.lists) - {ref}
      ensures documentStore.sets == old(documentStore.sets)
      ensures tokenStore.Valid()
      ensures tokenStore.entries ==
                Without(old(tokenStore.entries), old(documentStore.store[ref].elements), ref)
    {
      var words := documentStore.store[ref].elements;
      documentStore.Remove(ref);
      RemovePostings(ref, words);
    }

    /** `tokenStore.remove` for every token of the removed document. */
    method RemovePostings(ref: string, tokens: seq<string>)
      requires tokenStore.Valid()
      modifies tokenStore`entries, tokenStore.repr
      ensures tokenStore.Valid() && tokenStore.entries == Without(old(tokenStore.entries), tokens, ref)
    {
      ghost var start := tokenStore.entries;
      for s := 0 to |tokens|
        invariant tokenStore.Valid() && tokenStore.entries == Without(start, tokens[..s], ref)
      {
        WithoutSnoc(start, tokens, s, ref);
        tokenStore.Remove(tokens[s], ref);
      }
      assert tokens[..|tokens|] == tokens;
    }

    method Update(doc: Doc) returns (threw: bool)
      requires Valid() && Fits(doc, boosts)
      modifies documentStore, tokenStore, tokenStore.repr, corpusTokens
      ensures Valid() && Value() == Updated(old(Value()), doc, boosts)
      ensures fresh(tokenStore.repr - old(tokenStore.repr)) && fresh(documentStore.sets - old(documentStore.sets))
      ensures threw <==> RemoveThrows(old(documentStore.lists).Keys, doc.ref)
    {
      OperationsKeepListed(Value(), doc, boosts, doc.ref);
      OperationsKeepListed(Removed(Value(), doc.ref), doc, boosts, doc.ref);
      threw := UpdateParts(doc);
    }

    method UpdateParts(doc: Doc) returns (threw: bool)
      requires PartsValid() && Fits(doc, boosts)
      modifies documentStore, tokenStore, tokenStore.repr, corpusTokens
      ensures PartsValid() && Value() == Updated(old(Value()), doc, boosts)
      ensures fresh(tokenStore.repr - old(tokenStore.repr)) && fresh(documentStore.sets - old(documentStore.sets))
      ensures threw <==> RemoveThrows(old(documentStore.lists).Keys, doc.ref)
    {
      threw := RemoveParts(doc.ref);
      if !threw {
        AddParts(doc);
      }
    }

    ghost function VectorSource(): Source
      requires documentStore.Valid()
      reads this, documentStore, documentStore.sets, corpusTokens, tokenStore
    {
      Source(map r | r in documentStore.store :: documentStore.store[r].elements,
             corpusTokens.elements, tokenStore.entries)
    }

    /**
     The references `search` answers, before they are sorted by score, and for each the dot product behind its
     score: of its document vector and the vector that the expansions of the query build. `threw` is the failure
     on a hit whose document vector cannot be built.
     */
    method Search(query: seq<string>, idf: string -> real, weights: Weights)
      returns (threw: bool, refs: seq<string>, dots: seq<real>, expansions: seq<Expansion>)
      requires Valid() && "" !in query
      ensures threw <==> query != [] && SearchThrows(Value(), query)
      ensures !threw ==> NoDuplicates(refs)
      ensures !threw ==> Elements(refs) == if query == [] then {} else SearchRefs(Value(), query)
      ensures Consistent(Value()) && query != [] ==> !threw && Elements(refs) == Scan(Value().lists, query)
      ensures !threw && refs != [] ==> AreExpansions(expansions, query, tokenStore.entries)
      ensures forall e, w :: e in expansions && w in e.words ==> w in corpusTokens.elements
      ensures !threw ==> AreDots(dots, QueryEntries(expansions, weights), VectorSource(), refs, idf)
    {
      threw, refs, dots, expansions := FindAndScore(query, idf, weights);
      SearchFacts(query);
    }

    method FindAndScore(query: seq<string>, idf: string -> real, weights: Weights)
      returns (threw: bool, refs: seq<string>, dots: seq<real>, expansions: seq<Expansion>)
      requires Valid() && "" !in query
      ensures threw <==> query != [] && SearchThrows(Value(), query)
      ensures !threw ==> NoDuplicates(refs)
      ensures !threw ==> Elements(refs) == if query == [] then {} else SearchRefs(Value(), query)
      ensures !threw && refs != [] ==> AreExpansions(expansions, query, tokenStore.entries)
      ensures forall e, w :: e in expansions && w in e.words ==> w in corpusTokens.elements
      ensures !threw ==> AreDots(dots, QueryEntries(expansions, weights), VectorSource(), refs, idf)
    {
      var some := SomeKnown(query);
      if !some {
        if query != [] {
          NoHitOutsideTrie(query);
        }
        return false, [], [], [];
      }
      refs, expansions := HitsOf(query);
      threw, dots := Score(refs, expansions, weights, idf);
    }

    ghost function QueryEntries(expansions: seq<Expansion>, weights: Weights): seq<Vectors.Entry>
      reads this, corpusTokens
    {
      Vectors.Built(Insertions(expansions, corpusTokens.elements, weights))
    }

    lemma SearchFacts(query: seq<string>)
      requires "" !in query
      ensures Consistent(Value()) && query != [] ==>
        SearchRefs(Value(), query) == Scan(Value().lists, query) && !SearchThrows(Value(), query)
    {
      if Consistent(Value()) && query != [] {
        SearchIsScan(Value(), query);
      }
    }

    /** The references that all tokens of the query hit, and the expansions of these. */
    method HitsOf(query: seq<string>) returns (refs: seq<string>, expansions: seq<Expansion>)
      requires Valid() && query != [] && "" !in query
      ensures NoDuplicates(refs) && forall r :: r in refs <==> r in SearchRefs(Value(), query)
      ensures AreExpansions(expansions, query, tokenStore.entries)
      ensures forall e, w :: e in expansions && w in e.words ==> w in corpusTokens.elements
    {
      expansions := ExpandAll(query);
      var a := IntersectAll(expansions, query);
      refs := a.elements;
      SortedHasNoDuplicates(refs);
      IntersectionIsSearch(Value(), query);
      assert forall r :: r in refs <==> r in a.Contents();
    }

    /**
     The query vector, and its dot product with the vector of each hit. The source inserts into the query vector
     in the loop that collects the matches, and builds the document vectors one by one as it goes on; these
     steps touch nothing in common.
     */
    method Score(refs: seq<string>, expansions: seq<Expansion>, weights: Weights, idf: string -> real)
      returns (threw: bool, dots: seq<real>)
      requires Valid() && forall e, w :: e in expansions && w in e.words ==> w in corpusTokens.elements
      ensures threw <==> exists ref :: ref in refs && NoVector(documentStore.lists.Keys, ref)
      ensures !threw ==> AreDots(dots, QueryEntries(expansions, weights), VectorSource(), refs, idf)
    {
      var docs;
      threw, docs := DocumentEntries(refs, idf);
      if threw {
        return true, [];
      }
      ghost var from := VectorSource();
      var query := Insertions(expansions, corpusTokens.elements, weights);
      dots := DotAll(query, docs);
      DotsOfVectors(dots, Vectors.Built(query), docs, from, refs, idf);
    }

    /** What is inserted into the document vectors of the hits. */
    method DocumentEntries(refs: seq<string>, idf: string -> real)
      returns (threw: bool, docs: seq<seq<Vectors.Entry>>)
      requires Valid()
      ensures threw <==> exists ref :: ref in refs && NoVector(documentStore.lists.Keys, ref)
      ensures !threw ==> AreDocumentVectors(docs, VectorSource(), refs, idf)
    {
      docs := [];
      ghost var from, stored := VectorSource(), documentStore.lists.Keys;
      for k := 0 to |refs|
        invariant Valid() && VectorSource() == from && documentStore.lists.Keys == stored
        invariant forall ref :: ref in refs[..k] ==> !NoVector(stored, ref)
        invariant AreDocumentVectors(docs, from, refs[..k], idf)
      {
        assert refs[k] in refs && refs[..k + 1] == refs[..k] + [refs[k]];
        var failed, es := VectorEntries(refs[k], idf);
        if failed {
          return true, [];
        }
        docs := docs + [es];
      }
      assert refs[..|refs|] == refs;
      threw := false;
    }

    /** The dot product of the query vector with the vector of each hit. */
    static method DotAll(query: seq<Vectors.Entry>, docs: seq<seq<Vectors.Entry>>) returns (dots: seq<real>)
      requires forall k :: 0 <= k < |docs| ==> Vectors.Increasing(docs[k])
      ensures |dots| == |docs|
      ensures forall k :: 0 <= k < |docs| ==> dots[k] == Vectors.Merge(Vectors.Built(query), docs[k])
    {
      var r := Vectors.Vector.FromInsertions(query);
      dots := [];
      ghost var q := r.Entries();
      for k := 0 to |docs|
        invariant r.Valid() && r.Entries() == q
        invariant |dots| == k && forall j :: 0 <= j < k ==> dots[j] == Vectors.Merge(q, docs[j])
      {
        var d := DotOf(r, docs[k]);
        dots := dots + [d];
      }
    }

    static method DotOf(r: Vectors.Vector, doc: seq<Vectors.Entry>) returns (d: real)
      requires r.Valid() && Vectors.Increasing(doc)
      ensures r.Valid() && r.Entries() == old(r.Entries()) && d == Vectors.Merge(r.Entries(), doc)
    {
      var v := Vectors.Vector.FromInsertions(doc);
      Vectors.BuiltOfIncreasing(doc);
      d := r.Dot(v);
    }

    /** The expansions of all query tokens. */
    method ExpandAll(query: seq<string>) returns (es: seq<Expansion>)
      requires Valid() && "" !in query
      ensures AreExpansions(es, query, tokenStore.entries)
      ensures forall e, w :: e in es && w in e.words ==> w in corpusTokens.elements
    {
      es := [];
      for k := 0 to |query|
        invariant AreExpansions(es, query[..k], tokenStore.entries)
        invariant forall e, w :: e in es && w in e.words ==> w in corpusTokens.elements
      {
        assert query[k] in query && query[..k + 1] == query[..k] + [query[k]];
        var words := tokenStore.Expand(query[k], []);
        assert words[0..] == words;
        forall w | w in words
          ensures w in corpusTokens.elements
        {
          LiveIsInCorpus(w);
        }
        es := es + [Expansion(query[k], words)];
      }
      assert query[..|query|] == query;
    }

    /** The matches of all query tokens, intersected from left to right. */
    method IntersectAll(es: seq<Expansion>, ghost query: seq<string>) returns (a: SortedSet)
      requires tokenStore.Valid() && query != [] && AreExpansions(es, query, tokenStore.entries)
      ensures fresh(a) && a.Valid() && a.Contents() == HitAll(tokenStore.entries, query)
    {
      ghost var entries := tokenStore.entries;
      assert query[..1] == [query[0]] && es[0].query == query[0] && Expands(es[0], entries);
      a := Matching(es[0]);
      for k := 1 to |es|
        invariant tokenStore.Valid() && tokenStore.entries == entries
        invariant fresh(a) && a.Valid() && a.Contents() == HitAll(entries, query[..k])
      {
        assert es[k].query == query[k] && Expands(es[k], entries);
        HitAllSnoc(entries, query, k);
        a := IntersectWith(a, es[k]);
      }
      assert query[..|query|] == query;
    }

    method IntersectWith(a: SortedSet, e: Expansion) returns (b: SortedSet)
      requires tokenStore.Valid() && a.Valid() && Expands(e, tokenStore.entries)
      ensures tokenStore.Valid()
      ensures fresh(b) && b.Valid() && b.Contents() == a.Contents() * HitSet(tokenStore.entries, e.query)
    {
      var c := Matching(e);
      b := a.Intersect(c);
    }

    lemma LiveIsInCorpus(word: string)
      requires Valid() && Live(tokenStore.entries, word)
      ensures word in corpusTokens.elements
    {
      var ref :| Key(word, ref) in tokenStore.entries;
      assert Key(word, ref) in Value().entries && Key(word, ref).token in Value().corpus;
    }

    /** `n.some(has)`: some query token is spelt by a path of the trie. */
    method SomeKnown(query: seq<string>) returns (some: bool)
      requires tokenStore.Valid() && "" !in query
      ensures some <==> exists q :: q in query && q in tokenStore.nodes
    {
      for k := 0 to |query|
        invariant forall q :: q in query[..k] ==> q !in tokenStore.nodes
      {
        var has := tokenStore.Has(query[k]);
        assert query[k] in query && query[..k + 1] == query[..k] + [query[k]];
        if has {
          return true;
        }
      }
      assert query[..|query|] == query;
      some := false;
    }

    /** The references stored under the expansion of one query token. */
    method Matching(e: Expansion) returns (c: SortedSet)
      requires tokenStore.Valid() && Expands(e, tokenStore.entries)
      ensures tokenStore.Valid()
      ensures fresh(c) && c.Valid() && c.Contents() == HitSet(tokenStore.entries, e.query)
    {
      var expanded := e.words;
      c := new SortedSet();
      for k := 0 to |expanded|
        invariant fresh(c) && c.Valid() && c.Contents() == RefsOfAll(tokenStore.entries, expanded[..k])
      {
        var l := RefsOf(expanded[k]);
        c := c.Union(l);
        RefsOfAllSnoc(tokenStore.entries, expanded, k);
      }
      assert expanded[0..] == expanded;
      ExpansionCoversHits(tokenStore.entries, expanded, e.query);
    }

    /** `Object.keys(tokenStore.get(token))` as a sorted set; the key order is left open. */
    method RefsOf(token: string) returns (l: SortedSet)
      requires tokenStore.Valid()
      ensures fresh(l) && l.Valid() && l.Contents() == Refs(tokenStore.entries, token)
    {
      var found := tokenStore.Get(token);
      l := new SortedSet();
      var keys := found.Keys;
      while keys != {}
        invariant keys <= found.Keys && fresh(l) && l.Valid() && l.Contents() == found.Keys - keys
        decreases keys
      {
        var ref :| ref in keys;
        l.Add([ref]);
        keys := keys - {ref};
      }
      forall r
        ensures r in found.Keys <==> r in Refs(tokenStore.entries, token)
      {
        assert Key(token, r) in tokenStore.entries <==> r in Refs(tokenStore.entries, token);
      }
    }

    lemma NoHitOutsideTrie(query: seq<string>)
      requires tokenStore.Valid() && query != [] && query[0] !in tokenStore.nodes
      ensures SearchRefs(Value(), query) == {}
    {
      forall r
        ensures !Hits(Value(), query[0], r)
      {
        if t :| query[0] <= t && Key(t, r) in tokenStore.entries {
          assert Cut(Key(t, r).token, |query[0]|) == query[0];
        }
      }
      assert query[0] in query;
    }

    /**
     `documentVector`: one entry per token of the stored document, at the token's position in the corpus, in
     strictly increasing positions. It fails without a stored document, except that an inherited function
     without parameters passes for a document without tokens.
     */
    method DocumentVector(ref: string, idf: string -> real) returns (threw: bool, v: Vectors.Vector)
      requires Valid()
      ensures threw <==> NoVector(documentStore.lists.Keys, ref)
      ensures v.Valid() && fresh(v) && fresh(v.repr)
      ensures IsDocumentVector(v.Entries(), VectorSource(), ref, idf)
    {
      var es;
      threw, es := VectorEntries(ref, idf);
      Vectors.BuiltOfIncreasing(es);
      v := Vectors.Vector.FromInsertions(es);
    }

    /** What `documentVector` inserts. */
    method VectorEntries(ref: string, idf: string -> real) returns (threw: bool, es: seq<Vectors.Entry>)
      requires Valid()
      ensures threw <==> NoVector(documentStore.lists.Keys, ref)
      ensures IsDocumentVector(es, VectorSource(), ref, idf)
    {
      if ref !in documentStore.store {
        return ref !in PARAMETERLESS, [];
      }
      threw := false;
      var tokens := documentStore.store[ref];
      forall t | t in tokens.elements
        ensures t in corpusTokens.elements && Key(t, ref) in tokenStore.entries
      {
        assert t in tokens.Contents() && t in Value().lists[ref] && t in corpusTokens.Contents();
      }
      es := EntriesFor(tokens.elements, ref, idf);
      VectorOfDescribes(tokens.elements, corpusTokens.elements, tokenStore.entries, ref, idf);
    }

    /** The loop of `documentVector` over the sorted tokens: what it is going to insert. */
    method EntriesFor(words: seq<string>, ref: string, idf: string -> real) returns (es: seq<Vectors.Entry>)
      requires tokenStore.Valid() && corpusTokens.Valid()
      requires Indexed(words, corpusTokens.elements, tokenStore.entries, ref)
      ensures es == VectorOf(words, corpusTokens.elements, tokenStore.entries, ref, idf)
    {
      es := [];
      ghost var corpus, entries := corpusTokens.elements, tokenStore.entries;
      for o := 0 to |words|
        invariant tokenStore.Valid() && corpusTokens.Valid()
        invariant es == VectorOf(words[..o], corpus, entries, ref, idf)
      {
        assert words[o] in words;
        var e := EntryFor(words[o], ref, idf);
        VectorOfNext(words, o, corpus, entries, ref, idf);
        es := es + [e];
      }
      assert words[..|words|] == words;
    }

    method EntryFor(t: string, ref: string, idf: string -> real) returns (e: Vectors.Entry)
      requires tokenStore.Valid() && corpusTokens.Valid()
      requires t in corpusTokens.elements && Key(t, ref) in tokenStore.entries
      ensures e == EntryOf(t, corpusTokens.elements, tokenStore.entries, ref, idf)
    {
      var found := tokenStore.Get(t);
      IndexOfFinds(corpusTokens.elements, t);
      var at := IndexOf(corpusTokens.elements, t, 0, |corpusTokens.elements|);
      e := Vectors.Entry(at, Weight(found[ref].tf, idf, t));
    }

    /** Any operations on a new index. */
    static method Perform(ops: seq<Op>, boosts: seq<real>) returns (i: Index)
      requires AllFit(ops, boosts)
      ensures fresh(i) && i.Valid() && i.boosts == boosts && i.Value() == Run(ops, boosts)
      ensures fresh(i.documentStore) && fresh(i.documentStore.sets) && fresh(i.corpusTokens)
      ensures fresh(i.tokenStore) && fresh(i.tokenStore.repr)
      decreases |ops|
    {
      if ops == [] {
        i := new Index(boosts);
      } else {
        var last := |ops| - 1;
        i := Perform(ops[..last], boosts);
        assert FitsOp(ops[last], boosts);
        ghost var sets, repr := i.documentStore.sets, i.tokenStore.repr;
        i.Apply(ops[last]);
        assert fresh(i.documentStore.sets - sets) && fresh(i.tokenStore.repr - repr);
      }
    }

    /** One operation; the next one is made also after a failure. */
    method Apply(op: Op)
      requires Valid() && FitsOp(op, boosts)
      modifies documentStore, tokenStore, tokenStore.repr, corpusTokens
      ensures Valid() && Value() == Step(old(Value()), op, boosts)
      ensures fresh(tokenStore.repr - old(tokenStore.repr)) && fresh(documentStore.sets - old(documentStore.sets))
    {
      match op
      case AddDoc(doc) =>
        Add(doc);
      case RemoveDoc(ref) =>
        var threw := Remove(ref);
      case UpdateDoc(doc) =>
        var threw := Update(doc);
    }
  }
}
