/**
 The value of a lunr index and what its operations do to it (docs/javascripts/all.js, lines 65, 69
 and 87): the postings of the trie, the token list of every stored document, and the corpus tokens.
 The reference definition beside it is a plain map from document reference to tokens, searched by
 scanning every document.
 */
module IndexModel {
  import opened Strings
  import opened TokenStores

  /** A document as `add` sees it: its reference and, per index field, what tokenizer and pipeline yield. */
  datatype Doc = Doc(ref: string, fields: seq<seq<string>>)

  datatype View = View(entries: Entries, lists: map<string, set<string>>, corpus: set<string>)

  const EMPTY := View(map[], map[], {})

  /**
   Names every JavaScript object answers to through its prototype: `Store.has` is true of them even
   when nothing was stored. (`__proto__`, which cannot be stored at all, is not a reference here.)
   */
  const INHERITED: set<string> := {
    "constructor", "hasOwnProperty", "isPrototypeOf", "propertyIsEnumerable", "toLocaleString", "toString",
    "valueOf", "__defineGetter__", "__defineSetter__", "__lookupGetter__", "__lookupSetter__"
  }

  /** The inherited functions without parameters: `documentVector` takes their `length`, 0, for that of a token list. */
  const PARAMETERLESS: set<string> := {"toLocaleString", "toString", "valueOf"}

  ghost function Tokens(doc: Doc): set<string> {
    set f, t | f in doc.fields && t in f :: t
  }

  function Occurrences(s: seq<string>, token: string): nat {
    if s == [] then 0 else (if s[0] == token then 1 else 0) + Occurrences(s[1..], token)
  }

  /** Boosted term frequency: over the fields that have tokens, the share of `token` times the boost. */
  function Tf(fields: seq<seq<string>>, boosts: seq<real>, token: string): real
    requires |fields| == |boosts|
  {
    if fields == [] then 0.0
    else
      (if fields[0] == [] then 0.0
       else Occurrences(fields[0], token) as real / |fields[0]| as real * boosts[0])
      + Tf(fields[1..], boosts[1..], token)
  }

  lemma {:induction false} OccurrencesAre(s: seq<string>, token: string)
    ensures Occurrences(s, token) == multiset(s)[token]
  {
    if s != [] {
      OccurrencesAre(s[1..], token);
      assert s == [s[0]] + s[1..];
    }
  }

  /** In one field the frequency is the share of the token times the boost; a field without tokens gives nothing. */
  lemma TfOfField(field: seq<string>, boost: real, token: string)
    ensures field != [] ==> Tf([field], [boost], token) == multiset(field)[token] as real / |field| as real * boost
    ensures field == [] ==> Tf([field], [boost], token) == 0.0
  {
    OccurrencesAre(field, token);
    assert [field][1..] == [] && [boost][1..] == [];
  }

  /** The frequencies of fields add up. */
  lemma {:induction false} TfOfConcat(f: seq<seq<string>>, g: seq<seq<string>>, a: seq<real>, b: seq<real>,
      token: string)
    requires |f| == |a| && |g| == |b|
    ensures Tf(f + g, a + b, token) == Tf(f, a, token) + Tf(g, b, token)
  {
    if f == [] {
      assert f + g == g && a + b == b;
    } else {
      assert (f + g)[1..] == f[1..] + g && (a + b)[1..] == a[1..] + b;
      TfOfConcat(f[1..], g, a[1..], b, token);
    }
  }

  /** The tokens of a document are those of its fields. */
  lemma TokensOfFields(ref: string, field: seq<string>, f: seq<seq<string>>, g: seq<seq<string>>, token: string)
    ensures token in Tokens(Doc(ref, [field])) <==> token in field
    ensures token in Tokens(Doc(ref, f + g)) <==> token in Tokens(Doc(ref, f)) || token in Tokens(Doc(ref, g))
  {
    assert field in [field];
    forall x
      ensures x in f + g <==> x in f || x in g
    {
    }
  }

  // Operations

  ghost function Postings(doc: Doc, boosts: seq<real>): Entries
    requires |doc.fields| == |boosts|
  {
    map t | t in Tokens(doc) :: Key(t, doc.ref) := Posting(doc.ref, Tf(doc.fields, boosts, t))
  }

  ghost function Added(v: View, doc: Doc, boosts: seq<real>): View
    requires |doc.fields| == |boosts|
  {
    View(v.entries + Postings(doc, boosts), v.lists[doc.ref := Tokens(doc)], v.corpus + Tokens(doc))
  }

  /** `store.has(ref)` holds, yet nothing was stored: `remove` then fails on what it gets. */
  predicate RemoveThrows(stored: set<string>, ref: string) {
    ref !in stored && ref in INHERITED
  }

  ghost function Removed(v: View, ref: string): View {
    if ref !in v.lists then v
    else View(map k | k in v.entries && !(k.ref == ref && k.token in v.lists[ref]) :: v.entries[k],
              v.lists - {ref}, v.corpus)
  }

  ghost function Updated(v: View, doc: Doc, boosts: seq<real>): View
    requires |doc.fields| == |boosts|
  {
    if RemoveThrows(v.lists.Keys, doc.ref) then v else Added(Removed(v, doc.ref), doc, boosts)
  }

  /** What `search` answers, before sorting: the references under every expanded query token. */
  ghost function SearchRefs(v: View, query: seq<string>): set<string> {
    set k | k in v.entries && (forall q :: q in query ==> Hits(v, q, k.ref)) :: k.ref
  }

  /** The references under the expansion of one query token. */
  ghost function HitSet(entries: Entries, q: string): set<string> {
    set k | k in entries && q <= k.token :: k.ref
  }

  /** What intersecting the hit sets of the query tokens from left to right leaves. */
  ghost function HitAll(entries: Entries, query: seq<string>): set<string>
    requires query != []
  {
    var last := |query| - 1;
    if last == 0 then HitSet(entries, query[0]) else HitAll(entries, query[..last]) * HitSet(entries, query[last])
  }

  lemma {:induction false} HitAllIs(entries: Entries, query: seq<string>, r: string)
    requires query != []
    ensures r in HitAll(entries, query) <==> forall q :: q in query ==> r in HitSet(entries, q)
  {
    var last := |query| - 1;
    var front, q := query[..last], query[last];
    assert query == front + [q];
    assert forall x :: x in query <==> x in front || x == q;
    if last > 0 {
      HitAllIs(entries, front, r);
      assert r in HitAll(entries, query) <==> r in HitAll(entries, front) && r in HitSet(entries, q);
    } else {
      assert front == [];
    }
  }

  lemma HitAllSnoc(entries: Entries, query: seq<string>, k: nat)
    requires 0 < k < |query|
    ensures HitAll(entries, query[..k + 1]) == HitAll(entries, query[..k]) * HitSet(entries, query[k])
  {
    assert query[..k + 1][..k] == query[..k];
  }

  /** The intersection is the set of references that every query token hits. */
  lemma IntersectionIsSearch(v: View, query: seq<string>)
    requires query != []
    ensures HitAll(v.entries, query) == SearchRefs(v, query)
  {
    forall q, r
      ensures r in HitSet(v.entries, q) <==> Hits(v, q, r)
    {
      if Hits(v, q, r) {
        var t :| q <= t && Key(t, r) in v.entries;
        assert Key(t, r).ref == r && q <= Key(t, r).token;
      }
    }
    forall r
      ensures r in HitAll(v.entries, query) <==> r in SearchRefs(v, query)
    {
      HitAllIs(v.entries, query, r);
      if r in HitAll(v.entries, query) {
        assert r in HitSet(v.entries, query[0]);
      }
    }
  }

  /** `documentVector` fails: under the reference there is no token list, nor anything taken for an empty one. */
  predicate NoVector(stored: set<string>, ref: string) {
    ref !in stored && ref !in PARAMETERLESS
  }

  /** `search` fails: it asks for the vector of a reference it has hit and that has none. */
  ghost predicate SearchThrows(v: View, query: seq<string>) {
    exists r :: r in SearchRefs(v, query) && NoVector(v.lists.Keys, r)
  }

  /** A query as the pipeline yields it: some tokens, none of them empty. */
  predicate Asked(query: seq<string>) {
    query != [] && "" !in query
  }

  ghost predicate Hits(v: View, q: string, ref: string) {
    exists t :: q <= t && Key(t, ref) in v.entries
  }

  // The reference definition

  ghost predicate Contains(tokens: set<string>, q: string) {
    exists t :: t in tokens && q <= t
  }

  /** The documents that contain, for every query token, a token it is a prefix of. */
  ghost function Scan(docs: map<string, set<string>>, query: seq<string>): set<string> {
    set r | r in docs && forall q :: q in query ==> Contains(docs[r], q)
  }

  // The inverted-index invariant

  /** The half every run keeps: listed tokens have postings, tokens with postings are in the corpus and not empty. */
  ghost predicate Listed(v: View) {
    && (forall t, r {:trigger Key(t, r)} :: r in v.lists && t in v.lists[r] ==> Key(t, r) in v.entries)
    && (forall r :: r in v.lists ==> v.lists[r] <= v.corpus)
    && (forall k :: k in v.entries ==> v.entries[k].ref == k.ref && k.token != "" && k.token in v.corpus)
  }

  /** Trie and store agree. */
  ghost predicate Consistent(v: View) {
    Listed(v) && forall k :: k in v.entries ==> k.ref in v.lists && k.token in v.lists[k.ref]
  }

  /**
   Adding keeps the invariant exactly when the reference is fresh or the new version of the document
   has every token of the stored one.
   */
  lemma AddKeepsInvariantExactly(v: View, doc: Doc, boosts: seq<real>)
    requires Consistent(v) && |doc.fields| == |boosts| && "" !in Tokens(doc)
    ensures Consistent(Added(v, doc, boosts)) <==> (doc.ref in v.lists ==> v.lists[doc.ref] <= Tokens(doc))
  {
    var w := Added(v, doc, boosts);
    OperationsKeepListed(v, doc, boosts, doc.ref);
    PostingsHold(doc, boosts);
    if doc.ref in v.lists {
      forall t | t in v.lists[doc.ref] && t !in Tokens(doc)
        ensures !Consistent(w)
      {
        var k := Key(t, doc.ref);
        assert k in v.entries && k in w.entries && k.token !in w.lists[k.ref];
      }
    }
  }

  lemma RemoveKeepsInvariant(v: View, ref: string)
    requires Consistent(v)
    ensures Consistent(Removed(v, ref)) && Removed(v, ref).lists == v.lists - {ref}
    ensures forall k :: k in Removed(v, ref).entries <==> k in v.entries && k.ref != ref
  {
    assert forall k: Key :: Key(k.token, k.ref) == k;
  }

  lemma UpdateKeepsInvariant(v: View, doc: Doc, boosts: seq<real>)
    requires Consistent(v) && |doc.fields| == |boosts| && "" !in Tokens(doc)
    ensures Consistent(Updated(v, doc, boosts))
  {
    RemoveKeepsInvariant(v, doc.ref);
    AddKeepsInvariantExactly(Removed(v, doc.ref), doc, boosts);
  }

  /** Whatever is added or removed, listed tokens keep their postings. */
  lemma OperationsKeepListed(v: View, doc: Doc, boosts: seq<real>, ref: string)
    requires Listed(v)
    ensures |doc.fields| == |boosts| && "" !in Tokens(doc) ==> Listed(Added(v, doc, boosts))
    ensures Listed(Removed(v, ref))
  {
    if |doc.fields| == |boosts| && "" !in Tokens(doc) {
      AddKeepsListed(v, doc, boosts);
    }
  }

  lemma AddKeepsListed(v: View, doc: Doc, boosts: seq<real>)
    requires Listed(v) && |doc.fields| == |boosts| && "" !in Tokens(doc)
    ensures Listed(Added(v, doc, boosts))
  {
    var w := Added(v, doc, boosts);
    PostingsHold(doc, boosts);
    forall t, r | r in w.lists && t in w.lists[r]
      ensures Key(t, r) in w.entries
    {
      assert r != doc.ref ==> Key(t, r) in v.entries;
    }
  }

  /** Searching is scanning as soon as single query tokens hit exactly the documents that contain them. */
  lemma SearchIsScanIfHitsAre(v: View, query: seq<string>)
    requires forall q, r :: Hits(v, q, r) <==> r in v.lists && Contains(v.lists[r], q)
    requires query != []
    ensures SearchRefs(v, query) == Scan(v.lists, query)
  {
    forall r | r in Scan(v.lists, query)
      ensures r in SearchRefs(v, query)
    {
      assert Hits(v, query[0], r);
      var t :| query[0] <= t && Key(t, r) in v.entries;
      assert Key(t, r).ref == r;
    }
    forall r | r in SearchRefs(v, query)
      ensures r in Scan(v.lists, query)
    {
      assert Hits(v, query[0], r);
    }
  }

  /** With the invariant, a query with at least one token finds what a scan finds. */
  lemma SearchIsScan(v: View, query: seq<string>)
    requires Consistent(v) && Asked(query)
    ensures SearchRefs(v, query) == Scan(v.lists, query) && !SearchThrows(v, query)
  {
    HitsAreContained(v);
    SearchIsScanIfHitsAre(v, query);
  }

  lemma HitsAreContained(v: View)
    requires Consistent(v)
    ensures forall q, r :: Hits(v, q, r) <==> r in v.lists && Contains(v.lists[r], q)
  {
    forall q, r
      ensures Hits(v, q, r) <==> r in v.lists && Contains(v.lists[r], q)
    {
      if r in v.lists && Contains(v.lists[r], q) {
        var t :| t in v.lists[r] && q <= t;
        assert Key(t, r) in v.entries;
      }
    }
  }

  /**
   Adding a stored reference again keeps `search` equal to the scan, for every query, exactly when each
   old token is a prefix of some new one.
   */
  lemma SecondAddSearchesRightExactly(v: View, doc: Doc, boosts: seq<real>)
    requires Consistent(v) && |doc.fields| == |boosts| && doc.ref in v.lists
    ensures var w := Added(v, doc, boosts);
      (forall query :: Asked(query) ==> SearchRefs(w, query) == Scan(w.lists, query)) <==>
      (forall t :: t in v.lists[doc.ref] ==> Contains(Tokens(doc), t))
  {
    var w := Added(v, doc, boosts);
    assert forall t :: Key(t, doc.ref) in Postings(doc, boosts) <==> t in Tokens(doc);
    if t :| t in v.lists[doc.ref] && !Contains(Tokens(doc), t) {
      SecondAddMisses(v, doc, boosts, t);
    } else {
      forall q, r
        ensures Hits(w, q, r) <==> r in w.lists && Contains(w.lists[r], q)
      {
        SecondAddHits(v, doc, boosts, q, r);
      }
      forall query | Asked(query)
        ensures SearchRefs(w, query) == Scan(w.lists, query)
      {
        SearchIsScanIfHitsAre(w, query);
      }
    }
  }

  /** An old token that no new token extends still finds the document. */
  lemma SecondAddMisses(v: View, doc: Doc, boosts: seq<real>, t: string)
    requires Consistent(v) && |doc.fields| == |boosts| && doc.ref in v.lists
    requires t in v.lists[doc.ref] && !Contains(Tokens(doc), t)
    ensures var w := Added(v, doc, boosts);
      doc.ref in SearchRefs(w, [t]) && doc.ref !in Scan(w.lists, [t])
  {
    var w := Added(v, doc, boosts);
    assert Key(t, doc.ref) in w.entries && Hits(w, t, doc.ref);
    assert Key(t, doc.ref).ref in SearchRefs(w, [t]);
    assert t in [t];
  }

  lemma SecondAddHits(v: View, doc: Doc, boosts: seq<real>, q: string, r: string)
    requires Consistent(v) && |doc.fields| == |boosts| && doc.ref in v.lists
    requires forall t :: t in v.lists[doc.ref] ==> Contains(Tokens(doc), t)
    ensures var w := Added(v, doc, boosts); Hits(w, q, r) <==> r in w.lists && Contains(w.lists[r], q)
  {
    var w := Added(v, doc, boosts);
    assert forall t :: Key(t, doc.ref) in Postings(doc, boosts) <==> t in Tokens(doc);
    if Hits(w, q, r) && r == doc.ref {
      var t :| q <= t && Key(t, r) in w.entries;
      if t !in Tokens(doc) {
        var u :| u in Tokens(doc) && t <= u;
        assert q <= u;
      }
    }
    if r in w.lists && Contains(w.lists[r], q) {
      var t :| t in w.lists[r] && q <= t;
      assert Key(t, r) in w.entries;
    }
  }

  /** A concrete stale search: "1" is stored with token "a", then added again with only "b". */
  lemma StaleTokenAfterSecondAdd()
    ensures var v := View(map[Key("a", "1") := Posting("1", 1.0)], map["1" := {"a"}], {"a"});
      var w := Added(v, Doc("1", [["b"]]), [1.0]);
      Consistent(v) && SearchRefs(w, ["a"]) != Scan(w.lists, ["a"])
  {
    var v := View(map[Key("a", "1") := Posting("1", 1.0)], map["1" := {"a"}], {"a"});
    var e := Doc("1", [["b"]]);
    assert forall t :: t in Tokens(e) ==> t == "b";
    assert !("a" <= "b") by {
      assert "a"[0] != "b"[0];
    }
    assert !Contains(Tokens(e), "a");
    SecondAddMisses(v, e, [1.0], "a");
  }

  // Runs

  datatype Op = AddDoc(doc: Doc) | RemoveDoc(ref: string) | UpdateDoc(doc: Doc)

  /** The document has the fields of the index, and the pipeline gave no empty token. */
  ghost predicate Fits(doc: Doc, boosts: seq<real>) {
    |doc.fields| == |boosts| && "" !in Tokens(doc)
  }

  ghost predicate FitsOp(op: Op, boosts: seq<real>) {
    op.RemoveDoc? || Fits(op.doc, boosts)
  }

  ghost predicate AllFit(ops: seq<Op>, boosts: seq<real>) {
    forall i :: 0 <= i < |ops| ==> FitsOp(ops[i], boosts)
  }

  ghost function Step(v: View, op: Op, boosts: seq<real>): View
    requires FitsOp(op, boosts)
  {
    match op
    case AddDoc(doc) => Added(v, doc, boosts)
    case RemoveDoc(ref) => Removed(v, ref)
    case UpdateDoc(doc) => Updated(v, doc, boosts)
  }

  ghost function Run(ops: seq<Op>, boosts: seq<real>): View
    requires AllFit(ops, boosts)
  {
    if ops == [] then EMPTY else Step(Run(ops[..|ops| - 1], boosts), ops[|ops| - 1], boosts)
  }

  /** The documents after a run, by the plain reading of the operations. */
  ghost function Documents(ops: seq<Op>): map<string, set<string>> {
    if ops == [] then map[]
    else
      var docs := Documents(ops[..|ops| - 1]);
      match ops[|ops| - 1]
      case AddDoc(doc) => docs[doc.ref := Tokens(doc)]
      case RemoveDoc(ref) => docs - {ref}
      case UpdateDoc(doc) => if RemoveThrows(docs.Keys, doc.ref) then docs else docs[doc.ref := Tokens(doc)]
  }

  ghost function Keys(tokens: set<string>, ref: string): set<Key> {
    set t | t in tokens :: Key(t, ref)
  }

  ghost function TokensOf(docs: map<string, set<string>>, ref: string): set<string> {
    if ref in docs then docs[ref] else {}
  }

  /** The version of a stored document, by the plain reading of the operations. */
  ghost function Version(ops: seq<Op>, ref: string): Option<Doc> {
    if ops == [] then None
    else
      var before := ops[..|ops| - 1];
      match ops[|ops| - 1]
      case AddDoc(doc) => if doc.ref == ref then Some(doc) else Version(before, ref)
      case RemoveDoc(r) => if r == ref then None else Version(before, ref)
      case UpdateDoc(doc) =>
        if doc.ref == ref && !RemoveThrows(Documents(before).Keys, ref) then Some(doc) else Version(before, ref)
  }

  /** The posting of every token of a stored document holds its frequency in the version that is stored. */
  ghost predicate Measures(v: View, ref: string, version: Option<Doc>, boosts: seq<real>) {
    match version
    case None => ref !in v.lists
    case Some(doc) =>
      && |doc.fields| == |boosts| && ref in v.lists && v.lists[ref] == Tokens(doc)
      && forall t {:trigger Key(t, ref)} :: t in Tokens(doc) ==>
           Key(t, ref) in v.entries && v.entries[Key(t, ref)] == Posting(ref, Tf(doc.fields, boosts, t))
  }

  lemma AddMeasures(v: View, doc: Doc, boosts: seq<real>, ref: string, version: Option<Doc>)
    requires Fits(doc, boosts) && Measures(v, ref, version, boosts)
    ensures Measures(Added(v, doc, boosts), ref, if doc.ref == ref then Some(doc) else version, boosts)
  {
    PostingsHold(doc, boosts);
  }

  lemma RemoveMeasures(v: View, r: string, boosts: seq<real>, ref: string, version: Option<Doc>)
    requires Measures(v, ref, version, boosts)
    ensures Measures(Removed(v, r), ref, if r == ref then None else version, boosts)
  {
  }

  /** After every run the postings of each stored document hold the frequencies of its stored version. */
  lemma {:induction false} RunMeasures(ops: seq<Op>, boosts: seq<real>, ref: string)
    requires AllFit(ops, boosts)
    ensures Measures(Run(ops, boosts), ref, Version(ops, ref), boosts)
  {
    if ops != [] {
      var before := ops[..|ops| - 1];
      RunMeasures(before, boosts, ref);
      RunIsListed(before, boosts);
      var v, version := Run(before, boosts), Version(before, ref);
      assert FitsOp(ops[|ops| - 1], boosts);
      match ops[|ops| - 1]
      case AddDoc(doc) =>
        AddMeasures(v, doc, boosts, ref, version);
      case RemoveDoc(r) =>
        RemoveMeasures(v, r, boosts, ref, version);
      case UpdateDoc(doc) =>
        RemoveMeasures(v, doc.ref, boosts, ref, version);
        AddMeasures(Removed(v, doc.ref), doc, boosts, ref, if doc.ref == ref then None else version);
    }
  }

  /**
   The postings a run has lost sight of, by the plain reading of the operations: the old tokens of a
   document that was added again without them, until the document gets them back.
   */
  ghost function Lost(ops: seq<Op>): set<Key> {
    if ops == [] then {}
    else
      var docs, lost := Documents(ops[..|ops| - 1]), Lost(ops[..|ops| - 1]);
      match ops[|ops| - 1]
      case AddDoc(doc) => lost + Keys(TokensOf(docs, doc.ref), doc.ref) - Keys(Tokens(doc), doc.ref)
      case RemoveDoc(ref) => lost
      case UpdateDoc(doc) => if RemoveThrows(docs.Keys, doc.ref) then lost else lost - Keys(Tokens(doc), doc.ref)
  }

  /** The postings of the trie are those of the documents and, apart from them, the lost ones. */
  ghost predicate Accounts(v: View, docs: map<string, set<string>>, lost: set<Key>) {
    && Listed(v) && v.lists == docs
    && (forall k :: k in v.entries ==> k in lost || k.token in TokensOf(docs, k.ref))
    && (forall k :: k in lost ==> k in v.entries && k.token !in TokensOf(docs, k.ref))
  }

  lemma AddAccounts(v: View, docs: map<string, set<string>>, lost: set<Key>, doc: Doc, boosts: seq<real>)
    requires Accounts(v, docs, lost) && Fits(doc, boosts)
    ensures Accounts(Added(v, doc, boosts), docs[doc.ref := Tokens(doc)],
                     lost + Keys(TokensOf(docs, doc.ref), doc.ref) - Keys(Tokens(doc), doc.ref))
  {
    AddKeepsListed(v, doc, boosts);
    PostingsHold(doc, boosts);
    KeysHold(TokensOf(docs, doc.ref), doc.ref);
    var w, now := Added(v, doc, boosts), docs[doc.ref := Tokens(doc)];
    var gone := lost + Keys(TokensOf(docs, doc.ref), doc.ref) - Keys(Tokens(doc), doc.ref);
    forall k | k in w.entries
      ensures k in gone || k.token in TokensOf(now, k.ref)
    {
      assert k in Postings(doc, boosts) || k in v.entries;
    }
    forall k | k in gone
      ensures k in w.entries && k.token !in TokensOf(now, k.ref)
    {
      assert k == Key(k.token, k.ref) && k in v.entries;
    }
  }

  lemma KeysHold(tokens: set<string>, ref: string)
    ensures forall k :: k in Keys(tokens, ref) <==> k.ref == ref && k.token in tokens
  {
    assert forall k: Key :: k == Key(k.token, k.ref);
  }

  lemma PostingsHold(doc: Doc, boosts: seq<real>)
    requires |doc.fields| == |boosts|
    ensures forall k :: k in Postings(doc, boosts) <==> k.ref == doc.ref && k.token in Tokens(doc)
    ensures forall k :: k in Keys(Tokens(doc), doc.ref) <==> k.ref == doc.ref && k.token in Tokens(doc)
  {
    assert forall k: Key :: k == Key(k.token, k.ref);
    KeysHold(Tokens(doc), doc.ref);
  }

  lemma RemoveAccounts(v: View, docs: map<string, set<string>>, lost: set<Key>, ref: string)
    requires Accounts(v, docs, lost)
    ensures Accounts(Removed(v, ref), docs - {ref}, lost)
  {
  }

  /** After every run the postings of the trie are those of the documents and the lost ones. */
  lemma {:induction false} RunAccounts(ops: seq<Op>, boosts: seq<real>)
    requires AllFit(ops, boosts)
    ensures Accounts(Run(ops, boosts), Documents(ops), Lost(ops))
  {
    if ops != [] {
      var before := ops[..|ops| - 1];
      RunAccounts(before, boosts);
      var v, docs, lost := Run(before, boosts), Documents(before), Lost(before);
      assert FitsOp(ops[|ops| - 1], boosts);
      match ops[|ops| - 1]
      case AddDoc(doc) =>
        AddAccounts(v, docs, lost, doc, boosts);
      case RemoveDoc(ref) =>
        RemoveAccounts(v, docs, lost, ref);
      case UpdateDoc(doc) =>
        RemoveAccounts(v, docs, lost, doc.ref);
        AddAccounts(Removed(v, doc.ref), docs - {doc.ref}, lost, doc, boosts);
        UpdateIs(docs, lost, doc);
    }
  }

  lemma UpdateIs(docs: map<string, set<string>>, lost: set<Key>, doc: Doc)
    ensures (docs - {doc.ref})[doc.ref := Tokens(doc)] == docs[doc.ref := Tokens(doc)]
    ensures lost + Keys(TokensOf(docs - {doc.ref}, doc.ref), doc.ref) == lost
  {
  }

  /** In every run, every token a document lists has its posting and is in the corpus. */
  lemma RunIsListed(ops: seq<Op>, boosts: seq<real>)
    requires AllFit(ops, boosts)
    ensures Listed(Run(ops, boosts)) && Run(ops, boosts).lists == Documents(ops)
  {
    RunAccounts(ops, boosts);
  }

  /** Trie and store agree after a run exactly when the run has lost nothing. */
  lemma RunKeepsInvariantExactly(ops: seq<Op>, boosts: seq<real>)
    requires AllFit(ops, boosts)
    ensures Consistent(Run(ops, boosts)) <==> Lost(ops) == {}
  {
    RunAccounts(ops, boosts);
    var v := Run(ops, boosts);
    if k :| k in Lost(ops) {
      assert k in v.entries && k.token !in TokensOf(v.lists, k.ref);
    }
  }

  /** A lost posting of the reference under a token the query token is a prefix of. */
  ghost predicate LostHits(lost: set<Key>, q: string, ref: string) {
    exists t :: q <= t && Key(t, ref) in lost
  }

  lemma RunHits(ops: seq<Op>, boosts: seq<real>, q: string, r: string)
    requires AllFit(ops, boosts)
    ensures Hits(Run(ops, boosts), q, r) <==> Contains(TokensOf(Documents(ops), r), q) || LostHits(Lost(ops), q, r)
  {
    RunAccounts(ops, boosts);
    var v, docs, lost := Run(ops, boosts), Documents(ops), Lost(ops);
    if Hits(v, q, r) {
      var t :| q <= t && Key(t, r) in v.entries;
      assert Key(t, r) in lost || Key(t, r).token in TokensOf(docs, Key(t, r).ref);
    }
    if Contains(TokensOf(docs, r), q) {
      var t :| t in TokensOf(docs, r) && q <= t;
      assert Key(t, r) in v.entries;
    }
    if LostHits(lost, q, r) {
      var t :| q <= t && Key(t, r) in lost;
      assert Key(t, r) in v.entries;
    }
  }

  /** Every lost posting still leads to a stored document that has a token extending the lost one. */
  ghost predicate LostAreCovered(docs: map<string, set<string>>, lost: set<Key>) {
    forall k :: k in lost ==> Contains(TokensOf(docs, k.ref), k.token)
  }

  /** After a run all searches answer what the scan answers exactly when its lost postings are covered. */
  lemma RunSearchIsScanExactly(ops: seq<Op>, boosts: seq<real>)
    requires AllFit(ops, boosts)
    ensures (forall query :: Asked(query) ==> SearchRefs(Run(ops, boosts), query) == Scan(Documents(ops), query))
      <==> LostAreCovered(Documents(ops), Lost(ops))
  {
    RunAccounts(ops, boosts);
    var v, docs, lost := Run(ops, boosts), Documents(ops), Lost(ops);
    if LostAreCovered(docs, lost) {
      forall q, r
        ensures Hits(v, q, r) <==> r in v.lists && Contains(v.lists[r], q)
      {
        CoveredHits(ops, boosts, q, r);
      }
      forall query | Asked(query)
        ensures SearchRefs(v, query) == Scan(docs, query)
      {
        SearchIsScanIfHitsAre(v, query);
      }
    } else {
      var k :| k in lost && !Contains(TokensOf(docs, k.ref), k.token);
      assert k == Key(k.token, k.ref) && Hits(v, k.token, k.ref);
      assert Asked([k.token]) && k.token in [k.token];
      assert k.ref in SearchRefs(v, [k.token]) && k.ref !in Scan(docs, [k.token]);
    }
  }

  lemma CoveredHits(ops: seq<Op>, boosts: seq<real>, q: string, r: string)
    requires AllFit(ops, boosts) && LostAreCovered(Documents(ops), Lost(ops))
    ensures Hits(Run(ops, boosts), q, r) <==> r in Documents(ops) && Contains(Documents(ops)[r], q)
  {
    RunHits(ops, boosts, q, r);
    if LostHits(Lost(ops), q, r) {
      var t :| q <= t && Key(t, r) in Lost(ops);
      assert Contains(TokensOf(Documents(ops), Key(t, r).ref), Key(t, r).token);
      var u :| u in TokensOf(Documents(ops), r) && t <= u;
      assert q <= u;
    }
  }

  /** The reference was removed after losing, for every query token, a posting the token leads to. */
  ghost predicate Orphaned(docs: map<string, set<string>>, lost: set<Key>, query: seq<string>, ref: string) {
    NoVector(docs.Keys, ref) && forall q :: q in query ==> LostHits(lost, q, ref)
  }

  ghost predicate SomeOrphaned(docs: map<string, set<string>>, lost: set<Key>, query: seq<string>) {
    exists r :: Orphaned(docs, lost, query, r)
  }

  /**
   After a run a search throws exactly when every token of its query leads to lost postings of one removed
   reference.
   */
  lemma RunSearchThrowsExactly(ops: seq<Op>, boosts: seq<real>, query: seq<string>)
    requires AllFit(ops, boosts) && Asked(query)
    ensures SearchThrows(Run(ops, boosts), query) <==> SomeOrphaned(Documents(ops), Lost(ops), query)
  {
    RunAccounts(ops, boosts);
    var v, docs, lost := Run(ops, boosts), Documents(ops), Lost(ops);
    if SearchThrows(v, query) {
      var r :| r in SearchRefs(v, query) && NoVector(v.lists.Keys, r);
      OrphanIsHit(ops, boosts, query, r);
    }
    if r :| Orphaned(docs, lost, query, r) {
      OrphanIsHit(ops, boosts, query, r);
    }
  }

  lemma OrphanIsHit(ops: seq<Op>, boosts: seq<real>, query: seq<string>, r: string)
    requires AllFit(ops, boosts) && Asked(query) && NoVector(Documents(ops).Keys, r)
    ensures r in SearchRefs(Run(ops, boosts), query) <==> Orphaned(Documents(ops), Lost(ops), query, r)
  {
    var v := Run(ops, boosts);
    forall q
      ensures Hits(v, q, r) <==> LostHits(Lost(ops), q, r)
    {
      RunHits(ops, boosts, q, r);
    }
    if r in SearchRefs(v, query) {
      forall q | q in query
        ensures LostHits(Lost(ops), q, r)
      {
        assert Hits(v, q, r);
      }
    }
    if Orphaned(Documents(ops), Lost(ops), query, r) {
      assert query[0] in query && Hits(v, query[0], r);
      var t :| query[0] <= t && Key(t, r) in v.entries;
      assert Key(t, r).ref == r;
    }
  }

  /** "1" gets the token "a", then only "b", then goes. */
  const ORPHANING: seq<Op> := [AddDoc(Doc("1", [["a"]])), AddDoc(Doc("1", [["b"]])), RemoveDoc("1")]

  /** After that, searching "a" throws. */
  lemma SearchThrowsAfterRemoval()
    ensures AllFit(ORPHANING, [1.0]) && SearchThrows(Run(ORPHANING, [1.0]), ["a"])
  {
    TokensOfOne("1", "a");
    TokensOfOne("1", "b");
    OneIsOrphaned(ORPHANING);
    OrphanThrows(ORPHANING, [1.0], ["a"], "1");
  }

  lemma OrphanThrows(ops: seq<Op>, boosts: seq<real>, query: seq<string>, ref: string)
    requires AllFit(ops, boosts) && Asked(query) && Orphaned(Documents(ops), Lost(ops), query, ref)
    ensures SearchThrows(Run(ops, boosts), query)
  {
    assert SomeOrphaned(Documents(ops), Lost(ops), query);
    RunSearchThrowsExactly(ops, boosts, query);
  }

  lemma OneIsOrphaned(ops: seq<Op>)
    requires ops == ORPHANING
    ensures Orphaned(Documents(ops), Lost(ops), ["a"], "1")
  {
    var a, b := Doc("1", [["a"]]), Doc("1", [["b"]]);
    TokensOfOne("1", "a");
    TokensOfOne("1", "b");
    assert "a"[0] != "b"[0];
    assert [AddDoc(a)][..0] == [] && Documents([AddDoc(a)]) == map["1" := {"a"}];
    SecondAddLoses([AddDoc(a)], b, "a");
    assert [AddDoc(a)] + [AddDoc(b)] == ops[..2];
    assert "1" !in Documents(ops) && Key("a", "1") in Lost(ops);
    assert LostHits(Lost(ops), "a", "1");
  }

  lemma SecondAddLoses(ops: seq<Op>, doc: Doc, t: string)
    requires t in TokensOf(Documents(ops), doc.ref) && t !in Tokens(doc)
    ensures Key(t, doc.ref) in Lost(ops + [AddDoc(doc)])
  {
    assert (ops + [AddDoc(doc)])[..|ops|] == ops;
    assert Key(t, doc.ref) in Keys(TokensOf(Documents(ops), doc.ref), doc.ref);
  }

  lemma TokensOfOne(ref: string, token: string)
    ensures Tokens(Doc(ref, [[token]])) == {token}
  {
    assert token in [token] && [token] in [[token]];
  }

  /** Every `add` of the run brings a reference not stored at that moment, or keeps all its tokens. */
  ghost predicate AddsLoseNothing(ops: seq<Op>) {
    forall i :: 0 <= i < |ops| && ops[i].AddDoc? ==>
      TokensOf(Documents(ops[..i]), ops[i].doc.ref) <= Tokens(ops[i].doc)
  }

  lemma {:induction false} NothingIsLost(ops: seq<Op>)
    requires AddsLoseNothing(ops)
    ensures Lost(ops) == {}
  {
    if ops != [] {
      var before, op := ops[..|ops| - 1], ops[|ops| - 1];
      assert forall i :: 0 <= i < |before| ==> before[..i] == ops[..i];
      NothingIsLost(before);
      if op.AddDoc? {
        assert TokensOf(Documents(before), op.doc.ref) <= Tokens(op.doc);
      }
    }
  }

  lemma RunKeepsInvariant(ops: seq<Op>, boosts: seq<real>)
    requires AllFit(ops, boosts) && AddsLoseNothing(ops)
    ensures Consistent(Run(ops, boosts)) && Run(ops, boosts).lists == Documents(ops)
  {
    NothingIsLost(ops);
    RunKeepsInvariantExactly(ops, boosts);
    RunIsListed(ops, boosts);
  }

  /**
   After every run of adds that lose nothing, removes and updates, `search` does not throw and answers what a
   scan of the documents answers.
   */
  lemma RunSearchIsScan(ops: seq<Op>, boosts: seq<real>, query: seq<string>)
    requires AllFit(ops, boosts) && AddsLoseNothing(ops) && Asked(query)
    ensures SearchRefs(Run(ops, boosts), query) == Scan(Documents(ops), query)
    ensures !SearchThrows(Run(ops, boosts), query)
  {
    RunKeepsInvariant(ops, boosts);
    SearchIsScan(Run(ops, boosts), query);
  }
}
