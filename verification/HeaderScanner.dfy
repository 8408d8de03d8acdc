/**
 The callbacks that collect request headers from the HTTP parser (src/Express/HTTP/HttpScanner.cpp). The
 parser reports a name or a value in as many pieces as it likes.
 */
module HeaderScanner {
  import opened HeaderStore

  datatype Callback = Field(text: string) | Value(text: string) | HeadersComplete

  datatype State = State(headers: Data, head: string, value: string, gotValue: bool, complete: bool)

  const START := State(map[], "", "", false, false)

  /** `addCurrentHeader`. */
  function Commit(s: State): State {
    if s.gotValue then State(Put(s.headers, s.head, s.value), "", "", false, s.complete) else s
  }

  function Step(s: State, c: Callback): State {
    match c
    case Field(text) => var t := Commit(s); t.(head := t.head + text)
    case Value(text) => s.(gotValue := true, value := s.value + text)
    case HeadersComplete => Commit(s).(complete := true)
  }

  function Run(s: State, cs: seq<Callback>): State
    decreases cs
  {
    if cs == [] then s else Run(Step(s, cs[0]), cs[1..])
  }

  /** A header as the parser reports it: the pieces of its name and the pieces of its value. */
  datatype Header = Header(name: seq<string>, value: seq<string>)

  function Join(pieces: seq<string>): string {
    if pieces == [] then "" else pieces[0] + Join(pieces[1..])
  }

  function Fields(pieces: seq<string>): seq<Callback> {
    if pieces == [] then [] else [Field(pieces[0])] + Fields(pieces[1..])
  }

  function ValuesOf(pieces: seq<string>): seq<Callback> {
    if pieces == [] then [] else [Value(pieces[0])] + ValuesOf(pieces[1..])
  }

  /** The callbacks of the headers in order, and the end of the headers. */
  function Callbacks(hs: seq<Header>): seq<Callback> {
    if hs == [] then [HeadersComplete]
    else Fields(hs[0].name) + ValuesOf(hs[0].value) + Callbacks(hs[1..])
  }

  /** What is to be stored: one pair per header, however it was cut up. */
  function Pairs(hs: seq<Header>): seq<Pair> {
    if hs == [] then [] else [Pair(Join(hs[0].name), Join(hs[0].value))] + Pairs(hs[1..])
  }

  /**
   What is stored when headers may also come without any value callback: such a header gives its name
   to the front of the next one.
   */
  function Merged(pending: string, hs: seq<Header>): seq<Pair>
    decreases hs
  {
    if hs == [] then []
    else if hs[0].value == [] then Merged(pending + Join(hs[0].name), hs[1..])
    else [Pair(pending + Join(hs[0].name), Join(hs[0].value))] + Merged("", hs[1..])
  }

  lemma {:induction false} RunConcat(s: State, a: seq<Callback>, b: seq<Callback>)
    ensures Run(s, a + b) == Run(Run(s, a), b)
    decreases a
  {
    if a == [] {
      assert a + b == b;
    } else {
      assert (a + b)[1..] == a[1..] + b;
      RunConcat(Step(s, a[0]), a[1..], b);
    }
  }

  lemma Associates(a: string, b: string, c: string)
    ensures (a + b) + c == a + (b + c)
  {
  }

  /** Pieces of a name end up joined behind what is pending. */
  lemma {:induction false} RunFields(s: State, pieces: seq<string>)
    requires !s.gotValue
    ensures Run(s, Fields(pieces)) == s.(head := s.head + Join(pieces))
    decreases pieces
  {
    if pieces == [] {
      assert s.head + "" == s.head;
    } else {
      RunFields(Step(s, Field(pieces[0])), pieces[1..]);
      assert Run(s, [Field(pieces[0])] + Fields(pieces[1..])) == Run(Step(s, Field(pieces[0])), Fields(pieces[1..]));
      Associates(s.head, pieces[0], Join(pieces[1..]));
    }
  }

  lemma {:induction false} RunValues(s: State, pieces: seq<string>)
    ensures Run(s, ValuesOf(pieces)) == s.(value := s.value + Join(pieces), gotValue := s.gotValue || pieces != [])
    decreases pieces
  {
    if pieces == [] {
      assert s.value + "" == s.value;
    } else {
      RunValues(Step(s, Value(pieces[0])), pieces[1..]);
      assert Run(s, [Value(pieces[0])] + ValuesOf(pieces[1..])) ==
        Run(Step(s, Value(pieces[0])), ValuesOf(pieces[1..]));
      Associates(s.value, pieces[0], Join(pieces[1..]));
    }
  }

  /** The next header, or the end of the headers, commits what is there. */
  lemma CallbacksCommit(s: State, hs: seq<Header>)
    requires hs != [] ==> hs[0].name != []
    ensures Run(s, Callbacks(hs)) == Run(Commit(s), Callbacks(hs))
  {
    var cs := Callbacks(hs);
    assert cs[0].Field? || cs[0].HeadersComplete?;
    assert Step(s, cs[0]) == Step(Commit(s), cs[0]);
  }

  /** What is stored for every way of cutting up names and values, headers without a value included. */
  lemma {:induction false} ScanStores(s: State, hs: seq<Header>)
    requires !s.gotValue && s.value == "" && forall h :: h in hs ==> h.name != []
    ensures Run(s, Callbacks(hs)).headers == PutAll(s.headers, Merged(s.head, hs))
    ensures Run(s, Callbacks(hs)).complete
    decreases hs
  {
    if hs != [] {
      var h, rest := hs[0], Callbacks(hs[1..]);
      assert h in hs;
      RunConcat(s, Fields(h.name) + ValuesOf(h.value), rest);
      RunConcat(s, Fields(h.name), ValuesOf(h.value));
      RunFields(s, h.name);
      var named := s.(head := s.head + Join(h.name));
      RunValues(named, h.value);
      var t := Run(named, ValuesOf(h.value));
      CallbacksCommit(t, hs[1..]);
      assert "" + Join(h.value) == Join(h.value);
      ScanStores(Commit(t), hs[1..]);
    }
  }

  lemma {:induction false} MergedIsPairs(hs: seq<Header>)
    requires forall h :: h in hs ==> h.value != []
    ensures Merged("", hs) == Pairs(hs)
  {
    if hs != [] {
      assert hs[0] in hs;
      assert "" + Join(hs[0].name) == Join(hs[0].name);
      MergedIsPairs(hs[1..]);
    }
  }

  /**
   However each header is cut into name and value callbacks, at least one of each, every header is stored whole
   and in order.
   */
  lemma FragmentationDoesNotMatter(hs: seq<Header>)
    requires forall h :: h in hs ==> h.name != [] && h.value != []
    ensures Run(START, Callbacks(hs)).headers == PutAll(map[], Pairs(hs))
    ensures forall name :: Values(Run(START, Callbacks(hs)).headers, name) == Named(Pairs(hs), name)
  {
    ScanStores(START, hs);
    MergedIsPairs(hs);
    forall name
      ensures Values(Run(START, Callbacks(hs)).headers, name) == Named(Pairs(hs), name)
    {
      PutAllGroups(map[], Pairs(hs), name);
    }
  }

  /** Headers without a value callback make fewer pairs. */
  lemma {:induction false} MergedIsShorter(pending: string, hs: seq<Header>)
    ensures |Merged(pending, hs)| <= |hs|
    ensures (exists h :: h in hs && h.value == []) ==> |Merged(pending, hs)| < |hs|
    decreases hs
  {
    if hs != [] {
      MergedIsShorter(if hs[0].value == [] then pending + Join(hs[0].name) else "", hs[1..]);
      assert hs == [hs[0]] + hs[1..];
    }
  }

  lemma {:induction false} OnePairEach(hs: seq<Header>)
    ensures |Pairs(hs)| == |hs|
  {
    if hs != [] {
      OnePairEach(hs[1..]);
    }
  }

  /** The headers are stored as they came exactly when each comes with a value callback. */
  lemma StoredExactly(hs: seq<Header>)
    requires forall h :: h in hs ==> h.name != []
    ensures Run(START, Callbacks(hs)).headers == PutAll(map[], Pairs(hs)) <==> forall h :: h in hs ==> h.value != []
  {
    if forall h :: h in hs ==> h.value != [] {
      FragmentationDoesNotMatter(hs);
    } else {
      ScanStores(START, hs);
      MergedIsShorter("", hs);
      OnePairEach(hs);
      if PutAll(map[], Merged("", hs)) == PutAll(map[], Pairs(hs)) {
        StoredTellsLength(Merged("", hs), Pairs(hs));
      }
    }
  }

  /** The name "A" without a value callback and "B" with the value "x" are stored as "AB" with the value "x". */
  lemma NameWithoutValueIsGlued()
    ensures Run(START, Callbacks([Header(["A"], []), Header(["B"], ["x"])])).headers == map["AB" := ["x"]]
  {
    var first, second := Header(["A"], []), Header(["B"], ["x"]);
    var hs := [first, second];
    assert hs[1..] == [second] && [second][1..] == [];
    assert Join(["A"]) == "A" && Join(["B"]) == "B" && Join(["x"]) == "x";
    assert "" + "A" == "A" && "A" + "B" == "AB" && Clean("x") == "x";
    assert Merged("", hs) == Merged("" + Join(first.name), hs[1..]) == Merged("A", [second]);
    assert Merged("A", [second]) == [Pair("A" + Join(second.name), Join(second.value))] + Merged("", []);
    assert Merged("", hs) == [Pair("AB", "x")];
    forall h | h in hs
      ensures h.name != []
    {
    }
    ScanStores(START, hs);
    assert Run(START, Callbacks(hs)).headers == PutAll(map[], [Pair("AB", "x")]);
    assert [Pair("AB", "x")][1..] == [] && PutAll(map[], [Pair("AB", "x")]) == Put(map[], "AB", "x");
    assert Values(map[], "AB") + [Clean("x")] == ["x"];
    assert Put(map[], "AB", "x") == map["AB" := ["x"]];
  }

  /** What `onUrl` accepts. */
  datatype HttpMethod = HttpDelete | HttpGet | HttpHead | HttpPost | HttpPut | Other

  class HttpParserData {
    const headers: Headers
    var currentHead: string
    var currentValue: string
    var uri: string
    var method_: HttpMethod
    var messageComplete: bool
    var gotValue: bool

    ghost function Value(): State
      reads this, headers
    {
      State(headers.data, currentHead, currentValue, gotValue, messageComplete)
    }

    constructor ()
      ensures Value() == START && fresh(headers)
    {
      headers := new Headers();
      currentHead, currentValue, uri, method_ := "", "", "", Other;
      messageComplete, gotValue := false, false;
    }

    method AddCurrentHeader()
      modifies this`currentHead, this`currentValue, this`gotValue, headers
      ensures Value() == Commit(old(Value()))
    {
      if gotValue {
        headers.Insert(currentHead, currentValue);
        gotValue := false;
        currentHead := "";
        currentValue := "";
      }
    }

    /** Takes the method and the text; `threw` on a method the server does not know. */
    method OnUrl(m: HttpMethod, text: string) returns (threw: bool)
      modifies this`uri, this`method_, this`gotValue
      ensures threw <==> m.Other?
      ensures if threw then Value() == old(Value()) && uri == old(uri) && method_ == old(method_)
        else Value() == old(Value()).(gotValue := false) && uri == text && method_ == m
    {
      if m.Other? {
        return true;
      }
      method_ := m;
      uri := text;
      gotValue := false;
      threw := false;
    }

    method OnHeaderField(text: string)
      modifies this`currentHead, this`currentValue, this`gotValue, headers
      ensures Value() == Step(old(Value()), Field(text))
    {
      AddCurrentHeader();
      currentHead := currentHead + text;
    }

    method OnHeaderValue(text: string)
      modifies this`currentValue, this`gotValue
      ensures Value() == Step(old(Value()), Callback.Value(text))
    {
      gotValue := true;
      currentValue := currentValue + text;
    }

    method OnHeadersComplete()
      modifies this`currentHead, this`currentValue, this`gotValue, this`messageComplete, headers
      ensures Value() == Step(old(Value()), HeadersComplete)
    {
      AddCurrentHeader();
      messageComplete := true;
    }

    /** Any sequence of header callbacks. */
    method Receive(cs: seq<Callback>)
      modifies this`currentHead, this`currentValue, this`gotValue, this`messageComplete, headers
      ensures Value() == Run(old(Value()), cs)
    {
      assert cs[0..] == cs;
      for k := 0 to |cs|
        invariant Run(Value(), cs[k..]) == Run(old(Value()), cs)
      {
        assert cs[k..][1..] == cs[k + 1..];
        match cs[k]
        case Field(text) => OnHeaderField(text);
        case Value(text) => OnHeaderValue(text);
        case HeadersComplete => OnHeadersComplete();
      }
    }
  }
}
