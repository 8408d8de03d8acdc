/**
 `URI` (src/Express/HTTP/Types.cpp): host and port, the path, query and fragment of a request target, and
 the query parameters, each value kept with the '=' before it.
 */
module Uris {
  import opened Strings
  import opened HeaderStore

  /** The number of values of `std::size_t`; subtraction wraps around at it. */
  const SIZE_T: nat := 0x1_0000_0000_0000_0000

  // Host and port

  predicate IsDigit(c: char) {
    '0' <= c <= '9'
  }

  function DigitOf(c: char): nat
    requires IsDigit(c)
  {
    assert c as int >= '0' as int;
    c as int - '0' as int
  }

  /** `isspace` in the C locale. */
  predicate IsSpace(c: char) {
    c == ' ' || '\t' <= c <= '\r'
  }

  /** The number that the digits at the front of `s` go on with. */
  function ReadDigits(s: string, number: nat): nat {
    if s == "" || !IsDigit(s[0]) then number
    else ReadDigits(s[1..], 10 * number + DigitOf(s[0]))
  }

  /** `atoi`: blanks, a sign, digits; what follows is ignored. A number that is no `int` is outside its contract. */
  function Atoi(s: string): int {
    if s == "" then 0
    else if IsSpace(s[0]) then Atoi(s[1..])
    else if s[0] == '-' || s[0] == '+' then
      var number: int := ReadDigits(s[1..], 0);
      if s[0] == '-' then -number else number
    else ReadDigits(s, 0)
  }

  /** An `int` narrowed to the 16 bits of a `short`, the type of the port. */
  function ToShort(n: int): (r: int)
    ensures -0x8000 <= r < 0x8000
    ensures r == n <==> -0x8000 <= n < 0x8000
  {
    (n + 0x8000) % 0x1_0000 - 0x8000
  }

  datatype Authority = Authority(host: string, port: int)

  const DEFAULT_PORT := 80

  function SplitAuthority(s: string): Authority {
    var at := Find(s, ':', 0);
    if at == |s| then Authority(s, DEFAULT_PORT) else Authority(s[..at], ToShort(Atoi(s[at + 1..])))
  }

  /** The number after the ':', if there is one, is an `int`. */
  predicate PortFits(s: string) {
    var at := Find(s, ':', 0);
    at == |s| || -0x8000_0000 <= Atoi(s[at + 1..]) < 0x8000_0000
  }

  function Decimal(n: nat): (s: string)
    ensures s != "" && forall c :: c in s ==> IsDigit(c)
  {
    var digit := ('0' as int + n % 10) as char;
    if n < 10 then [digit] else Decimal(n / 10) + [digit]
  }

  lemma {:induction false} ReadDigitsSnoc(s: string, c: char, number: nat)
    requires IsDigit(c) && forall d :: d in s ==> IsDigit(d)
    ensures ReadDigits(s + [c], number) == 10 * ReadDigits(s, number) + DigitOf(c)
  {
    if s == "" {
      assert s + [c] == [c] && [c][1..] == "";
    } else {
      assert (s + [c])[1..] == s[1..] + [c];
      ReadDigitsSnoc(s[1..], c, 10 * number + DigitOf(s[0]));
    }
  }

  lemma {:induction false} DecimalIsRead(n: nat)
    ensures ReadDigits(Decimal(n), 0) == n
  {
    var digit := ('0' as int + n % 10) as char;
    if n < 10 {
      assert Decimal(n) == [digit] && [digit][1..] == "";
    } else {
      DecimalIsRead(n / 10);
      ReadDigitsSnoc(Decimal(n / 10), digit, 0);
    }
  }

  /** Where no digit follows, the number is read. */
  lemma {:induction false} DigitsStop(digits: string, rest: string, number: nat)
    requires (forall d :: d in digits ==> IsDigit(d)) && (rest != "" ==> !IsDigit(rest[0]))
    ensures ReadDigits(digits + rest, number) == ReadDigits(digits, number)
    decreases digits
  {
    if digits == "" {
      assert digits + rest == rest;
    } else {
      assert digits[0] in digits && (digits + rest)[1..] == digits[1..] + rest;
      DigitsStop(digits[1..], rest, 10 * number + DigitOf(digits[0]));
    }
  }

  /** Blanks, a sign, the decimal form of a number and anything that is no digit: the signed number is read. */
  lemma {:induction false} AtoiReads(blanks: string, sign: string, n: nat, rest: string)
    requires forall c :: c in blanks ==> c == ' ' || 9 <= c as int <= 13
    requires sign in ["", "+", "-"] && (rest != "" ==> !('0' <= rest[0] <= '9'))
    ensures Atoi(blanks + (sign + (Decimal(n) + rest))) == (if sign == "-" then -1 else 1) * n
    decreases blanks
  {
    var s := sign + (Decimal(n) + rest);
    if blanks == "" {
      assert blanks + s == s && "" + (Decimal(n) + rest) == Decimal(n) + rest;
      assert Decimal(n)[0] in Decimal(n) && (Decimal(n) + rest)[0] == Decimal(n)[0];
      DigitsStop(Decimal(n), rest, 0);
      DecimalIsRead(n);
      if sign != "" {
        assert s[0] == sign[0] && s[1..] == Decimal(n) + rest;
      }
    } else {
      assert blanks[0] in blanks && (blanks + s)[0] == blanks[0] && (blanks + s)[1..] == blanks[1..] + s;
      assert forall c :: c in blanks[1..] ==> c in blanks;
      AtoiReads(blanks[1..], sign, n, rest);
    }
  }

  /** Text that begins like no number is read as 0. */
  lemma AtoiOfText(s: string)
    requires s != "" ==> !IsSpace(s[0]) && !IsDigit(s[0]) && s[0] != '-' && s[0] != '+'
    ensures Atoi(s) == 0
  {
  }

  /** What is stored for a printed host and port; without a port it is 80. */
  lemma PrintedAuthority(host: string, port: nat)
    requires ':' !in host
    ensures SplitAuthority(host) == Authority(host, 80)
    ensures SplitAuthority(host + ":" + Decimal(port)) == Authority(host, ToShort(port))
    ensures PortFits(host + ":" + Decimal(port)) <==> port < 0x8000_0000
  {
    assert host[0..] == host;
    FindAtSeam(host, "", ':', 0);
    assert host + "" == host;
    var s := host + ":" + Decimal(port);
    assert s == host + (":" + Decimal(port));
    FindAtSeam(host, ":" + Decimal(port), ':', 0);
    assert s[..|host|] == host && s[|host| + 1..] == Decimal(port);
    assert Decimal(port)[0] in Decimal(port);
    DecimalIsRead(port);
  }

  /** Host and decimal port come back from their printed form exactly when the port is below 32768. */
  lemma AuthorityRoundTripExactly(host: string, port: nat)
    requires ':' !in host && port < 0x8000_0000
    ensures SplitAuthority(host + ":" + Decimal(port)) == Authority(host, port) <==> port < 0x8000
  {
    PrintedAuthority(host, port);
  }

  /** The port 40000 is stored as -25536. */
  lemma LargePortTurnsNegative()
    ensures PortFits("h:40000") && SplitAuthority("h:40000") == Authority("h", -25536)
  {
    var digits := "40000";
    FindIs("h:40000", ':', 0, 1);
    assert "h:40000"[..1] == "h" && "h:40000"[2..] == digits;
    assert digits[1..] == "0000" && "0000"[1..] == "000" && "000"[1..] == "00" && "00"[1..] == "0" && "0"[1..] == "";
    assert ReadDigits("0", 4000) == 40000 && ReadDigits("00", 400) == 40000 && ReadDigits("000", 40) == 40000;
    assert ReadDigits("0000", 4) == 40000 && Atoi(digits) == 40000;
  }

  // Path, query and fragment

  function Minus(a: nat, b: nat): nat
    requires a < SIZE_T && b < SIZE_T
  {
    if b <= a then a - b else SIZE_T + a - b
  }

  /** `s.substr(pos, count)`, clipped at the end of `s`. */
  function Substr(s: string, pos: nat, count: nat): string
    requires pos <= |s|
  {
    if pos + count <= |s| then s[pos..pos + count] else s[pos..]
  }

  /** `findSection`: the next `value` after `pos`, or the end. */
  function FindSection(s: string, value: char, pos: nat): (i: nat)
    requires pos <= |s|
    ensures pos <= i <= |s|
    ensures pos < |s| ==> pos < i
  {
    if pos == |s| then pos else Find(s, value, pos + 1)
  }

  function Least(a: nat, b: nat): nat {
    if a <= b then a else b
  }

  /** `find_first_of("?&#")`, or the length of `s`. */
  function FirstSeparator(s: string): (i: nat)
    ensures i <= |s|
    ensures i < |s| ==> s[i] in "?&#"
  {
    Least(Find(s, '?', 0), Least(Find(s, '&', 0), Find(s, '#', 0)))
  }

  datatype Parts = Parts(path: string, query: string, fragment: string)

  function Split(s: string): Parts {
    var at := FirstSeparator(s);
    if at == |s| then Parts(s, "", "")
    else if s[at] == '#' then Parts(s[..at], "", s[at..])
    else
      var t := s[at := '?'];
      var end := FindSection(t, '#', at);
      Parts(s[..at], t[at..end], t[end..])
  }

  /** The target with a misplaced '&' put right. */
  function Normalised(s: string): string {
    var at := FirstSeparator(s);
    if at < |s| && s[at] == '&' then s[at := '?'] else s
  }

  /** The parts are exactly the pieces of a text: free of the separators that end them. */
  predicate WellSplit(p: Parts) {
    && (forall c :: c in p.path ==> c !in "?&#")
    && (p.query != "" ==> p.query[0] == '?' && '#' !in p.query)
    && (p.fragment != "" ==> p.fragment[0] == '#')
  }

  lemma FirstSeparatorSkips(s: string)
    ensures forall c :: c in s[..FirstSeparator(s)] ==> c !in "?&#"
  {
    var at := FirstSeparator(s);
    forall c: char | c in "?&#"
      ensures c !in s[..at]
    {
      FindSkips(s, c, 0);
      assert at <= Find(s, c, 0);
      assert forall k :: 0 <= k < at ==> s[k] == s[0..Find(s, c, 0)][k];
    }
  }

  lemma NotASeparator(s: string, k: nat, at: nat)
    requires k < at <= |s| && forall c :: c in s[..at] ==> c !in "?&#"
    ensures s[k] !in "?&#"
  {
    assert s[..at][k] == s[k];
  }

  lemma FirstSeparatorIs(s: string, at: nat)
    requires at <= |s| && (at < |s| ==> s[at] in "?&#")
    requires forall c :: c in s[..at] ==> c !in "?&#"
    ensures FirstSeparator(s) == at
  {
    FirstSeparatorSkips(s);
    if FirstSeparator(s) < at {
      NotASeparator(s, FirstSeparator(s), at);
    } else if at < FirstSeparator(s) {
      NotASeparator(s, at, FirstSeparator(s));
    }
  }

  lemma CutInThree(t: string, at: nat, end: nat)
    requires at <= end <= |t|
    ensures t[..at] + t[at..end] + t[end..] == t
  {
  }

  /** Path, query and fragment are the normalised text cut in three. */
  lemma SplitConcatenates(s: string)
    ensures var p := Split(s); p.path + p.query + p.fragment == Normalised(s) && WellSplit(p)
  {
    var at := FirstSeparator(s);
    FirstSeparatorSkips(s);
    if at == |s| {
      assert s[..at] == s && s + "" + "" == s;
    } else if s[at] == '#' {
      CutInThree(s, at, at);
    } else {
      QuerySplits(s);
    }
  }

  lemma QuerySplits(s: string)
    requires var at := FirstSeparator(s); at < |s| && s[at] != '#'
    ensures var p := Split(s);
      && p.path == s[..FirstSeparator(s)] && p.path + p.query + p.fragment == Normalised(s)
      && p.query != "" && p.query[0] == '?' && '#' !in p.query && (p.fragment != "" ==> p.fragment[0] == '#')
  {
    var at := FirstSeparator(s);
    var t := s[at := '?'];
    QueryCut(t, at);
    assert s[at] == '?' ==> t == s;
    assert s[..at] == t[..at];
  }

  lemma QueryCut(t: string, at: nat)
    requires at < |t| && t[at] == '?'
    ensures var end := FindSection(t, '#', at);
      && at < end && '#' !in t[at..end] && t[at..end][0] == '?' && (end < |t| ==> t[end..][0] == '#')
      && t[..at] + t[at..end] + t[end..] == t
  {
    var end := FindSection(t, '#', at);
    FindSkips(t, '#', at + 1);
    CutInThree(t, at, end);
    assert t[at..end] == ['?'] + t[at + 1..end];
  }

  /** Cutting the concatenation of well-cut parts gives the parts back. */
  lemma SplitOfParts(p: Parts)
    requires WellSplit(p)
    ensures Split(p.path + p.query + p.fragment) == p
  {
    var s := p.path + p.query + p.fragment;
    var at := |p.path|;
    var front := p.path + p.query;
    assert s == front + p.fragment && s[..at] == p.path && s[at..] == p.query + p.fragment;
    assert at < |s| ==> s[at] == (p.query + p.fragment)[0];
    FirstSeparatorIs(s, at);
    if p.query != "" {
      assert s[at] == p.query[0] == '?';
      assert s[at := '?'] == s && front[at + 1..] == p.query[1..];
      FindAtSeam(front, p.fragment, '#', at + 1);
      assert s[at..|front|] == p.query && s[|front|..] == p.fragment;
    } else if p.fragment != "" {
      assert s[at..] == p.fragment;
    }
  }

  /** Reparsing what was parsed changes nothing. */
  lemma SplitIsStable(s: string)
    ensures var p := Split(s); Split(p.path + p.query + p.fragment) == p
  {
    SplitConcatenates(s);
    SplitOfParts(Split(s));
  }

  // Query parameters

  /** Where key and value of the first part of `t` divide. */
  function Divide(t: string): (i: nat)
    requires t != ""
    ensures i <= |t|
  {
    var nextPart := FindSection(t, '&', 0);
    var split := FindSection(t, '=', 0);
    if split > nextPart then nextPart - 1 else split
  }

  /** The first parameter of a query text, which begins with a separator. */
  function FirstParam(t: string): Pair
    requires t != "" && |t| < SIZE_T
  {
    var nextPart := FindSection(t, '&', 0);
    Pair(Substr(t, 1, Minus(Divide(t), 1)), Substr(t, Divide(t), Minus(nextPart, Divide(t))))
  }

  /** The parameters of a query text, in order. */
  function Params(t: string): seq<Pair>
    requires |t| < SIZE_T
    decreases |t|
  {
    if t == "" then [] else [FirstParam(t)] + Params(t[FindSection(t, '&', 0)..])
  }

  /** The first part of the text, without its separator. */
  function FirstPart(t: string): string
    requires t != ""
  {
    t[1..FindSection(t, '&', 0)]
  }

  /** Key and value of the first part. */
  function Made(t: string): string
    requires t != "" && |t| < SIZE_T
  {
    FirstParam(t).name + FirstParam(t).value
  }

  /** Key and value of a part make up the part, unless it is empty and not the last one. */
  lemma FirstParamMakesPart(t: string)
    requires t != "" && |t| < SIZE_T
    ensures Made(t) == if FirstPart(t) != "" || FindSection(t, '&', 0) == |t| then FirstPart(t) else t[1..] + t[..1]
  {
    var next := FindSection(t, '&', 0);
    FindSkips(t, '=', 1);
    if FirstPart(t) == "" && next < |t| {
      assert t[1] == '&' && Find(t, '=', 1) != 1;
    }
  }

  /** Separators, names and values in order. */
  function Rebuilt(t: string): string
    requires |t| < SIZE_T
    decreases |t|
  {
    if t == "" then ""
    else [t[0]] + Made(t) + Rebuilt(t[FindSection(t, '&', 0)..])
  }

  /** No part of the query text is empty, except perhaps the last one. */
  predicate NoEmptyPart(t: string)
    decreases |t|
  {
    t == "" || (
      var next := FindSection(t, '&', 0);
      (FirstPart(t) != "" || next == |t|) && NoEmptyPart(t[next..]))
  }

  /** A part that is not empty, or is the last one, is rebuilt; one round. */
  lemma RebuiltGoesOn(t: string)
    requires t != "" && |t| < SIZE_T
    requires FirstPart(t) != "" || FindSection(t, '&', 0) == |t|
    ensures var rest := t[FindSection(t, '&', 0)..]; Rebuilt(t) == t <==> Rebuilt(rest) == rest
  {
    FirstParamMakesPart(t);
    var rest := t[FindSection(t, '&', 0)..];
    CutFront(t, FindSection(t, '&', 0));
    SameFront([t[0]] + FirstPart(t), Rebuilt(rest), rest);
  }

  /** An empty part that is not the last one makes the result longer than the query. */
  lemma RebuiltGrows(t: string)
    requires t != "" && |t| < SIZE_T && FirstPart(t) == "" && FindSection(t, '&', 0) < |t|
    ensures |Rebuilt(t)| > |t|
  {
    FirstParamMakesPart(t);
    assert |Made(t)| == |t|;
  }

  lemma {:induction false} PartsMakeQuery(t: string)
    requires |t| < SIZE_T
    ensures Rebuilt(t) == t <==> NoEmptyPart(t)
    decreases |t|
  {
    if t != "" {
      var next := FindSection(t, '&', 0);
      if FirstPart(t) != "" || next == |t| {
        RebuiltGoesOn(t);
        PartsMakeQuery(t[next..]);
      } else {
        RebuiltGrows(t);
      }
    }
  }

  /** Keys and values of the pairs in order, with `separator` before the first and '&' before the others. */
  function Glued(separator: char, pairs: seq<Pair>): string
    decreases pairs
  {
    if pairs == [] then "" else [separator] + (pairs[0].name + pairs[0].value) + Glued('&', pairs[1..])
  }

  lemma {:induction false} RebuiltIsGlued(t: string)
    requires t != "" && |t| < SIZE_T
    ensures Rebuilt(t) == Glued(t[0], Params(t))
    decreases |t|
  {
    var rest := t[FindSection(t, '&', 0)..];
    assert Params(t) == [FirstParam(t)] + Params(rest) && Params(t)[1..] == Params(rest);
    if rest != "" {
      assert rest[0] == '&';
      RebuiltIsGlued(rest);
    }
  }

  /** The parameters make up the query exactly when it has no empty part before its last one. */
  lemma RebuiltExactly(t: string)
    requires t != "" && |t| < SIZE_T
    ensures Glued(t[0], Params(t)) == t <==> NoEmptyPart(t)
  {
    RebuiltIsGlued(t);
    PartsMakeQuery(t);
  }

  /** Every part of the query gives one parameter: there is one more than separators behind the first character. */
  lemma {:induction false} OneParamEachPart(t: string)
    requires t != "" && |t| < SIZE_T
    ensures |Params(t)| == 1 + multiset(t[1..])['&']
    decreases |t|
  {
    var next := FindSection(t, '&', 0);
    var rest := t[next..];
    FindSkips(t, '&', 1);
    assert t[1..] == t[1..next] + rest;
    assert multiset(t[1..next])['&'] == 0;
    if rest != "" {
      assert rest == ['&'] + rest[1..];
      OneParamEachPart(rest);
    }
  }

  lemma CutFront(t: string, n: nat)
    requires 1 <= n <= |t|
    ensures t == [t[0]] + t[1..n] + t[n..]
  {
  }

  lemma SameFront(front: string, a: string, b: string)
    ensures front + a == front + b <==> a == b
  {
    assert (front + a)[|front|..] == a && (front + b)[|front|..] == b;
  }

  // Printing a query

  /** `separator`, name, '=', value, and the other pairs behind '&'. */
  function Print(separator: char, pairs: seq<Pair>): string
    decreases pairs
  {
    if pairs == [] then ""
    else [separator] + pairs[0].name + "=" + pairs[0].value + Print('&', pairs[1..])
  }

  predicate Plain(p: Pair) {
    '=' !in p.name && '&' !in p.name && '&' !in p.value
  }

  /** How parsing stores a pair: the value with its '='. */
  function Stored(pairs: seq<Pair>): seq<Pair> {
    if pairs == [] then [] else [Pair(pairs[0].name, "=" + pairs[0].value)] + Stored(pairs[1..])
  }

  lemma FirstOfPrinted(separator: char, p: Pair, rest: string)
    requires Plain(p) && (rest != "" ==> rest[0] == '&')
    requires |[separator] + p.name + "=" + p.value + rest| < SIZE_T
    ensures var t := [separator] + p.name + "=" + p.value + rest;
      && FirstParam(t) == Pair(p.name, "=" + p.value)
      && t[FindSection(t, '&', 0)..] == rest
  {
    var t := [separator] + p.name + "=" + p.value + rest;
    var front := [separator] + p.name + "=" + p.value;
    var name, tail := [separator] + p.name, "=" + p.value + rest;
    assert t == front + rest && t == name + tail;
    assert front[1..] == p.name + "=" + p.value && name[1..] == p.name;
    FindAtSeam(front, rest, '&', 1);
    FindAtSeam(name, tail, '=', 1);
    assert t[1..|name|] == p.name && t[|name|..|front|] == "=" + p.value && t[|front|..] == rest;
  }

  /** Parsing printed pairs gives every pair back, in order, each value with its '='. */
  lemma {:induction false} PrintThenParams(separator: char, pairs: seq<Pair>)
    requires forall p :: p in pairs ==> Plain(p)
    requires |Print(separator, pairs)| < SIZE_T
    ensures Params(Print(separator, pairs)) == Stored(pairs)
    decreases pairs
  {
    if pairs != [] {
      assert pairs[0] in pairs;
      var rest := Print('&', pairs[1..]);
      FirstOfPrinted(separator, pairs[0], rest);
      PrintThenParams('&', pairs[1..]);
    }
  }

  lemma {:induction false} StoredNames(pairs: seq<Pair>, name: string)
    requires forall p :: p in pairs ==> '\n' !in p.value
    ensures |Named(Stored(pairs), name)| == |Named(pairs, name)|
    ensures forall i :: 0 <= i < |Named(pairs, name)| ==> Named(Stored(pairs), name)[i] == "=" + Named(pairs, name)[i]
  {
    if pairs != [] {
      assert pairs[0] in pairs;
      StoredNames(pairs[1..], name);
      CleanKeeps(pairs[0].value);
      CleanKeeps("=" + pairs[0].value);
    }
  }

  /** Stored in order and grouped by name, the pairs keep their values and the order within a name. */
  lemma StoredIsGrouped(pairs: seq<Pair>, name: string)
    requires forall p :: p in pairs ==> '\n' !in p.value
    ensures var found := Values(PutAll(map[], Stored(pairs)), name);
      |found| == |Named(pairs, name)| && forall i :: 0 <= i < |found| ==> found[i] == "=" + Named(pairs, name)[i]
  {
    PutAllGroups(map[], Stored(pairs), name);
    assert [] + Named(Stored(pairs), name) == Named(Stored(pairs), name);
    StoredNames(pairs, name);
  }

  /**
   The whole way round: a path, printed pairs and a fragment are parsed back to the path, the fragment
   and, for every name, its values in their order, each with its leading '='.
   */
  lemma QueryRoundTrip(path: string, pairs: seq<Pair>, fragment: string, name: string)
    requires forall c :: c in path ==> c !in "?&#"
    requires fragment != "" ==> fragment[0] == '#'
    requires forall p :: p in pairs ==> Plain(p) && '#' !in p.name && '#' !in p.value && '\n' !in p.value
    requires |path + Print('?', pairs) + fragment| < SIZE_T
    ensures var parts := Split(path + Print('?', pairs) + fragment);
      && parts.path == path && parts.fragment == fragment && |parts.query| < SIZE_T
      && var found := Values(PutAll(map[], Params(parts.query)), name);
      && |found| == |Named(pairs, name)|
      && forall i :: 0 <= i < |found| ==> found[i] == "=" + Named(pairs, name)[i]
  {
    var query := Print('?', pairs);
    PrintHas('?', pairs, '#');
    SplitOfParts(Parts(path, query, fragment));
    PrintThenParams('?', pairs);
    StoredIsGrouped(pairs, name);
  }

  lemma {:induction false} PrintHas(separator: char, pairs: seq<Pair>, c: char)
    requires c != separator && c != '&' && c != '=' && forall p :: p in pairs ==> c !in p.name && c !in p.value
    ensures c !in Print(separator, pairs)
    decreases pairs
  {
    if pairs != [] {
      assert pairs[0] in pairs;
      PrintHas('&', pairs[1..], c);
    }
  }

  /** A value begins with '=' exactly when its part has one. */
  lemma ValueHasEqualsExactly(t: string)
    requires t != "" && t[0] in "?&" && |t| < SIZE_T
    ensures var value := FirstParam(t).value; (value != "" && value[0] == '=') <==> '=' in FirstPart(t)
  {
    var next, found := FindSection(t, '&', 0), FindSection(t, '=', 0);
    FindSkips(t, '=', 1);
    if found < next {
      assert t[found] == FirstPart(t)[found - 1];
    } else {
      assert forall k :: 1 <= k < next ==> t[k] == t[1..found][k - 1];
      if FirstPart(t) == "" && next < |t| {
        assert t[0..1][0] == t[0];
      }
    }
  }

  lemma NotInPart(t: string, c: char, next: nat, found: nat)
    requires 1 <= next <= found <= |t| && c !in t[1..found]
    ensures c !in t[1..next] && Find(t[1..next], c, 0) == next - 1
  {
    var part := t[1..next];
    assert part == t[1..found][..next - 1];
    assert part[0..|part|] == part;
    FindIs(part, c, 0, |part|);
  }

  /**
   The key is the text of its part up to the first '=', or all of it, exactly when the part has a '=' or is
   the last one.
   */
  lemma KeyIsWholeExactly(t: string)
    requires t != "" && t[0] in "?&" && |t| < SIZE_T
    ensures var part := FirstPart(t);
      FirstParam(t).name == part[..Find(part, '=', 0)] <==> '=' in part || FindSection(t, '&', 0) == |t|
  {
    var part, next, found := FirstPart(t), FindSection(t, '&', 0), FindSection(t, '=', 0);
    FindSkips(t, '=', 1);
    if found < next {
      assert part[0..found - 1] == t[1..found] && part[found - 1] == t[found];
      FindIs(part, '=', 0, found - 1);
      assert part[..found - 1] == t[1..found];
    } else {
      NotInPart(t, '=', next, found);
      if next < |t| {
        assert part == "" ==> |FirstParam(t).name| == |t| - 1;
        assert part != "" ==> |FirstParam(t).name| == |part| - 1;
      } else {
        assert FirstParam(t).name == part;
      }
    }
  }

  lemma ParamWithEquals(t: string)
    requires t != "" && |t| < SIZE_T && FindSection(t, '=', 0) < FindSection(t, '&', 0)
    ensures var p := FirstParam(t);
      '=' in FirstPart(t) && p.name + p.value == FirstPart(t) && '=' !in p.name && p.value != "" && p.value[0] == '='
  {
    var part, next, found := FirstPart(t), FindSection(t, '&', 0), FindSection(t, '=', 0);
    FindSkips(t, '=', 1);
    assert FirstParam(t) == Pair(t[1..found], t[found..next]);
    assert part[found - 1] == t[found] && t[1..found] + t[found..next] == part;
  }

  lemma ParamWithoutEquals(t: string)
    requires t != "" && |t| < SIZE_T && FindSection(t, '&', 0) <= FindSection(t, '=', 0)
    requires FindSection(t, '&', 0) < |t| ==> t[FindSection(t, '&', 0)] != '='
    ensures var part := FirstPart(t);
      && '=' !in part
      && FirstParam(t) ==
           if FindSection(t, '&', 0) == |t| then Pair(part, "")
           else if part != "" then Pair(part[..|part| - 1], [part[|part| - 1]])
           else Pair(t[1..], [t[0]])
  {
    var part, next, found := FirstPart(t), FindSection(t, '&', 0), FindSection(t, '=', 0);
    FindSkips(t, '=', 1);
    NotInPart(t, '=', next, found);
    assert Divide(t) == if next == |t| then next else next - 1;
    if next == |t| {
      assert FirstParam(t) == Pair(t[1..], "");
    } else if part != "" {
      assert |part| == next - 1 > 0;
      assert FirstParam(t) == Pair(t[1..next - 1], t[next - 1..next]);
      assert t[next - 1..next] == [part[|part| - 1]] && t[1..next - 1] == part[..|part| - 1];
    } else {
      assert next == 1 && FirstParam(t) == Pair(t[1..], t[0..1]);
    }
  }

  /**
   Key and value of the first part: they are cut before its first '='; without a '=' the last part is all key,
   any other part gives its last character to the value, and an empty one takes in the text that follows it.
   */
  lemma FirstParamExactly(t: string)
    requires t != "" && |t| < SIZE_T
    ensures var part, p := FirstPart(t), FirstParam(t);
      if '=' in part then p.name + p.value == part && '=' !in p.name && p.value != "" && p.value[0] == '='
      else if FindSection(t, '&', 0) == |t| then p == Pair(part, "")
      else if part != "" then p == Pair(part[..|part| - 1], [part[|part| - 1]])
      else p == Pair(t[1..], [t[0]])
  {
    if FindSection(t, '=', 0) < FindSection(t, '&', 0) {
      ParamWithEquals(t);
    } else {
      ParamWithoutEquals(t);
    }
  }

  /** A part without '=' before another part gives its last character to the value. */
  lemma PartWithoutEquals()
    ensures Params("?ab&c=1") == [Pair("a", "b"), Pair("c", "=1")]
  {
    var t := "?ab&c=1";
    FindIs(t, '&', 1, 3);
    FindIs(t, '=', 1, 5);
    assert t[3..] == "&c=1";
    FindIs("&c=1", '&', 1, 4);
    FindIs("&c=1", '=', 1, 2);
    assert t[1..2] == "a" && t[2..3] == "b" && "&c=1"[1..2] == "c" && "&c=1"[2..4] == "=1" && "&c=1"[4..] == "";
  }

  /** The key and value of the part after `lastPart`, by positions in the whole query. */
  function ParamAt(query: string, lastPart: nat): Pair
    requires lastPart < |query| < SIZE_T
  {
    var nextPart := FindSection(query, '&', lastPart);
    var found := FindSection(query, '=', lastPart);
    var split := if found > nextPart then nextPart - 1 else found;
    Pair(Substr(query, lastPart + 1, Minus(split, lastPart + 1)), Substr(query, split, Minus(nextPart, split)))
  }

  lemma ParamAtIsFirst(query: string, lastPart: nat)
    requires lastPart < |query| < SIZE_T
    ensures FirstParam(query[lastPart..]) == ParamAt(query, lastPart)
    ensures FindSection(query, '&', lastPart) == lastPart + FindSection(query[lastPart..], '&', 0)
  {
    var t := query[lastPart..];
    FindInSuffix(query, '&', lastPart, 1);
    FindInSuffix(query, '=', lastPart, 1);
    var split := Divide(t);
    SubstrAt(query, lastPart, 1, Minus(split, 1));
    SubstrAt(query, lastPart, split, Minus(FindSection(t, '&', 0), split));
  }

  lemma SubstrAt(s: string, start: nat, pos: nat, count: nat)
    requires start + pos <= |s|
    ensures Substr(s[start..], pos, count) == Substr(s, start + pos, count)
  {
  }

  /** One round of the loop over the query. */
  lemma CollectRound(data: Data, query: string, lastPart: nat)
    requires lastPart < |query| < SIZE_T
    ensures var p := ParamAt(query, lastPart);
      PutAll(data, Params(query[lastPart..])) ==
        PutAll(Put(data, p.name, p.value), Params(query[FindSection(query, '&', lastPart)..]))
  {
    var t := query[lastPart..];
    ParamAtIsFirst(query, lastPart);
    var rest := t[FindSection(t, '&', 0)..];
    assert rest == query[FindSection(query, '&', lastPart)..];
    assert Params(t) == [FirstParam(t)] + Params(rest);
  }

  class URI {
    var host: string
    var port: int
    var path: string
    var query: string
    var fragment: string
    const queryParam: Headers

    constructor (hostAndPort: string, pathAndQuery: string)
      requires |pathAndQuery| < SIZE_T && PortFits(hostAndPort)
      ensures Authority(host, port) == SplitAuthority(hostAndPort)
      ensures Parts(path, query, fragment) == Split(pathAndQuery)
      ensures |query| < SIZE_T && queryParam.data == PutAll(map[], Params(query))
    {
      host, port := "", DEFAULT_PORT;
      path, query, fragment := "", "", "";
      queryParam := new Headers();
      new;
      var find := Find(hostAndPort, ':', 0);
      if find == |hostAndPort| {
        host := hostAndPort;
      } else {
        host := hostAndPort[..find];
        port := ToShort(Atoi(hostAndPort[find + 1..]));
      }
      var text := pathAndQuery;
      var nextSection := FirstSeparator(text);
      if nextSection == |text| {
        path := text;
      } else {
        path := text[..nextSection];
        if text[nextSection] != '#' {
          text := text[nextSection := '?'];
          var querySection := nextSection;
          nextSection := FindSection(text, '#', querySection);
          query := text[querySection..nextSection];
        }
        fragment := text[nextSection..];
      }
      if query != "" {
        CollectParams();
      }
    }

    /** The loop over the parts of the query. */
    method CollectParams()
      requires |query| < SIZE_T
      modifies queryParam
      ensures queryParam.data == PutAll(old(queryParam.data), Params(query))
    {
      var q, lastPart := query, 0;
      var nextPart := FindSection(q, '&', 0);
      assert q[0..] == q;
      while nextPart != lastPart
        invariant 0 <= lastPart <= |q| && nextPart == FindSection(q, '&', lastPart)
        invariant PutAll(queryParam.data, Params(q[lastPart..])) == PutAll(old(queryParam.data), Params(q))
        decreases |q| - lastPart
      {
        CollectRound(queryParam.data, q, lastPart);
        CollectOne(q, lastPart, nextPart);
        lastPart := nextPart;
        nextPart := FindSection(q, '&', lastPart);
      }
    }

    /** The body of the loop. */
    method CollectOne(q: string, lastPart: nat, nextPart: nat)
      requires lastPart < |q| < SIZE_T && nextPart == FindSection(q, '&', lastPart)
      modifies queryParam
      ensures var p := ParamAt(q, lastPart); queryParam.data == Put(old(queryParam.data), p.name, p.value)
    {
      var split := FindSection(q, '=', lastPart);
      split := if split > nextPart then nextPart - 1 else split;
      queryParam.Insert(Substr(q, lastPart + 1, Minus(split, lastPart + 1)), Substr(q, split, Minus(nextPart, split)));
    }
  }
}
