/**
 HTTP routes (src/Express/HTTP/Route.cpp, src/Express/HTTP/Route.h): "/person/:id/go.json" is cut into
 the fixed pieces ["/person/", "/go.json"] and the names ["id"], and is compared with the path of a
 request, any segment standing for a name.
 */
module Routes {
  import opened Strings

  /** The largest `std::size_t`; `find` answers it for "not found". */
  const NPOS: nat := 0xFFFF_FFFF_FFFF_FFFF

  /** The largest `int`, the type that `compare` answers. */
  const INT_MAX: nat := 0x7FFF_FFFF

  /** `std::string::find(c, from)`. */
  function FindOrNpos(s: string, c: char, from: nat): nat {
    if from < |s| && Find(s, c, from) < |s| then Find(s, c, from) else NPOS
  }

  datatype RouteError = InvalidRoute | OutOfRange

  datatype Parsed = Built(pieces: seq<string>, names: seq<string>) | Failed(error: RouteError)

  /** Put a piece and a name in front of what the rest of the text gives. */
  function Prepend(piece: string, name: string, rest: Parsed): Parsed {
    match rest
    case Built(pieces, names) => Built([piece] + pieces, [name] + names)
    case Failed(error) => Failed(error)
  }

  function PrependAll(pieces: seq<string>, names: seq<string>, rest: Parsed): Parsed {
    match rest
    case Built(ps, ns) => Built(pieces + ps, names + ns)
    case Failed(error) => Failed(error)
  }

  /** The route a text denotes, read from its front. */
  function Parse(t: string): (r: Parsed)
    requires t != "" ==> t[0] != ':'
    decreases |t|
  {
    var find := Find(t, ':', 0);
    if find == |t| then Built([t], [])
    else if t[find - 1] != '/' then Failed(InvalidRoute)
    else
      var next := Find(t, '/', find);
      if next == |t| then Failed(OutOfRange) else Prepend(t[..find], t[find + 1..next], Parse(t[next..]))
  }

  /** The text of a route: pieces and names in turn, a colon before each name. */
  function Print(pieces: seq<string>, names: seq<string>): string
    requires |pieces| == |names| + 1
  {
    if names == [] then pieces[0]
    else pieces[0] + ":" + names[0] + Print(pieces[1..], names[1..])
  }

  /** A piece before a name ends in '/', a name runs up to the next '/', where the next piece begins. */
  predicate WellFormed(pieces: seq<string>, names: seq<string>) {
    && |pieces| == |names| + 1
    && ':' !in pieces[0]
    && (names != [] ==>
         && pieces[0] != "" && pieces[0][|pieces[0]| - 1] == '/'
         && '/' !in names[0]
         && pieces[1] != "" && pieces[1][0] == '/'
         && WellFormed(pieces[1..], names[1..]))
  }

  /** What the constructor builds is well formed and prints back to the text it was built from. */
  lemma {:induction false} ParseThenPrint(t: string)
    requires t != "" ==> t[0] != ':'
    requires Parse(t).Built?
    ensures WellFormed(Parse(t).pieces, Parse(t).names)
    ensures Print(Parse(t).pieces, Parse(t).names) == t
    decreases |t|
  {
    var find := Find(t, ':', 0);
    FindSkips(t, ':', 0);
    if find < |t| {
      var next := Find(t, '/', find);
      FindSkips(t, '/', find);
      var piece, name, tail := t[..find], t[find + 1..next], t[next..];
      assert t[find..next] == ":" + name;
      assert t == piece + ":" + name + tail;
      ParseThenPrint(tail);
      var rest := Parse(tail);
      PrintStartsWithFirstPiece(rest.pieces, rest.names);
      RoundPrints(piece, name, rest.pieces, rest.names);
    }
  }

  lemma RoundPrints(piece: string, name: string, pieces: seq<string>, names: seq<string>)
    requires WellFormed(pieces, names) && pieces[0] != "" && pieces[0][0] == '/'
    requires ':' !in piece && piece != "" && piece[|piece| - 1] == '/' && '/' !in name
    ensures WellFormed([piece] + pieces, [name] + names)
    ensures Print([piece] + pieces, [name] + names) == piece + ":" + name + Print(pieces, names)
  {
    assert ([piece] + pieces)[1..] == pieces && ([name] + names)[1..] == names;
  }

  lemma PrintStartsWithFirstPiece(pieces: seq<string>, names: seq<string>)
    requires WellFormed(pieces, names)
    ensures pieces[0] <= Print(pieces, names)
    ensures Print(pieces, names) != "" && Print(pieces, names)[0] == '/' ==> pieces[0] != "" && pieces[0][0] == '/'
  {
  }

  /** One round of parsing: a piece, a colon, a name, and text that begins with '/'. */
  lemma ParseRound(piece: string, name: string, tail: string)
    requires ':' !in piece && piece != "" && piece[|piece| - 1] == '/'
    requires '/' !in name && tail != "" && tail[0] == '/'
    ensures var t := piece + ":" + name + tail; t[0] != ':' && Parse(t) == Prepend(piece, name, Parse(tail))
  {
    var t := piece + ":" + name + tail;
    var after := ":" + name + tail;
    var front := piece + ":" + name;
    assert t == piece + after && piece[0..] == piece && after[0] == ':';
    FindAtSeam(piece, after, ':', 0);
    assert front[|piece|..] == ":" + name;
    FindAtSeam(front, tail, '/', |piece|);
    assert t[..|piece|] == piece;
    assert t[|piece| + 1..|front|] == name;
    assert t[|front|..] == tail;
    assert t[|piece| - 1] == '/' && t[0] == piece[0];
  }

  /** Parsing the printed form of a well-formed route gives the route back. */
  lemma {:induction false} PrintThenParse(pieces: seq<string>, names: seq<string>)
    requires WellFormed(pieces, names)
    ensures var t := Print(pieces, names); (t != "" ==> t[0] != ':') && Parse(t) == Built(pieces, names)
  {
    if names == [] {
      FindIs(pieces[0], ':', 0, |pieces[0]|);
      assert pieces == [pieces[0]];
    } else {
      PrintThenParse(pieces[1..], names[1..]);
      PrintStartsWithFirstPiece(pieces[1..], names[1..]);
      ParseRound(pieces[0], names[0], Print(pieces[1..], names[1..]));
      assert pieces == [pieces[0]] + pieces[1..] && names == [names[0]] + names[1..];
    }
  }

  /** The constructor succeeds exactly on the printed forms of well-formed routes. */
  lemma ParseSucceedsExactly(t: string)
    requires t != "" ==> t[0] != ':'
    ensures Parse(t).Built? <==> exists pieces, names :: WellFormed(pieces, names) && Print(pieces, names) == t
  {
    if Parse(t).Built? {
      ParseThenPrint(t);
    }
    if pieces, names :| WellFormed(pieces, names) && Print(pieces, names) == t {
      PrintThenParse(pieces, names);
    }
  }

  /**
   What is wrong with a text that is no route: behind a well-formed beginning comes a colon that does not follow
   a '/', or a name with nothing after it.
   */
  ghost predicate Breaks(t: string, e: RouteError, pieces: seq<string>, names: seq<string>, tail: string) {
    && WellFormed(pieces, names) && t == Print(pieces, names) + ":" + tail
    && match e
      case InvalidRoute => !EndsInSlash(pieces[|pieces| - 1])
      case OutOfRange => EndsInSlash(pieces[|pieces| - 1]) && '/' !in tail
  }

  lemma SingleBreak(t: string, e: RouteError, piece: string, tail: string)
    requires t == piece + ":" + tail && ':' !in piece
    requires if e.InvalidRoute? then !EndsInSlash(piece) else EndsInSlash(piece) && '/' !in tail
    ensures Breaks(t, e, [piece], [], tail)
  {
  }

  /** The text around its first colon. */
  lemma CutAtColon(t: string, find: nat)
    requires find == Find(t, ':', 0) < |t|
    ensures t == t[..find] + ":" + t[find + 1..] && ':' !in t[..find]
    ensures Find(t, '/', find) == |t| ==> '/' !in t[find + 1..]
  {
    FindSkips(t, ':', 0);
    FindSkips(t, '/', find);
    assert t[0..find] == t[..find];
    if Find(t, '/', find) == |t| {
      assert t[find + 1..] == t[find..|t|][1..];
    }
  }

  lemma {:induction false} FailureBreaks(t: string, e: RouteError)
    returns (pieces: seq<string>, names: seq<string>, tail: string)
    requires t != "" ==> t[0] != ':'
    requires Parse(t) == Failed(e)
    ensures Breaks(t, e, pieces, names, tail)
    decreases |t|
  {
    var find := Find(t, ':', 0);
    var piece, next := t[..find], Find(t, '/', find);
    if t[find - 1] != '/' || next == |t| {
      CutAtColon(t, find);
      assert t[find - 1] == piece[find - 1];
      SingleBreak(t, e, piece, t[find + 1..]);
      pieces, names, tail := [piece], [], t[find + 1..];
    } else {
      var name := t[find + 1..next];
      FindSkips(t, ':', 0);
      FindSkips(t, '/', find);
      assert t[find - 1] == piece[find - 1] && t[find..next] == ":" + name;
      assert t == piece + ":" + name + t[next..];
      pieces, names, tail := FailureBreaks(t[next..], e);
      BreakExtends(piece, name, t[next..], e, pieces, names, tail);
      pieces, names := [piece] + pieces, [name] + names;
    }
  }

  lemma BreakExtends(piece: string, name: string, rest: string, e: RouteError, pieces: seq<string>, names: seq<string>,
      tail: string)
    requires Breaks(rest, e, pieces, names, tail) && rest != "" && rest[0] == '/'
    requires ':' !in piece && piece != "" && piece[|piece| - 1] == '/' && '/' !in name
    ensures Breaks(piece + ":" + name + rest, e, [piece] + pieces, [name] + names, tail)
  {
    PrintStartsWithFirstPiece(pieces, names);
    assert rest[0] == if Print(pieces, names) == "" then ':' else Print(pieces, names)[0];
    RoundPrints(piece, name, pieces, names);
  }

  lemma {:induction false} BreakFails(t: string, e: RouteError, pieces: seq<string>, names: seq<string>, tail: string)
    requires t != "" ==> t[0] != ':'
    requires Breaks(t, e, pieces, names, tail)
    ensures Parse(t) == Failed(e)
    decreases |names|
  {
    if names == [] {
      var piece, after := pieces[0], ":" + tail;
      assert t == piece + after && piece[0..] == piece;
      FindAtSeam(piece, after, ':', 0);
      assert piece != "" && t[|piece| - 1] == piece[|piece| - 1];
      if e.OutOfRange? {
        assert t[|piece|..|t|] == after;
        FindIs(t, '/', |piece|, |t|);
      }
    } else {
      var rest := Print(pieces[1..], names[1..]) + ":" + tail;
      PrintStartsWithFirstPiece(pieces[1..], names[1..]);
      assert rest[0] == pieces[1][0];
      assert t == pieces[0] + ":" + names[0] + rest;
      assert pieces[1..][|pieces| - 2] == pieces[|pieces| - 1];
      BreakFails(rest, e, pieces[1..], names[1..], tail);
      ParseRound(pieces[0], names[0], rest);
    }
  }

  /** The constructor throws, and what it throws, exactly on the texts that break in that way. */
  lemma ParseFailsExactly(t: string, e: RouteError)
    requires t != "" ==> t[0] != ':'
    ensures Parse(t) == Failed(e) <==> exists pieces, names, tail :: Breaks(t, e, pieces, names, tail)
  {
    if Parse(t) == Failed(e) {
      var pieces, names, tail := FailureBreaks(t, e);
    }
    if pieces, names, tail :| Breaks(t, e, pieces, names, tail) {
      BreakFails(t, e, pieces, names, tail);
    }
  }

  // Order of routes in the route map

  function RouteCompare(a: seq<string>, b: seq<string>): (c: int)
    ensures c == 0 <==> a == b
  {
    if a == [] || b == [] then |a| - |b|
    else if Compare(a[0], b[0]) != 0 then Compare(a[0], b[0])
    else
      assert a == [a[0]] + a[1..] && b == [b[0]] + b[1..];
      RouteCompare(a[1..], b[1..])
  }

  predicate RouteLess(a: seq<string>, b: seq<string>) {
    RouteCompare(a, b) < 0
  }

  lemma {:induction false} RouteCompareFlip(a: seq<string>, b: seq<string>)
    ensures RouteCompare(b, a) < 0 <==> RouteCompare(a, b) > 0
  {
    if a != [] && b != [] {
      CompareFlip(a[0], b[0]);
      RouteCompareFlip(a[1..], b[1..]);
    }
  }

  lemma {:induction false} RouteLessTransitive(a: seq<string>, b: seq<string>, c: seq<string>)
    requires RouteLess(a, b) && RouteLess(b, c)
    ensures RouteLess(a, c)
  {
    if a != [] {
      if Less(a[0], b[0]) && Less(b[0], c[0]) {
        LessTransitive(a[0], b[0], c[0]);
      } else if a[0] == b[0] == c[0] {
        RouteLessTransitive(a[1..], b[1..], c[1..]);
      }
    }
  }

  /** `operator<` is a strict total order on piece lists: its ties are the equal lists. */
  lemma RouteLessIsTotalOrder()
    ensures forall a, b :: RouteLess(a, b) ==> !RouteLess(b, a)
    ensures forall a, b :: !RouteLess(a, b) && !RouteLess(b, a) <==> a == b
    ensures forall a, b, c :: RouteLess(a, b) && RouteLess(b, c) ==> RouteLess(a, c)
  {
    forall a, b
      ensures RouteLess(a, b) ==> !RouteLess(b, a)
      ensures !RouteLess(a, b) && !RouteLess(b, a) <==> a == b
    {
      RouteCompareFlip(a, b);
    }
    forall a, b, c | RouteLess(a, b) && RouteLess(b, c)
      ensures RouteLess(a, c)
    {
      RouteLessTransitive(a, b, c);
    }
  }

  /** The lists agree up to position `k`, where `a` has the smaller piece. */
  ghost predicate SmallerPieceAt(a: seq<string>, b: seq<string>, k: nat) {
    k < |a| && k < |b| && a[..k] == b[..k] && Less(a[k], b[k])
  }

  /** `operator<` goes by the first piece that differs, and a proper beginning comes first. */
  lemma {:induction false} RouteLessIsLexicographic(a: seq<string>, b: seq<string>)
    ensures RouteLess(a, b) <==> a < b || exists k: nat :: SmallerPieceAt(a, b, k)
  {
    if a != [] && b != [] {
      if a[0] == b[0] {
        RouteLessIsLexicographic(a[1..], b[1..]);
        assert a == [a[0]] + a[1..] && b == [b[0]] + b[1..];
        if k: nat :| SmallerPieceAt(a[1..], b[1..], k) {
          assert a[..k + 1] == [a[0]] + a[1..][..k] && b[..k + 1] == [b[0]] + b[1..][..k];
          assert SmallerPieceAt(a, b, k + 1);
        }
        if k: nat :| SmallerPieceAt(a, b, k) && k > 0 {
          assert a[1..][..k - 1] == a[..k][1..] && b[1..][..k - 1] == b[..k][1..];
          assert SmallerPieceAt(a[1..], b[1..], k - 1);
        }
      } else {
        assert Less(a[0], b[0]) ==> SmallerPieceAt(a, b, 0);
        forall k: nat | 0 < k < |a| && k < |b|
          ensures a[..k] != b[..k]
        {
          assert a[..k][0] == a[0] && b[..k][0] == b[0];
        }
      }
    }
  }

  // Comparing a route with the path of a request

  /** Clipped prefix, as `substr(0, n)` gives it. */
  function Clip(s: string, n: nat): string {
    if n <= |s| then s[..n] else s
  }

  /** A piece compared with as much of the path; they are equal exactly when the piece is a prefix. */
  function PieceTest(p: string, path: string): (test: int)
    ensures test == 0 <==> p <= path
  {
    assert p == Clip(path, |p|) <==> p <= path;
    Compare(p, Clip(path, |p|))
  }

  /**
   The sign of `compare`, read from the front of the path. Only the empty route has an empty piece; its
   comparison with a path that is not empty reads before the path, and what is said of it here means nothing.
   */
  function PathCompare(pieces: seq<string>, path: string): int {
    if pieces == [] then -|path|
    else
      var p := pieces[0];
      var test := PieceTest(p, path);
      if test != 0 then test
      else if |p| == |path| then (if |pieces| == 1 then 0 else -1)
      else if p == "" || path[|p| - 1] != '/' then 1
      else PathCompare(pieces[1..], path[Find(path, '/', |p| + 1)..])
  }

  /** Pieces as the constructor leaves them: not empty, joined at slashes. */
  predicate Joined(pieces: seq<string>) {
    && "" !in pieces
    && (|pieces| > 1 ==> pieces[0][|pieces[0]| - 1] == '/' && pieces[1][0] == '/' && Joined(pieces[1..]))
  }

  /** Every successfully built non-empty route has joined pieces. */
  lemma {:induction false} BuiltIsJoined(pieces: seq<string>, names: seq<string>)
    requires WellFormed(pieces, names) && Print(pieces, names) != ""
    ensures Joined(pieces)
  {
    if names != [] {
      PrintStartsWithFirstPiece(pieces[1..], names[1..]);
      BuiltIsJoined(pieces[1..], names[1..]);
    }
  }

  /** What may stand for a name: not empty, and no '/' after its first character. */
  predicate Segment(s: string) {
    s != "" && '/' !in s[1..]
  }

  /** Pieces and segments in turn. */
  function Weave(pieces: seq<string>, segments: seq<string>): string
    requires |pieces| - 1 <= |segments| <= |pieces|
  {
    if pieces == [] then ""
    else pieces[0] + (if segments == [] then "" else segments[0] + Weave(pieces[1..], segments[1..]))
  }

  predicate EndsInSlash(s: string) {
    s != "" && s[|s| - 1] == '/'
  }

  /**
   The path is piece, segment, piece, ... to the last piece; one more segment may follow a last piece
   that ends in '/'.
   */
  predicate Matches(pieces: seq<string>, path: string, segments: seq<string>) {
    && pieces != []
    && (|segments| == |pieces| - 1 || (|segments| == |pieces| && EndsInSlash(pieces[|pieces| - 1])))
    && (forall s :: s in segments ==> Segment(s))
    && path == Weave(pieces, segments)
  }

  /** The segments a matching path gives to the names. */
  function SegmentsOf(pieces: seq<string>, path: string): (segments: seq<string>)
    requires Joined(pieces) && PathCompare(pieces, path) == 0
  {
    if pieces == [] || |pieces[0]| == |path| then []
    else
      var p := pieces[0];
      var end := Find(path, '/', |p| + 1);
      [path[|p|..end]] + SegmentsOf(pieces[1..], path[end..])
  }

  /** The segment after a piece, up to the next '/' past its first character. */
  lemma SegmentAfter(path: string, n: nat)
    requires n < |path|
    ensures var end := Find(path, '/', n + 1);
      n < end <= |path| && Segment(path[n..end]) && path == path[..n] + (path[n..end] + path[end..])
  {
    var end := Find(path, '/', n + 1);
    FindSkips(path, '/', n + 1);
    assert path[n..end][1..] == path[n + 1..end];
  }

  /** The walk goes on behind the first piece. */
  predicate GoesOn(pieces: seq<string>, path: string) {
    && pieces != [] && pieces[0] != "" && pieces[0] <= path
    && |pieces[0]| < |path| && path[|pieces[0]| - 1] == '/'
  }

  /** A path that compares equal and goes on behind the first piece: what is left compares equal. */
  lemma EqualGoesOn(pieces: seq<string>, path: string)
    requires "" !in pieces && pieces != []
    requires PathCompare(pieces, path) == 0 && |pieces[0]| != |path|
    ensures GoesOn(pieces, path) && PathCompare(pieces[1..], path[Find(path, '/', |pieces[0]| + 1)..]) == 0
  {
    assert PieceTest(pieces[0], path) == 0;
  }

  /** Behind the first piece the path goes on with a segment. */
  lemma SegmentFollows(pieces: seq<string>, path: string)
    requires GoesOn(pieces, path)
    ensures var p := pieces[0];
      var end := Find(path, '/', |p| + 1);
      |p| < end && Segment(path[|p|..end]) && path == p + (path[|p|..end] + path[end..])
  {
    assert path[..|pieces[0]|] == pieces[0];
    SegmentAfter(path, |pieces[0]|);
  }

  /** One round: a path that compares equal behind a piece and a segment compares equal. */
  lemma RoundIsEqual(pieces: seq<string>, path: string, others: seq<string>, segment: string, rest: string)
    requires Joined(pieces) && GoesOn(pieces, path) && others == pieces[1..]
    requires var end := Find(path, '/', |pieces[0]| + 1); segment == path[|pieces[0]|..end] && rest == path[end..]
    requires PathCompare(others, rest) == 0
    ensures PathCompare(pieces, path) == 0 && SegmentsOf(pieces, path) == [segment] + SegmentsOf(others, rest)
  {
  }

  lemma EqualRound(pieces: seq<string>, path: string, others: seq<string>, segment: string, rest: string)
    requires Joined(pieces) && GoesOn(pieces, path) && others == pieces[1..]
    requires var end := Find(path, '/', |pieces[0]| + 1); segment == path[|pieces[0]|..end] && rest == path[end..]
    requires PathCompare(others, rest) == 0
    requires others != [] ==> Matches(others, rest, SegmentsOf(others, rest))
    ensures PathCompare(pieces, path) == 0 && Matches(pieces, path, SegmentsOf(pieces, path))
  {
    SegmentFollows(pieces, path);
    RoundIsEqual(pieces, path, others, segment, rest);
    assert pieces == [pieces[0]] + others;
    MatchExtends(pieces[0], others, segment, SegmentsOf(others, rest), rest);
  }

  /** A path that compares equal matches with the segments found. */
  lemma {:induction false} EqualMatches(pieces: seq<string>, path: string)
    requires Joined(pieces) && pieces != []
    requires PathCompare(pieces, path) == 0
    ensures Matches(pieces, path, SegmentsOf(pieces, path))
  {
    var p, others := pieces[0], pieces[1..];
    if |p| == |path| {
      assert p <= path && p == path;
    } else {
      EqualGoesOn(pieces, path);
      var end := Find(path, '/', |p| + 1);
      if others != [] {
        EqualMatches(others, path[end..]);
      }
      EqualRound(pieces, path, others, path[|p|..end], path[end..]);
    }
  }

  /** A piece that ends in '/' and a segment in front of a match make a match. */
  lemma MatchExtends(p: string, pieces: seq<string>, segment: string, segments: seq<string>, rest: string)
    requires p != "" && p[|p| - 1] == '/' && Segment(segment)
    requires if pieces == [] then segments == [] && rest == "" else Matches(pieces, rest, segments)
    ensures Matches([p] + pieces, p + (segment + rest), [segment] + segments)
  {
    assert ([p] + pieces)[1..] == pieces && ([segment] + segments)[1..] == segments;
    var last := |pieces|;
    assert ([p] + pieces)[last] == if pieces == [] then p else pieces[last - 1];
  }

  /** The walk over a piece that ends in '/', a segment, and text that is empty or begins with '/'. */
  lemma WalksOver(p: string, segment: string, tail: string)
    requires p != "" && p[|p| - 1] == '/' && Segment(segment) && (tail != "" ==> tail[0] == '/')
    ensures var path := p + (segment + tail);
      && |p| < |path| && p <= path && path[|p| - 1] == '/'
      && var end := Find(path, '/', |p| + 1);
      && path[|p|..end] == segment && path[end..] == tail
  {
    var path, front := p + (segment + tail), p + segment;
    assert path == front + tail && front[|p| + 1..] == segment[1..];
    FindAtSeam(front, tail, '/', |p| + 1);
    assert path[|p|..|front|] == segment && path[|front|..] == tail;
    assert path[|p| - 1] == p[|p| - 1];
  }

  /** A match with segments begins with a piece, a segment, and a match of the rest. */
  lemma MatchGoesOn(pieces: seq<string>, path: string, segments: seq<string>)
    requires Joined(pieces) && Matches(pieces, path, segments) && segments != []
    ensures var p, tail := pieces[0], Weave(pieces[1..], segments[1..]);
      && path == p + (segments[0] + tail) && p[|p| - 1] == '/' && Segment(segments[0])
      && if |pieces| == 1 then pieces[1..] == [] && segments[1..] == [] && tail == ""
         else pieces[1..] != [] && tail != "" && tail[0] == '/' && Matches(pieces[1..], tail, segments[1..])
  {
    assert segments[0] in segments;
    var others, tail := pieces[1..], Weave(pieces[1..], segments[1..]);
    if |pieces| > 1 {
      assert pieces[|pieces| - 1] == others[|others| - 1];
      assert tail[0] == others[0][0];
    } else {
      assert others == [] && segments[1..] == [];
    }
  }

  lemma MatchRound(pieces: seq<string>, path: string, others: seq<string>, segment: string, tail: string)
    requires Joined(pieces) && pieces != [] && pieces[0][|pieces[0]| - 1] == '/' && others == pieces[1..]
    requires path == pieces[0] + (segment + tail) && Segment(segment) && (tail != "" ==> tail[0] == '/')
    requires PathCompare(others, tail) == 0
    ensures PathCompare(pieces, path) == 0 && SegmentsOf(pieces, path) == [segment] + SegmentsOf(others, tail)
  {
    WalksOver(pieces[0], segment, tail);
    assert GoesOn(pieces, path);
    RoundIsEqual(pieces, path, others, segment, tail);
  }

  /** A match compares equal, and its segments are the ones `compare` walks over. */
  lemma {:induction false} MatchIsEqual(pieces: seq<string>, path: string, segments: seq<string>)
    requires Joined(pieces) && Matches(pieces, path, segments)
    ensures PathCompare(pieces, path) == 0 && segments == SegmentsOf(pieces, path)
    decreases |pieces|, 0
  {
    if segments == [] {
      assert path == pieces[0] && pieces[0] <= path;
    } else {
      MatchGoesOn(pieces, path, segments);
      var others, segment, more := pieces[1..], segments[0], segments[1..];
      var tail := Weave(others, more);
      RestIsEqual(others, tail, more);
      MatchRound(pieces, path, others, segment, tail);
      assert segments == [segment] + more;
    }
  }

  lemma {:induction false} RestIsEqual(others: seq<string>, tail: string, more: seq<string>)
    requires Joined(others)
    requires if others == [] then more == [] && tail == "" else Matches(others, tail, more)
    ensures PathCompare(others, tail) == 0 && more == SegmentsOf(others, tail)
    decreases |others|, 1
  {
    if others != [] {
      MatchIsEqual(others, tail, more);
    }
  }

  /** `compare` answers 0 exactly for the paths that match, and the segments are unique. */
  lemma CompareIsMatch(pieces: seq<string>, path: string)
    requires Joined(pieces) && pieces != []
    ensures PathCompare(pieces, path) == 0 <==> exists segments :: Matches(pieces, path, segments)
    ensures forall s, t :: Matches(pieces, path, s) && Matches(pieces, path, t) ==> s == t
  {
    if PathCompare(pieces, path) == 0 {
      EqualMatches(pieces, path);
    }
    forall s | Matches(pieces, path, s)
      ensures PathCompare(pieces, path) == 0 && s == SegmentsOf(pieces, path)
    {
      MatchIsEqual(pieces, path, s);
    }
  }

  /** The path is made of the first pieces, a segment behind each, and `rest`. */
  ghost predicate Walked(pieces: seq<string>, path: string, segments: seq<string>, rest: string) {
    && |segments| <= |pieces| && path == Weave(pieces[..|segments|], segments) + rest
    && (forall i :: 0 <= i < |segments| ==> EndsInSlash(pieces[i]) && Segment(segments[i]))
    && (segments != [] && rest != "" ==> rest[0] == '/')
  }

  /** The walk ends below what is left: there is a path left but no piece, a smaller piece, or a name missing. */
  ghost predicate EndsBelow(pieces: seq<string>, rest: string) {
    if pieces == [] then rest != ""
    else (!(pieces[0] <= rest) && Less(pieces[0], rest)) || (rest == pieces[0] && |pieces| > 1)
  }

  /** Clipping a path that does not extend `p` leaves the sign of the comparison. */
  lemma {:induction false} ClippedCompare(p: string, path: string)
    requires !(p < path)
    ensures Compare(p, Clip(path, |p|)) < 0 <==> Compare(p, path) < 0
    ensures Compare(p, Clip(path, |p|)) == 0 <==> Compare(p, path) == 0
  {
    if p != [] && path != [] {
      if p[0] == path[0] {
        assert p == [p[0]] + p[1..] && path == [path[0]] + path[1..];
        ClippedCompare(p[1..], path[1..]);
        assert Clip(path, |p|) == [path[0]] + Clip(path[1..], |p[1..]|);
      } else {
        assert Clip(path, |p|)[0] == path[0];
      }
    }
  }

  /** Where the walk does not go on, the sign of `compare` is decided. */
  lemma EndIsBelowExactly(pieces: seq<string>, path: string)
    requires Joined(pieces) && !GoesOn(pieces, path)
    ensures PathCompare(pieces, path) < 0 <==> EndsBelow(pieces, path)
  {
    if pieces != [] {
      assert pieces[0] in pieces && pieces[0] != "";
      if !(pieces[0] <= path) {
        ClippedCompare(pieces[0], path);
      } else {
        assert path[..|pieces[0]|] == pieces[0];
      }
    }
  }

  lemma {:induction false} BelowIsWalked(pieces: seq<string>, path: string)
    returns (segments: seq<string>, rest: string)
    requires Joined(pieces) && PathCompare(pieces, path) < 0
    ensures Walked(pieces, path, segments, rest) && EndsBelow(pieces[|segments|..], rest)
    ensures segments == [] ==> rest == path
  {
    if GoesOn(pieces, path) {
      SegmentFollows(pieces, path);
      var others, end := pieces[1..], Find(path, '/', |pieces[0]| + 1);
      var segment, tail := path[|pieces[0]|..end], path[end..];
      PathCompareMoves(pieces, path, others, tail);
      var more, left := BelowIsWalked(others, tail);
      segments, rest := [segment] + more, left;
      assert path[..|pieces[0]|] == pieces[0];
      WalkExtends(pieces, path, others, segment, tail, more, left);
    } else {
      EndIsBelowExactly(pieces, path);
      segments, rest := [], path;
      assert pieces[0..] == pieces;
    }
  }

  lemma WalkExtends(pieces: seq<string>, path: string, others: seq<string>, segment: string, tail: string,
      more: seq<string>, rest: string)
    requires pieces != [] && EndsInSlash(pieces[0]) && Segment(segment) && others == pieces[1..]
    requires path == pieces[0] + (segment + tail) && (tail != "" ==> tail[0] == '/')
    requires Walked(others, tail, more, rest) && (more == [] ==> rest == tail)
    ensures Walked(pieces, path, [segment] + more, rest) && pieces[|more| + 1..] == others[|more|..]
  {
    var segments := [segment] + more;
    assert pieces[..|segments|] == [pieces[0]] + others[..|more|];
    assert pieces[..|segments|][1..] == others[..|more|] && segments[1..] == more;
  }

  lemma WalkShrinks(pieces: seq<string>, path: string, segments: seq<string>, rest: string)
    requires Joined(pieces) && Walked(pieces, path, segments, rest) && segments != []
    ensures var tail := Weave(pieces[1..][..|segments| - 1], segments[1..]) + rest;
      && path == pieces[0] + (segments[0] + tail) && (tail != "" ==> tail[0] == '/')
      && Walked(pieces[1..], tail, segments[1..], rest)
  {
    var others, more := pieces[1..], segments[1..];
    assert pieces[..|segments|][1..] == others[..|more|];
    var tail := Weave(others[..|more|], more) + rest;
    if more != [] {
      assert tail[0] == others[0][0];
    } else {
      assert Weave(others[..0], more) == "";
    }
  }

  lemma {:induction false} WalkedIsBelow(pieces: seq<string>, path: string, segments: seq<string>, rest: string)
    requires Joined(pieces) && Walked(pieces, path, segments, rest) && EndsBelow(pieces[|segments|..], rest)
    ensures PathCompare(pieces, path) < 0
    decreases |segments|
  {
    if segments == [] {
      assert pieces[..0] == [] && path == rest && pieces[0..] == pieces;
      if pieces != [] && pieces[0] <= path {
        assert path == pieces[0];
      }
      EndIsBelowExactly(pieces, path);
    } else {
      WalkShrinks(pieces, path, segments, rest);
      var others, more := pieces[1..], segments[1..];
      var tail := Weave(others[..|more|], more) + rest;
      WalksOver(pieces[0], segments[0], tail);
      assert pieces[|segments|..] == others[|more|..];
      WalkedIsBelow(others, tail, more, rest);
      PathCompareMoves(pieces, path, others, tail);
    }
  }

  /**
   `compare` is negative exactly when, after some pieces and segments, the path is left without a piece for it,
   the next piece is smaller, or the path ends where a name should follow. With `CompareIsMatch` this fixes its
   sign.
   */
  lemma CompareIsBelowExactly(pieces: seq<string>, path: string)
    requires Joined(pieces)
    ensures PathCompare(pieces, path) < 0 <==>
      exists segments, rest :: Walked(pieces, path, segments, rest) && EndsBelow(pieces[|segments|..], rest)
  {
    if PathCompare(pieces, path) < 0 {
      var segments, rest := BelowIsWalked(pieces, path);
    }
    if segments, rest :| Walked(pieces, path, segments, rest) && EndsBelow(pieces[|segments|..], rest) {
      WalkedIsBelow(pieces, path, segments, rest);
    }
  }

  /** What the loop of `compare` answers for the pieces that are left, from position `start` of the path on. */
  ghost function CompareFrom(pieces: seq<string>, path: string, start: nat): int
    requires start <= |path|
  {
    if pieces == [] then start - |path|
    else
      var p := pieces[0];
      var test := PieceTest(p, path[start..]);
      if test != 0 then test
      else if start + |p| == |path| then (if |pieces| == 1 then 0 else -1)
      else if p == "" || path[start + |p| - 1] != '/' then 1
      else CompareFrom(pieces[1..], path, Find(path, '/', start + |p| + 1))
  }

  lemma PathCompareMoves(pieces: seq<string>, path: string, others: seq<string>, rest: string)
    requires GoesOn(pieces, path) && others == pieces[1..] && rest == path[Find(path, '/', |pieces[0]| + 1)..]
    ensures PathCompare(pieces, path) == PathCompare(others, rest)
  {
  }

  lemma CompareFromMoves(pieces: seq<string>, path: string, start: nat, others: seq<string>, end: nat)
    requires start <= |path| && pieces != [] && pieces[0] != "" && pieces[0] <= path[start..]
    requires start + |pieces[0]| < |path| && path[start + |pieces[0]| - 1] == '/'
    requires others == pieces[1..] && end == Find(path, '/', start + |pieces[0]| + 1)
    ensures CompareFrom(pieces, path, start) == CompareFrom(others, path, end)
  {
  }

  lemma CompareStops(pieces: seq<string>, path: string, start: nat)
    requires start <= |path| && !GoesOn(pieces, path[start..])
    ensures CompareFrom(pieces, path, start) == PathCompare(pieces, path[start..])
  {
    if pieces != [] && pieces[0] != "" && pieces[0] <= path[start..] && |pieces[0]| < |path[start..]| {
      assert path[start..][|pieces[0]| - 1] == path[start + |pieces[0]| - 1];
    }
  }

  lemma DropTwice<T>(s: seq<T>, i: nat, j: nat)
    requires i + j <= |s|
    ensures s[i..][j..] == s[i + j..]
  {
  }

  lemma {:induction false} CompareFromIs(pieces: seq<string>, path: string, start: nat, t: string)
    requires start <= |path| && t == path[start..]
    ensures CompareFrom(pieces, path, start) == PathCompare(pieces, t)
    decreases pieces
  {
    if GoesOn(pieces, t) {
      var k, others := Find(t, '/', |pieces[0]| + 1), pieces[1..];
      var end, rest := start + k, t[k..];
      FindInSuffix(path, '/', start, |pieces[0]| + 1);
      assert t[|pieces[0]| - 1] == path[start + |pieces[0]| - 1];
      CompareFromMoves(pieces, path, start, others, end);
      PathCompareMoves(pieces, t, others, rest);
      DropTwice(path, start, k);
      CompareFromIs(others, path, end, rest);
    } else {
      CompareStops(pieces, path, start);
    }
  }

  /** `Parse` of the text from `start` on, when its next name is followed by more text. */
  lemma ParseSuffixRound(s: string, start: nat, find: nat, next: nat)
    requires start < find < next < |s| && find == Find(s, ':', start) && next == Find(s, '/', find)
    requires s[find - 1] == '/'
    ensures Parse(s[start..]) == Prepend(s[start..find], s[find + 1..next], Parse(s[next..]))
  {
    FindSkips(s, ':', start);
    FindSkips(s, '/', find);
    var piece, name, tail := s[start..find], s[find + 1..next], s[next..];
    assert s[start..] == piece + ":" + name + tail;
    ParseRound(piece, name, tail);
  }

  lemma ParseSuffixStops(s: string, start: nat)
    requires start <= |s| && (start < |s| ==> s[start] != ':')
    ensures var find := Find(s, ':', start);
      && (find == |s| ==> Parse(s[start..]) == Built([s[start..]], []))
      && (find < |s| && s[find - 1] != '/' ==> Parse(s[start..]) == Failed(InvalidRoute))
      && (find < |s| && s[find - 1] == '/' && Find(s, '/', find) == |s| ==> Parse(s[start..]) == Failed(OutOfRange))
  {
    var t := s[start..];
    var f := Find(t, ':', 0);
    FindInSuffix(s, ':', start, 0);
    if f < |t| {
      FindInSuffix(s, '/', start, f);
      assert t[f - 1] == s[start + f - 1];
    }
  }

  /** The pieces and names so far, with what the text from `start` on gives, make the whole route. */
  ghost predicate Pending(s: string, start: nat, pieces: seq<string>, names: seq<string>) {
    && start <= |s| && (s != "" ==> s[0] != ':') && (start < |s| ==> s[start] != ':')
    && PrependAll(pieces, names, Parse(s[start..])) == Parse(s)
  }

  /** The loop stops: no colon left, a name that does not follow a '/', or a name with nothing after it. */
  lemma PendingStops(s: string, start: nat, pieces: seq<string>, names: seq<string>)
    requires Pending(s, start, pieces, names)
    ensures var find := Find(s, ':', start);
      && (find == |s| ==> Parse(s) == Built(pieces + [s[start..]], names))
      && (find < |s| && s[find - 1] != '/' ==> Parse(s) == Failed(InvalidRoute))
      && (find < |s| && s[find - 1] == '/' && Find(s, '/', find) == |s| ==> Parse(s) == Failed(OutOfRange))
  {
    ParseSuffixStops(s, start);
    assert names + [] == names;
  }

  /** The loop goes on behind the name. */
  lemma PendingMoves(s: string, start: nat, find: nat, next: nat, pieces: seq<string>, names: seq<string>)
    requires Pending(s, start, pieces, names)
    requires find == Find(s, ':', start) < |s| && s[find - 1] == '/' && next == Find(s, '/', find) < |s|
    ensures start < find < next && Pending(s, next, pieces + [s[start..find]], names + [s[find + 1..next]])
  {
    FindIsLater(s, ':', start);
    FindIsLater(s, '/', find);
    ParseSuffixRound(s, start, find, next);
    PrependMoves(pieces, names, s[start..find], s[find + 1..next], Parse(s[next..]));
  }

  lemma PrependMoves(pieces: seq<string>, names: seq<string>, piece: string, name: string, rest: Parsed)
    ensures PrependAll(pieces, names, Prepend(piece, name, rest)) == PrependAll(pieces + [piece], names + [name], rest)
  {
    if rest.Built? {
      assert pieces + ([piece] + rest.pieces) == pieces + [piece] + rest.pieces;
      assert names + ([name] + rest.names) == names + [name] + rest.names;
    }
  }

  class Route {
    const fullRoute: string
    var route: seq<string>
    var names: seq<string>

    constructor (fullRoute: string)
      ensures this.fullRoute == fullRoute && route == [] && names == []
    {
      this.fullRoute := fullRoute;
      route, names := [], [];
    }

    /** The loop of the constructor; `Some` is the exception it throws. */
    method Split() returns (error: Option<RouteError>)
      requires route == [] && names == [] && |fullRoute| < NPOS
      requires fullRoute != "" ==> fullRoute[0] != ':'
      modifies this
      ensures match Parse(fullRoute)
        case Built(pieces, ns) => error == None && route == pieces && names == ns
        case Failed(e) => error == Some(e)
    {
      var start := 0;
      var find := FindOrNpos(fullRoute, ':', start);
      assert fullRoute[0..] == fullRoute;
      assert PrependAll([], [], Parse(fullRoute)) == Parse(fullRoute);
      while find != NPOS
        invariant find == FindOrNpos(fullRoute, ':', start)
        invariant if start == NPOS then Parse(fullRoute) == Failed(OutOfRange)
          else Pending(fullRoute, start, route, names)
        decreases if start == NPOS then 0 else |fullRoute| - start + 1
      {
        PendingStops(fullRoute, start, route, names);
        FindIsLater(fullRoute, ':', start);
        if fullRoute[find - 1] != '/' {
          return Some(InvalidRoute);
        }
        var next := FindOrNpos(fullRoute, '/', find);
        if next != NPOS {
          PendingMoves(fullRoute, start, find, next, route, names);
        }
        route := route + [fullRoute[start..find]];
        names := names + [fullRoute[find + 1..if next == NPOS then |fullRoute| else next]];
        start := next;
        find := FindOrNpos(fullRoute, ':', start);
      }
      if start > |fullRoute| {
        return Some(OutOfRange);
      }
      PendingStops(fullRoute, start, route, names);
      route := route + [fullRoute[start..]];
      error := None;
    }

    /** `operator<` between routes. */
    method LessThan(rhs: Route) returns (less: bool)
      ensures less == RouteLess(route, rhs.route)
    {
      var loop := 0;
      while loop < |route| && loop < |rhs.route|
        invariant loop <= |route| && loop <= |rhs.route|
        invariant RouteCompare(route, rhs.route) == RouteCompare(route[loop..], rhs.route[loop..])
      {
        var test := Strings.Compare(route[loop], rhs.route[loop]);
        if test != 0 {
          return test < 0;
        }
        loop := loop + 1;
      }
      var test := |route| - |rhs.route|;
      less := test < 0;
    }

    /** `compare` with the path of a request. */
    method Compare(rhs: string) returns (c: int)
      requires |route| == |names| + 1 && |rhs| <= INT_MAX && ("" in route ==> rhs == "")
      ensures c == PathCompare(route, rhs)
    {
      c := CompareLoop(rhs);
      CompareFromIs(route, rhs, 0, rhs);
    }

    /** The loop of `compare`. */
    method CompareLoop(rhs: string) returns (c: int)
      requires |route| == |names| + 1 && |rhs| <= INT_MAX && ("" in route ==> rhs == "")
      ensures c == CompareFrom(route, rhs, 0)
    {
      var pieces, start := route, 0;
      for loop := 0 to |pieces|
        invariant 0 <= start <= |rhs|
        invariant CompareFrom(pieces[loop..], rhs, start) == CompareFrom(pieces, rhs, 0)
      {
        assert pieces[loop..] == [pieces[loop]] + pieces[loop + 1..];
        var test := PieceTest(pieces[loop], rhs[start..]);
        if test != 0 {
          return test;
        }
        var newStart := start + |pieces[loop]|;
        if newStart == |rhs| {
          return if |names| <= loop then 0 else -1;
        }
        if rhs[newStart - 1] != '/' {
          return 1;
        }
        start := FindOrNpos(rhs, '/', newStart + 1);
        start := if start == NPOS then |rhs| else start;
      }
      c := start - |rhs|;
    }
  }
}
