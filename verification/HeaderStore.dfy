/**
 `Headers` (src/Express/HTTP/Types.cpp, src/Express/HTTP/Types.h): for each name the values stored under
 it, in order, every line break in a value replaced by a space.
 */
module HeaderStore {

  type Data = map<string, seq<string>>

  datatype Pair = Pair(name: string, value: string)

  function Clean(value: string): (r: string)
    ensures |r| == |value|
  {
    seq(|value|, i requires 0 <= i < |value| => if value[i] == '\n' then ' ' else value[i])
  }

  function Values(data: Data, name: string): seq<string> {
    if name in data then data[name] else []
  }

  /** `headers[name] = value`. */
  function Put(data: Data, name: string, value: string): Data {
    data[name := Values(data, name) + [Clean(value)]]
  }

  function PutAll(data: Data, pairs: seq<Pair>): Data
    decreases pairs
  {
    if pairs == [] then data else PutAll(Put(data, pairs[0].name, pairs[0].value), pairs[1..])
  }

  /** The values of one name among the pairs, in order. */
  function Named(pairs: seq<Pair>, name: string): seq<string> {
    if pairs == [] then []
    else (if pairs[0].name == name then [Clean(pairs[0].value)] else []) + Named(pairs[1..], name)
  }

  /** Storing one pair adds its value behind those of its name. */
  lemma PutAddsBehind(data: Data, pair: Pair, name: string)
    ensures Values(Put(data, pair.name, pair.value), name) == Values(data, name) + Named([pair], name)
    ensures name in Put(data, pair.name, pair.value) <==> name in data || Named([pair], name) != []
  {
    assert [pair][1..] == [];
  }

  lemma NamedOfFirst(pairs: seq<Pair>, name: string)
    requires pairs != []
    ensures Named(pairs, name) == Named([pairs[0]], name) + Named(pairs[1..], name)
  {
    assert [pairs[0]][1..] == [];
  }

  lemma Regroup(values: seq<string>, first: seq<string>, rest: seq<string>)
    ensures values + first + rest == values + (first + rest) && values + [] == values
    ensures first + rest == [] <==> first == [] && rest == []
  {
  }

  /** Storing pairs groups them by name and keeps the order within a name. */
  lemma {:induction false} PutAllGroups(data: Data, pairs: seq<Pair>, name: string)
    ensures Values(PutAll(data, pairs), name) == Values(data, name) + Named(pairs, name)
    ensures name in PutAll(data, pairs) <==> name in data || Named(pairs, name) != []
    decreases pairs
  {
    if pairs == [] {
      Regroup(Values(data, name), [], []);
    } else {
      PutAddsBehind(data, pairs[0], name);
      NamedOfFirst(pairs, name);
      PutAllGroups(Put(data, pairs[0].name, pairs[0].value), pairs[1..], name);
      Regroup(Values(data, name), Named([pairs[0]], name), Named(pairs[1..], name));
    }
  }

  /** How often each name occurs among the pairs. */
  ghost function Names(pairs: seq<Pair>): multiset<string> {
    if pairs == [] then multiset{} else multiset{pairs[0].name} + Names(pairs[1..])
  }

  lemma {:induction false} NamesCount(pairs: seq<Pair>, name: string)
    ensures Names(pairs)[name] == |Named(pairs, name)| && |Names(pairs)| == |pairs|
  {
    if pairs != [] {
      NamesCount(pairs[1..], name);
    }
  }

  /** What is stored tells how many pairs went in. */
  lemma StoredTellsLength(a: seq<Pair>, b: seq<Pair>)
    requires PutAll(map[], a) == PutAll(map[], b)
    ensures |a| == |b|
  {
    forall name: string
      ensures Names(a)[name] == Names(b)[name]
    {
      NamesCount(a, name);
      NamesCount(b, name);
      PutAllGroups(map[], a, name);
      PutAllGroups(map[], b, name);
    }
    assert Names(a) == Names(b);
    NamesCount(a, "");
    NamesCount(b, "");
  }

  lemma CleanKeeps(value: string)
    requires '\n' !in value
    ensures Clean(value) == value
  {
  }

  /** A line break becomes a space, and nothing else changes. */
  lemma CleanBreaks(a: string, b: string)
    requires '\n' !in a
    ensures Clean(a + "\n" + b) == a + " " + Clean(b)
  {
  }

  class Headers {
    var data: Data

    constructor ()
      ensures data == map[]
    {
      data := map[];
    }

    /** `operator[]` followed by the assignment to the inserter it answers. */
    method Insert(name: string, value: string)
      modifies this
      ensures data == Put(old(data), name, value)
    {
      if name !in data {
        data := data[name := []];
      }
      data := data[name := data[name] + [Clean(value)]];
    }

    function GetVersions(name: string): nat
      reads this
    {
      |Values(data, name)|
    }

    /** The stored value, or the empty string when there is none. */
    function Get(name: string, version: nat): string
      reads this
    {
      if version < GetVersions(name) then data[name][version] else ""
    }
  }
}
