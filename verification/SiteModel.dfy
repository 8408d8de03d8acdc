/**
 The state behind the dynamic site loader and what its operations do to it
 (src/Express/HTTP/DynamicSiteLoader.cpp, src/Express/HTTP/Binder.cpp): which library serves which
 host, base and port, how many entries use a library, the sites of every port with the number of calls
 they count, and the calls that are really running.
 */
module SiteModel {
  import opened Strings
  import opened RouteMaps
  import Routes

  /** The handle `dlopen` answers. */
  type Lib = int

  /** A route's action; its code lives in the library that registered it. */
  datatype Action = Action(lib: Lib, id: nat)

  /** The five route tables of a site: one per method, the last for all methods. */
  type Table = t: seq<Tree<Action>> | |t| == 5 witness [Leaf, Leaf, Leaf, Leaf, Leaf]

  const NO_ROUTES: Table := [Leaf, Leaf, Leaf, Leaf, Leaf]

  /** The methods in the order of their enumeration, which numbers their tables. */
  datatype Method = Get | Put | Post | Delete | Head

  /** The table for all methods. */
  const ALL: nat := 4

  ghost predicate SortedTable(t: Table) {
    forall i :: 0 <= i < 5 ==> Sorted(t[i])
  }

  /** The action is registered in one of the tables. */
  ghost predicate Registered(t: Table, a: Action) {
    exists i, k :: 0 <= i < 5 && k in Content(t[i]) && Content(t[i])[k] == a
  }

  /** `static_cast<int>(method)`. */
  function NumberOf(m: Method): nat {
    match m case Get => 0 case Put => 1 case Post => 2 case Delete => 3 case Head => 4
  }

  /** The table that answers a request: HEAD is answered as GET. */
  function MethodIndex(m: Method): (i: nat)
    ensures i < ALL
  {
    NumberOf(if m.Head? then Get else m)
  }

  /** The action is registered for the method, or for all methods, under a route that compares equal to the path. */
  ghost predicate Serves(t: Table, m: Method, path: string, a: Action) {
    exists i, k :: (i == MethodIndex(m) || i == ALL) && k in Content(t[i]) && Content(t[i])[k] == a &&
                   "" !in k && Routes.PathCompare(k, path) == 0
  }

  /** `Site::find`: the table of the method (Head counting as Get), then the table for all methods. */
  function FindAction(t: Table, m: Method, path: string): (a: Option<Action>)
    requires SortedTable(t)
    ensures a.Some? ==> Registered(t, a.value) && Serves(t, m, path, a.value)
  {
    var own := RouteMaps.Find(t[MethodIndex(m)], path);
    if own.Some? then Some(own.value.value)
    else
      var all := RouteMaps.Find(t[ALL], path);
      if all.Some? then Some(all.value.value) else None
  }

  /** The tables that are asked hold literal routes, and none of them blocks the path. */
  ghost predicate PlainFor(t: Table, m: Method, path: string) {
    forall i :: i == MethodIndex(m) || i == ALL ==> Literal(t[i]) && PrefixesPass(Content(t[i]).Keys, path)
  }

  /**
   In a site of literal routes without blocking ones, the action is the first one registered for the path and
   the method, else the first one registered for the path and all methods.
   */
  lemma FindActionIsRegistration(t: Table, m: Method, path: string)
    requires SortedTable(t) && PlainFor(t, m, path)
    ensures var own, all := Content(t[MethodIndex(m)]), Content(t[ALL]);
      FindAction(t, m, path) ==
        if [path] in own then Some(own[[path]]) else if [path] in all then Some(all[[path]]) else None
  {
    LiteralLookup(t[MethodIndex(m)], path);
    LiteralLookup(t[ALL], path);
  }

  /** A route with any names compares equal to the path, and the lookup in the table turns towards it. */
  ghost predicate Reached(t: Tree<Action>, key: seq<string>, path: string) {
    key in Content(t) && Routes.PathCompare(key, path) == 0 && TurnsTowards(t, key, path)
  }

  /**
   With names in the routes: the action of a route that is reached in the table of the method, else of one that
   is reached in the table for all methods.
   */
  lemma FindActionFollowsRoute(t: Table, m: Method, path: string, key: seq<string>)
    requires SortedTable(t)
    ensures var own, all := t[MethodIndex(m)], t[ALL];
      && (Reached(own, key, path) ==> FindAction(t, m, path) == Some(Content(own)[key]))
      && (Reached(all, key, path) && (forall k :: k in Content(own) ==> Routes.PathCompare(k, path) != 0) ==>
           FindAction(t, m, path) == Some(Content(all)[key]))
  {
    if Reached(t[MethodIndex(m)], key, path) {
      RouteFoundInTreeExactly(t[MethodIndex(m)], key, path);
    }
    if Reached(t[ALL], key, path) {
      RouteFoundInTreeExactly(t[ALL], key, path);
    }
  }

  /** The first registration of a route stays. */
  ghost function Registration(content: map<seq<string>, Action>, key: seq<string>, action: Action)
    : map<seq<string>, Action>
  {
    if key in content then content else content[key := action]
  }

  /** `u` is `t` with the route registered in one table. */
  ghost predicate Registers(t: Table, u: Table, index: nat, key: seq<string>, action: Action)
    requires index < 5
  {
    && (forall i :: 0 <= i < 5 && i != index ==> u[i] == t[i])
    && Content(u[index]) == Registration(Content(t[index]), key, action)
  }

  /** A registration in one table leaves the others, and itself, plain. */
  lemma StaysPlain(t: Table, u: Table, index: nat, path: string, action: Action, n: Method)
    requires index < 5 && Registers(t, u, index, [path], action) && PlainFor(t, n, path)
    ensures PlainFor(u, n, path)
  {
  }

  /**
   What `get`, `put`, `post` and `del` register is found by requests of that method, HEAD being answered as GET, and
   by no others; what `all` registers is found by all.
   */
  lemma RegisteredIsFoundExactly(t: Table, u: Table, index: nat, path: string, action: Action, n: Method)
    requires SortedTable(t) && SortedTable(u) && index <= ALL && Registers(t, u, index, [path], action)
    requires PlainFor(t, n, path) && FindAction(t, n, path) == None
    ensures FindAction(u, n, path) ==
      if index == ALL || index == NumberOf(n) || (n.Head? && index == NumberOf(Get)) then Some(action) else None
  {
    StaysPlain(t, u, index, path, action, n);
    FindActionIsRegistration(t, n, path);
    FindActionIsRegistration(u, n, path);
  }

  /** A site: its routes and the number of calls it counts. */
  datatype SiteState = SiteState(table: Table, active: int)

  /** The sites of one port, by host. */
  type Sites = map<string, SiteState>

  datatype SiteKey = SiteKey(host: string, base: string, port: int)

  /** A running call: the site that counts it and the library whose code it runs. */
  datatype Call = Call(port: int, host: string, lib: Lib)

  datatype State = State(
    siteMap: map<SiteKey, Lib>,
    libCount: map<Lib, int>,
    portMap: map<int, Sites>,
    listening: seq<int>,
    calls: seq<Call>,
    mapped: set<Lib>)

  const START := State(map[], map[], map[], [], [], {})

  // Load

  /** What opening a library and asking it for its site may come to; a library that opens but fails stays open. */
  datatype Opening = NoLibrary | NoSymbol(lib: Lib) | NoAdder(lib: Lib) | Ready(lib: Lib, table: Table)

  datatype Loaded = Loaded(added: bool, count: int) | LoadError

  function Count(libCount: map<Lib, int>, lib: Lib): int {
    if lib in libCount then libCount[lib] else 0
  }

  function SitesOf(s: State, port: int): Sites {
    if port in s.portMap then s.portMap[port] else map[]
  }

  /** The state with one site replaced or added. */
  function PutSite(s: State, port: int, host: string, site: SiteState): State {
    s.(portMap := s.portMap[port := SitesOf(s, port)[host := site]])
  }

  function AfterLoad(s: State, key: SiteKey, opening: Opening): State {
    if key in s.siteMap || opening.NoLibrary? then s
    else if !opening.Ready? then s.(mapped := s.mapped + {opening.lib})
    else
      PutSite(s, key.port, key.host, SiteState(opening.table, 0)).(
        siteMap := s.siteMap[key := opening.lib],
        libCount := s.libCount[opening.lib := Count(s.libCount, opening.lib) + 1],
        listening := if key.port in s.portMap then s.listening else s.listening + [key.port],
        mapped := s.mapped + {opening.lib})
  }

  function LoadAnswer(s: State, key: SiteKey, opening: Opening): Loaded {
    if key in s.siteMap then Loaded(false, 0)
    else if !opening.Ready? then LoadError
    else Loaded(true, Count(s.libCount, opening.lib) + 1)
  }

  // Unload

  datatype Unloaded = Unloaded(found: bool, active: int, count: int) | HostNotFound | CloseError

  /** `remSite` takes the routes and leaves the count of active calls. */
  function AfterUnload(s: State, key: SiteKey): State {
    if key !in s.siteMap then s
    else if key.host !in SitesOf(s, key.port) then s.(portMap := s.portMap[key.port := SitesOf(s, key.port)])
    else
      var lib := s.siteMap[key];
      var active := s.portMap[key.port][key.host].active;
      var s' := PutSite(s, key.port, key.host, SiteState(NO_ROUTES, active));
      if active != 0 then s'
      else
        var count := Count(s.libCount, lib) - 1;
        s'.(siteMap := s.siteMap - {key}, libCount := s.libCount[lib := count],
            mapped := if count != 0 then s.mapped else s.mapped - {lib})
  }

  /** `closes` says whether `dlclose` succeeds. */
  function UnloadAnswer(s: State, key: SiteKey, closes: bool): Unloaded {
    if key !in s.siteMap then Unloaded(false, 0, 0)
    else
      var count := Count(s.libCount, s.siteMap[key]);
      var sites := SitesOf(s, key.port);
      if key.host !in sites then HostNotFound
      else if sites[key.host].active != 0 then Unloaded(true, sites[key.host].active, count)
      else if count - 1 != 0 then Unloaded(true, 0, count - 1)
      else if closes then Unloaded(true, 0, 0)
      else CloseError
  }

  // Calls

  /** The host whose site answers: the named one, then the site without a host; `None` is the 404 action. */
  function Answering(sites: Sites, host: string, m: Method, path: string): Option<(string, Action)>
    requires forall h :: h in sites ==> SortedTable(sites[h].table)
  {
    var named := if host != "" && host in sites then FindAction(sites[host].table, m, path) else None;
    if named.Some? then Some((host, named.value))
    else
      var blind := if "" in sites then FindAction(sites[""].table, m, path) else None;
      if blind.Some? then Some(("", blind.value)) else None
  }

  /** What a site has registered for a literal path, in one of its tables. */
  ghost function RegisteredAt(sites: Sites, host: string, index: nat): map<seq<string>, Action>
    requires index < 5
  {
    if host in sites then Content(sites[host].table[index]) else map[]
  }

  ghost predicate AllPlain(sites: Sites, host: string, m: Method, path: string) {
    && (forall h :: h in sites ==> SortedTable(sites[h].table))
    && (forall h :: h in sites && (h == host || h == "") ==> PlainFor(sites[h].table, m, path))
  }

  /** What a site answers for a literal path, none when there is no such site. */
  function AskedAt(sites: Sites, host: string, m: Method, path: string): Option<Action>
    requires forall h :: h in sites ==> SortedTable(sites[h].table)
  {
    if host in sites then FindAction(sites[host].table, m, path) else None
  }

  lemma AnswerFollowsHosts(sites: Sites, host: string, m: Method, path: string)
    requires forall h :: h in sites ==> SortedTable(sites[h].table)
    ensures var named, blind := AskedAt(sites, host, m, path), AskedAt(sites, "", m, path);
      && (named.Some? ==> Answering(sites, host, m, path) == Some((host, named.value)))
      && (named.None? && blind.Some? ==> Answering(sites, host, m, path) == Some(("", blind.value)))
      && (named.None? && blind.None? ==> Answering(sites, host, m, path) == None)
  {
  }

  lemma AskedIsRegistration(sites: Sites, host: string, m: Method, path: string)
    requires forall h :: h in sites ==> SortedTable(sites[h].table)
    requires host in sites ==> PlainFor(sites[host].table, m, path)
    ensures var own, all := RegisteredAt(sites, host, MethodIndex(m)), RegisteredAt(sites, host, ALL);
      && ([path] in own ==> AskedAt(sites, host, m, path) == Some(own[[path]]))
      && ([path] !in own && [path] in all ==> AskedAt(sites, host, m, path) == Some(all[[path]]))
      && ([path] !in own && [path] !in all ==> AskedAt(sites, host, m, path) == None)
  {
    if host in sites {
      FindActionIsRegistration(sites[host].table, m, path);
    }
  }

  /**
   With literal routes the named host answers with its registration for the method, then with that for all
   methods; the site without a host answers, in the same order, exactly when the named host has neither.
   */
  lemma AnswerIsRegistration(sites: Sites, host: string, m: Method, path: string)
    requires AllPlain(sites, host, m, path)
    ensures var own, all := RegisteredAt(sites, host, MethodIndex(m)), RegisteredAt(sites, host, ALL);
      var blind, blindAll := RegisteredAt(sites, "", MethodIndex(m)), RegisteredAt(sites, "", ALL);
      && ([path] in own ==> Answering(sites, host, m, path) == Some((host, own[[path]])))
      && ([path] !in own && [path] in all ==> Answering(sites, host, m, path) == Some((host, all[[path]])))
      && ([path] !in own && [path] !in all ==>
           Answering(sites, host, m, path) ==
             if [path] in blind then Some(("", blind[[path]]))
             else if [path] in blindAll then Some(("", blindAll[[path]])) else None)
  {
    AskedIsRegistration(sites, host, m, path);
    AskedIsRegistration(sites, "", m, path);
    AnswerFollowsHosts(sites, host, m, path);
  }

  predicate HasSite(s: State, port: int, host: string) {
    port in s.portMap && host in s.portMap[port]
  }

  function SiteAt(s: State, port: int, host: string): SiteState
    requires HasSite(s, port, host)
  {
    s.portMap[port][host]
  }

  ghost predicate AllSorted(s: State) {
    forall p, h :: HasSite(s, p, h) ==> SortedTable(SiteAt(s, p, h).table)
  }

  lemma PortIsSorted(s: State, port: int)
    requires AllSorted(s) && port in s.portMap
    ensures forall h :: h in s.portMap[port] ==> SortedTable(s.portMap[port][h].table)
  {
    forall h | h in s.portMap[port]
      ensures SortedTable(s.portMap[port][h].table)
    {
      assert HasSite(s, port, h) && SiteAt(s, port, h) == s.portMap[port][h];
    }
  }

  /** The counter of a site moves by `d`. */
  function Counted(s: State, port: int, host: string, d: int): State {
    if HasSite(s, port, host) then
      var site := SiteAt(s, port, host);
      PutSite(s, port, host, site.(active := site.active + d))
    else s
  }

  /** A call of the library begins to run on the site of the host. */
  function Started(s: State, port: int, host: string, lib: Lib): State {
    Counted(s, port, host, 1).(calls := s.calls + [Call(port, host, lib)])
  }

  function AfterStart(s: State, port: int, host: string, m: Method, path: string): State
    requires AllSorted(s)
  {
    if port !in s.portMap then s
    else
      PortIsSorted(s, port);
      var answering := Answering(s.portMap[port], host, m, path);
      if answering.None? then s
      else
        var (h, action) := answering.value;
        Started(s, port, h, action.lib)
  }

  /** The action that a request on a port runs, unless it is the 404 action. */
  function ActionFor(s: State, port: int, host: string, m: Method, path: string): Option<Action>
    requires AllSorted(s)
  {
    if port !in s.portMap then None
    else
      PortIsSorted(s, port);
      var answering := Answering(s.portMap[port], host, m, path);
      if answering.None? then None else Some(answering.value.1)
  }

  function AfterEnd(s: State, i: nat): State {
    if i >= |s.calls| then s
    else
      Counted(s, s.calls[i].port, s.calls[i].host, -1).(calls := s.calls[..i] + s.calls[i + 1..])
  }

  // What holds between operations

  ghost function InFlight(calls: seq<Call>, port: int, host: string): nat {
    if calls == [] then 0
    else (if calls[0].port == port && calls[0].host == host then 1 else 0) + InFlight(calls[1..], port, host)
  }

  ghost function Users(siteMap: map<SiteKey, Lib>, lib: Lib): set<SiteKey> {
    set k | k in siteMap && siteMap[k] == lib
  }

  /** Some entry of the loader has bound the library to this port and host. */
  ghost predicate Bound(s: State, port: int, host: string, lib: Lib) {
    exists base :: SiteKey(host, base, port) in s.siteMap && s.siteMap[SiteKey(host, base, port)] == lib
  }

  /** Every site counts exactly the calls that run on it. */
  ghost predicate CountsCalls(s: State) {
    && (forall p, h :: HasSite(s, p, h) ==> SiteAt(s, p, h).active == InFlight(s.calls, p, h))
    && (forall c :: c in s.calls ==> HasSite(s, c.port, c.host))
  }

  /** Running calls and registered actions belong to libraries bound to their port and host. */
  ghost predicate CodeIsBound(s: State) {
    && (forall c :: c in s.calls ==> Bound(s, c.port, c.host, c.lib))
    && (forall p, h, a :: HasSite(s, p, h) && Registered(SiteAt(s, p, h).table, a) ==> Bound(s, p, h, a.lib))
  }

  /**
   Conservation: `libCount` is the number of entries, each known port is listened on once, every entry has its
   site.
   */
  ghost predicate Conserves(s: State) {
    && (forall lib :: Count(s.libCount, lib) == |Users(s.siteMap, lib)|)
    && (forall k :: k in s.siteMap ==> HasSite(s, k.port, k.host))
    && (forall i, j :: 0 <= i < j < |s.listening| ==> s.listening[i] != s.listening[j])
    && (forall p :: p in s.listening <==> p in s.portMap)
  }

  /** A bound library is open. */
  ghost predicate BoundIsMapped(s: State) {
    forall k :: k in s.siteMap ==> s.siteMap[k] in s.mapped
  }

  ghost predicate Safe(s: State) {
    AllSorted(s) && CountsCalls(s) && CodeIsBound(s) && Conserves(s) && BoundIsMapped(s)
  }

  /** In a safe state no call runs, and no route leads to, code of a library that is not open. */
  lemma SafeRunsOpenCode(s: State)
    requires Safe(s)
    ensures forall c :: c in s.calls ==> c.lib in s.mapped
    ensures forall p, h, a :: HasSite(s, p, h) && Registered(SiteAt(s, p, h).table, a) ==> a.lib in s.mapped
  {
    forall p, h, lib | Bound(s, p, h, lib)
      ensures lib in s.mapped
    {
      var base :| SiteKey(h, base, p) in s.siteMap && s.siteMap[SiteKey(h, base, p)] == lib;
    }
  }

  // Counting calls

  lemma {:induction false} InFlightOfConcat(a: seq<Call>, b: seq<Call>, port: int, host: string)
    ensures InFlight(a + b, port, host) == InFlight(a, port, host) + InFlight(b, port, host)
  {
    if a == [] {
      assert a + b == b;
    } else {
      InFlightOfConcat(a[1..], b, port, host);
      assert (a + b)[1..] == a[1..] + b;
    }
  }

  lemma {:induction false} NoneInFlight(calls: seq<Call>, port: int, host: string)
    ensures InFlight(calls, port, host) == 0 <==> forall c :: c in calls ==> c.port != port || c.host != host
  {
    if calls != [] {
      NoneInFlight(calls[1..], port, host);
      assert calls == [calls[0]] + calls[1..];
    }
  }

  lemma InFlightWithout(calls: seq<Call>, i: nat, port: int, host: string)
    requires i < |calls|
    ensures InFlight(calls[..i] + calls[i + 1..], port, host) ==
      InFlight(calls, port, host) - (if calls[i].port == port && calls[i].host == host then 1 else 0)
  {
    assert calls == calls[..i] + ([calls[i]] + calls[i + 1..]);
    InFlightOfConcat(calls[..i], [calls[i]] + calls[i + 1..], port, host);
    InFlightOfConcat([calls[i]], calls[i + 1..], port, host);
    InFlightOfConcat(calls[..i], calls[i + 1..], port, host);
  }

  // Every operation keeps a safe state safe; a load does so exactly when no call runs on its site.

  lemma UsersOfInsert(siteMap: map<SiteKey, Lib>, key: SiteKey, lib: Lib, other: Lib)
    requires key !in siteMap
    ensures |Users(siteMap[key := lib], other)| == |Users(siteMap, other)| + if other == lib then 1 else 0
  {
    assert Users(siteMap[key := lib], other) ==
      if other == lib then Users(siteMap, other) + {key} else Users(siteMap, other);
  }

  lemma UsersOfRemove(siteMap: map<SiteKey, Lib>, key: SiteKey, other: Lib)
    requires key in siteMap
    ensures |Users(siteMap - {key}, other)| == |Users(siteMap, other)| - if other == siteMap[key] then 1 else 0
  {
    assert key in Users(siteMap, siteMap[key]);
    assert Users(siteMap - {key}, other) ==
      if other == siteMap[key] then Users(siteMap, other) - {key} else Users(siteMap, other);
  }

  /** All routes of a library lead to its own code. */
  ghost predicate OwnRoutes(opening: Opening) {
    opening.Ready? ==> SortedTable(opening.table) && forall a :: Registered(opening.table, a) ==> a.lib == opening.lib
  }

  /** The sites of `t` are those of `s`, with one put at `port` and `host`. */
  ghost predicate PutsSite(s: State, t: State, port: int, host: string, site: SiteState) {
    && (forall p, h :: HasSite(t, p, h) <==> HasSite(s, p, h) || (p == port && h == host))
    && (forall p, h :: HasSite(t, p, h) ==>
         SiteAt(t, p, h) == if p == port && h == host then site else SiteAt(s, p, h))
  }

  lemma PutSitePuts(s: State, port: int, host: string, site: SiteState)
    ensures PutsSite(s, PutSite(s, port, host, site), port, host, site)
  {
  }

  /** What bound a library before still does when no entry was taken from that port and host. */
  lemma StillBound(s: State, t: State, port: int, host: string, lib: Lib)
    requires Bound(s, port, host, lib)
    requires forall k :: k in s.siteMap && k.port == port && k.host == host ==>
      k in t.siteMap && t.siteMap[k] == s.siteMap[k]
    ensures Bound(t, port, host, lib)
  {
    var base :| SiteKey(host, base, port) in s.siteMap && s.siteMap[SiteKey(host, base, port)] == lib;
    assert SiteKey(host, base, port) in t.siteMap && t.siteMap[SiteKey(host, base, port)] == lib;
  }

  /** A load that adds an entry keeps the state safe exactly when no call is running on that port and host. */
  lemma LoadIsSafeExactly(s: State, key: SiteKey, opening: Opening)
    requires Safe(s) && OwnRoutes(opening)
    requires key !in s.siteMap && opening.Ready?
    ensures Safe(AfterLoad(s, key, opening)) <==> InFlight(s.calls, key.port, key.host) == 0
  {
    var t := AfterLoad(s, key, opening);
    LoadPuts(s, key, opening);
    if InFlight(s.calls, key.port, key.host) == 0 {
      LoadCounts(s, t, key, opening.table);
      LoadBinds(s, t, key, opening.lib, SiteState(opening.table, 0));
      LoadConserves(s, key, opening);
    } else {
      assert SiteAt(t, key.port, key.host).active == 0;
    }
  }

  lemma LoadPuts(s: State, key: SiteKey, opening: Opening)
    requires key !in s.siteMap && opening.Ready?
    ensures var t := AfterLoad(s, key, opening);
      PutsSite(s, t, key.port, key.host, SiteState(opening.table, 0)) && HasSite(t, key.port, key.host)
    ensures AllSorted(s) && SortedTable(opening.table) ==> AllSorted(AfterLoad(s, key, opening))
  {
    var t, site := AfterLoad(s, key, opening), SiteState(opening.table, 0);
    PutSitePuts(s, key.port, key.host, site);
    assert PutsSite(s, t, key.port, key.host, site);
  }

  lemma LoadCounts(s: State, t: State, key: SiteKey, table: Table)
    requires CountsCalls(s) && InFlight(s.calls, key.port, key.host) == 0 && t.calls == s.calls
    requires PutsSite(s, t, key.port, key.host, SiteState(table, 0))
    ensures CountsCalls(t)
  {
  }

  lemma LoadConserves(s: State, key: SiteKey, opening: Opening)
    requires Conserves(s) && key !in s.siteMap && opening.Ready?
    requires PutsSite(s, AfterLoad(s, key, opening), key.port, key.host, SiteState(opening.table, 0))
    ensures Conserves(AfterLoad(s, key, opening))
  {
    var t := AfterLoad(s, key, opening);
    forall lib
      ensures Count(t.libCount, lib) == |Users(t.siteMap, lib)|
    {
      UsersOfInsert(s.siteMap, key, opening.lib, lib);
    }
    assert HasSite(t, key.port, key.host);
  }

  lemma LoadBinds(s: State, t: State, key: SiteKey, lib: Lib, site: SiteState)
    requires CodeIsBound(s) && key !in s.siteMap && t.siteMap == s.siteMap[key := lib] && t.calls == s.calls
    requires PutsSite(s, t, key.port, key.host, site) && forall a :: Registered(site.table, a) ==> a.lib == lib
    ensures CodeIsBound(t)
  {
    assert Bound(t, key.port, key.host, lib) by {
      assert SiteKey(key.host, key.base, key.port) == key;
    }
    forall p, h, l | Bound(s, p, h, l)
      ensures Bound(t, p, h, l)
    {
      StillBound(s, t, p, h, l);
    }
  }

  /** A load that fails keeps the state safe. */
  lemma FailedLoadIsSafe(s: State, key: SiteKey, opening: Opening)
    requires Safe(s) && (key in s.siteMap || !opening.Ready?)
    ensures Safe(AfterLoad(s, key, opening))
  {
    var t := AfterLoad(s, key, opening);
    assert forall p, h :: HasSite(t, p, h) <==> HasSite(s, p, h);
    assert forall p, h :: HasSite(s, p, h) ==> SiteAt(t, p, h) == SiteAt(s, p, h);
    forall p, h, lib | Bound(s, p, h, lib)
      ensures Bound(t, p, h, lib)
    {
      StillBound(s, t, p, h, lib);
    }
  }

  /** With at most one base per port and host, a load never meets a running call. */
  lemma OneBaseMeetsNoCall(s: State, key: SiteKey)
    requires Safe(s)
    requires forall base :: SiteKey(key.host, base, key.port) !in s.siteMap
    ensures InFlight(s.calls, key.port, key.host) == 0
  {
    NoneInFlight(s.calls, key.port, key.host);
    forall c | c in s.calls
      ensures c.port != key.port || c.host != key.host
    {
      assert Bound(s, c.port, c.host, c.lib);
    }
  }

  /** Unloading keeps the state safe, and finds the host of every entry. */
  lemma UnloadIsSafe(s: State, key: SiteKey, closes: bool)
    requires Safe(s)
    ensures Safe(AfterUnload(s, key)) && UnloadAnswer(s, key, closes) != HostNotFound
  {
    if key in s.siteMap {
      assert HasSite(s, key.port, key.host);
      var t, active := AfterUnload(s, key), SiteAt(s, key.port, key.host).active;
      var site := SiteState(NO_ROUTES, active);
      PutSitePuts(s, key.port, key.host, site);
      assert PutsSite(s, t, key.port, key.host, site);
      assert forall i :: 0 <= i < 5 ==> NO_ROUTES[i] == Leaf;
      if active == 0 {
        NoneInFlight(s.calls, key.port, key.host);
        UnloadConserves(s, key);
      }
      UnloadBinds(s, t, key, site);
    }
  }

  lemma UnloadConserves(s: State, key: SiteKey)
    requires Conserves(s) && BoundIsMapped(s) && key in s.siteMap
    requires HasSite(s, key.port, key.host) && SiteAt(s, key.port, key.host).active == 0
    requires PutsSite(s, AfterUnload(s, key), key.port, key.host, SiteState(NO_ROUTES, 0))
    ensures Conserves(AfterUnload(s, key)) && BoundIsMapped(AfterUnload(s, key))
  {
    var t, lib := AfterUnload(s, key), s.siteMap[key];
    forall l
      ensures Count(t.libCount, l) == |Users(t.siteMap, l)|
    {
      UsersOfRemove(s.siteMap, key, l);
    }
    forall k | k in t.siteMap
      ensures t.siteMap[k] in t.mapped
    {
      assert t.siteMap[k] == lib ==> k in Users(t.siteMap, lib) && |Users(t.siteMap, lib)| > 0;
    }
  }

  lemma UnloadBinds(s: State, t: State, key: SiteKey, site: SiteState)
    requires CodeIsBound(s) && t.calls == s.calls
    requires forall k :: k in s.siteMap && k != key ==> k in t.siteMap && t.siteMap[k] == s.siteMap[k]
    requires t.siteMap == s.siteMap || forall c :: c in s.calls ==> c.port != key.port || c.host != key.host
    requires PutsSite(s, t, key.port, key.host, site) && site.table == NO_ROUTES
    ensures CodeIsBound(t)
  {
    forall p, h, l | Bound(s, p, h, l) && (p != key.port || h != key.host || t.siteMap == s.siteMap)
      ensures Bound(t, p, h, l)
    {
      StillBound(s, t, p, h, l);
    }
    forall a
      ensures !Registered(site.table, a)
    {
      assert forall i :: 0 <= i < 5 ==> NO_ROUTES[i] == Leaf;
    }
  }

  /**
   What an unload does and answers. What is not loaded is not found. Else the routes of the host are gone at once;
   while calls run there the entry stays, and the answer tells their number and the users of the library; else the
   entry goes, and the answer tells the users left; the library is closed, unless that fails, when there are none.
   */
  lemma UnloadAnswersExactly(s: State, key: SiteKey, closes: bool)
    requires Safe(s)
    ensures key !in s.siteMap ==> AfterUnload(s, key) == s && UnloadAnswer(s, key, closes) == Unloaded(false, 0, 0)
    ensures key in s.siteMap ==>
      var running, lib := InFlight(s.calls, key.port, key.host), s.siteMap[key];
      var left := |Users(s.siteMap - {key}, lib)|;
      UnloadAnswer(s, key, closes) ==
        if running > 0 then Unloaded(true, running, |Users(s.siteMap, lib)|)
        else if left > 0 || closes then Unloaded(true, 0, left)
        else CloseError
    ensures key in s.siteMap ==>
      var running, lib, t := InFlight(s.calls, key.port, key.host), s.siteMap[key], AfterUnload(s, key);
      && HasSite(t, key.port, key.host) && SiteAt(t, key.port, key.host) == SiteState(NO_ROUTES, running)
      && t.calls == s.calls && t.siteMap == (if running > 0 then s.siteMap else s.siteMap - {key})
      && t.mapped == if running == 0 && Users(t.siteMap, lib) == {} then s.mapped - {lib} else s.mapped
  {
    if key in s.siteMap {
      assert HasSite(s, key.port, key.host);
      UsersOfRemove(s.siteMap, key, s.siteMap[key]);
    }
  }

  /** Where the routes of a host have gone, it answers no request any more. */
  lemma EmptySiteIsSilent(sites: Sites, host: string, m: Method, path: string)
    requires forall h :: h in sites ==> SortedTable(sites[h].table)
    requires host in sites && sites[host].table == NO_ROUTES
    ensures Answering(sites, host, m, path).Some? ==> Answering(sites, host, m, path).value.0 != host
  {
    assert forall i :: 0 <= i < 5 ==> NO_ROUTES[i] == Leaf;
  }

  /**
   What a load does and answers: nothing for a known entry; a library that fails stays open; else the routes of
   the library are those of its host, and the answer tells how many entries now use it.
   */
  lemma LoadAnswersExactly(s: State, key: SiteKey, opening: Opening)
    requires Safe(s)
    ensures var t, answer := AfterLoad(s, key, opening), LoadAnswer(s, key, opening);
      if key in s.siteMap then t == s && answer == Loaded(false, 0)
      else if opening.NoLibrary? then t == s && answer == LoadError
      else if !opening.Ready? then t == s.(mapped := s.mapped + {opening.lib}) && answer == LoadError
      else
        && answer == Loaded(true, |Users(t.siteMap, opening.lib)|)
        && t.siteMap == s.siteMap[key := opening.lib] && t.mapped == s.mapped + {opening.lib} && t.calls == s.calls
        && HasSite(t, key.port, key.host) && SiteAt(t, key.port, key.host) == SiteState(opening.table, 0)
  {
    if key !in s.siteMap && opening.Ready? {
      UsersOfInsert(s.siteMap, key, opening.lib, opening.lib);
    }
  }

  /** A library is closed only when no entry uses it and none of its code is running or reachable. */
  lemma CloseIsSafe(s: State, key: SiteKey, lib: Lib)
    requires Safe(s) && lib in s.mapped && lib !in AfterUnload(s, key).mapped
    ensures Users(AfterUnload(s, key).siteMap, lib) == {}
    ensures forall c :: c in s.calls ==> c.lib != lib
    ensures var t := AfterUnload(s, key);
      forall p, h, a :: HasSite(t, p, h) && Registered(SiteAt(t, p, h).table, a) ==> a.lib != lib
  {
    UnloadIsSafe(s, key, true);
    var t := AfterUnload(s, key);
    SafeRunsOpenCode(t);
    assert forall k :: k in t.siteMap ==> t.siteMap[k] in t.mapped;
  }

  lemma StartIsSafe(s: State, port: int, host: string, m: Method, path: string)
    requires Safe(s)
    ensures Safe(AfterStart(s, port, host, m, path))
  {
    if port in s.portMap {
      PortIsSorted(s, port);
      var answering := Answering(s.portMap[port], host, m, path);
      if answering.Some? {
        var (h, action) := answering.value;
        assert HasSite(s, port, h) && SiteAt(s, port, h) == s.portMap[port][h];
        assert Registered(SiteAt(s, port, h).table, action) && Bound(s, port, h, action.lib);
        StartedIsSafe(s, port, h, action.lib);
      }
    }
  }

  lemma StartedIsSafe(s: State, port: int, host: string, lib: Lib)
    requires Safe(s) && HasSite(s, port, host) && Bound(s, port, host, lib)
    ensures Safe(Started(s, port, host, lib))
  {
    var call := Call(port, host, lib);
    forall p, g
      ensures InFlight(s.calls + [call], p, g) == InFlight(s.calls, p, g) + if p == port && g == host then 1 else 0
    {
      InFlightOfConcat(s.calls, [call], p, g);
      assert [call][1..] == [];
    }
    CountingIsSafe(s, port, host, 1, s.calls + [call]);
  }

  /** A request for a registered literal path starts a call of the library that registered it, on that site. */
  lemma StartRunsRegistration(s: State, port: int, host: string, m: Method, path: string)
    requires AllSorted(s) && port in s.portMap && AllPlain(s.portMap[port], host, m, path)
    requires [path] in RegisteredAt(s.portMap[port], host, MethodIndex(m))
    ensures var a := RegisteredAt(s.portMap[port], host, MethodIndex(m))[[path]];
      var t := AfterStart(s, port, host, m, path);
      && ActionFor(s, port, host, m, path) == Some(a) && t.calls == s.calls + [Call(port, host, a.lib)]
      && HasSite(t, port, host) && SiteAt(t, port, host).active == SiteAt(s, port, host).active + 1
  {
    AnswerIsRegistration(s.portMap[port], host, m, path);
  }

  /** Exactly the call that ends is gone, and its site counts one call less. */
  lemma EndTakesItsCall(s: State, i: nat)
    requires i < |s.calls| && HasSite(s, s.calls[i].port, s.calls[i].host)
    ensures var c, t := s.calls[i], AfterEnd(s, i);
      && multiset(t.calls) == multiset(s.calls) - multiset{c}
      && HasSite(t, c.port, c.host) && SiteAt(t, c.port, c.host).active == SiteAt(s, c.port, c.host).active - 1
  {
    assert s.calls == s.calls[..i] + [s.calls[i]] + s.calls[i + 1..];
  }

  lemma EndIsSafe(s: State, i: nat)
    requires Safe(s)
    ensures Safe(AfterEnd(s, i))
  {
    if i < |s.calls| {
      var c, rest := s.calls[i], s.calls[..i] + s.calls[i + 1..];
      assert c in s.calls;
      forall p, g
        ensures InFlight(rest, p, g) == InFlight(s.calls, p, g) + if p == c.port && g == c.host then -1 else 0
      {
        InFlightWithout(s.calls, i, p, g);
      }
      CountingIsSafe(s, c.port, c.host, -1, rest);
    }
  }

  /** Counting and the calls themselves move together. */
  lemma CountingIsSafe(s: State, port: int, host: string, d: int, calls: seq<Call>)
    requires Safe(s) && HasSite(s, port, host)
    requires forall c :: c in calls ==> HasSite(s, c.port, c.host) && Bound(s, c.port, c.host, c.lib)
    requires forall p, g :: InFlight(calls, p, g) == InFlight(s.calls, p, g) + if p == port && g == host then d else 0
    ensures Safe(Counted(s, port, host, d).(calls := calls))
  {
    var t := Counted(s, port, host, d).(calls := calls);
    var site := SiteAt(s, port, host).(active := SiteAt(s, port, host).active + d);
    CountingPuts(s, port, host, d, calls);
    CountingCounts(s, t, port, host, d, site);
    CountingBinds(s, t, port, host, site);
    CountingSorted(s, t, port, host, site);
    CountingConserves(s, t, port, host, site);
  }

  lemma CountingPuts(s: State, port: int, host: string, d: int, calls: seq<Call>)
    requires HasSite(s, port, host)
    ensures var site := SiteAt(s, port, host).(active := SiteAt(s, port, host).active + d);
      PutsSite(s, Counted(s, port, host, d).(calls := calls), port, host, site)
  {
    PutSitePuts(s, port, host, SiteAt(s, port, host).(active := SiteAt(s, port, host).active + d));
  }

  lemma CountingSorted(s: State, t: State, port: int, host: string, site: SiteState)
    requires AllSorted(s) && HasSite(s, port, host) && PutsSite(s, t, port, host, site)
    requires site.table == SiteAt(s, port, host).table
    ensures AllSorted(t)
  {
  }

  lemma CountingConserves(s: State, t: State, port: int, host: string, site: SiteState)
    requires Conserves(s) && HasSite(s, port, host) && PutsSite(s, t, port, host, site)
    requires t.siteMap == s.siteMap && t.libCount == s.libCount && t.listening == s.listening
    requires t.portMap.Keys == s.portMap.Keys
    ensures Conserves(t)
  {
  }

  lemma CountingCounts(s: State, t: State, port: int, host: string, d: int, site: SiteState)
    requires CountsCalls(s) && HasSite(s, port, host) && PutsSite(s, t, port, host, site)
    requires site.active == SiteAt(s, port, host).active + d
    requires forall c :: c in t.calls ==> HasSite(s, c.port, c.host)
    requires forall p, g :: InFlight(t.calls, p, g) == InFlight(s.calls, p, g) + if p == port && g == host then d else 0
    ensures CountsCalls(t)
  {
  }

  lemma CountingBinds(s: State, t: State, port: int, host: string, site: SiteState)
    requires CodeIsBound(s) && HasSite(s, port, host) && PutsSite(s, t, port, host, site)
    requires site.table == SiteAt(s, port, host).table && t.siteMap == s.siteMap
    requires forall c :: c in t.calls ==> Bound(s, c.port, c.host, c.lib)
    ensures CodeIsBound(t)
  {
    forall p, h, l | Bound(s, p, h, l)
      ensures Bound(t, p, h, l)
    {
      StillBound(s, t, p, h, l);
    }
  }

  // Runs

  datatype Op =
    | Load(key: SiteKey, opening: Opening)
    | Unload(key: SiteKey)
    | StartCall(port: int, host: string, m: Method, path: string)
    | EndCall(i: nat)

  /** The operation may be applied: a load that adds an entry meets no running call on its port and host. */
  ghost predicate Calm(s: State, op: Op) {
    op.Load? ==>
      && OwnRoutes(op.opening)
      && (op.key !in s.siteMap && op.opening.Ready? ==> InFlight(s.calls, op.key.port, op.key.host) == 0)
  }

  ghost function Step(s: State, op: Op): State
    requires AllSorted(s)
  {
    match op
    case Load(key, opening) => AfterLoad(s, key, opening)
    case Unload(key) => AfterUnload(s, key)
    case StartCall(port, host, m, path) => AfterStart(s, port, host, m, path)
    case EndCall(i) => AfterEnd(s, i)
  }

  lemma StepIsSafe(s: State, op: Op)
    requires Safe(s) && Calm(s, op)
    ensures Safe(Step(s, op))
  {
    match op
    case Load(key, opening) =>
      if key !in s.siteMap && opening.Ready? {
        LoadIsSafeExactly(s, key, opening);
      } else {
        FailedLoadIsSafe(s, key, opening);
      }
    case Unload(key) => UnloadIsSafe(s, key, true);
    case StartCall(port, host, m, path) => StartIsSafe(s, port, host, m, path);
    case EndCall(i) => EndIsSafe(s, i);
  }

  /** The states of a run from the empty loader: each follows from the one before by a calm operation. */
  ghost predicate IsRun(states: seq<State>, ops: seq<Op>) {
    && |states| == |ops| + 1 && states[0] == START
    && forall i :: 0 <= i < |ops| ==>
         Calm(states[i], ops[i]) && (Safe(states[i]) ==> states[i + 1] == Step(states[i], ops[i]))
  }

  lemma StartStateIsSafe()
    ensures Safe(START)
  {
    assert forall lib :: Users(START.siteMap, lib) == {};
  }

  /** Every state of every run is safe. */
  lemma {:induction false} RunIsSafe(states: seq<State>, ops: seq<Op>, i: nat)
    requires IsRun(states, ops) && i <= |ops|
    ensures Safe(states[i])
  {
    if i == 0 {
      StartStateIsSafe();
    } else {
      RunIsSafe(states, ops, i - 1);
      StepIsSafe(states[i - 1], ops[i - 1]);
    }
  }

  /** A library that is closed by the step is used by no entry afterwards, and none of its calls is running. */
  ghost predicate ClosesUnused(s: State, t: State) {
    forall lib :: lib in s.mapped && lib !in t.mapped ==>
      Users(t.siteMap, lib) == {} && forall c :: c in t.calls ==> c.lib != lib
  }

  lemma StepClosesUnused(s: State, op: Op)
    requires Safe(s) && Calm(s, op)
    ensures ClosesUnused(s, Step(s, op))
  {
    if op.Unload? {
      forall lib | lib in s.mapped && lib !in Step(s, op).mapped
        ensures Users(Step(s, op).siteMap, lib) == {} && forall c :: c in s.calls ==> c.lib != lib
      {
        CloseIsSafe(s, op.key, lib);
      }
    }
  }

  /** In every run a library is closed only when no entry uses it and none of its calls is running. */
  lemma RunClosesSafely(states: seq<State>, ops: seq<Op>, i: nat)
    requires IsRun(states, ops) && i < |ops|
    ensures ClosesUnused(states[i], states[i + 1])
  {
    RunIsSafe(states, ops, i);
    StepClosesUnused(states[i], ops[i]);
  }

  /** A load that adds an entry finds none with the same port and host, whatever its base. */
  ghost predicate LoadsOneBase(s: State, op: Op) {
    op.Load? ==>
      && OwnRoutes(op.opening)
      && (op.key !in s.siteMap && op.opening.Ready? ==>
           forall base :: SiteKey(op.key.host, base, op.key.port) !in s.siteMap)
  }

  /** A run from the empty loader with at most one base per port and host. */
  ghost predicate IsOneBaseRun(states: seq<State>, ops: seq<Op>) {
    && |states| == |ops| + 1 && states[0] == START
    && forall i :: 0 <= i < |ops| ==>
         LoadsOneBase(states[i], ops[i]) && (Safe(states[i]) ==> states[i + 1] == Step(states[i], ops[i]))
  }

  lemma {:induction false} OneBaseStaysCalm(states: seq<State>, ops: seq<Op>, i: nat)
    requires IsOneBaseRun(states, ops) && i <= |ops|
    ensures Safe(states[i]) && (i < |ops| ==> Calm(states[i], ops[i]))
  {
    if i == 0 {
      StartStateIsSafe();
    } else {
      OneBaseStaysCalm(states, ops, i - 1);
      StepIsSafe(states[i - 1], ops[i - 1]);
    }
    if i < |ops| && ops[i].Load? && ops[i].key !in states[i].siteMap && ops[i].opening.Ready? {
      OneBaseMeetsNoCall(states[i], ops[i].key);
    }
  }

  /** With at most one base per port and host every state of every run is safe, and libraries are closed unused. */
  lemma OneBaseRunIsSafe(states: seq<State>, ops: seq<Op>)
    requires IsOneBaseRun(states, ops)
    ensures IsRun(states, ops) && forall i :: 0 <= i <= |ops| ==> Safe(states[i])
    ensures forall i :: 0 <= i < |ops| ==> ClosesUnused(states[i], states[i + 1])
  {
    forall i | 0 <= i <= |ops|
      ensures Safe(states[i]) && (i < |ops| ==> Calm(states[i], ops[i]))
    {
      OneBaseStaysCalm(states, ops, i);
    }
    assert IsRun(states, ops);
    forall i | 0 <= i < |ops|
      ensures ClosesUnused(states[i], states[i + 1])
    {
      RunClosesSafely(states, ops, i);
    }
  }

  // What a load decides about the closings to come

  /** The states that calm operations lead to from `s`. */
  ghost predicate Continues(s: State, states: seq<State>, ops: seq<Op>) {
    && |states| == |ops| + 1 && states[0] == s
    && forall i :: 0 <= i < |ops| ==>
         AllSorted(states[i]) && Calm(states[i], ops[i]) && states[i + 1] == Step(states[i], ops[i])
  }

  ghost predicate ClosesAllUnused(states: seq<State>) {
    forall i :: 0 < i < |states| ==> ClosesUnused(states[i - 1], states[i])
  }

  lemma {:induction false} SafeContinues(s: State, states: seq<State>, ops: seq<Op>, i: nat)
    requires Safe(s) && Continues(s, states, ops) && i <= |ops|
    ensures Safe(states[i]) && (i > 0 ==> ClosesUnused(states[i - 1], states[i]))
  {
    if i > 0 {
      SafeContinues(s, states, ops, i - 1);
      StepIsSafe(states[i - 1], ops[i - 1]);
      StepClosesUnused(states[i - 1], ops[i - 1]);
    }
  }

  /** The site that `c` runs on counts none of its calls; the other sites count theirs. */
  ghost predicate MissesCalls(t: State, c: Call) {
    && c in t.calls && HasSite(t, c.port, c.host) && SiteAt(t, c.port, c.host).active == 0
    && (forall x :: x in t.calls ==> HasSite(t, x.port, x.host))
    && (forall p, h :: HasSite(t, p, h) && (p != c.port || h != c.host) ==>
         SiteAt(t, p, h).active == InFlight(t.calls, p, h))
  }

  /** The library of the running call `c` is going to be closed. */
  ghost predicate Doomed(t: State, c: Call) {
    AllSorted(t) && Conserves(t) && BoundIsMapped(t) && MissesCalls(t, c) && Users(t.siteMap, c.lib) != {}
  }

  /** A load on the site of a running call dooms its library. */
  lemma LoadDooms(s: State, key: SiteKey, opening: Opening, c: Call)
    requires Safe(s) && OwnRoutes(opening) && key !in s.siteMap && opening.Ready?
    requires c in s.calls && c.port == key.port && c.host == key.host
    ensures Doomed(AfterLoad(s, key, opening), c)
  {
    var t := AfterLoad(s, key, opening);
    LoadPuts(s, key, opening);
    LoadConserves(s, key, opening);
    RunningIsUsed(s, c, key, opening.lib);
    LoadMisses(s, t, c, SiteState(opening.table, 0));
  }

  /** The library of a running call has an entry, and a new entry does not take it away. */
  lemma RunningIsUsed(s: State, c: Call, key: SiteKey, lib: Lib)
    requires CodeIsBound(s) && c in s.calls && key !in s.siteMap
    ensures Users(s.siteMap[key := lib], c.lib) != {}
  {
    assert Bound(s, c.port, c.host, c.lib);
    var base :| SiteKey(c.host, base, c.port) in s.siteMap && s.siteMap[SiteKey(c.host, base, c.port)] == c.lib;
    assert SiteKey(c.host, base, c.port) in Users(s.siteMap[key := lib], c.lib);
  }

  lemma LoadMisses(s: State, t: State, c: Call, site: SiteState)
    requires CountsCalls(s) && c in s.calls && t.calls == s.calls
    requires PutsSite(s, t, c.port, c.host, site) && site.active == 0
    ensures MissesCalls(t, c)
  {
  }

  lemma EndStillMisses(t: State, u: State, c: Call, i: nat)
    requires MissesCalls(t, c) && i < |t.calls| && (t.calls[i].port != c.port || t.calls[i].host != c.host)
    requires u.calls == t.calls[..i] + t.calls[i + 1..]
    requires var x := t.calls[i];
      && HasSite(t, x.port, x.host)
      && var site := SiteAt(t, x.port, x.host);
      && PutsSite(t, u, x.port, x.host, site.(active := site.active - 1))
    ensures MissesCalls(u, c)
  {
    forall p, h | HasSite(u, p, h) && (p != c.port || h != c.host)
      ensures SiteAt(u, p, h).active == InFlight(u.calls, p, h)
    {
      InFlightWithout(t.calls, i, p, h);
    }
    var j :| 0 <= j < |t.calls| && t.calls[j] == c;
    assert u.calls[if j < i then j else j - 1] == c;
  }

  /** The end of a call elsewhere changes nothing about that. */
  lemma EndStaysDoomed(t: State, c: Call, i: nat)
    requires Doomed(t, c) && i < |t.calls| && (t.calls[i].port != c.port || t.calls[i].host != c.host)
    ensures Doomed(AfterEnd(t, i), c) && AfterEnd(t, i).siteMap == t.siteMap
  {
    var x, rest, u := t.calls[i], t.calls[..i] + t.calls[i + 1..], AfterEnd(t, i);
    assert x in t.calls && HasSite(t, x.port, x.host);
    var site := SiteAt(t, x.port, x.host).(active := SiteAt(t, x.port, x.host).active - 1);
    CountingPuts(t, x.port, x.host, -1, rest);
    CountingSorted(t, u, x.port, x.host, site);
    CountingConserves(t, u, x.port, x.host, site);
    EndStillMisses(t, u, c, i);
  }

  lemma UnloadStillMisses(t: State, u: State, c: Call, key: SiteKey)
    requires MissesCalls(t, c) && HasSite(t, key.port, key.host) && SiteAt(t, key.port, key.host).active == 0
    requires u.calls == t.calls && PutsSite(t, u, key.port, key.host, SiteState(NO_ROUTES, 0))
    ensures MissesCalls(u, c)
  {
  }

  /** Once no other call runs, unloading an entry of the library leads on, or closes it. */
  lemma UnloadStaysDoomed(t: State, c: Call, key: SiteKey)
    requires Doomed(t, c) && key in Users(t.siteMap, c.lib)
    requires forall x :: x in t.calls ==> x.port == c.port && x.host == c.host
    ensures var u := AfterUnload(t, key);
      && u.calls == t.calls && Users(u.siteMap, c.lib) == Users(t.siteMap, c.lib) - {key}
      && if Users(u.siteMap, c.lib) == {} then c.lib in t.mapped && c.lib !in u.mapped else Doomed(u, c)
  {
    var u := AfterUnload(t, key);
    NoneInFlight(t.calls, key.port, key.host);
    assert HasSite(t, key.port, key.host) && SiteAt(t, key.port, key.host).active == 0;
    UnloadEmpties(t, key);
    UnloadConserves(t, key);
    UnloadStillMisses(t, u, c, key);
    UsersWithout(t.siteMap, key, c.lib);
    if Users(u.siteMap, c.lib) == {} {
      LastUnloadCloses(t, key);
    }
  }

  lemma UsersWithout(siteMap: map<SiteKey, Lib>, key: SiteKey, lib: Lib)
    ensures Users(siteMap - {key}, lib) == Users(siteMap, lib) - {key}
  {
  }

  lemma LastUnloadCloses(t: State, key: SiteKey)
    requires AllSorted(t) && key in t.siteMap && BoundIsMapped(t) && Conserves(AfterUnload(t, key))
    requires HasSite(t, key.port, key.host) && SiteAt(t, key.port, key.host).active == 0
    requires Users(AfterUnload(t, key).siteMap, t.siteMap[key]) == {}
    ensures t.siteMap[key] in t.mapped && t.siteMap[key] !in AfterUnload(t, key).mapped
  {
    UnloadEmpties(t, key);
    var lib := t.siteMap[key];
    assert Count(AfterUnload(t, key).libCount, lib) == |Users(AfterUnload(t, key).siteMap, lib)|;
  }

  /** What an unload does while its site counts no call. */
  lemma UnloadEmpties(t: State, key: SiteKey)
    requires AllSorted(t) && key in t.siteMap
    requires HasSite(t, key.port, key.host) && SiteAt(t, key.port, key.host).active == 0
    ensures var u, lib := AfterUnload(t, key), t.siteMap[key];
      && PutsSite(t, u, key.port, key.host, SiteState(NO_ROUTES, 0)) && AllSorted(u) && u.calls == t.calls
      && u.siteMap == t.siteMap - {key} && (Count(u.libCount, lib) == 0 ==> lib !in u.mapped)
  {
    PutSitePuts(t, key.port, key.host, SiteState(NO_ROUTES, 0));
    assert forall i :: 0 <= i < 5 ==> NO_ROUTES[i] == Leaf;
  }

  /** What is left to do before the library of a doomed call is closed. */
  ghost function Delay(t: State, c: Call): nat {
    |t.calls| + |Users(t.siteMap, c.lib)|
  }

  /** Either the library has just been closed under the call, or it is still doomed, and nearer to that. */
  ghost predicate DoomsOn(t: State, u: State, c: Call) {
    if Users(u.siteMap, c.lib) == {} then c in u.calls && c.lib in t.mapped && c.lib !in u.mapped
    else Doomed(u, c) && Delay(u, c) < Delay(t, c)
  }

  lemma EndDoomsOn(t: State, c: Call, i: nat)
    requires Doomed(t, c) && i < |t.calls| && (t.calls[i].port != c.port || t.calls[i].host != c.host)
    ensures DoomsOn(t, AfterEnd(t, i), c)
  {
    EndStaysDoomed(t, c, i);
    assert |AfterEnd(t, i).calls| == |t.calls| - 1;
  }

  lemma UnloadDoomsOn(t: State, c: Call, key: SiteKey)
    requires Doomed(t, c) && key in Users(t.siteMap, c.lib)
    requires forall x :: x in t.calls ==> x.port == c.port && x.host == c.host
    ensures DoomsOn(t, AfterUnload(t, key), c)
  {
    UnloadStaysDoomed(t, c, key);
  }

  /** The next operation: a call elsewhere ends, or else an entry of the library goes. */
  lemma DoomedGoesOn(t: State, c: Call) returns (op: Op)
    requires Doomed(t, c)
    ensures AllSorted(t) && Calm(t, op) && DoomsOn(t, Step(t, op), c)
  {
    if i :| 0 <= i < |t.calls| && (t.calls[i].port != c.port || t.calls[i].host != c.host) {
      EndDoomsOn(t, c, i);
      op := EndCall(i);
    } else {
      var key :| key in Users(t.siteMap, c.lib);
      UnloadDoomsOn(t, c, key);
      op := Op.Unload(key);
    }
  }

  /** From a doomed state some continuation closes the library under its running call. */
  lemma {:induction false} DoomedEndsBadly(t: State, c: Call) returns (states: seq<State>, ops: seq<Op>)
    requires Doomed(t, c)
    ensures Continues(t, states, ops) && !ClosesAllUnused(states)
    decreases Delay(t, c)
  {
    var op := DoomedGoesOn(t, c);
    if Users(Step(t, op).siteMap, c.lib) == {} {
      states, ops := ClosesAtOnce(t, op, c);
    } else {
      states, ops := DoomedEndsBadly(Step(t, op), c);
      ContinuesBefore(t, op, states, ops);
      states, ops := [t] + states, [op] + ops;
    }
  }

  lemma ClosesAtOnce(t: State, op: Op, c: Call) returns (states: seq<State>, ops: seq<Op>)
    requires AllSorted(t) && Calm(t, op) && c in Step(t, op).calls
    requires c.lib in t.mapped && c.lib !in Step(t, op).mapped
    ensures Continues(t, states, ops) && !ClosesAllUnused(states)
  {
    states, ops := [t, Step(t, op)], [op];
    assert !ClosesUnused(states[0], states[1]);
  }

  lemma ContinuesBefore(t: State, op: Op, states: seq<State>, ops: seq<Op>)
    requires AllSorted(t) && Calm(t, op) && Continues(Step(t, op), states, ops)
    ensures Continues(t, [t] + states, [op] + ops)
    ensures !ClosesAllUnused(states) ==> !ClosesAllUnused([t] + states)
  {
    var all, both := [t] + states, [op] + ops;
    forall i | 0 <= i < |both|
      ensures AllSorted(all[i]) && Calm(all[i], both[i]) && all[i + 1] == Step(all[i], both[i])
    {
      if i > 0 {
        assert all[i] == states[i - 1] && both[i] == ops[i - 1] && all[i + 1] == states[i];
      }
    }
    if i :| 0 < i < |states| && !ClosesUnused(states[i - 1], states[i]) {
      assert all[i] == states[i - 1] && all[i + 1] == states[i];
      assert !ClosesUnused(all[i + 1 - 1], all[i + 1]);
    }
  }

  /**
   However it goes on after a load, libraries are closed only when unused, exactly when the load met no
   running call on its port and host.
   */
  lemma LoadClosesSafelyExactly(s: State, key: SiteKey, opening: Opening)
    requires Safe(s) && OwnRoutes(opening) && key !in s.siteMap && opening.Ready?
    ensures (forall states, ops :: Continues(AfterLoad(s, key, opening), states, ops) ==> ClosesAllUnused(states)) <==>
      InFlight(s.calls, key.port, key.host) == 0
  {
    var t := AfterLoad(s, key, opening);
    if InFlight(s.calls, key.port, key.host) == 0 {
      LoadIsSafeExactly(s, key, opening);
      forall states, ops | Continues(t, states, ops)
        ensures ClosesAllUnused(states)
      {
        forall i | 0 < i < |states|
          ensures ClosesUnused(states[i - 1], states[i])
        {
          SafeContinues(t, states, ops, i);
        }
      }
    } else {
      NoneInFlight(s.calls, key.port, key.host);
      var c :| c in s.calls && c.port == key.port && c.host == key.host;
      LoadDooms(s, key, opening, c);
      var states, ops := DoomedEndsBadly(t, c);
    }
  }

  const FIRST := SiteKey("h", "a", 80)
  const SECOND := SiteKey("h", "b", 80)

  /** A site with one route. */
  const ONE_ROUTE: Table := [Node(Leaf, ["/"], Action(1, 0), Leaf), Leaf, Leaf, Leaf, Leaf]

  /** The first base is loaded; its call runs; unloading it has to wait for the call. */
  const LOADED := State(map[FIRST := 1], map[1 := 1], map[80 := map["h" := SiteState(ONE_ROUTE, 0)]], [80], [], {1})
  const RUNNING := State(map[FIRST := 1], map[1 := 1], map[80 := map["h" := SiteState(ONE_ROUTE, 1)]], [80],
                         [Call(80, "h", 1)], {1})
  const WAITING := State(map[FIRST := 1], map[1 := 1], map[80 := map["h" := SiteState(NO_ROUTES, 1)]], [80],
                         [Call(80, "h", 1)], {1})

  lemma OneRouteIsSorted()
    ensures SortedTable(ONE_ROUTE) && FindAction(ONE_ROUTE, Get, "/") == Some(Action(1, 0))
  {
    var t: Tree<Action> := Node(Leaf, ["/"], Action(1, 0), Leaf);
    assert Sorted(t);
    assert forall i :: 1 <= i < 5 ==> ONE_ROUTE[i] == Leaf;
    assert ONE_ROUTE[0] == t;
    assert Routes.PathCompare(["/"], "/") == 0;
    assert RouteMaps.Find(t, "/").Some?;
  }

  lemma OnlySite(port: int, host: string, site: SiteState, next: SiteState)
    ensures var ports := map[port := map[host := site]];
      ports[port := ports[port][host := next]] == map[port := map[host := next]]
  {
    var ports := map[port := map[host := site]];
    assert ports[port][host := next] == map[host := next];
  }

  lemma FirstBaseLoads()
    ensures Calm(START, Op.Load(FIRST, Ready(1, ONE_ROUTE)))
    ensures AfterLoad(START, FIRST, Ready(1, ONE_ROUTE)) == LOADED && Safe(LOADED)
  {
    OneRouteIsSorted();
    StartStateIsSafe();
    forall a | Registered(ONE_ROUTE, a)
      ensures a.lib == 1
    {
      OnlyOneRoute(a);
    }
    StepIsSafe(START, Op.Load(FIRST, Ready(1, ONE_ROUTE)));
    FirstBaseFillsState(START);
  }

  lemma FirstBaseFillsState(s: State)
    requires s == START
    ensures AfterLoad(s, FIRST, Ready(1, ONE_ROUTE)) == LOADED
  {
    var t := AfterLoad(s, FIRST, Ready(1, ONE_ROUTE));
    assert t.portMap == LOADED.portMap && t.listening == [80] && t.mapped == {1};
  }

  lemma OneRouteAnswers(sites: Sites)
    requires sites == map["h" := SiteState(ONE_ROUTE, 0)]
    ensures forall h :: h in sites ==> SortedTable(sites[h].table)
    ensures Answering(sites, "h", Get, "/") == Some(("h", Action(1, 0)))
  {
    OneRouteIsSorted();
    assert sites["h"] == SiteState(ONE_ROUTE, 0);
  }

  lemma CallIsCounted(s: State)
    requires s == LOADED
    ensures Started(s, 80, "h", 1) == RUNNING
  {
    assert s.portMap[80]["h"] == SiteState(ONE_ROUTE, 0) && s.calls == [];
    OnlySite(80, "h", SiteState(ONE_ROUTE, 0), SiteState(ONE_ROUTE, 1));
  }

  lemma CallStarts(s: State)
    requires s == LOADED && AllSorted(s)
    ensures AfterStart(s, 80, "h", Get, "/") == Started(s, 80, "h", 1)
  {
    OneRouteAnswers(s.portMap[80]);
  }

  /** The waiting state is reached by loading the first base, starting a call and unloading. */
  lemma WaitingIsReached()
    ensures Safe(LOADED) && AfterLoad(START, FIRST, Ready(1, ONE_ROUTE)) == LOADED
    ensures AfterStart(LOADED, 80, "h", Get, "/") == RUNNING && AfterUnload(RUNNING, FIRST) == WAITING && Safe(WAITING)
  {
    FirstBaseLoads();
    CallStarts(LOADED);
    CallIsCounted(LOADED);
    StartIsSafe(LOADED, 80, "h", Get, "/");
    UnloadIsSafe(RUNNING, FIRST, true);
    CallDelaysUnload(RUNNING);
  }

  lemma CallDelaysUnload(s: State)
    requires s == RUNNING
    ensures AfterUnload(s, FIRST) == WAITING
  {
    assert s.portMap[80]["h"] == SiteState(ONE_ROUTE, 1);
    OnlySite(80, "h", SiteState(ONE_ROUTE, 1), SiteState(NO_ROUTES, 1));
  }

  lemma OnlyOneRoute(a: Action)
    requires Registered(ONE_ROUTE, a)
    ensures a == Action(1, 0)
  {
    var i, k :| 0 <= i < 5 && k in Content(ONE_ROUTE[i]) && Content(ONE_ROUTE[i])[k] == a;
    assert i != 0 ==> ONE_ROUTE[i] == Leaf;
    assert Content(ONE_ROUTE[0]) == map[["/"] := Action(1, 0)];
  }

  /**
   A second base on the same port and host breaks this: loading it resets the count, and unloading the
   first base then closes a library whose call is still running.
   */
  lemma SecondBaseClosesRunningLibrary()
    ensures Safe(WAITING) && 1 in WAITING.mapped
    ensures var t := AfterUnload(AfterLoad(WAITING, SECOND, Ready(2, NO_ROUTES)), FIRST);
      Call(80, "h", 1) in t.calls && 1 !in t.mapped
  {
    WaitingIsReached();
    SecondBaseResetsCount(WAITING);
  }

  lemma SecondBaseResetsCount(s: State)
    requires s == WAITING
    ensures var t := AfterUnload(AfterLoad(s, SECOND, Ready(2, NO_ROUTES)), FIRST);
      Call(80, "h", 1) in t.calls && 1 !in t.mapped
  {
    var u := AfterLoad(s, SECOND, Ready(2, NO_ROUTES));
    assert FIRST != SECOND && FIRST in u.siteMap && u.siteMap[FIRST] == 1;
    assert u.portMap[80]["h"].active == 0 && Count(u.libCount, 1) == 1;
    assert u.calls[0] == Call(80, "h", 1);
  }
}
