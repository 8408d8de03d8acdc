/**
 `Site`, `Binder` and `DynamicSiteLoader` as objects (src/Express/HTTP/Binder.cpp,
 src/Express/HTTP/DynamicSiteLoader.cpp). A running call holds a reference to the counter of its site,
 so the sites of a binder are objects that stay where they are while their contents are swapped.
 */
module SiteLoaders {
  import opened Strings
  import opened RouteMaps
  import opened SiteModel
  import Routes

  class Site {
    var actionMap: Table
    var activeItems: int
    /** The binder and host this object serves; a site being built or destroyed has none. */
    ghost const home: Binder?
    ghost const host: string

    ghost function State(): SiteState
      reads this
    {
      SiteState(actionMap, activeItems)
    }

    constructor (ghost home: Binder?, ghost host: string)
      ensures State() == SiteState(NO_ROUTES, 0) && this.home == home && this.host == host
    {
      actionMap, activeItems := NO_ROUTES, 0;
      this.home, this.host := home, host;
    }

    /** `swap`, which is also what moving a site does. */
    method Swap(other: Site)
      modifies this, other
      ensures State() == old(other.State()) && other.State() == old(State())
    {
      actionMap, other.actionMap := other.actionMap, actionMap;
      activeItems, other.activeItems := other.activeItems, activeItems;
    }

    /** A call on this site of the binder starts or ends. */
    method Count(d: int, ghost binder: Binder)
      requires binder.Valid() && this in binder.repr
      modifies this`activeItems, binder`sites
      ensures binder.Valid() && host in old(binder.sites)
      ensures binder.sites == old(binder.sites)[host := Moved(old(binder.sites)[host], d)]
    {
      ghost var state := binder.sites[host];
      activeItems := activeItems + d;
      binder.Changed(host, Moved(state, d));
    }

    /** `get`, `put`, `post` and `del`. */
    method AddFor(m: Method, path: string, action: Action) returns (error: Option<Routes.RouteError>)
      requires !m.Head? && OrderedTable(actionMap) && |path| < Routes.NPOS && (path != "" ==> path[0] != ':')
      modifies this
      ensures OrderedTable(actionMap) && activeItems == old(activeItems)
      ensures path != "" && SortedTable(old(actionMap)) ==> SortedTable(actionMap)
      ensures match Routes.Parse(path)
        case Failed(e) => error == Some(e) && actionMap == old(actionMap)
        case Built(key, names) => error == None && Registers(old(actionMap), actionMap, NumberOf(m), key, action)
    {
      error := Add(NumberOf(m), path, action);
    }

    /** `all`. */
    method AddForAll(path: string, action: Action) returns (error: Option<Routes.RouteError>)
      requires OrderedTable(actionMap) && |path| < Routes.NPOS && (path != "" ==> path[0] != ':')
      modifies this
      ensures OrderedTable(actionMap) && activeItems == old(activeItems)
      ensures path != "" && SortedTable(old(actionMap)) ==> SortedTable(actionMap)
      ensures match Routes.Parse(path)
        case Failed(e) => error == Some(e) && actionMap == old(actionMap)
        case Built(key, names) => error == None && Registers(old(actionMap), actionMap, ALL, key, action)
    {
      error := Add(ALL, path, action);
    }

    /** `add(index, path, action)`; `Some` is what building the route throws. */
    method Add(index: nat, path: string, action: Action) returns (error: Option<Routes.RouteError>)
      requires index < 5 && OrderedTable(actionMap) && |path| < Routes.NPOS && (path != "" ==> path[0] != ':')
      modifies this
      ensures OrderedTable(actionMap) && activeItems == old(activeItems)
      ensures path != "" && SortedTable(old(actionMap)) ==> SortedTable(actionMap)
      ensures match Routes.Parse(path)
        case Failed(e) => error == Some(e) && actionMap == old(actionMap)
        case Built(key, names) => error == None && Registers(old(actionMap), actionMap, index, key, action)
    {
      var route := new Routes.Route(path);
      error := route.Split();
      if error == None {
        EmplaceKeepsFirst(actionMap[index], route.route, action);
        KeepsPieces(actionMap[index], path, action);
        actionMap := actionMap[index := Emplace(actionMap[index], route.route, action)];
      }
    }
  }

  ghost predicate OrderedTable(t: Table) {
    forall i :: 0 <= i < 5 ==> Ordered(t[i])
  }

  /** A site whose counter has moved by `d`. */
  function Moved(site: SiteState, d: int): SiteState {
    site.(active := site.active + d)
  }

  /** A path that is not empty is registered without empty pieces. */
  lemma KeepsPieces(t: Tree<Action>, path: string, action: Action)
    requires path != "" ==> path[0] != ':'
    requires Routes.Parse(path).Built?
    ensures path != "" && Sorted(t) ==> Sorted(Emplace(t, Routes.Parse(path).pieces, action))
  {
    if path != "" && Sorted(t) {
      var route := Routes.Parse(path);
      Routes.ParseThenPrint(path);
      Routes.BuiltIsJoined(route.pieces, route.names);
      EmplaceKeepsSorted(t, route.pieces, action);
    }
  }

  lemma PutOnNewHost(sites: Sites, known: Sites, host: string, site: SiteState)
    requires known == if host in sites then sites else sites[host := SiteState(NO_ROUTES, 0)]
    ensures known[host := site] == sites[host := site]
  {
  }

  class Binder {
    var siteMap: map<string, Site>
    ghost const port: int
    /** The contents of the sites, by host. */
    ghost var sites: Sites
    ghost var repr: set<Site>

    ghost predicate Valid()
      reads this, repr
    {
      && sites.Keys == siteMap.Keys
      && (forall s :: s in repr ==> s.home == this && s.host in siteMap && siteMap[s.host] == s)
      && (forall h {:trigger siteMap[h]} :: h in siteMap ==>
           siteMap[h] in repr && siteMap[h].host == h && siteMap[h].State() == sites[h])
    }

    constructor (ghost port: int)
      ensures Valid() && sites == map[] && repr == {} && this.port == port
    {
      siteMap, sites, repr := map[], map[], {};
      this.port := port;
    }

    /** `siteMap[host]`, which adds an empty site for a new host. */
    method At(host: string) returns (site: Site)
      requires Valid()
      modifies this
      ensures Valid() && fresh(repr - old(repr)) && old(repr) <= repr
      ensures host in siteMap && siteMap[host] == site
      ensures sites == if host in old(sites) then old(sites) else old(sites)[host := SiteState(NO_ROUTES, 0)]
    {
      if host !in siteMap {
        var added := new Site(this, host);
        siteMap, sites := siteMap[host := added], sites[host := SiteState(NO_ROUTES, 0)];
        repr := repr + {added};
      }
      site := siteMap[host];
    }

    /** The contents of one site change to `state`. */
    ghost method Changed(host: string, state: SiteState)
      requires host in siteMap && siteMap[host].State() == state && sites.Keys == siteMap.Keys
      requires forall s :: s in repr ==> s.home == this && s.host in siteMap && siteMap[s.host] == s
      requires forall h :: h in siteMap ==>
        siteMap[h] in repr && siteMap[h].host == h && (h != host ==> siteMap[h].State() == sites[h])
      modifies this`sites
      ensures Valid() && sites == old(sites)[host := state]
    {
      sites := sites[host := state];
    }

    /** `addSite`: the contents of `site` move in, whatever was there moves out. */
    method AddSite(host: string, site: Site)
      requires Valid() && site.home == null
      modifies this, repr, site
      ensures Valid() && fresh(repr - old(repr)) && old(repr) <= repr
      ensures sites == old(sites)[host := old(site.State())]
    {
      ghost var state := site.State();
      var place := At(host);
      PutOnNewHost(old(sites), sites, host, state);
      assert site.State() == state && site !in repr;
      place.Swap(site);
      Changed(host, state);
    }

    /** `remSite`: the routes move out and are destroyed, the count of active calls is put back. */
    method RemSite(host: string) returns (found: bool, active: int)
      requires Valid()
      modifies this`sites, repr
      ensures Valid() && repr == old(repr) && found == (host in old(sites))
      ensures found ==> active == old(sites)[host].active && sites == old(sites)[host := SiteState(NO_ROUTES, active)]
      ensures !found ==> active == 0 && sites == old(sites)
    {
      if host in siteMap {
        var unload := new Site(null, "");
        var place := siteMap[host];
        place.Swap(unload);
        place.activeItems := unload.activeItems;
        Changed(host, SiteState(NO_ROUTES, unload.activeItems));
        return true, unload.activeItems;
      }
      return false, 0;
    }

    /** `find`: the site whose counter the call will move, and the action; `None` is the 404 action. */
    method Find(m: Method, host: string, path: string) returns (answer: Option<(Site, Action)>)
      requires Valid() && forall h :: h in sites ==> SortedTable(sites[h].table)
      ensures match Answering(sites, host, m, path)
        case None => answer == None
        case Some(a) => a.0 in siteMap && siteMap[a.0] in repr && answer == Some((siteMap[a.0], a.1))
    {
      if host != "" {
        if host in siteMap {
          var action := FindAction(siteMap[host].actionMap, m, path);
          if action.Some? {
            return Some((siteMap[host], action.value));
          }
        }
      }
      if "" in siteMap {
        var action := FindAction(siteMap[""].actionMap, m, path);
        if action.Some? {
          return Some((siteMap[""], action.value));
        }
      }
      return None;
    }
  }

  /** The sites of a port, none when the port is new. */
  function SitesOn(ports: map<int, Sites>, port: int): Sites {
    if port in ports then ports[port] else map[]
  }

  lemma PutOnNewPort(ports: map<int, Sites>, known: map<int, Sites>, port: int, host: string, site: SiteState)
    requires known == if port in ports then ports else ports[port := map[]]
    ensures known[port := known[port][host := site]] == ports[port := SitesOn(ports, port)[host := site]]
  {
  }

  /** The sites of a port after one has lost its routes. */
  function Emptied(sites: Sites, host: string): Sites {
    if host in sites then sites[host := SiteState(NO_ROUTES, sites[host].active)] else sites
  }

  // The operations of the run model, field by field

  lemma CountedIs(s: State, port: int, host: string, d: int)
    requires HasSite(s, port, host)
    ensures Counted(s, port, host, d) ==
      s.(portMap := s.portMap[port := s.portMap[port][host := Moved(s.portMap[port][host], d)]])
  {
  }

  lemma AfterLoadIs(s: State, key: SiteKey, opening: Opening)
    requires key !in s.siteMap && opening.Ready?
    ensures
      AfterLoad(s, key, opening) == State(
        s.siteMap[key := opening.lib],
        s.libCount[opening.lib := SiteModel.Count(s.libCount, opening.lib) + 1],
        s.portMap[key.port := SitesOn(s.portMap, key.port)[key.host := SiteState(opening.table, 0)]],
        if key.port in s.portMap then s.listening else s.listening + [key.port],
        s.calls,
        s.mapped + {opening.lib})
  {
  }

  /** The state after an unload whose site has answered: without calls the entry goes, the last one closes. */
  function Settled(s: State, key: SiteKey, found: bool, active: int): State
    requires key in s.siteMap
  {
    var lib := s.siteMap[key];
    var count := SiteModel.Count(s.libCount, lib) - 1;
    if !found || active != 0 then s
    else s.(siteMap := s.siteMap - {key}, libCount := s.libCount[lib := count],
            mapped := if count != 0 then s.mapped else s.mapped - {lib})
  }

  function SettledAnswer(count: int, found: bool, active: int, closes: bool): Unloaded {
    if !found then HostNotFound
    else if active != 0 then Unloaded(true, active, count)
    else if count - 1 == 0 && !closes then CloseError
    else Unloaded(true, 0, count - 1)
  }

  /** The state after the routes of a site have gone. */
  function SiteEmptied(s: State, port: int, host: string): State {
    s.(portMap := s.portMap[port := Emptied(SitesOn(s.portMap, port), host)])
  }

  function ActiveOn(sites: Sites, host: string): int {
    if host in sites then sites[host].active else 0
  }

  lemma AfterUnloadIs(s: State, key: SiteKey, closes: bool)
    requires key in s.siteMap
    ensures var known := SitesOn(s.portMap, key.port);
      var found, active := key.host in known, ActiveOn(known, key.host);
      && AfterUnload(s, key) == Settled(SiteEmptied(s, key.port, key.host), key, found, active)
      && UnloadAnswer(s, key, closes) ==
           SettledAnswer(SiteModel.Count(s.libCount, s.siteMap[key]), found, active, closes)
  {
  }

  lemma AfterStartIs(s: State, port: int, host: string, m: Method, path: string)
    requires AllSorted(s) && port in s.portMap
    requires forall h :: h in s.portMap[port] ==> SortedTable(s.portMap[port][h].table)
    ensures AfterStart(s, port, host, m, path) == match Answering(s.portMap[port], host, m, path)
      case None => s
      case Some(a) => Started(s, port, a.0, a.1.lib)
  {
  }

  lemma AfterEndIs(s: State, i: nat)
    requires i < |s.calls|
    ensures AfterEnd(s, i) ==
      Counted(s, s.calls[i].port, s.calls[i].host, -1).(calls := s.calls[..i] + s.calls[i + 1..])
  {
  }

  /** A run without its last operation is a run. */
  lemma RunStops(states: seq<State>, ops: seq<Op>)
    requires IsRun(states, ops) && ops != []
    ensures IsRun(states[..|ops|], ops[..|ops| - 1])
  {
  }

  /** The loader, with its binders and the counters that the running calls hold on to. */
  class DynamicSiteLoader {
    var siteMap: map<SiteKey, Lib>
    var libCount: map<Lib, int>
    var portMap: map<int, Binder>
    /** The ports given to the server's `listenOn`. */
    var listening: seq<int>
    /** For every running call the site it counts on. */
    var running: seq<Site>
    /** The contents of the binders, the running calls, and the libraries opened and not closed. */
    ghost var ports: map<int, Sites>
    ghost var calls: seq<Call>
    ghost var mapped: set<Lib>
    ghost var binders: set<Binder>
    ghost var places: set<Site>

    ghost function Value(): State
      reads this
    {
      State(siteMap, libCount, ports, listening, calls, mapped)
    }

    ghost predicate PortOk(p: int)
      requires p in portMap
      reads this`portMap, this`binders, this`places, this`ports, binders, places
    {
      var b := portMap[p];
      b in binders && b.port == p && b.repr <= places && b.Valid() && p in ports && b.sites == ports[p]
    }

    /** A running call counts on the site that serves its host, whatever was loaded and unloaded since it began. */
    ghost predicate CallOk(i: nat)
      requires i < |running| == |calls|
      reads this`portMap, this`binders, this`running, this`calls, binders
    {
      var c := calls[i];
      c.port in portMap && portMap[c.port] in binders && running[i] in portMap[c.port].repr && running[i].host == c.host
    }

    ghost predicate Valid()
      reads this`portMap, this`ports, this`running, this`calls, this`binders, this`places, binders, places
    {
      && ports.Keys == portMap.Keys
      && (forall p {:trigger portMap[p]} :: p in portMap ==> PortOk(p))
      && |running| == |calls|
      && (forall i {:trigger calls[i]} :: 0 <= i < |calls| ==> CallOk(i))
    }

    constructor ()
      ensures Valid() && Value() == START && binders == {} && places == {}
    {
      siteMap, libCount, portMap, listening, running := map[], map[], map[], [], [];
      ports, calls, mapped, binders, places := map[], [], {}, {}, {};
    }

    /** `portMap[port]`, which adds an empty binder for a new port. */
    method At(port: int) returns (binder: Binder)
      requires Valid()
      modifies this`portMap, this`ports, this`binders
      ensures Valid() && fresh(binders - old(binders)) && old(binders) <= binders
      ensures port in portMap && portMap[port] == binder
      ensures ports == if port in old(ports) then old(ports) else old(ports)[port := map[]]
    {
      if port !in portMap {
        var added := new Binder(port);
        portMap, ports, binders := portMap[port := added], ports[port := map[]], binders + {added};
        forall p | p in portMap
          ensures PortOk(p)
        {
          assert p != port ==> old(PortOk(p));
        }
        forall i | 0 <= i < |calls|
          ensures CallOk(i)
        {
          assert old(CallOk(i));
        }
      }
      binder := portMap[port];
    }

    /** What the binder of one port did to its sites becomes known; the other ports are as they were. */
    ghost method Changed(port: int)
      requires port in portMap && ports.Keys == portMap.Keys && |running| == |calls|
      requires portMap[port] in binders && portMap[port].port == port && portMap[port].Valid()
      requires forall p {:trigger portMap[p]} :: p in portMap && p != port ==> PortOk(p)
      requires forall i {:trigger calls[i]} :: 0 <= i < |calls| ==> CallOk(i)
      modifies this`ports, this`places
      ensures Valid() && ports == old(ports)[port := portMap[port].sites]
      ensures places == old(places) + portMap[port].repr
    {
      ports, places := ports[port := portMap[port].sites], places + portMap[port].repr;
      forall p | p in portMap
        ensures PortOk(p)
      {
        assert p != port ==> old(PortOk(p));
      }
      forall i | 0 <= i < |calls|
        ensures CallOk(i)
      {
        assert old(CallOk(i));
      }
      assert ports.Keys == portMap.Keys;
    }

    /** While one binder and its sites change, the other ports and all calls are as they were. */
    twostate lemma OthersStay(port: int)
      requires old(Valid()) && port in portMap && unchanged(this)
      requires forall p :: p in portMap && p != port ==> unchanged(portMap[p]) && unchanged(portMap[p].repr)
      requires old(portMap[port].repr) <= portMap[port].repr
      ensures forall p :: p in portMap && p != port ==> PortOk(p)
      ensures forall i :: 0 <= i < |calls| ==> CallOk(i)
    {
      forall p | p in portMap && p != port
        ensures PortOk(p)
      {
        assert old(PortOk(p));
      }
      forall i | 0 <= i < |calls|
        ensures CallOk(i)
      {
        assert old(CallOk(i));
      }
    }

    /** `portMap[port]` and `addSite`. */
    method AddSite(port: int, host: string, site: Site)
      requires Valid() && site.home == null
      modifies this`portMap, this`ports, this`binders, this`places, binders, places, site
      ensures Valid() && fresh(binders - old(binders)) && fresh(places - old(places))
      ensures ports == old(ports)[port := SitesOn(old(ports), port)[host := old(site.State())]]
    {
      ghost var state := site.State();
      var binder := At(port);
      PutOnNewPort(old(ports), ports, port, host, state);
      AddTo(port, host, site, state);
    }

    method AddTo(port: int, host: string, site: Site, ghost state: SiteState)
      requires Valid() && port in portMap && site.home == null && site.State() == state
      modifies this`ports, this`places, binders, places, site
      ensures Valid() && fresh(places - old(places))
      ensures ports == old(ports)[port := old(ports)[port][host := state]]
    {
      assert PortOk(port);
      var binder := portMap[port];
      ghost var known := binder.repr;
      binder.AddSite(host, site);
      assert known <= places && fresh(binder.repr - known);
      OthersStay(port);
      Changed(port);
    }

    /** `portMap[port]` and `remSite`. */
    method RemSite(port: int, host: string) returns (found: bool, active: int)
      requires Valid()
      modifies this`portMap, this`ports, this`binders, this`places, binders, places
      ensures Valid() && fresh(binders - old(binders)) && fresh(places - old(places))
      ensures var known := SitesOn(old(ports), port);
        && found == (host in known) && active == ActiveOn(known, host)
        && ports == old(ports)[port := Emptied(known, host)]
    {
      var binder := At(port);
      found, active := RemFrom(port, host);
    }

    method RemFrom(port: int, host: string) returns (found: bool, active: int)
      requires Valid() && port in portMap
      modifies this`ports, this`places, binders`sites, places
      ensures Valid() && places == old(places)
      ensures var known := old(ports)[port];
        && found == (host in known) && active == ActiveOn(known, host)
        && ports == old(ports)[port := Emptied(known, host)]
    {
      assert PortOk(port);
      found, active := portMap[port].RemSite(host);
      OthersStay(port);
      Changed(port);
    }

    /** The counter that a call on a site of this port holds moves by `d`. */
    method Count(ghost port: int, site: Site, d: int)
      requires Valid() && port in portMap && site in portMap[port].repr
      modifies this`ports, this`places, binders`sites, places`activeItems
      ensures Valid() && places == old(places)
      ensures HasSite(old(Value()), port, site.host) && Value() == Counted(old(Value()), port, site.host, d)
    {
      assert PortOk(port);
      ghost var counted := ports[port][site.host];
      CountedIs(Value(), port, site.host, d);
      CountSite(port, site, d);
    }

    method CountSite(ghost port: int, site: Site, d: int)
      requires Valid() && port in portMap && site in portMap[port].repr && site.host in ports[port]
      modifies this`ports, this`places, binders`sites, places`activeItems
      ensures Valid() && places == old(places)
      ensures ports == old(ports)[port := old(ports)[port][site.host := Moved(old(ports)[port][site.host], d)]]
    {
      assert PortOk(port);
      site.Count(d, portMap[port]);
      OthersStay(port);
      Changed(port);
    }

    /** `load`; `opening` is what the library turned out to be. */
    method Load(key: SiteKey, opening: Opening) returns (answer: Loaded)
      requires Valid()
      modifies this, binders, places
      ensures Valid() && fresh(binders - old(binders)) && fresh(places - old(places))
      ensures Value() == AfterLoad(old(Value()), key, opening)
      ensures answer == LoadAnswer(old(Value()), key, opening)
    {
      if key in siteMap {
        return Loaded(false, 0);
      }
      match opening
      case NoLibrary =>
        return LoadError;
      case NoSymbol(lib) =>
        mapped := mapped + {lib};
        return LoadError;
      case NoAdder(lib) =>
        mapped := mapped + {lib};
        return LoadError;
      case Ready(_, _) =>
      AfterLoadIs(Value(), key, opening);
      var count := Install(key, opening.lib, opening.table);
      answer := Loaded(true, count);
    }

    /** The second half of `load`, once the library has filled its site. */
    method Install(key: SiteKey, lib: Lib, table: Table) returns (count: int)
      requires Valid()
      modifies this`portMap, this`ports, this`binders, this`places, binders, places
      modifies this`siteMap, this`listening, this`libCount, this`mapped
      ensures Valid() && fresh(binders - old(binders)) && fresh(places - old(places))
      ensures ports == old(ports)[key.port := SitesOn(old(ports), key.port)[key.host := SiteState(table, 0)]]
      ensures siteMap == old(siteMap)[key := lib] && mapped == old(mapped) + {lib}
      ensures listening == if key.port in old(ports) then old(listening) else old(listening) + [key.port]
      ensures count == SiteModel.Count(old(libCount), lib) + 1 && libCount == old(libCount)[lib := count]
    {
      var portMapped := key.port in portMap;
      AddTable(key, table);
      count := Enter(key, lib, portMapped);
    }

    /** A new site with these routes moves in. */
    method AddTable(key: SiteKey, table: Table)
      requires Valid()
      modifies this`portMap, this`ports, this`binders, this`places, binders, places
      ensures Valid() && fresh(binders - old(binders)) && fresh(places - old(places))
      ensures ports == old(ports)[key.port := SitesOn(old(ports), key.port)[key.host := SiteState(table, 0)]]
    {
      var newSite := new Site(null, "");
      newSite.actionMap := table;
      AddSite(key.port, key.host, newSite);
    }

    /** The entry of a loaded library, the port to listen on, and the use of the library. */
    method Enter(key: SiteKey, lib: Lib, portMapped: bool) returns (count: int)
      modifies this`siteMap, this`listening, this`libCount, this`mapped
      ensures siteMap == old(siteMap)[key := lib] && mapped == old(mapped) + {lib}
      ensures listening == if portMapped then old(listening) else old(listening) + [key.port]
      ensures count == SiteModel.Count(old(libCount), lib) + 1 && libCount == old(libCount)[lib := count]
    {
      siteMap := siteMap[key := lib];
      if !portMapped {
        listening := listening + [key.port];
      }
      libCount := libCount[lib := SiteModel.Count(libCount, lib) + 1];
      mapped := mapped + {lib};
      count := libCount[lib];
    }

    /** `unload`; `closes` is whether `dlclose` succeeds. */
    method Unload(key: SiteKey, closes: bool) returns (answer: Unloaded)
      requires Valid()
      modifies this, binders, places
      ensures Valid() && fresh(binders - old(binders)) && fresh(places - old(places))
      ensures Value() == AfterUnload(old(Value()), key)
      ensures answer == UnloadAnswer(old(Value()), key, closes)
    {
      if key !in siteMap {
        return Unloaded(false, 0, 0);
      }
      AfterUnloadIs(Value(), key, closes);
      var found, active := RemSite(key.port, key.host);
      assert Value() == SiteEmptied(old(Value()), key.port, key.host);
      answer := Settle(key, found, active, closes);
    }

    /** The end of `unload`, once the site has answered. */
    method Settle(key: SiteKey, found: bool, active: int, closes: bool) returns (answer: Unloaded)
      requires Valid() && key in siteMap
      modifies this`siteMap, this`libCount, this`mapped
      ensures Valid() && Value() == Settled(old(Value()), key, found, active)
      ensures answer == SettledAnswer(SiteModel.Count(old(libCount), old(siteMap)[key]), found, active, closes)
    {
      var siteLib := siteMap[key];
      if !found {
        return HostNotFound;
      }
      if active != 0 {
        return Unloaded(true, active, SiteModel.Count(libCount, siteLib));
      }
      answer := Leave(key, siteLib, closes);
    }

    /** The entry goes; the library is closed when it was the last one. */
    method Leave(key: SiteKey, lib: Lib, closes: bool) returns (answer: Unloaded)
      modifies this`siteMap, this`libCount, this`mapped
      ensures siteMap == old(siteMap) - {key}
      ensures var count := SiteModel.Count(old(libCount), lib) - 1;
        && libCount == old(libCount)[lib := count]
        && mapped == (if count != 0 then old(mapped) else old(mapped) - {lib})
        && answer == if count == 0 && !closes then CloseError else Unloaded(true, 0, count)
    {
      libCount := libCount[lib := SiteModel.Count(libCount, lib) - 1];
      siteMap := siteMap - {key};
      if libCount[lib] != 0 {
        return Unloaded(true, 0, libCount[lib]);
      }
      mapped := mapped - {lib};
      answer := if closes then Unloaded(true, 0, 0) else CloseError;
    }

    /** A request on a port: its action is found and starts, counted on the site it was found on. */
    method StartCall(port: int, host: string, m: Method, path: string) returns (started: Option<Action>)
      requires Valid() && AllSorted(Value())
      modifies this`ports, this`places, this`calls, this`running, binders`sites, places`activeItems
      ensures Valid() && places == old(places)
      ensures Value() == AfterStart(old(Value()), port, host, m, path)
      ensures started == ActionFor(old(Value()), port, host, m, path)
    {
      started := None;
      if port in portMap {
        assert PortOk(port);
        PortIsSorted(Value(), port);
        AfterStartIs(Value(), port, host, m, path);
        var answer := portMap[port].Find(m, host, path);
        if answer.Some? {
          var (site, action) := answer.value;
          Run(port, site, action);
          started := Some(action);
        }
      }
    }

    /** The action found on a site begins to run. */
    method Run(port: int, site: Site, action: Action)
      requires Valid() && port in portMap && site in portMap[port].repr
      modifies this`ports, this`places, this`calls, this`running, binders`sites, places`activeItems
      ensures Valid() && places == old(places)
      ensures Value() == Started(old(Value()), port, site.host, action.lib)
    {
      Count(port, site, 1);
      Begin(site, Call(port, site.host, action.lib));
    }

    method Begin(site: Site, ghost call: Call)
      requires Valid() && call.port in portMap && site in portMap[call.port].repr && site.host == call.host
      modifies this`calls, this`running
      ensures Valid() && calls == old(calls) + [call]
    {
      running, calls := running + [site], calls + [call];
      forall i | 0 <= i < |calls|
        ensures CallOk(i)
      {
        assert i < |old(calls)| ==> old(CallOk(i));
        assert PortOk(call.port);
      }
    }

    /** Call `i` returns. */
    method EndCall(i: nat)
      requires Valid() && i < |running|
      modifies this`ports, this`places, this`calls, this`running, binders`sites, places`activeItems
      ensures Valid() && places == old(places)
      ensures Value() == AfterEnd(old(Value()), i)
    {
      assert CallOk(i) && PortOk(calls[i].port);
      AfterEndIs(Value(), i);
      Count(calls[i].port, running[i], -1);
      ghost var counted := Value();
      Finish(i);
      assert Value() == counted.(calls := counted.calls[..i] + counted.calls[i + 1..]);
    }

    method Finish(i: nat)
      requires Valid() && i < |running|
      modifies this`calls, this`running
      ensures Valid() && calls == old(calls[..i] + calls[i + 1..])
    {
      running, calls := running[..i] + running[i + 1..], calls[..i] + calls[i + 1..];
      forall k | 0 <= k < |calls|
        ensures CallOk(k)
      {
        assert old(CallOk(if k < i then k else k + 1));
      }
    }

    /** Any operation of a run, on the objects: one step of the run model, from a safe state to a safe state. */
    method Perform(op: Op)
      requires Valid() && Safe(Value()) && Calm(Value(), op)
      modifies this, binders, places
      ensures Valid() && Value() == Step(old(Value()), op) && Safe(Value())
      ensures fresh(binders - old(binders)) && fresh(places - old(places))
    {
      StepIsSafe(Value(), op);
      Dispatch(op);
    }

    method Dispatch(op: Op)
      requires Valid() && Safe(Value())
      modifies this, binders, places
      ensures Valid() && Value() == Step(old(Value()), op)
      ensures fresh(binders - old(binders)) && fresh(places - old(places))
    {
      match op
      case Load(key, opening) =>
        var answer := Load(key, opening);
      case Unload(key) =>
        var closes: bool :| true;
        var answer := Unload(key, closes);
      case StartCall(_, _, _, _) =>
        DispatchCall(op);
      case EndCall(_) =>
        DispatchCall(op);
    }

    method DispatchCall(op: Op)
      requires Valid() && Safe(Value()) && (op.StartCall? || op.EndCall?)
      modifies this`ports, this`places, this`calls, this`running, binders`sites, places`activeItems
      ensures Valid() && places == old(places) && Value() == Step(old(Value()), op)
    {
      match op
      case StartCall(port, host, m, path) =>
        var started := StartCall(port, host, m, path);
      case EndCall(i) =>
        if i < |running| {
          EndCall(i);
        }
    }

    /** All operations of a run, on a new loader: it ends in the last state of the run, which is safe. */
    static method PerformAll(ops: seq<Op>, ghost states: seq<State>) returns (loader: DynamicSiteLoader)
      requires IsRun(states, ops)
      ensures fresh(loader) && loader.Valid() && loader.Value() == states[|ops|] && Safe(loader.Value())
      ensures fresh(loader.binders) && fresh(loader.places)
      decreases |ops|
    {
      RunIsSafe(states, ops, |ops|);
      if ops == [] {
        loader := new DynamicSiteLoader();
      } else {
        var last := |ops| - 1;
        RunStops(states, ops);
        RunIsSafe(states, ops, last);
        loader := PerformAll(ops[..last], states[..|ops|]);
        ghost var binders, places := loader.binders, loader.places;
        loader.Perform(ops[last]);
        assert fresh(loader.binders - binders) && fresh(loader.places - places);
      }
    }
  }
}
