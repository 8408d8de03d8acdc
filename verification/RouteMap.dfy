/**
 The route table of a site: `std::map<Route, Action, RouteTester>` (src/Express/HTTP/Binder.h), a
 search tree of any shape that is sorted by `Route::operator<` and searched with the mixed comparison
 of a route and a request path (src/Express/HTTP/Route.h).
 */
module RouteMaps {
  import opened Strings
  import opened Routes

  datatype Tree<V> = Leaf | Node(left: Tree<V>, key: seq<string>, value: V, right: Tree<V>)

  datatype Entry<V> = Entry(key: seq<string>, value: V)

  /** The tree as a map from piece lists to values. */
  ghost function Content<V>(t: Tree<V>): map<seq<string>, V> {
    if t.Leaf? then map[] else Content(t.left) + Content(t.right) + map[t.key := t.value]
  }

  /** Keys left of a node are smaller, keys right of it are larger. */
  ghost predicate Ordered<V>(t: Tree<V>) {
    t.Leaf? || (Ordered(t.left) && Ordered(t.right) && Parts(t))
  }

  ghost predicate Parts<V>(t: Tree<V>)
    requires t.Node?
  {
    && (forall k :: k in Content(t.left) ==> RouteLess(k, t.key))
    && (forall k :: k in Content(t.right) ==> RouteLess(t.key, k))
  }

  /** The tree is ordered and no piece is empty. */
  ghost predicate Sorted<V>(t: Tree<V>) {
    t.Leaf? || (Sorted(t.left) && Sorted(t.right) && "" !in t.key && Parts(t))
  }

  lemma {:induction false} SortedIsOrdered<V>(t: Tree<V>)
    ensures Sorted(t) <==> Ordered(t) && forall k :: k in Content(t) ==> "" !in k
  {
    if t.Node? {
      SortedIsOrdered(t.left);
      SortedIsOrdered(t.right);
    }
  }

  /** `emplace`: the first registration of a key stays. Rebalancing, which keeps the order, is left open. */
  function Emplace<V>(t: Tree<V>, key: seq<string>, value: V): Tree<V> {
    if t.Leaf? then Node(Leaf, key, value, Leaf)
    else if RouteLess(key, t.key) then t.(left := Emplace(t.left, key, value))
    else if RouteLess(t.key, key) then t.(right := Emplace(t.right, key, value))
    else t
  }

  /** `Emplace` is first-registration-wins insertion into the map the tree stands for. */
  lemma {:induction false} EmplaceKeepsFirst<V>(t: Tree<V>, key: seq<string>, value: V)
    requires Ordered(t)
    ensures Ordered(Emplace(t, key, value))
    ensures Content(Emplace(t, key, value)) == if key in Content(t) then Content(t) else Content(t)[key := value]
  {
    if t.Node? {
      RouteCompareFlip(key, t.key);
      var rest := map[t.key := t.value];
      if RouteLess(key, t.key) {
        EmplaceKeepsFirst(t.left, key, value);
        NotOnOtherSide(t, key);
        InsertBefore(Content(t.left), Content(t.right), rest, key, value);
      } else if RouteLess(t.key, key) {
        EmplaceKeepsFirst(t.right, key, value);
        NotOnOtherSide(t, key);
        InsertBetween(Content(t.left), Content(t.right), rest, key, value);
      }
    }
  }

  lemma EmplaceKeepsSorted<V>(t: Tree<V>, key: seq<string>, value: V)
    requires Sorted(t) && "" !in key
    ensures Sorted(Emplace(t, key, value))
    ensures Content(Emplace(t, key, value)) == if key in Content(t) then Content(t) else Content(t)[key := value]
  {
    SortedIsOrdered(t);
    EmplaceKeepsFirst(t, key, value);
    SortedIsOrdered(Emplace(t, key, value));
  }

  lemma InsertBefore<K, V>(a: map<K, V>, b: map<K, V>, c: map<K, V>, k: K, v: V)
    requires k !in b && k !in c
    ensures a[k := v] + b + c == (a + b + c)[k := v]
  {
  }

  lemma PutBack<K, V>(m: map<K, V>, k: K)
    requires k in m
    ensures (m - {k})[k := m[k]] == m && (m - {k}).Keys == m.Keys - {k}
  {
  }

  lemma PutTogether<K, V>(m: map<K, V>, a: map<K, V>, b: map<K, V>, k: K)
    requires k in m && forall x :: x in m ==> x in a || x in b || x == k
    requires forall x :: x in a ==> x in m && a[x] == m[x]
    requires forall x :: x in b ==> x in m && b[x] == m[x]
    ensures a + b + map[k := m[k]] == m
  {
  }

  lemma InsertBetween<K, V>(a: map<K, V>, b: map<K, V>, c: map<K, V>, k: K, v: V)
    requires k !in a && k !in c
    ensures a + b[k := v] + c == (a + b + c)[k := v]
  {
  }

  lemma NotOnOtherSide<V>(t: Tree<V>, key: seq<string>)
    requires t.Node? && Parts(t)
    ensures RouteLess(key, t.key) ==> key !in Content(t.right)
    ensures RouteLess(t.key, key) ==> key !in Content(t.left)
  {
    RouteCompareFlip(key, t.key);
  }

  /** `RouteTester(route, path)`. */
  predicate KeyBelow(key: seq<string>, path: string)
    requires "" !in key
  {
    PathCompare(key, path) < 0
  }

  /** `RouteTester(path, route)`. */
  predicate PathBelow(path: string, key: seq<string>)
    requires "" !in key
  {
    !(PathCompare(key, path) <= 0)
  }

  /** `lower_bound`: the last node at which the walk turned left. */
  function LowerBound<V>(t: Tree<V>, path: string, best: Option<Entry<V>>): (r: Option<Entry<V>>)
    requires Sorted(t)
  {
    if t.Leaf? then best
    else if KeyBelow(t.key, path) then LowerBound(t.right, path, best)
    else LowerBound(t.left, path, Some(Entry(t.key, t.value)))
  }

  /** An entry of the tree that is not below the path. */
  ghost predicate Reaches<V>(t: Tree<V>, path: string, r: Option<Entry<V>>) {
    && r.Some? && r.value.key in Content(t) && Content(t)[r.value.key] == r.value.value
    && "" !in r.value.key && !KeyBelow(r.value.key, path)
  }

  /** The entries of a subtree are entries of the tree. */
  lemma SubtreesAreInTree<V>(t: Tree<V>)
    requires Sorted(t) && t.Node?
    ensures t.key in Content(t) && Content(t)[t.key] == t.value
    ensures forall k :: k in Content(t.left) ==> k in Content(t) && Content(t)[k] == Content(t.left)[k]
    ensures forall k :: k in Content(t.right) ==> k in Content(t) && Content(t)[k] == Content(t.right)[k]
  {
    forall k | k in Content(t.left)
      ensures k !in Content(t.right) && k != t.key
    {
      NotOnOtherSide(t, k);
      RouteCompareFlip(k, t.key);
    }
    forall k | k in Content(t.right)
      ensures k != t.key
    {
      RouteCompareFlip(k, t.key);
    }
  }

  lemma {:induction false} LowerBoundIsInTree<V>(t: Tree<V>, path: string, best: Option<Entry<V>>)
    requires Sorted(t)
    ensures LowerBound(t, path, best) == best || Reaches(t, path, LowerBound(t, path, best))
  {
    if t.Node? {
      SubtreesAreInTree(t);
      if KeyBelow(t.key, path) {
        LowerBoundIsInTree(t.right, path, best);
      } else {
        LowerBoundIsInTree(t.left, path, Some(Entry(t.key, t.value)));
      }
    }
  }

  /** `std::map::find` with a path: the lower bound, unless the path is below it. What it finds matches the path. */
  function Find<V>(t: Tree<V>, path: string): (r: Option<Entry<V>>)
    requires Sorted(t)
    ensures r.Some? ==> r.value.key in Content(t) && Content(t)[r.value.key] == r.value.value
    ensures r.Some? ==> "" !in r.value.key && PathCompare(r.value.key, path) == 0
  {
    LowerBoundIsInTree(t, path, None);
    var r := LowerBound(t, path, None);
    if r.None? || PathBelow(path, r.value.key) then None else r
  }

  /** All keys of the tree are literal routes: a single piece, no name. */
  ghost predicate Literal<V>(t: Tree<V>) {
    forall k :: k in Content(t) ==> |k| == 1
  }

  /** The mixed comparison orders `key` and the route made of `path` as `operator<` does. */
  ghost predicate Agrees(key: seq<string>, path: string) {
    && "" !in key
    && (KeyBelow(key, path) <==> RouteLess(key, [path]))
    && (PathBelow(path, key) <==> RouteLess([path], key))
  }

  /** On a literal route the mixed comparison is the lexicographic one, unless the route is a proper prefix. */
  lemma LiteralAgrees(p: string, path: string)
    requires p != "" && !(p < path)
    ensures Agrees([p], path)
  {
    ClippedCompare(p, path);
    CompareFlip(p, path);
    RouteCompareFlip([p], [path]);
    assert Clip(path, |p|) == p ==> path == p;
  }

  /** A proper prefix that compares below the path is below it in both orders. */
  lemma PrefixAgrees(p: string, path: string)
    requires p != "" && p < path && PathCompare([p], path) < 0
    ensures Agrees([p], path)
  {
    PrefixLess(p, path);
    RouteCompareFlip([p], [path]);
  }

  /** The keys that `lower_bound` meets on its way to `key` by `operator<`. */
  ghost function OnTheWay<V>(t: Tree<V>, key: seq<string>): (keys: set<seq<string>>)
    ensures keys <= Content(t).Keys
  {
    if t.Leaf? then {}
    else {t.key} + if RouteLess(t.key, key) then OnTheWay(t.right, key) else OnTheWay(t.left, key)
  }

  /** At the node of `k` the lookup of `path` turns to the side of `key`. */
  ghost predicate Turns(k: seq<string>, key: seq<string>, path: string) {
    "" !in k && (KeyBelow(k, path) <==> RouteLess(k, key))
  }

  ghost predicate TurnsTowards<V>(t: Tree<V>, key: seq<string>, path: string) {
    forall k :: k in OnTheWay(t, key) ==> Turns(k, key, path)
  }

  /** A walk that always turns to the side of `key` ends at `key`, or above it when it is not there. */
  lemma {:induction false} LowerBoundFinds<V>(t: Tree<V>, key: seq<string>, path: string, best: Option<Entry<V>>)
    requires Sorted(t) && TurnsTowards(t, key, path)
    ensures var r := LowerBound(t, path, best);
      if key in Content(t) then r == Some(Entry(key, Content(t)[key]))
      else r == best || (r.Some? && r.value.key in Content(t) && RouteLess(key, r.value.key))
  {
    RouteLessIsTotalOrder();
    if t.Node? {
      assert Turns(t.key, key, path);
      if KeyBelow(t.key, path) {
        LowerBoundFinds(t.right, key, path, best);
      } else {
        LowerBoundFinds(t.left, key, path, Some(Entry(t.key, t.value)));
      }
    }
  }

  /** A walk that once turns to the wrong side does not end at `key`. */
  lemma {:induction false} WalkStrays<V>(t: Tree<V>, key: seq<string>, path: string, best: Option<Entry<V>>)
    requires Sorted(t) && !TurnsTowards(t, key, path)
    requires best.Some? && best.value.key == key ==> forall k :: k in Content(t) ==> RouteLess(k, key)
    ensures var r := LowerBound(t, path, best); r.Some? ==> r.value.key != key
  {
    RouteLessIsTotalOrder();
    if !Turns(t.key, key, path) {
      LowerBoundIsInTree(t.left, path, Some(Entry(t.key, t.value)));
      LowerBoundIsInTree(t.right, path, best);
    } else if KeyBelow(t.key, path) {
      WalkStrays(t.right, key, path, best);
    } else {
      WalkStrays(t.left, key, path, Some(Entry(t.key, t.value)));
    }
  }

  /**
   Whatever names the routes have: a route that compares equal to the path is found, in a tree of this very
   shape, exactly when at every route on the way to it the mixed comparison turns to its side.
   */
  lemma RouteFoundInTreeExactly<V>(t: Tree<V>, key: seq<string>, path: string)
    requires Sorted(t) && key in Content(t) && PathCompare(key, path) == 0
    ensures Find(t, path) == Some(Entry(key, Content(t)[key])) <==> TurnsTowards(t, key, path)
  {
    KeysAreNotEmpty(t, key);
    if TurnsTowards(t, key, path) {
      LowerBoundFinds(t, key, path, None);
    } else {
      WalkStrays(t, key, path, None);
    }
  }

  /** The lookup of the path ends at this registration, whatever the shape of the tree. */
  ghost predicate AlwaysFinds<V(!new)>(m: map<seq<string>, V>, key: seq<string>, path: string)
    requires key in m
  {
    forall t: Tree<V> :: Sorted(t) && Content(t) == m ==> Find(t, path) == Some(Entry(key, m[key]))
  }

  /**
   A route that compares equal to the path is found in every tree of the registrations exactly when the smaller
   routes compare below the path and the larger ones do not.
   */
  lemma RouteFoundExactly<V(!new)>(m: map<seq<string>, V>, key: seq<string>, path: string)
    requires key in m && PathCompare(key, path) == 0 && forall k :: k in m ==> "" !in k
    ensures AlwaysFinds(m, key, path) <==> forall k :: k in m ==> Turns(k, key, path)
  {
    if k :| k in m && !Turns(k, key, path) {
      var t := TreeRootedAt(m, k);
      assert k in OnTheWay(t, key);
      RouteFoundInTreeExactly(t, key, path);
    } else {
      forall t: Tree<V> | Sorted(t) && Content(t) == m
        ensures Find(t, path) == Some(Entry(key, m[key]))
      {
        RouteFoundInTreeExactly(t, key, path);
      }
    }
  }

  /** A literal route that is a proper prefix of the path and does not end in '/' with more than one segment to come. */
  predicate Blocks(key: seq<string>, path: string) {
    |key| == 1 && key[0] != "" && key[0] < path && !(key[0][|key[0]| - 1] == '/' && '/' in path[|key[0]| + 1..])
  }

  /** A literal route that does not block is compared as `operator<` does. */
  lemma OthersAgree(key: seq<string>, path: string)
    requires |key| == 1 && key[0] != ""
    ensures Blocks(key, path) ==> RouteLess(key, [path]) && !KeyBelow(key, path)
    ensures !Blocks(key, path) ==> Agrees(key, path)
  {
    assert key == [key[0]];
    if key[0] < path {
      PrefixPassesExactly(key[0], path);
      PrefixLess(key[0], path);
      if !Blocks(key, path) {
        PrefixAgrees(key[0], path);
      }
    } else {
      LiteralAgrees(key[0], path);
    }
  }

  lemma WayIsLiteral<V>(t: Tree<V>, path: string)
    requires Sorted(t) && Literal(t)
    ensures forall k :: k in OnTheWay(t, [path]) ==> |k| == 1 && k[0] != ""
  {
    forall k | k in OnTheWay(t, [path])
      ensures |k| == 1 && k[0] != ""
    {
      KeysAreNotEmpty(t, k);
      assert k[0] in k;
    }
  }

  /**
   In a site of literal routes a registered path is found, in a tree of this very shape, exactly when no
   route that the lookup meets on its way blocks it.
   */
  lemma LookupFindsInTreeExactly<V>(t: Tree<V>, path: string)
    requires Sorted(t) && Literal(t) && [path] in Content(t)
    ensures Find(t, path) == Some(Entry([path], Content(t)[[path]])) <==>
      forall k :: k in OnTheWay(t, [path]) ==> !Blocks(k, path)
  {
    WayIsLiteral(t, path);
    RouteLessIsTotalOrder();
    assert PathCompare([path], path) == 0 by {
      KeysAreNotEmpty(t, [path]);
    }
    RouteFoundInTreeExactly(t, [path], path);
    forall k | k in OnTheWay(t, [path])
      ensures Turns(k, [path], path) <==> !Blocks(k, path)
    {
      OthersAgree(k, path);
    }
  }

  /** No registered route that is a proper prefix of the path compares equal to it or above it. */
  ghost predicate PrefixesPass(keys: set<seq<string>>, path: string) {
    forall k :: k in keys && |k| == 1 && k[0] != "" && k[0] < path ==> PathCompare(k, path) < 0
  }

  /** In a site of literal routes, with passing prefixes, lookup answers the registration of the path or nothing. */
  lemma LiteralLookup<V>(t: Tree<V>, path: string)
    requires Sorted(t) && Literal(t) && PrefixesPass(Content(t).Keys, path)
    ensures Find(t, path) == if [path] in Content(t) then Some(Entry([path], Content(t)[[path]])) else None
  {
    forall k | k in Content(t)
      ensures Agrees(k, path)
    {
      KeysAreNotEmpty(t, k);
      assert k == [k[0]] && k[0] in k;
      if k[0] < path {
        PrefixAgrees(k[0], path);
      } else {
        LiteralAgrees(k[0], path);
      }
    }
    LowerBoundFinds(t, [path], path, None);
    RouteLessIsTotalOrder();
  }

  lemma {:induction false} KeysAreNotEmpty<V>(t: Tree<V>, key: seq<string>)
    requires Sorted(t) && key in Content(t)
    ensures "" !in key
  {
    if key in Content(t.left) {
      KeysAreNotEmpty(t.left, key);
    } else if key in Content(t.right) {
      KeysAreNotEmpty(t.right, key);
    }
  }

  /** A passing literal prefix ends in '/' and leaves more than one segment; in all other cases it blocks. */
  lemma PrefixPassesExactly(p: string, path: string)
    requires p != "" && p < path
    ensures PathCompare([p], path) < 0 <==> p[|p| - 1] == '/' && '/' in path[|p| + 1..]
  {
    var end := Strings.Find(path, '/', |p| + 1);
    FindSkips(path, '/', |p| + 1);
    assert Clip(path, |p|) == p && path[|p| - 1] == p[|p| - 1];
    assert [p][1..] == [];
    if end == |path| {
      assert path[|p| + 1..end] == path[|p| + 1..];
    } else {
      assert path[end] == path[|p| + 1..][end - |p| - 1];
    }
  }

  /** Every finite set of registrations is held by some sorted tree. */
  lemma {:induction false} TreeFor<V>(m: map<seq<string>, V>) returns (t: Tree<V>)
    requires forall k :: k in m ==> "" !in k
    ensures Sorted(t) && Content(t) == m
    decreases |m.Keys|
  {
    if m == map[] {
      t := Leaf;
    } else {
      var k :| k in m;
      var rest := m - {k};
      PutBack(m, k);
      var smaller := TreeFor(rest);
      EmplaceKeepsSorted(smaller, k, m[k]);
      t := Emplace(smaller, k, m[k]);
    }
  }

  /** A tree with the given registration at its root. */
  lemma TreeRootedAt<V>(m: map<seq<string>, V>, root: seq<string>) returns (t: Tree<V>)
    requires root in m && forall k :: k in m ==> "" !in k
    ensures Sorted(t) && Content(t) == m && t.Node? && t.key == root
  {
    var below := map k | k in m && RouteLess(k, root) :: m[k];
    var above := map k | k in m && RouteLess(root, k) :: m[k];
    var left := TreeFor(below);
    var right := TreeFor(above);
    t := Node(left, root, m[root], right);
    forall k | k in m
      ensures k in below || k in above || k == root
    {
      RouteCompareFlip(k, root);
    }
    PutTogether(m, below, above, root);
  }

  /**
   A registered literal path is found in every tree shape exactly when each registered proper prefix of
   it ends in '/' and leaves more than one segment.
   */
  lemma LookupFindsExactly<V(!new)>(m: map<seq<string>, V>, path: string)
    requires [path] in m && forall k :: k in m ==> |k| == 1 && "" !in k
    ensures AlwaysFinds(m, [path], path) <==>
      forall k :: k in m && k[0] < path ==> k[0][|k[0]| - 1] == '/' && '/' in path[|k[0]| + 1..]
  {
    RouteFoundExactly(m, [path], path);
    forall k | k in m
      ensures k[0] != "" && (Turns(k, [path], path) <==> !Blocks(k, path))
    {
      assert k[0] in k;
      RouteLessIsTotalOrder();
      OthersAgree(k, path);
    }
  }

  /** With "/a" and "/a-b" registered in that order, the request path "/a-b" is not found. */
  lemma PrefixHidesRoute()
    ensures var t := Emplace(Emplace(Leaf, ["/a"], 1), ["/a-b"], 2);
      Sorted(t) && ["/a-b"] in Content(t) && Find(t, "/a-b") == None
  {
    EmplaceKeepsSorted(Leaf, ["/a"], 1);
    EmplaceKeepsSorted(Emplace(Leaf, ["/a"], 1), ["/a-b"], 2);
    PrefixLess("/a", "/a-b");
    RouteCompareFlip(["/a"], ["/a-b"]);
    assert Clip("/a-b", 2) == "/a" && "/a-b"[1] == 'a';
    assert PathCompare(["/a"], "/a-b") == 1;
  }
}
