/**
 lunr's `TokenStore` (docs/javascripts/all.js, line 87): a character trie whose nodes hold, per
 document reference, the posting of the token spelt by the path to the node.

 The heap of nodes is described by the ghost map `nodes` from paths to nodes, and the abstract value
 by the ghost map `entries` from (token, reference) to posting.
 */
module TokenStores {

  datatype Posting = Posting(ref: string, tf: real)

  datatype Key = Key(token: string, ref: string)

  type Entries = map<Key, Posting>

  /** The token still has a document. */
  ghost predicate Live(entries: Entries, token: string) {
    exists ref :: Key(token, ref) in entries
  }

  ghost function Refs(entries: Entries, token: string): set<string> {
    set k | k in entries && k.token == token :: k.ref
  }

  ghost predicate NoDuplicates(s: seq<string>) {
    forall i, j :: 0 <= i < j < |s| ==> s[i] != s[j]
  }

  /** The path one character further down. */
  ghost function Child(p: string, c: char): string {
    p + [c]
  }

  /** The path of an ancestor. */
  ghost function Cut(p: string, k: nat): string
    requires k <= |p|
  {
    p[..k]
  }

  lemma ChildIsInjective(p: string, c: char, q: string, d: char)
    requires Child(p, c) == Child(q, d)
    ensures p == q && c == d
  {
    assert p == Child(p, c)[..|p|] && q == Child(q, d)[..|q|];
    assert c == Child(p, c)[|p|] && d == Child(q, d)[|q|];
  }

  /** The nodes `x` on the way down from `path` along `e`. */
  ghost predicate OnPath(path: string, e: string, x: string) {
    path < x && x <= path + e
  }

  lemma OnPathStep(path: string, e: string)
    requires e != ""
    ensures Child(path, e[0]) + e[1..] == path + e
    ensures forall x :: OnPath(path, e, x) <==> x == Child(path, e[0]) || OnPath(Child(path, e[0]), e[1..], x)
  {
    forall x
      ensures OnPath(path, e, x) <==> x == Child(path, e[0]) || OnPath(Child(path, e[0]), e[1..], x)
    {
      assert Child(path, e[0]) + e[1..] == path + e;
      if path < x && x <= path + e {
        assert x[..|path| + 1] == (path + e)[..|path| + 1] == Child(path, e[0]);
      }
    }
  }

  /** `x` lies below `e`, through one of the children in `through`. */
  ghost predicate Below(e: string, through: set<char>, x: string) {
    e < x && x[|e|] in through
  }

  /** `s` lists once each the live tokens that are `e` or lie below it through `through`. */
  ghost predicate Lists(s: seq<string>, entries: Entries, e: string, through: set<char>) {
    && NoDuplicates(s)
    && forall x :: x in s <==> Live(entries, x) && (x == e || Below(e, through, x))
  }

  lemma PushedMore(acc: seq<string>, pushed: seq<string>, before: seq<string>, t: seq<string>)
    requires before == acc + pushed && before <= t
    ensures t == acc + (pushed + t[|before|..])
  {
  }

  lemma ListsMore(s: seq<string>, more: seq<string>, entries: Entries, e: string, all: set<char>, rest: set<char>,
      c: char)
    requires Lists(s, entries, e, all - rest) && c in rest && rest <= all
    requires NoDuplicates(more) && forall x :: x in more <==> e + [c] <= x && Live(entries, x)
    ensures Lists(s + more, entries, e, all - (rest - {c}))
  {
    forall x
      ensures x in more <==> Live(entries, x) && Below(e, {c}, x)
    {
      assert e < x && x[|e|] == c ==> x[..|e| + 1] == e + [c];
    }
    forall x
      ensures x in s + more <==> Live(entries, x) && (x == e || Below(e, all - (rest - {c}), x))
    {
    }
    forall i, j | 0 <= i < j < |s + more|
      ensures (s + more)[i] != (s + more)[j]
    {
      if i < |s| <= j {
        assert more[j - |s|] in more && s[i] in s;
      }
    }
  }

  class Node {
    var docs: map<string, Posting>
    var children: map<char, Node>
    /** The characters that lead from the root to this node. */
    ghost const path: string

    constructor (ghost path: string)
      ensures docs == map[] && children == map[] && this.path == path
    {
      docs, children := map[], map[];
      this.path := path;
    }
  }

  /** With a path the map has every shorter path on the way to it. */
  ghost predicate HasPrefixes(nodes: map<string, Node>) {
    forall p, k: nat :: p in nodes && k <= |p| ==> Cut(p, k) in nodes
  }

  lemma NoneBelow(nodes: map<string, Node>, at: string)
    requires HasPrefixes(nodes) && at !in nodes
    ensures forall c :: Child(at, c) !in nodes
  {
    forall c
      ensures Child(at, c) !in nodes
    {
      assert Cut(Child(at, c), |at|) == at;
    }
  }

  lemma PrefixClosed(nodes: map<string, Node>, path: string, r: char, child: Node)
    requires HasPrefixes(nodes) && path in nodes
    ensures HasPrefixes(nodes[Child(path, r) := child])
  {
    var at := Child(path, r);
    forall p, k: nat | p in nodes[at := child] && k <= |p|
      ensures Cut(p, k) in nodes[at := child]
    {
      if p == at {
        assert Cut(at, k) == if k < |at| then Cut(path, k) else at;
      }
    }
  }

  class TokenStore {
    var root: Node
    var length: nat
    /** The documents below the root's key "undefined", which no token reaches: the first letter of the empty token. */
    var undefined: map<string, Posting>
    ghost var nodes: map<string, Node>
    ghost var entries: Entries
    ghost var repr: set<Node>

    /** The children of `n` are the nodes one character below it, its documents the entries of its path. */
    ghost predicate NodeOk(n: Node)
      reads this`nodes, this`entries, n
    {
      && (forall c {:trigger Child(n.path, c)} :: c in n.children <==> Child(n.path, c) in nodes)
      && (forall c {:trigger n.children[c]} :: c in n.children ==>
           Child(n.path, c) in nodes && n.children[c] == nodes[Child(n.path, c)])
      && (forall r {:trigger r in n.docs} {:trigger Key(n.path, r)} :: r in n.docs <==> Key(n.path, r) in entries)
      && (forall r {:trigger n.docs[r]} :: r in n.docs ==> n.docs[r] == entries[Key(n.path, r)])
    }

    ghost predicate Valid()
      reads this`root, this`nodes, this`entries, this`repr, repr
    {
      && "" in nodes && nodes[""] == root
      && (forall p {:trigger nodes[p]} :: p in nodes ==> nodes[p] in repr && nodes[p].path == p && NodeOk(nodes[p]))
      && HasPrefixes(nodes)
      && (forall k :: k in entries ==> k.token != "" && k.token in nodes)
    }

    constructor ()
      ensures Valid() && entries == map[] && nodes.Keys == {""} && length == 0 && undefined == map[]
      ensures fresh(repr)
    {
      root := new Node("");
      length, undefined := 0, map[];
      new;
      nodes, entries, repr := map["" := root], map[], {root};
    }

    /** `add(token, doc)`; the recursive call, which always has text left, is `AddFrom`. */
    method Add(token: string, doc: Posting)
      requires Valid()
      modifies this, repr
      ensures Valid() && fresh(repr - old(repr)) && length == old(length) + 1
      ensures entries == if token == "" then old(entries) else old(entries)[Key(token, doc.ref) := doc]
      ensures undefined == if token == "" then old(undefined)[doc.ref := doc] else old(undefined)
      ensures forall p :: p in nodes <==> p in old(nodes) || OnPath("", token, p)
    {
      if token == "" {
        undefined := undefined[doc.ref := doc];
        length := length + 1;
      } else {
        assert "" + token == token;
        AddFrom(token, doc, root);
      }
    }

    method AddFrom(e: string, doc: Posting, n: Node)
      requires Valid() && n.path in nodes && nodes[n.path] == n && e != ""
      modifies this`nodes, this`entries, this`repr, this`length, repr
      ensures Valid() && fresh(repr - old(repr))
      ensures entries == old(entries)[Key(n.path + e, doc.ref) := doc] && length == old(length) + 1
      ensures forall p :: p in nodes <==> p in old(nodes) || OnPath(n.path, e, p)
      decreases |e|, 0
    {
      var r, i := e[0], e[1..];
      OnPathStep(n.path, e);
      var child := ChildOf(n, r);
      AddBelow(i, doc, child);
    }

    /** The two branches of `add` below the child: the document is stored there, or the text goes on. */
    method AddBelow(i: string, doc: Posting, child: Node)
      requires Valid() && child.path in nodes && nodes[child.path] == child && child.path != ""
      modifies this`nodes, this`entries, this`repr, this`length, repr
      ensures Valid() && fresh(repr - old(repr))
      ensures entries == old(entries)[Key(child.path + i, doc.ref) := doc] && length == old(length) + 1
      ensures forall p :: p in nodes <==> p in old(nodes) || OnPath(child.path, i, p)
      decreases |i|, 1
    {
      if |i| == 0 {
        assert child.path + i == child.path;
        SetDoc(child, doc);
      } else {
        AddFrom(i, doc, child);
      }
    }

    /** `n[r]`, created when it is missing. */
    method ChildOf(n: Node, r: char) returns (child: Node)
      requires Valid() && n.path in nodes && nodes[n.path] == n
      modifies this`nodes, this`repr, n
      ensures Valid() && fresh(repr - old(repr)) && old(repr) <= repr
      ensures forall p :: p in nodes <==> p in old(nodes) || p == Child(n.path, r)
      ensures child.path == Child(n.path, r) && child.path in nodes && nodes[child.path] == child
    {
      if r !in n.children {
        Grow(n, r);
      }
      assert n.path != Child(n.path, r);
      assert nodes[n.path] == n && Child(n.path, r) in nodes;
      child := n.children[r];
    }

    /** `n[r] = {docs: {}}` for a missing child. */
    method Grow(n: Node, r: char)
      requires Valid() && n.path in nodes && nodes[n.path] == n && r !in n.children
      modifies this`nodes, this`repr, n
      ensures Valid() && r in n.children && nodes == old(nodes)[Child(n.path, r) := n.children[r]]
      ensures fresh(repr - old(repr)) && old(repr) <= repr
    {
      ghost var at := Child(n.path, r);
      assert at !in nodes by {
        assert NodeOk(nodes[n.path]);
      }
      var child := new Node(at);
      n.children := n.children[r := child];
      nodes, repr := nodes[at := child], repr + {child};
      NoneBelow(old(nodes), at);
      forall p | p in nodes
        ensures NodeOk(nodes[p])
      {
        forall c | Child(p, c) == at
          ensures p == n.path && c == r
        {
          ChildIsInjective(p, c, n.path, r);
        }
        assert p != at ==> old(NodeOk(nodes[p]));
      }
      PrefixClosed(old(nodes), n.path, r, child);
    }

    /** `n.docs[doc.ref] = doc`, and one more addition counted. */
    method SetDoc(n: Node, doc: Posting)
      requires Valid() && n.path in nodes && nodes[n.path] == n && n.path != ""
      modifies this`entries, this`length, n
      ensures Valid() && entries == old(entries)[Key(n.path, doc.ref) := doc] && length == old(length) + 1
    {
      n.docs := n.docs[doc.ref := doc];
      length := length + 1;
      entries := entries[Key(n.path, doc.ref) := doc];
      forall p | p in nodes
        ensures NodeOk(nodes[p])
      {
        assert old(NodeOk(nodes[p]));
        assert p != n.path ==> nodes[p] != n;
      }
    }

    /** The walk shared by `has`, `getNode` and `remove`; `null` is the empty object of a missing node. */
    method Walk(e: string) returns (n: Node?)
      requires Valid()
      ensures n == if e in nodes then nodes[e] else null
    {
      n := root;
      var k := 0;
      while k < |e|
        invariant 0 <= k <= |e| && e[..k] in nodes && n == nodes[e[..k]]
      {
        assert Child(e[..k], e[k]) == e[..k + 1];
        if e[k] !in n.children {
          assert e in nodes ==> Cut(e, k + 1) in nodes;
          return null;
        }
        n := n.children[e[k]];
        k := k + 1;
      }
      assert e[..k] == e;
    }

    method Has(token: string) returns (b: bool)
      requires Valid()
      ensures b <==> token != "" && token in nodes
    {
      if token == "" {
        return false;
      }
      var n := Walk(token);
      b := n != null;
    }

    method Get(token: string) returns (found: map<string, Posting>)
      requires Valid()
      ensures forall r :: r in found <==> Key(token, r) in entries
      ensures forall r :: r in found ==> found[r] == entries[Key(token, r)]
    {
      var n := null;
      if token != "" {
        n := Walk(token);
      }
      found := if n == null then map[] else n.docs;
    }

    method Count(token: string) returns (c: nat)
      requires Valid()
      ensures c == |Refs(entries, token)|
    {
      var found := Get(token);
      assert found.Keys == Refs(entries, token) by {
        forall r
          ensures r in found.Keys <==> r in Refs(entries, token)
        {
          assert Key(token, r) in entries <==> r in Refs(entries, token);
        }
      }
      c := |found.Keys|;
    }

    method Remove(token: string, ref: string)
      requires Valid()
      modifies this`entries, repr
      ensures Valid() && entries == old(entries) - {Key(token, ref)}
    {
      if token != "" {
        var n := Walk(token);
        if n == null {
          return;
        }
        n.docs := n.docs - {ref};
        entries := entries - {Key(token, ref)};
        forall p | p in nodes
          ensures NodeOk(nodes[p])
        {
          assert old(NodeOk(nodes[p]));
          assert p != token ==> nodes[p] != n;
        }
      }
    }

    ghost function Subtree(e: string): set<string>
      reads this
    {
      set p | p in nodes && e <= p
    }

    /**
     `expand(e, acc)`: pushes onto `acc`, once each, the tokens with prefix `e` that still have a
     document, `e` itself first. The key order of a node is left open.
     */
    method Expand(e: string, acc: seq<string>) returns (t: seq<string>)
      requires Valid()
      ensures acc <= t && NoDuplicates(t[|acc|..])
      ensures forall x :: x in t[|acc|..] <==> e != "" && e <= x && Live(entries, x)
      ensures e != "" && Live(entries, e) ==> |acc| < |t| && t[|acc|] == e
      decreases Subtree(e), 1
    {
      var n := null;
      if e != "" {
        n := Walk(e);
      }
      t := acc;
      if n == null {
        forall x | e != "" && e <= x
          ensures !Live(entries, x)
        {
          assert Cut(x, |e|) == e;
        }
        return;
      }
      ghost var first := [];
      if |n.docs.Keys| != 0 {
        ghost var r :| r in n.docs;
        assert Key(e, r) in entries;
        t, first := t + [e], [e];
      } else {
        assert forall r :: r !in n.docs;
        assert !Live(entries, e);
      }
      t := ExpandChildren(e, n, t, acc, first);
    }

    /** The loop of `expand` over the children of a node. */
    method ExpandChildren(e: string, n: Node, start: seq<string>, ghost acc: seq<string>, ghost first: seq<string>)
      returns (t: seq<string>)
      requires Valid() && e in nodes && nodes[e] == n
      requires start == acc + first && first == if Live(entries, e) then [e] else []
      ensures acc <= t && NoDuplicates(t[|acc|..]) && first <= t[|acc|..]
      ensures forall x :: x in t[|acc|..] <==> e <= x && Live(entries, x)
      decreases Subtree(e), 0
    {
      t := start;
      ghost var pushed := first;
      var all := n.children.Keys;
      var keys := all;
      while keys != {}
        invariant keys <= all && t == acc + pushed && Lists(pushed, entries, e, all - keys) && first <= pushed
        decreases keys
      {
        var c :| c in keys;
        ChildSubtree(e, c);
        assert c in n.children && Child(e, c) in nodes;
        ghost var before := t;
        t := Expand(e + [c], t);
        ghost var more := t[|before|..];
        PushedMore(acc, pushed, before, t);
        ListsMore(pushed, more, entries, e, all, keys, c);
        pushed, keys := pushed + more, keys - {c};
      }
      LiveIsBelow(n);
      assert t[|acc|..] == pushed;
    }

    /** Every live token below a node goes through one of its children. */
    lemma LiveIsBelow(n: Node)
      requires Valid() && n.path in nodes && nodes[n.path] == n
      ensures forall x :: n.path < x && Live(entries, x) ==> Below(n.path, n.children.Keys - {}, x)
    {
      forall x | n.path < x && Live(entries, x)
        ensures Below(n.path, n.children.Keys - {}, x)
      {
        assert Cut(x, |n.path| + 1) == Child(n.path, x[|n.path|]);
      }
    }

    lemma ChildSubtree(e: string, c: char)
      requires e in nodes
      ensures Subtree(e + [c]) < Subtree(e) && e + [c] == Child(e, c)
    {
      assert e in Subtree(e) && e !in Subtree(e + [c]);
    }
  }
}
