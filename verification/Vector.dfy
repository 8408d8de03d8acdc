/**
 lunr's `Vector` (docs/javascripts/all.js, line 57): a sparse vector as a singly linked list of
 (index, value) nodes. Values are exact reals.
 */
module Vectors {

  datatype Entry = Entry(idx: nat, val: real)

  /** Indices strictly increase along the list. */
  ghost predicate Increasing(s: seq<Entry>) {
    forall i, j :: 0 <= i < j < |s| ==> s[i].idx < s[j].idx
  }

  /** Indices never decrease along the list. */
  ghost predicate Ordered(s: seq<Entry>) {
    forall i, j :: 0 <= i < j < |s| ==> s[i].idx <= s[j].idx
  }

  /** Where the insertion loop stops: at the first later entry with a larger index. */
  function Slot(s: seq<Entry>, idx: nat, k: nat): (r: nat)
    requires k <= |s|
    ensures k <= r <= |s|
    ensures forall i :: k <= i < r ==> s[i].idx <= idx
    ensures r < |s| ==> idx < s[r].idx
    decreases |s| - k
  {
    if k == |s| || idx < s[k].idx then k else Slot(s, idx, k + 1)
  }

  /** The list after an insertion; the head of a non-empty list is never compared and stays first. */
  function Inserted(s: seq<Entry>, e: Entry): seq<Entry> {
    if s == [] then [e] else s[..Slot(s, e.idx, 1)] + [e] + s[Slot(s, e.idx, 1)..]
  }

  /** Inserting past the end of an increasing list appends. */
  lemma InsertLargestAppends(s: seq<Entry>, e: Entry)
    requires Increasing(s)
    requires s != [] ==> s[|s| - 1].idx < e.idx
    ensures Inserted(s, e) == s + [e] && Increasing(s + [e])
  {
  }

  /** Insertion loses nothing and keeps everything else, whatever the order. */
  lemma InsertIsPermutation(s: seq<Entry>, e: Entry)
    ensures multiset(Inserted(s, e)) == multiset(s) + multiset{e}
  {
    if s != [] {
      var r := Slot(s, e.idx, 1);
      assert s == s[..r] + s[r..];
    }
  }

  /** The value at an index; absent indices count as zero. */
  function ValueAt(s: seq<Entry>, idx: nat): real {
    if s == [] then 0.0 else if s[0].idx == idx then s[0].val else ValueAt(s[1..], idx)
  }

  /** The mathematical dot product: every entry of `s` times what `t` holds at the same index. */
  function Product(s: seq<Entry>, t: seq<Entry>): real {
    if s == [] then 0.0 else s[0].val * ValueAt(t, s[0].idx) + Product(s[1..], t)
  }

  /** What the merging loop of `dot` adds up. */
  function Merge(s: seq<Entry>, t: seq<Entry>): real
    decreases |s| + |t|
  {
    if s == [] || t == [] then 0.0
    else if s[0].idx < t[0].idx then Merge(s[1..], t)
    else if s[0].idx > t[0].idx then Merge(s, t[1..])
    else s[0].val * t[0].val + Merge(s[1..], t[1..])
  }

  lemma {:induction false} AbsentIsZero(s: seq<Entry>, idx: nat)
    requires forall i :: 0 <= i < |s| ==> s[i].idx != idx
    ensures ValueAt(s, idx) == 0.0
  {
    if s != [] {
      AbsentIsZero(s[1..], idx);
    }
  }

  lemma {:induction false} ProductWithEmpty(s: seq<Entry>)
    ensures Product(s, []) == 0.0
  {
    if s != [] {
      ProductWithEmpty(s[1..]);
    }
  }

  /** An entry of the right list below every index of the left one contributes nothing. */
  lemma {:induction false} ProductSkipsHead(s: seq<Entry>, t: seq<Entry>)
    requires t != [] && forall i :: 0 <= i < |s| ==> s[i].idx != t[0].idx
    ensures Product(s, t) == Product(s, t[1..])
  {
    if s != [] {
      ProductSkipsHead(s[1..], t);
    }
  }

  /** On increasing lists the merging loop computes the dot product. */
  lemma {:induction false} MergeIsProduct(s: seq<Entry>, t: seq<Entry>)
    requires Increasing(s) && Increasing(t)
    ensures Merge(s, t) == Product(s, t)
    decreases |s| + |t|
  {
    if t == [] {
      ProductWithEmpty(s);
    } else if s != [] {
      if s[0].idx < t[0].idx {
        AbsentIsZero(t, s[0].idx);
        MergeIsProduct(s[1..], t);
      } else if s[0].idx > t[0].idx {
        ProductSkipsHead(s, t);
        MergeIsProduct(s, t[1..]);
      } else {
        ProductSkipsHead(s[1..], t);
        MergeIsProduct(s[1..], t[1..]);
      }
    }
  }

  lemma {:induction false} ProductOfConcat(a: seq<Entry>, b: seq<Entry>, t: seq<Entry>)
    ensures Product(a + b, t) == Product(a, t) + Product(b, t)
  {
    if a == [] {
      assert a + b == b;
    } else {
      assert (a + b)[1..] == a[1..] + b;
      ProductOfConcat(a[1..], b, t);
    }
  }

  lemma ProductOfOne(e: Entry, t: seq<Entry>)
    ensures Product([e], t) == e.val * ValueAt(t, e.idx)
  {
    assert [e][1..] == [];
  }

  /** In whatever order the entries were inserted, the dot product is that of the insertions. */
  lemma {:induction false} ProductOfBuilt(es: seq<Entry>, t: seq<Entry>)
    ensures Product(Built(es), t) == Product(es, t)
  {
    if es != [] {
      var front, last := es[..|es| - 1], es[|es| - 1];
      var s := Built(front);
      ProductOfBuilt(front, t);
      assert es == front + [last];
      ProductOfConcat(front, [last], t);
      if s != [] {
        var r := Slot(s, last.idx, 1);
        assert s == s[..r] + s[r..];
        ProductOfConcat(s[..r], s[r..], t);
        ProductOfConcat(s[..r], [last], t);
        ProductOfConcat(s[..r] + [last], s[r..], t);
      }
    }
  }

  /** An increasing list holds each of its values at its index. */
  lemma {:induction false} ValueAtEntry(s: seq<Entry>, i: nat)
    requires Increasing(s) && i < |s|
    ensures ValueAt(s, s[i].idx) == s[i].val
  {
    if i > 0 {
      ValueAtEntry(s[1..], i - 1);
    }
  }

  ghost predicate Positive(s: seq<Entry>) {
    forall i :: 0 <= i < |s| ==> s[i].val > 0.0
  }

  /** The dot product with every increasing list is right. */
  ghost predicate DotsRight(s: seq<Entry>) {
    forall t :: Increasing(t) ==> Merge(s, t) == Product(s, t)
  }

  lemma OneIndex(idx: nat, j: nat)
    ensures ValueAt([Entry(idx, 1.0)], j) == if j == idx then 1.0 else 0.0
    ensures [Entry(idx, 1.0)][1..] == []
  {
  }

  /** What one index contributes: at least any single entry that holds it. */
  lemma {:induction false} ProductCountsEntry(s: seq<Entry>, idx: nat, k: nat)
    requires Positive(s)
    ensures Product(s, [Entry(idx, 1.0)]) >= 0.0
    ensures k < |s| && s[k].idx == idx ==> Product(s, [Entry(idx, 1.0)]) >= s[k].val
  {
    if s != [] {
      OneIndex(idx, s[0].idx);
      ProductCountsEntry(s[1..], idx, if k > 0 then k - 1 else 0);
    }
  }

  /** The merging loop gives up an index at the first entry that is not below it. */
  lemma {:induction false} MergeMissesLaterEntry(s: seq<Entry>, i: nat, k: nat)
    requires Positive(s) && i < k < |s| && s[i].idx >= s[k].idx
    ensures Merge(s, [Entry(s[k].idx, 1.0)]) < Product(s, [Entry(s[k].idx, 1.0)])
  {
    var idx := s[k].idx;
    var t := [Entry(idx, 1.0)];
    OneIndex(idx, s[0].idx);
    if s[0].idx < idx {
      assert s[1..][i - 1] == s[i] && s[1..][k - 1] == s[k];
      MergeMissesLaterEntry(s[1..], i - 1, k - 1);
    } else {
      assert s[1..][k - 1] == s[k];
      ProductCountsEntry(s[1..], idx, k - 1);
    }
  }

  /** With positive values `dot` is right for every other vector exactly when the indices strictly increase. */
  lemma DotIsProductExactly(s: seq<Entry>)
    requires Positive(s)
    ensures DotsRight(s) <==> Increasing(s)
  {
    if Increasing(s) {
      forall t | Increasing(t)
        ensures Merge(s, t) == Product(s, t)
      {
        MergeIsProduct(s, t);
      }
    } else {
      var i, k :| 0 <= i < k < |s| && s[i].idx >= s[k].idx;
      MergeMissesLaterEntry(s, i, k);
      assert Increasing([Entry(s[k].idx, 1.0)]);
    }
  }

  /** The index comes after the head and is not in the list yet. */
  predicate BelongsBehind(s: seq<Entry>, idx: nat) {
    s == [] || (s[0].idx < idx && forall i :: 0 <= i < |s| ==> s[i].idx != idx)
  }

  /** Insertion keeps the indices strictly increasing exactly for a new index behind the head. */
  lemma InsertKeepsIncreasingExactly(s: seq<Entry>, e: Entry)
    requires Increasing(s)
    ensures Increasing(Inserted(s, e)) <==> BelongsBehind(s, e.idx)
  {
    if s != [] {
      var r := Slot(s, e.idx, 1);
      var t := Inserted(s, e);
      assert t[0] == s[0] && t[r] == e;
      if BelongsBehind(s, e.idx) {
        forall i, j | 0 <= i < j < |t|
          ensures t[i].idx < t[j].idx
        {
          assert t[i] == if i < r then s[i] else if i == r then e else s[i - 1];
          assert t[j] == if j < r then s[j] else if j == r then e else s[j - 1];
        }
      } else if s[0].idx < e.idx {
        var i :| 0 <= i < |s| && s[i].idx == e.idx;
        assert i < r && t[i] == s[i];
      }
    }
  }

  /** No later insertion repairs a list that is out of order. */
  lemma InsertRepairsNothing(s: seq<Entry>, e: Entry)
    requires !Increasing(s)
    ensures !Increasing(Inserted(s, e))
  {
    var i, k :| 0 <= i < k < |s| && s[i].idx >= s[k].idx;
    var r, t := Slot(s, e.idx, 1), Inserted(s, e);
    assert s[i] == t[if i < r then i else i + 1];
    assert s[k] == t[if k < r then k else k + 1];
  }

  /** The list that insertions in this order build. */
  function Built(es: seq<Entry>): seq<Entry> {
    if es == [] then [] else Inserted(Built(es[..|es| - 1]), es[|es| - 1])
  }

  lemma BuiltSnoc(es: seq<Entry>, e: Entry)
    ensures Built(es + [e]) == Inserted(Built(es), e)
  {
    assert (es + [e])[..|es|] == es;
  }

  /** Insertions in strictly increasing order are kept as they came. */
  lemma {:induction false} BuiltOfIncreasing(es: seq<Entry>)
    requires Increasing(es)
    ensures Built(es) == es
  {
    if es != [] {
      var front, last := es[..|es| - 1], es[|es| - 1];
      BuiltOfIncreasing(front);
      InsertLargestAppends(front, last);
      assert es == front + [last];
    }
  }

  /** Every insertion after the first brings a new index above the first one. */
  predicate RisesFromFirst(es: seq<Entry>) {
    && (forall i :: 0 < i < |es| ==> es[0].idx < es[i].idx)
    && (forall i, j :: 0 <= i < j < |es| ==> es[i].idx != es[j].idx)
  }

  lemma HeadStays(s: seq<Entry>, e: Entry)
    requires s != []
    ensures Inserted(s, e) != [] && Inserted(s, e)[0] == s[0]
  {
  }

  lemma MultisetSnoc<T>(s: seq<T>)
    requires s != []
    ensures multiset(s) == multiset(s[..|s| - 1]) + multiset{s[|s| - 1]}
  {
    assert s == s[..|s| - 1] + [s[|s| - 1]];
  }

  lemma {:induction false} BuiltHoldsAll(es: seq<Entry>)
    ensures multiset(Built(es)) == multiset(es)
  {
    if es != [] {
      BuiltHoldsAll(es[..|es| - 1]);
      InsertIsPermutation(Built(es[..|es| - 1]), es[|es| - 1]);
      MultisetSnoc(es);
    }
  }

  lemma {:induction false} BuiltKeepsHead(es: seq<Entry>)
    requires es != []
    ensures Built(es) != [] && Built(es)[0] == es[0]
  {
    var front := es[..|es| - 1];
    if front == [] {
      assert Built(front) == [];
    } else {
      BuiltKeepsHead(front);
      HeadStays(Built(front), es[|es| - 1]);
    }
  }

  lemma SameIndices(s: seq<Entry>, es: seq<Entry>, idx: nat)
    requires multiset(s) == multiset(es)
    ensures (exists i :: 0 <= i < |s| && s[i].idx == idx) <==> (exists i :: 0 <= i < |es| && es[i].idx == idx)
  {
    if i :| 0 <= i < |s| && s[i].idx == idx {
      assert s[i] in multiset(es);
    }
    if i :| 0 <= i < |es| && es[i].idx == idx {
      assert es[i] in multiset(s);
    }
  }

  lemma RisesSnoc(front: seq<Entry>, last: Entry)
    requires front != []
    ensures RisesFromFirst(front + [last]) <==>
      RisesFromFirst(front) && front[0].idx < last.idx && forall i :: 0 <= i < |front| ==> front[i].idx != last.idx
  {
    var es := front + [last];
    assert es[|front|] == last;
    if RisesFromFirst(es) {
      assert forall i :: 0 <= i < |front| ==> es[i] == front[i];
      assert RisesFromFirst(front);
    }
  }

  /** One more insertion goes on rising from the first exactly when it belongs behind the head of the list. */
  lemma RisesBehindExactly(front: seq<Entry>, last: Entry)
    ensures RisesFromFirst(front + [last]) <==> RisesFromFirst(front) && BelongsBehind(Built(front), last.idx)
  {
    if front == [] {
      assert Built(front) == [];
    } else {
      BuiltHoldsAll(front);
      BuiltKeepsHead(front);
      RisesSnoc(front, last);
      SameIndices(Built(front), front, last.idx);
    }
  }

  /** Insertions build an increasing list exactly when they rise from the first. */
  lemma {:induction false} BuiltIsIncreasingExactly(es: seq<Entry>)
    ensures Increasing(Built(es)) <==> RisesFromFirst(es)
  {
    if es != [] {
      var front, last := es[..|es| - 1], es[|es| - 1];
      BuiltIsIncreasingExactly(front);
      RisesBehindExactly(front, last);
      assert es == front + [last];
      if Increasing(Built(front)) {
        InsertKeepsIncreasingExactly(Built(front), last);
      } else {
        InsertRepairsNothing(Built(front), last);
      }
    }
  }

  /** A vector of positive values has the right dot products exactly when its insertions rose from the first. */
  lemma BuiltDotsRightExactly(es: seq<Entry>)
    requires Positive(es)
    ensures DotsRight(Built(es)) <==> RisesFromFirst(es)
  {
    BuiltHoldsAll(es);
    forall i | 0 <= i < |Built(es)|
      ensures Built(es)[i].val > 0.0
    {
      assert Built(es)[i] in multiset(es);
    }
    DotIsProductExactly(Built(es));
    BuiltIsIncreasingExactly(es);
  }

  /** With two insertions in falling index order `dot` misses a shared index. */
  lemma DotMissesAfterFallingInsertions()
    ensures var s := Built([Entry(5, 1.0), Entry(3, 1.0)]);
      Merge(s, [Entry(3, 1.0)]) == 0.0 && Product(s, [Entry(3, 1.0)]) == 1.0
  {
    BuiltOfTwo(Entry(5, 1.0), Entry(3, 1.0));
    var s := [Entry(5, 1.0), Entry(3, 1.0)];
    assert s[1..] == [Entry(3, 1.0)] && s[1..][1..] == [];
    assert [Entry(3, 1.0)][1..] == [];
    assert ValueAt([Entry(3, 1.0)], 5) == 0.0 && ValueAt([Entry(3, 1.0)], 3) == 1.0;
    assert Product(s[1..], [Entry(3, 1.0)]) == 1.0;
  }

  /** With two insertions of one index, which keep the list ordered, `dot` counts only one of them. */
  lemma DotMissesAfterRepeatedInsertion()
    ensures var s := Built([Entry(3, 1.0), Entry(3, 1.0)]);
      Ordered(s) && Merge(s, [Entry(3, 1.0)]) == 1.0 && Product(s, [Entry(3, 1.0)]) == 2.0
  {
    BuiltOfTwo(Entry(3, 1.0), Entry(3, 1.0));
    var s := [Entry(3, 1.0), Entry(3, 1.0)];
    assert s[1..] == [Entry(3, 1.0)] && s[1..][1..] == [] && [Entry(3, 1.0)][1..] == [];
    assert ValueAt([Entry(3, 1.0)], 3) == 1.0;
    assert Product(s[1..], [Entry(3, 1.0)]) == 1.0;
  }

  lemma BuiltOfTwo(d: Entry, e: Entry)
    ensures Built([d, e]) == [d, e]
  {
    assert [d, e][..1] == [d] && [d][..0] == [];
    assert Built([d]) == [d];
  }

  class Node {
    const idx: nat
    const val: real
    var next: Node?

    constructor (idx: nat, val: real, next: Node?)
      ensures this.idx == idx && this.val == val && this.next == next
    {
      this.idx, this.val, this.next := idx, val, next;
    }
  }

  class Vector {
    var list: Node?
    var length: nat
    /** The nodes of the list in order. */
    ghost var spine: seq<Node>
    ghost var repr: set<Node>

    ghost predicate Valid()
      reads this, repr
    {
      && length == |spine|
      && (forall i {:trigger spine[i]} :: 0 <= i < |spine| ==> spine[i] in repr)
      && list == (if spine == [] then null else spine[0])
      && (forall i {:trigger spine[i].next} :: 0 <= i < |spine| ==>
           spine[i].next == if i + 1 < |spine| then spine[i + 1] else null)
      && (forall i, j :: 0 <= i < j < |spine| ==> spine[i] != spine[j])
    }

    ghost function Entries(): seq<Entry>
      reads this, spine
    {
      seq(|spine|, i requires 0 <= i < |spine| reads this, spine => Entry(spine[i].idx, spine[i].val))
    }

    constructor ()
      ensures Valid() && Entries() == [] && repr == {}
    {
      list, length, spine, repr := null, 0, [], {};
    }

    /** A new vector with these insertions, in this order. */
    static method FromInsertions(es: seq<Entry>) returns (v: Vector)
      ensures fresh(v) && fresh(v.repr) && v.Valid() && v.Entries() == Built(es)
    {
      v := new Vector();
      for k := 0 to |es|
        invariant fresh(v) && fresh(v.repr) && v.Valid() && v.Entries() == Built(es[..k])
      {
        BuiltSnoc(es[..k], es[k]);
        assert es[..k + 1] == es[..k] + [es[k]];
        ghost var known := v.repr;
        v.Insert(es[k].idx, es[k].val);
        assert fresh(v.repr - known);
      }
      assert es[..|es|] == es;
    }

    method Insert(t: nat, n: real)
      requires Valid()
      modifies this, repr
      ensures Valid() && Entries() == Inserted(old(Entries()), Entry(t, n))
      ensures fresh(repr - old(repr))
    {
      ghost var s := Entries();
      if list == null {
        list := new Node(t, n, list);
        length := length + 1;
        spine, repr := [list], repr + {list};
        return;
      }
      var i, o := list, list.next;
      ghost var k := 1;
      while o != null
        invariant 1 <= k <= |spine| && spine == old(spine) && repr == old(repr) && Valid() && Entries() == s
        invariant i == spine[k - 1] && o == if k < |spine| then spine[k] else null
        invariant Slot(s, t, 1) == Slot(s, t, k)
        decreases |spine| - k
      {
        if t < o.idx {
          break;
        }
        i, o := o, o.next;
        k := k + 1;
      }
      assert k == Slot(s, t, 1);
      LinkAfter(i, o, k, Entry(t, n));
    }

    /** `i.next = new Vector.Node(t, n, o), this.length++` between two neighbours. */
    method LinkAfter(i: Node, o: Node?, ghost k: nat, e: Entry)
      requires Valid() && 1 <= k <= |spine|
      requires i == spine[k - 1] && o == if k < |spine| then spine[k] else null
      modifies this, i
      ensures Valid() && Entries() == old(Entries()[..k] + [e] + Entries()[k..])
      ensures fresh(repr - old(repr))
    {
      var added := new Node(e.idx, e.val, o);
      i.next := added;
      length := length + 1;
      spine, repr := spine[..k] + [added] + spine[k..], repr + {added};
      forall j {:trigger spine[j]} | 0 <= j < |spine|
        ensures spine[j] == if j < k then old(spine[j]) else if j == k then added else old(spine[j - 1])
      {
      }
    }

    method Dot(other: Vector) returns (r: real)
      requires Valid() && other.Valid()
      ensures r == Merge(Entries(), other.Entries())
    {
      var t, n := list, other.list;
      ghost var i, j := 0, 0;
      ghost var s, u := Entries(), other.Entries();
      r := 0.0;
      while t != null && n != null
        invariant 0 <= i <= |spine| && 0 <= j <= |other.spine|
        invariant t == if i < |spine| then spine[i] else null
        invariant n == if j < |other.spine| then other.spine[j] else null
        invariant r + Merge(s[i..], u[j..]) == Merge(s, u)
        decreases |spine| - i + |other.spine| - j
      {
        assert s[i..][1..] == s[i + 1..] && u[j..][1..] == u[j + 1..];
        if t.idx < n.idx {
          t, i := t.next, i + 1;
        } else if t.idx > n.idx {
          n, j := n.next, j + 1;
        } else {
          r := r + t.val * n.val;
          t, n := t.next, n.next;
          i, j := i + 1, j + 1;
        }
      }
    }
  }
}
