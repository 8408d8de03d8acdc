/**
 lunr's `SortedSet` (docs/javascripts/all.js, line 61): strings kept strictly increasing in an
 array, found by interval halving.
 */
module SortedSets {
  import opened Strings

  ghost predicate StrictlyIncreasing(a: seq<string>) {
    forall i, j :: 0 <= i < j < |a| ==> Less(a[i], a[j])
  }

  ghost function Elements(a: seq<string>): set<string> {
    set x | x in a
  }

  /** A strictly increasing sequence is determined by its set of elements. */
  lemma {:induction false} SortedIsUnique(a: seq<string>, b: seq<string>)
    requires StrictlyIncreasing(a) && StrictlyIncreasing(b)
    requires Elements(a) == Elements(b)
    ensures a == b
  {
    LessIsTotalOrder();
    assert a != [] ==> a[0] in Elements(b);
    assert b != [] ==> b[0] in Elements(a);
    if a != [] && b != [] {
      assert a[0] in Elements(b) && b[0] in Elements(a);
      assert a[0] == b[0];
      forall x
        ensures x in a[1..] <==> x in b[1..]
      {
        assert x in a[1..] <==> x in Elements(a) && x != a[0];
        assert x in b[1..] <==> x in Elements(b) && x != b[0];
      }
      assert Elements(a[1..]) == Elements(b[1..]);
      SortedIsUnique(a[1..], b[1..]);
      assert a == [a[0]] + a[1..] && b == [b[0]] + b[1..];
    }
  }

  /**
   `indexOf` on the window [lo, hi) of the array; reading past the end of an empty array gives
   `undefined`, which no string equals. The window halves until one element is left.
   */
  function IndexOf(a: seq<string>, e: string, lo: int, hi: int): (k: int)
    requires 0 <= lo <= hi <= |a|
    requires lo == hi ==> a == []
    ensures -1 <= k < |a|
    ensures 0 <= k ==> lo <= k < hi && a[k] == e
    ensures StrictlyIncreasing(a) && e in a[lo..hi] ==> 0 <= k
    decreases hi - lo
  {
    var span := hi - lo;
    var mid := lo + span / 2;
    if span <= 1 then
      if mid < |a| && a[mid] == e then mid else -1
    else if Less(a[mid], e) then
      assert StrictlyIncreasing(a) && e in a[lo..hi] ==> e in a[mid..hi] by { InUpperHalf(a, e, lo, mid, hi); }
      IndexOf(a, e, mid, hi)
    else if Less(e, a[mid]) then
      assert StrictlyIncreasing(a) && e in a[lo..hi] ==> e in a[lo..mid] by { InLowerHalf(a, e, lo, mid, hi); }
      IndexOf(a, e, lo, mid)
    else
      CompareFlip(a[mid], e);
      mid
  }

  lemma InUpperHalf(a: seq<string>, e: string, lo: nat, mid: nat, hi: nat)
    requires lo <= mid < hi <= |a| && Less(a[mid], e)
    ensures StrictlyIncreasing(a) && e in a[lo..hi] ==> e in a[mid..hi]
  {
    if StrictlyIncreasing(a) && e in a[lo..hi] {
      var k :| lo <= k < hi && a[k] == e;
      LessIsTotalOrder();
      assert mid <= k;
      assert a[mid..hi][k - mid] == e;
    }
  }

  lemma InLowerHalf(a: seq<string>, e: string, lo: nat, mid: nat, hi: nat)
    requires lo <= mid < hi <= |a| && Less(e, a[mid])
    ensures StrictlyIncreasing(a) && e in a[lo..hi] ==> e in a[lo..mid]
  {
    if StrictlyIncreasing(a) && e in a[lo..hi] {
      var k :| lo <= k < hi && a[k] == e;
      LessIsTotalOrder();
      assert k < mid;
      assert a[lo..mid][k - lo] == e;
    }
  }

  /** On the whole of a sorted array `IndexOf` finds an element exactly when it is there. */
  lemma IndexOfFinds(a: seq<string>, e: string)
    requires StrictlyIncreasing(a)
    ensures 0 <= IndexOf(a, e, 0, |a|) <==> e in a
    ensures e in a ==> a[IndexOf(a, e, 0, |a|)] == e
  {
    assert a[0..|a|] == a;
  }

  /** `locationFor`: where `e` belongs; `None` is JavaScript's `undefined`. */
  function LocationFor(a: seq<string>, e: string, lo: int, hi: int): (k: Option<nat>)
    requires 0 <= lo <= hi <= |a|
    requires lo == hi ==> a == []
    ensures k.Some? ==> lo <= k.value <= hi
    ensures k.Some? && StrictlyIncreasing(a) && (lo > 0 ==> Less(a[lo], e)) && (hi < |a| ==> Less(e, a[hi])) ==>
      SplitsAt(a, e, k.value)
    ensures StrictlyIncreasing(a) && e !in a && a != [] ==> k.Some?
    decreases hi - lo
  {
    var span := hi - lo;
    var mid := lo + span / 2;
    if span <= 1 then
      if mid < |a| && Less(e, a[mid]) then
        assert StrictlyIncreasing(a) && (lo > 0 ==> Less(a[lo], e)) && (hi < |a| ==> Less(e, a[hi])) ==>
          SplitsAt(a, e, mid) by { LessIsTotalOrder(); }
        Some(mid)
      else if mid < |a| && Less(a[mid], e) then
        assert StrictlyIncreasing(a) && (hi < |a| ==> Less(e, a[hi])) ==>
          SplitsAt(a, e, mid + 1) by { LessIsTotalOrder(); }
        Some(mid + 1)
      else
        CompareFlip(if mid < |a| then a[mid] else e, e);
        None
    else if Less(a[mid], e) then LocationFor(a, e, mid, hi)
    else if Less(e, a[mid]) then LocationFor(a, e, lo, mid)
    else
      CompareFlip(a[mid], e);
      None
  }

  /** Everything before position `k` is smaller than `e`, everything from `k` on is larger. */
  ghost predicate SplitsAt(a: seq<string>, e: string, k: nat) {
    && k <= |a|
    && (forall i :: 0 <= i < k ==> Less(a[i], e))
    && (forall i :: k <= i < |a| ==> Less(e, a[i]))
  }

  /** `splice(k, 0, e)`, an `undefined` position counting as 0. */
  function Splice(a: seq<string>, k: Option<nat>, e: string): seq<string>
    requires k.Some? ==> k.value <= |a|
  {
    var at := match k case Some(i) => i case None => 0;
    a[..at] + [e] + a[at..]
  }

  lemma SpliceSorted(a: seq<string>, at: nat, e: string)
    requires StrictlyIncreasing(a) && SplitsAt(a, e, at)
    ensures StrictlyIncreasing(a[..at] + [e] + a[at..])
    ensures Elements(a[..at] + [e] + a[at..]) == Elements(a) + {e}
  {
    var b := a[..at] + [e] + a[at..];
    forall i, j | 0 <= i < j < |b|
      ensures Less(b[i], b[j])
    {
      if i < at < j {
        LessTransitive(a[i], e, a[j - 1]);
      }
    }
    assert forall x :: x in b <==> x in a[..at] || x == e || x in a[at..];
    assert a == a[..at] + a[at..];
  }

  /** One round of `add`. */
  function Inserted(a: seq<string>, e: string): seq<string> {
    if IndexOf(a, e, 0, |a|) >= 0 then a else Splice(a, LocationFor(a, e, 0, |a|), e)
  }

  lemma InsertedKeepsOrder(a: seq<string>, e: string)
    requires StrictlyIncreasing(a)
    ensures StrictlyIncreasing(Inserted(a, e))
    ensures Elements(Inserted(a, e)) == Elements(a) + {e}
  {
    IndexOfFinds(a, e);
    if e !in a {
      var k := LocationFor(a, e, 0, |a|);
      SpliceSorted(a, if a == [] then 0 else k.value, e);
    }
  }

  class SortedSet {
    var elements: seq<string>
    var length: nat

    ghost predicate Valid()
      reads this
    {
      length == |elements| && StrictlyIncreasing(elements)
    }

    ghost function Contents(): set<string>
      reads this
    {
      Elements(elements)
    }

    constructor ()
      ensures Valid() && elements == []
    {
      elements, length := [], 0;
    }

    /** The variadic `add`. */
    method Add(args: seq<string>)
      requires Valid()
      modifies this
      ensures Valid() && Contents() == old(Contents()) + Elements(args)
    {
      for k := 0 to |args|
        invariant StrictlyIncreasing(elements)
        invariant Contents() == old(Contents()) + Elements(args[..k])
      {
        InsertedKeepsOrder(elements, args[k]);
        elements := Inserted(elements, args[k]);
        assert Elements(args[..k + 1]) == Elements(args[..k]) + {args[k]};
      }
      assert args[..|args|] == args;
      length := |elements|;
    }

    method Clone() returns (t: SortedSet)
      requires Valid()
      ensures fresh(t) && t.Valid() && t.elements == elements
    {
      t := new SortedSet();
      t.elements := elements;
      t.length := |t.elements|;
    }

    /** `intersect` walks both arrays with a cursor each. */
    method Intersect(other: SortedSet) returns (n: SortedSet)
      requires Valid() && other.Valid()
      ensures fresh(n) && n.Valid() && n.Contents() == Contents() * other.Contents()
    {
      LessIsTotalOrder();
      n := new SortedSet();
      var r, i := 0, 0;
      var a, u := elements, other.elements;
      while true
        invariant n.Valid() && fresh(n) && a == elements && u == other.elements
        invariant 0 <= r <= |a| && 0 <= i <= |u|
        invariant forall x :: x in n.elements ==> x in a && x in u
        invariant forall x :: x in a && x in u ==> x in n.elements || (x in a[r..] && x in u[i..])
        decreases |a| - r + |u| - i
      {
        if r > length - 1 || i > other.length - 1 {
          break;
        }
        assert a[r..] == [a[r]] + a[r + 1..] && u[i..] == [u[i]] + u[i + 1..];
        if a[r] != u[i] {
          if Less(a[r], u[i]) {
            r := r + 1;
          } else if Less(u[i], a[r]) {
            i := i + 1;
          }
        } else {
          ghost var before := n.elements;
          n.Add([a[r]]);
          assert forall x :: x in n.elements <==> x in n.Contents();
          assert forall x :: x in before <==> x in Elements(before);
          r, i := r + 1, i + 1;
        }
      }
    }

    /** `union` clones the longer set and adds the elements of the other. */
    method Union(other: SortedSet) returns (r: SortedSet)
      requires Valid() && other.Valid()
      ensures fresh(r) && r.Valid() && r.Contents() == Contents() + other.Contents()
    {
      var t, n;
      if length >= other.length {
        t, n := this, other;
      } else {
        t, n := other, this;
      }
      r := t.Clone();
      r.Add(n.elements);
    }
  }
}
