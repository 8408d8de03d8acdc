/**
 Strings as the two source languages see them: a sequence of code units, ordered by the
 first unit in which two strings differ, a proper prefix coming first.
 */
module Strings {

  /** Option, used where the source answers `undefined` or a past-the-end iterator. */
  datatype Option<+T> = None | Some(value: T)

  /** Three-way comparison: the sign of the C++ `compare`, and the order behind the JavaScript `<`. */
  function Compare(a: string, b: string): (c: int)
    ensures -1 <= c <= 1
    ensures c == 0 <==> a == b
  {
    if a == [] || b == [] then
      if a == b then 0 else if a == [] then -1 else 1
    else if a[0] != b[0] then
      if a[0] < b[0] then -1 else 1
    else
      assert a == [a[0]] + a[1..] && b == [b[0]] + b[1..];
      Compare(a[1..], b[1..])
  }

  predicate Less(a: string, b: string) {
    Compare(a, b) < 0
  }

  lemma {:induction false} CompareFlip(a: string, b: string)
    ensures Compare(b, a) == -Compare(a, b)
  {
    if a != [] && b != [] && a[0] == b[0] {
      CompareFlip(a[1..], b[1..]);
    }
  }

  lemma {:induction false} LessTransitive(a: string, b: string, c: string)
    requires Less(a, b) && Less(b, c)
    ensures Less(a, c)
  {
    if a != [] && a[0] == b[0] == c[0] {
      LessTransitive(a[1..], b[1..], c[1..]);
    }
  }

  /** `Less` is a strict total order. */
  lemma LessIsTotalOrder()
    ensures forall a, b :: Less(a, b) ==> !Less(b, a)
    ensures forall a, b :: a == b || Less(a, b) || Less(b, a)
    ensures forall a, b, c :: Less(a, b) && Less(b, c) ==> Less(a, c)
  {
    forall a, b
      ensures Less(a, b) ==> !Less(b, a)
      ensures a == b || Less(a, b) || Less(b, a)
    {
      CompareFlip(a, b);
    }
    forall a, b, c | Less(a, b) && Less(b, c)
      ensures Less(a, c)
    {
      LessTransitive(a, b, c);
    }
  }

  /** A proper prefix is strictly smaller. */
  lemma {:induction false} PrefixLess(a: string, b: string)
    requires a < b
    ensures Less(a, b)
  {
    if a != [] {
      PrefixLess(a[1..], b[1..]);
    }
  }

  /** The strings agree up to position `k`, where `a` has the smaller character. */
  ghost predicate SmallerAt(a: string, b: string, k: nat) {
    k < |a| && k < |b| && a[..k] == b[..k] && a[k] < b[k]
  }

  /** `Less` is the lexicographic order. */
  lemma {:induction false} LessIsLexicographic(a: string, b: string)
    ensures Less(a, b) <==> a < b || exists k: nat :: SmallerAt(a, b, k)
  {
    if a != [] && b != [] {
      if a[0] == b[0] {
        LessIsLexicographic(a[1..], b[1..]);
        assert a == [a[0]] + a[1..] && b == [b[0]] + b[1..];
        if k: nat :| SmallerAt(a[1..], b[1..], k) {
          assert a[..k + 1] == [a[0]] + a[1..][..k] && b[..k + 1] == [b[0]] + b[1..][..k];
          assert SmallerAt(a, b, k + 1);
        }
        if k: nat :| SmallerAt(a, b, k) && k > 0 {
          assert a[1..][..k - 1] == a[..k][1..] && b[1..][..k - 1] == b[..k][1..];
          assert SmallerAt(a[1..], b[1..], k - 1);
        }
      } else {
        assert a[0] < b[0] ==> SmallerAt(a, b, 0);
        forall k: nat | 0 < k < |a| && k < |b|
          ensures a[..k] != b[..k]
        {
          assert a[..k][0] == a[0] && b[..k][0] == b[0];
        }
      }
    }
  }

  /** The position of the first `c` at or after `from`, or the length of `s` (the C++ `npos`). */
  function Find(s: string, c: char, from: nat): (i: nat)
    ensures i <= |s|
    ensures from <= |s| ==> from <= i
    ensures i < |s| ==> s[i] == c
    decreases |s| - from
  {
    if from >= |s| then |s| else if s[from] == c then from else Find(s, c, from + 1)
  }

  lemma FindIsLater(s: string, c: char, from: nat)
    requires from < |s| && s[from] != c
    ensures from < Find(s, c, from)
  {
  }

  /** There is no `c` in the text passed over. */
  lemma {:induction false} FindSkips(s: string, c: char, from: nat)
    requires from <= |s|
    ensures c !in s[from..Find(s, c, from)]
    decreases |s| - from
  {
    if from < |s| && s[from] != c {
      FindSkips(s, c, from + 1);
      assert s[from..Find(s, c, from)] == [s[from]] + s[from + 1..Find(s, c, from)];
    }
  }

  /** `Find` is the only position with its properties. */
  lemma {:induction false} FindIs(s: string, c: char, from: nat, i: nat)
    requires from <= i <= |s|
    requires i < |s| ==> s[i] == c
    requires c !in s[from..i]
    ensures Find(s, c, from) == i
    decreases i - from
  {
    if from < i {
      assert s[from] == s[from..i][0] && s[from + 1..i] == s[from..i][1..];
      FindIs(s, c, from + 1, i);
    }
  }

  /** The search stops at the seam of `a + b` when the rest of `a` has no `c` and `b` begins with one. */
  lemma FindAtSeam(a: string, b: string, c: char, from: nat)
    requires from <= |a| && c !in a[from..] && (b != "" ==> b[0] == c)
    ensures Find(a + b, c, from) == |a|
  {
    assert (a + b)[from..|a|] == a[from..];
    FindIs(a + b, c, from, |a|);
  }

  lemma FindInSuffix(s: string, c: char, start: nat, from: nat)
    requires start + from <= |s|
    ensures Find(s, c, start + from) == start + Find(s[start..], c, from)
  {
    var i := Find(s, c, start + from);
    FindSkips(s, c, start + from);
    assert s[start..][from..i - start] == s[start + from..i];
    FindIs(s[start..], c, from, i - start);
  }
}
