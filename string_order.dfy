/**
 * Go's ordering of strings (lexicographic by character, a proper prefix
 * first) and sort.Strings, which GetLobbies uses to order the keys.
 */
module StringOrder {
  /** a < b in Go's string comparison. */
  predicate Less(a: string, b: string)
    decreases |a|
  {
    if |a| == 0 then |b| > 0
    else if |b| == 0 then false
    else if a[0] != b[0] then a[0] < b[0]
    else Less(a[1..], b[1..])
  }

  predicate LessEq(a: string, b: string) {
    a == b || Less(a, b)
  }

  /** Non-decreasing in Go's string order. */
  predicate Sorted(s: seq<string>) {
    forall i, j :: 0 <= i < j < |s| ==> LessEq(s[i], s[j])
  }

  /** Strictly increasing in Go's string order. */
  predicate StrictlySorted(s: seq<string>) {
    forall i, j :: 0 <= i < j < |s| ==> Less(s[i], s[j])
  }

  /** Any two different strings are ordered one way or the other. */
  lemma {:induction false} LessTotal(a: string, b: string)
    requires a != b
    ensures Less(a, b) || Less(b, a)
    decreases |a|
  {
    if |a| > 0 && |b| > 0 && a[0] == b[0] {
      assert a == [a[0]] + a[1..] && b == [b[0]] + b[1..];
      LessTotal(a[1..], b[1..]);
    }
  }

  lemma {:induction false} LessTransitive(a: string, b: string, c: string)
    requires Less(a, b) && Less(b, c)
    ensures Less(a, c)
    decreases |a|
  {
    if |a| > 0 && a[0] == b[0] && b[0] == c[0] {
      LessTransitive(a[1..], b[1..], c[1..]);
    }
  }

  lemma LessEqTransitive(a: string, b: string, c: string)
    requires LessEq(a, b) && LessEq(b, c)
    ensures LessEq(a, c)
  {
    if a != b && b != c {
      LessTransitive(a, b, c);
    }
  }

  /** Inserts `x` into sorted `s` after every element not above it. */
  method Insert(s: seq<string>, x: string) returns (r: seq<string>)
    requires Sorted(s)
    ensures Sorted(r) && multiset(r) == multiset(s) + multiset{x}
  {
    var j := 0;
    while j < |s| && LessEq(s[j], x)
      invariant 0 <= j <= |s|
      invariant forall k :: 0 <= k < j ==> LessEq(s[k], x)
    {
      j := j + 1;
    }
    if j < |s| {
      LessTotal(x, s[j]);
      forall k | j <= k < |s|
        ensures LessEq(x, s[k])
      {
        LessEqTransitive(x, s[j], s[k]);
      }
    }
    r := s[..j] + [x] + s[j..];
    assert s == s[..j] + s[j..];
  }

  /** sort.Strings: the same strings, in non-decreasing order. */
  method SortStrings(a: seq<string>) returns (s: seq<string>)
    ensures Sorted(s) && multiset(s) == multiset(a)
  {
    s := [];
    var i := 0;
    while i < |a|
      invariant 0 <= i <= |a|
      invariant Sorted(s) && multiset(s) == multiset(a[..i])
    {
      s := Insert(s, a[i]);
      assert a[..i + 1] == a[..i] + [a[i]];
      i := i + 1;
    }
    assert a[..i] == a;
  }

  /** No element occurs twice. */
  predicate Distinct(s: seq<string>) {
    forall i, j :: 0 <= i < j < |s| ==> s[i] != s[j]
  }

  lemma {:induction false} DistinctCount(t: seq<string>, x: string)
    requires Distinct(t)
    ensures multiset(t)[x] <= 1
    decreases |t|
  {
    if |t| > 0 {
      assert t == [t[0]] + t[1..];
      assert x == t[0] ==> x !in t[1..];
      DistinctCount(t[1..], x);
    }
  }

  /**
   * A sorted permutation of a sequence without repetitions is strictly
   * increasing.
   */
  lemma SortedDistinctIsStrict(s: seq<string>, t: seq<string>)
    requires Sorted(s) && multiset(s) == multiset(t) && Distinct(t)
    ensures StrictlySorted(s)
  {
    forall i, j | 0 <= i < j < |s|
      ensures Less(s[i], s[j])
    {
      DistinctCount(t, s[i]);
      assert s == s[..j] + [s[j]] + s[j + 1..];
      assert s[..j][i] == s[i];
    }
  }
}
