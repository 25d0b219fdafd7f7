/** Python list idioms on sequences: the comprehension filter
    `[x for x in s if p(x)]` and the slice `s[a:b]`. */
module Seqs {

  function Min(a: int, b: int): int {
    if a <= b then a else b
  }

  /** `[x for x in s if p(x)]`: keeps the elements satisfying `p`, in their order. */
  function Filter<T(!new)>(s: seq<T>, p: T -> bool): (r: seq<T>)
    ensures |r| <= |s|
    ensures forall x :: x in r <==> x in s && p(x)
  {
    if |s| == 0 then []
    else
      assert s == [s[0]] + s[1..];
      if p(s[0]) then [s[0]] + Filter(s[1..], p) else Filter(s[1..], p)
  }

  /** Filtering distributes over concatenation. */
  lemma {:induction false} FilterConcat<T(!new)>(a: seq<T>, b: seq<T>, p: T -> bool)
    ensures Filter(a + b, p) == Filter(a, p) + Filter(b, p)
  {
    if |a| == 0 {
      assert a + b == b;
    } else {
      assert (a + b)[1..] == a[1..] + b;
      FilterConcat(a[1..], b, p);
    }
  }

  /** Two filters may be applied in either order. */
  lemma {:induction false} FilterCommute<T(!new)>(s: seq<T>, p: T -> bool, q: T -> bool)
    ensures Filter(Filter(s, p), q) == Filter(Filter(s, q), p)
  {
    if |s| > 0 {
      FilterCommute(s[1..], p, q);
    }
  }

  /** Two filters that agree on every element give the same result. */
  lemma {:induction false} FilterSame<T(!new)>(s: seq<T>, p: T -> bool, q: T -> bool)
    requires forall x :: p(x) == q(x)
    ensures Filter(s, p) == Filter(s, q)
  {
    if |s| > 0 {
      FilterSame(s[1..], p, q);
    }
  }

  /** A filter every element passes keeps the whole sequence. */
  lemma {:induction false} FilterAll<T(!new)>(s: seq<T>, p: T -> bool)
    requires forall x :: p(x)
    ensures Filter(s, p) == s
  {
    if |s| > 0 {
      FilterAll(s[1..], p);
      assert s == [s[0]] + s[1..];
    }
  }

  /** Filtering twice is filtering once by the conjunction. */
  lemma {:induction false} FilterFuse<T(!new)>(s: seq<T>, p: T -> bool, q: T -> bool, pq: T -> bool)
    requires forall x :: pq(x) == (p(x) && q(x))
    ensures Filter(Filter(s, p), q) == Filter(s, pq)
  {
    if |s| > 0 {
      FilterFuse(s[1..], p, q, pq);
    }
  }

  /** Python's `s[a:b]` for non-negative bounds: both ends are clamped to the
      length, and a window starting at or past the end is empty. */
  function Slice<T>(s: seq<T>, a: nat, b: nat): (r: seq<T>)
    ensures |r| == (if a < b && a < |s| then Min(b, |s|) - a else 0)
    ensures forall i :: 0 <= i < |r| ==> r[i] == s[a + i]
  {
    var lo := Min(a, |s|);
    var hi := Min(b, |s|);
    if lo <= hi then s[lo..hi] else []
  }

  /** A page holds only elements of the list. */
  lemma SliceMembers<T>(s: seq<T>, a: nat, b: nat)
    ensures forall x :: x in Slice(s, a, b) ==> x in s
  {
    var r := Slice(s, a, b);
    forall x | x in r ensures x in s {
      var i :| 0 <= i < |r| && r[i] == x;
      assert s[a + i] == x;
    }
  }

  /** Consecutive pages tile the list: the page of `m` items at `a`, then the
      page of `n` items after it, is the page of `m + n` items at `a`. */
  lemma PagesTile<T>(s: seq<T>, a: nat, m: nat, n: nat)
    ensures Slice(s, a, a + m) + Slice(s, a + m, a + m + n) == Slice(s, a, a + m + n)
  {
    var left, right, whole := Slice(s, a, a + m), Slice(s, a + m, a + m + n), Slice(s, a, a + m + n);
    assert |left| + |right| == |whole|;
    forall i | 0 <= i < |whole|
      ensures (left + right)[i] == whole[i]
    {
      if i >= |left| {
        assert right[i - |left|] == s[a + m + (i - |left|)];
      }
    }
  }

  /** A window that starts at 0 and is at least as long as the list is the list. */
  lemma WholeSlice<T>(s: seq<T>, n: nat)
    requires |s| <= n
    ensures Slice(s, 0, n) == s
  {
  }
}
