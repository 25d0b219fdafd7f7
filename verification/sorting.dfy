/** `sorted(items, key=created_at, reverse=True)`: a stable sort of records by
    creation time, most recent first. Python keeps records with equal keys in
    their original order even when `reverse=True`. */
module Sorting {
  import opened Seqs
  import opened Feedback

  /** Most recent first. */
  predicate SortedDesc(s: seq<Item>) {
    forall i, j :: 0 <= i < j < |s| ==> s[i].createdAt >= s[j].createdAt
  }

  /** Selects the records created at time `k`. */
  function AtTime(k: int): Item -> bool {
    (it: Item) => it.createdAt == k
  }

  /** Stability: for every timestamp, `t` lists the records created then in
      the same order as `s` does. */
  ghost predicate TiesKeepOrder(t: seq<Item>, s: seq<Item>) {
    forall k :: Filter(t, AtTime(k)) == Filter(s, AtTime(k))
  }

  /** A record no older than everything in a sorted sequence may head it. */
  lemma ConsSorted(h: Item, t: seq<Item>)
    requires SortedDesc(t)
    requires forall y :: y in t ==> y.createdAt <= h.createdAt
    ensures SortedDesc([h] + t)
  {
    var r := [h] + t;
    forall i, j | 0 <= i < j < |r| ensures r[i].createdAt >= r[j].createdAt {
      if i == 0 {
        assert r[j] in t;
      } else {
        assert r[i] == t[i - 1] && r[j] == t[j - 1];
      }
    }
  }

  /** Places `x` before the first record that is not more recent than it. */
  function Insert(x: Item, s: seq<Item>): (r: seq<Item>)
    requires SortedDesc(s)
    ensures SortedDesc(r)
    ensures |r| == |s| + 1
    ensures multiset(r) == multiset(s) + multiset{x}
    ensures forall y :: y in r ==> y == x || y in s
  {
    if |s| == 0 || s[0].createdAt <= x.createdAt then
      ConsSorted(x, s);
      [x] + s
    else
      var t := Insert(x, s[1..]);
      assert s == [s[0]] + s[1..];
      assert forall y :: y in s[1..] ==> y.createdAt <= s[0].createdAt;
      ConsSorted(s[0], t);
      [s[0]] + t
  }

  /** Insertion sort, newest first. */
  function SortDesc(s: seq<Item>): (r: seq<Item>)
    ensures SortedDesc(r)
    ensures |r| == |s|
    ensures multiset(r) == multiset(s)
  {
    if |s| == 0 then []
    else
      assert s == [s[0]] + s[1..];
      Insert(s[0], SortDesc(s[1..]))
  }

  /** Filtering a one-element sequence. */
  lemma FilterSingle(y: Item, p: Item -> bool)
    ensures Filter([y], p) == if p(y) then [y] else []
  {
    assert [y][1..] == [];
  }

  lemma {:induction false} InsertKeepsTies(x: Item, s: seq<Item>, k: int)
    requires SortedDesc(s)
    ensures Filter(Insert(x, s), AtTime(k)) == Filter([x] + s, AtTime(k))
  {
    if |s| > 0 && s[0].createdAt > x.createdAt {
      var p := AtTime(k);
      var h, tail := s[0], s[1..];
      var ins := Insert(x, tail);
      assert Insert(x, s) == [h] + ins;
      assert s == [h] + tail;
      InsertKeepsTies(x, tail, k);
      FilterConcat([h], ins, p);
      FilterConcat([x], tail, p);
      FilterConcat([x], s, p);
      FilterConcat([h], tail, p);
      FilterSingle(h, p);
      FilterSingle(x, p);
      var fh, fx, ft := Filter([h], p), Filter([x], p), Filter(tail, p);
      assert fh + fx == fx + fh;
      calc {
        Filter(Insert(x, s), p);
        fh + Filter(ins, p);
        fh + (fx + ft);
        (fh + fx) + ft;
        (fx + fh) + ft;
        fx + (fh + ft);
        Filter([x] + s, p);
      }
    }
  }

  /** The sort is stable. */
  lemma {:induction false} SortDescKeepsTies(s: seq<Item>)
    ensures TiesKeepOrder(SortDesc(s), s)
  {
    if |s| > 0 {
      SortDescKeepsTies(s[1..]);
      forall k ensures Filter(SortDesc(s), AtTime(k)) == Filter(s, AtTime(k)) {
        InsertKeepsTies(s[0], SortDesc(s[1..]), k);
        FilterConcat([s[0]], SortDesc(s[1..]), AtTime(k));
        FilterConcat([s[0]], s[1..], AtTime(k));
        assert s == [s[0]] + s[1..];
      }
    }
  }

  /** The newest record of a non-empty sequence belongs to its own timestamp group. */
  lemma HeadGroupNonEmpty(s: seq<Item>)
    requires |s| > 0
    ensures Filter(s, AtTime(s[0].createdAt)) != []
  {
    assert s[0] in Filter(s, AtTime(s[0].createdAt));
  }

  /** A page of a newest-first sequence is newest first. */
  lemma PageIsSorted(s: seq<Item>, a: nat, b: nat)
    requires SortedDesc(s)
    ensures SortedDesc(Slice(s, a, b))
  {
    var r := Slice(s, a, b);
    forall i, j | 0 <= i < j < |r| ensures r[i].createdAt >= r[j].createdAt {
      assert r[i] == s[a + i] && r[j] == s[a + j];
    }
  }

  /** A page of the sorted sequence is itself newest first and holds only
      elements of the unsorted one. */
  lemma PageOfSorted(s: seq<Item>, a: nat, b: nat)
    ensures SortedDesc(Slice(SortDesc(s), a, b))
    ensures forall x :: x in Slice(SortDesc(s), a, b) ==> x in s
  {
    var sorted := SortDesc(s);
    PageIsSorted(sorted, a, b);
    SliceMembers(sorted, a, b);
    assert forall x :: x in sorted ==> x in multiset(s);
  }

  /** Two newest-first sequences that agree on the order of every group of
      equal timestamps are the same sequence. */
  lemma {:induction false} SortedTiesDetermine(a: seq<Item>, b: seq<Item>)
    requires SortedDesc(a) && SortedDesc(b) && TiesKeepOrder(a, b)
    ensures a == b
    decreases |a|
  {
    if |a| == 0 && |b| == 0 {
    } else if |a| == 0 {
      HeadGroupNonEmpty(b);
      assert false;
    } else if |b| == 0 {
      HeadGroupNonEmpty(a);
      assert false;
    } else {
      var ka, kb := a[0].createdAt, b[0].createdAt;
      assert a[0] in Filter(a, AtTime(ka));
      assert a[0] in b;
      assert b[0] in Filter(b, AtTime(kb));
      assert b[0] in a;
      var k0 := ka;
      assert ka == kb;
      assert Filter(a, AtTime(k0)) == [a[0]] + Filter(a[1..], AtTime(k0));
      assert Filter(b, AtTime(k0)) == [b[0]] + Filter(b[1..], AtTime(k0));
      assert a[0] == Filter(a, AtTime(k0))[0];
      assert a[0] == b[0];
      forall k ensures Filter(a[1..], AtTime(k)) == Filter(b[1..], AtTime(k)) {
        var fa, fb := Filter(a, AtTime(k)), Filter(b, AtTime(k));
        assert fa == fb;
        if k == k0 {
          assert fa[1..] == Filter(a[1..], AtTime(k));
          assert fb[1..] == Filter(b[1..], AtTime(k));
        } else {
          assert fa == Filter(a[1..], AtTime(k));
          assert fb == Filter(b[1..], AtTime(k));
        }
      }
      SortedTiesDetermine(a[1..], b[1..]);
      assert a == [a[0]] + a[1..];
      assert b == [b[0]] + b[1..];
    }
  }

  /** `SortDesc` is the stable newest-first sort: any newest-first arrangement
      of `s` that keeps ties in their order in `s` equals it. */
  lemma StableSortIsUnique(s: seq<Item>, t: seq<Item>)
    requires SortedDesc(t) && TiesKeepOrder(t, s)
    ensures t == SortDesc(s)
  {
    SortDescKeepsTies(s);
    SortedTiesDetermine(t, SortDesc(s));
  }
}
