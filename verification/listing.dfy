/** Listing for moderators: filter by status and by a search text, newest
    first, then one page of the result. */
module Listing {
  import opened Wrappers
  import opened Text
  import opened Seqs
  import opened Feedback
  import opened Sorting

  /** `f["status"] == status`: compares the stored status name with the raw filter. */
  function HasStatus(name: string): Item -> bool {
    (it: Item) => it.status.Name() == name
  }

  /** `q.lower() in f["content"].lower()`. */
  function Mentions(q: string): Item -> bool {
    (it: Item) => Occurs(Lower(q), Lower(it.content))
  }

  /** A record passes the listing filters; an absent or empty filter passes everything. */
  predicate Matches(it: Item, status: Option<string>, q: Option<string>) {
    && (Truthy(status) ==> it.status.Name() == status.value)
    && (Truthy(q) ==> Occurs(Lower(q.value), Lower(it.content)))
  }

  function ByStatus(s: Store, status: Option<string>): Store {
    if Truthy(status) then Filter(s, HasStatus(status.value)) else s
  }

  function ByQuery(s: Store, q: Option<string>): Store {
    if Truthy(q) then Filter(s, Mentions(q.value)) else s
  }

  /** The status filter, then the text filter, over the store in insertion order. */
  function Selected(store: Store, status: Option<string>, q: Option<string>): (r: Store)
    ensures forall x :: x in r <==> x in store && Matches(x, status, q)
    ensures |r| <= |store|
  {
    ByQuery(ByStatus(store, status), q)
  }

  /** The selection is the single order-preserving filter of the store by
      `Matches`: the matching records, in store insertion order. */
  lemma SelectedIsStoreOrderFilter(store: Store, status: Option<string>, q: Option<string>)
    ensures Selected(store, status, q) == Filter(store, (x: Item) => Matches(x, status, q))
  {
    var m := (x: Item) => Matches(x, status, q);
    if Truthy(status) && Truthy(q) {
      FilterFuse(store, HasStatus(status.value), Mentions(q.value), m);
    } else if Truthy(status) {
      FilterSame(store, HasStatus(status.value), m);
    } else if Truthy(q) {
      FilterSame(store, Mentions(q.value), m);
    } else {
      FilterAll(store, m);
    }
  }

  /** The window `list_feedbacks` uses when the query leaves out `skip` or
      `limit`: the 20 newest matching records. */
  const DefaultSkip: nat := 0
  const DefaultLimit: nat := 20

  /** `list_feedbacks` for an authorised moderator: the selected records,
      newest first, from position `skip`, at most `limit` of them. */
  function List(store: Store, status: Option<string>, q: Option<string>, skip: nat, limit: nat): (r: seq<Item>)
    ensures forall x :: x in r ==> x in store && Matches(x, status, q)
    ensures var n := |Selected(store, status, q)|;
      |r| == if skip < n then Min(limit, n - skip) else 0
    ensures |r| <= limit
    ensures skip >= |Selected(store, status, q)| ==> r == []
    ensures SortedDesc(r)
  {
    PageOfSorted(Selected(store, status, q), skip, skip + limit);
    Slice(SortDesc(Selected(store, status, q)), skip, skip + limit)
  }

  /** The listing is the page of THE stable newest-first order: any sequence
      that is newest first and keeps equal timestamps in store order yields
      the same page. */
  lemma ListIsPageOfStableOrder(store: Store, status: Option<string>, q: Option<string>,
                                skip: nat, limit: nat, t: seq<Item>)
    requires SortedDesc(t) && TiesKeepOrder(t, Selected(store, status, q))
    ensures List(store, status, q, skip, limit) == Slice(t, skip, skip + limit)
  {
    StableSortIsUnique(Selected(store, status, q), t);
  }

  /** Filtering by timestamp commutes with the listing filters. */
  lemma SelectedAtTime(store: Store, status: Option<string>, q: Option<string>, k: int)
    ensures Filter(Selected(store, status, q), AtTime(k)) == Selected(Filter(store, AtTime(k)), status, q)
  {
    var s1 := ByStatus(store, status);
    if Truthy(status) {
      FilterCommute(store, HasStatus(status.value), AtTime(k));
    }
    if Truthy(q) {
      FilterCommute(s1, Mentions(q.value), AtTime(k));
    }
  }

  /** A page starting at 0 that is at least as long as the store is the whole
      selection, newest first. */
  lemma FullList(store: Store, status: Option<string>, q: Option<string>, limit: nat)
    requires |store| <= limit
    ensures List(store, status, q, 0, limit) == SortDesc(Selected(store, status, q))
  {
    var sorted := SortDesc(Selected(store, status, q));
    WholeSlice(sorted, limit);
    assert List(store, status, q, 0, limit) == Slice(sorted, 0, 0 + limit);
  }

  /** In the full listing, records created at the same time appear in the
      order they were inserted into the store. */
  lemma FullListTiesInStoreOrder(store: Store, status: Option<string>, q: Option<string>, limit: nat, k: int)
    requires |store| <= limit
    ensures Filter(List(store, status, q, 0, limit), AtTime(k)) == Selected(Filter(store, AtTime(k)), status, q)
  {
    var sel := Selected(store, status, q);
    FullList(store, status, q, limit);
    SortDescKeepsTies(sel);
    assert Filter(SortDesc(sel), AtTime(k)) == Filter(sel, AtTime(k));
    SelectedAtTime(store, status, q, k);
  }

  /** The full listing holds every matching record. */
  lemma FullListComplete(store: Store, status: Option<string>, q: Option<string>, limit: nat)
    requires |store| <= limit
    ensures forall x :: x in List(store, status, q, 0, limit) <==> x in store && Matches(x, status, q)
  {
    var sel := Selected(store, status, q);
    FullList(store, status, q, limit);
    assert forall x :: x in SortDesc(sel) <==> x in multiset(sel);
  }

  /** Consecutive pages tile the listing. */
  lemma ListPagesTile(store: Store, status: Option<string>, q: Option<string>, skip: nat, m: nat, n: nat)
    ensures List(store, status, q, skip, m) + List(store, status, q, skip + m, n)
         == List(store, status, q, skip, m + n)
  {
    PagesTile(SortDesc(Selected(store, status, q)), skip, m, n);
  }
}
