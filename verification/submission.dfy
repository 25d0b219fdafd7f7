/** Submitting feedback: screening, then inserting a fresh pending record. */
module Submission {
  import opened Wrappers
  import opened Feedback
  import opened Screener

  /** A successful store-changing operation: the new store and the record. */
  datatype Updated = Updated(store: Store, item: Item)

  /** `submit_feedback` for an authenticated author. The record id and the
      clock reading are parameters; the id is one the store has not used. */
  function Submit(store: Store, author: string, content: string, freshId: string, now: int): (r: Result<Updated, Error>)
    requires freshId !in Ids(store)
    ensures r.Err? <==> exists w :: w in ProfaneWords && Flags(w, content)
    ensures r.Err? ==> r.error.ProfanityDetected? && r.error.word in ProfaneWords && Flags(r.error.word, content)
    ensures r.Ok? ==> var it := r.value.item;
      && it.id == freshId && it.content == content && it.author == author && it.createdAt == now
      && it.status == Pending && it.approvedAt.None? && it.rejectedAt.None? && it.moderator.None?
    ensures r.Ok? ==> r.value.store == store + [r.value.item]
    ensures r.Ok? ==> Ids(r.value.store) == Ids(store) + {freshId}
  {
    match ContainsProfanity(content)
    case Some(word) => Err(ProfanityDetected(word))
    case None =>
      var item := Item(freshId, content, Pending, author, now, None, None, None);
      AppendIds(store, item);
      Ok(Updated(store + [item], item))
  }

  /** Submission keeps the store invariant: ids stay unique and the new record
      is well formed when its content has an accepted length. */
  lemma SubmitPreservesInvariant(store: Store, author: string, content: string, freshId: string, now: int)
    requires Invariant(store) && ValidContent(content) && freshId !in Ids(store)
    ensures Submit(store, author, content, freshId, now).Ok? ==>
      Invariant(Submit(store, author, content, freshId, now).value.store)
  {
    var r := Submit(store, author, content, freshId, now);
    if r.Ok? {
      var s' := r.value.store;
      forall i, j | 0 <= i < |s'| && 0 <= j < |s'| && i != j
        ensures s'[i].id != s'[j].id
      {
        if i == |store| {
          assert s'[j].id in Ids(store);
        } else if j == |store| {
          assert s'[i].id in Ids(store);
        }
      }
    }
  }
}
