/** The status transition: a one-shot state machine pending -> approved or
    pending -> rejected, performed by a moderator. */
module Moderation {
  import opened Wrappers
  import opened Feedback

  /** The notification handed to the background task after a transition:
      the fields `notify_status_change` reports. */
  datatype Notice = Notice(feedbackId: string, newStatus: Status, author: string, moderator: Option<string>)

  /** A successful transition: the new store, the updated record and the
      notification enqueued for it. */
  datatype Moderated = Moderated(store: Store, item: Item, notice: Notice)

  /** Reads the requested target; only the two terminal statuses are accepted. */
  function ParseTarget(target: string): (r: Option<Status>)
    ensures r.Some? <==> target == "approved" || target == "rejected"
    ensures r.Some? ==> r.value != Pending && r.value.Name() == target
  {
    if target == Approved.Name() then Some(Approved)
    else if target == Rejected.Name() then Some(Rejected)
    else None
  }

  /** Every terminal status is read back from its own name. */
  lemma ParseName(st: Status)
    requires st != Pending
    ensures ParseTarget(st.Name()) == Some(st)
  {
  }

  /** Moves a record to a terminal status: sets the status and the moderator,
      stamps the matching terminal timestamp and clears the other one. */
  function Finalize(item: Item, target: Status, moderator: string, now: int): (r: Item)
    requires target != Pending
    ensures r.status == target && r.moderator == Some(moderator)
    ensures TimestampsAgree(r)
    ensures r.approvedAt.Some? ==> r.approvedAt.value == now
    ensures r.rejectedAt.Some? ==> r.rejectedAt.value == now
    ensures SameRecord(item, r)
  {
    if target == Approved then
      item.(status := target, moderator := Some(moderator), approvedAt := Some(now), rejectedAt := None)
    else
      item.(status := target, moderator := Some(moderator), rejectedAt := Some(now), approvedAt := None)
  }

  /** `update_feedback_status` for an authorised moderator. The checks come
      in the order `update_feedback_status` makes them: unknown id, then a
      record that is no longer pending (whatever the target), then an invalid
      target. */
  function Transition(store: Store, moderator: string, id: string, target: string, now: int): (r: Result<Moderated, Error>)
    ensures id !in Ids(store) ==> r == Err(NotFound)
    ensures id in Ids(store) && store[IndexOf(store, id).value].status != Pending ==>
      r == Err(AlreadyFinalized(store[IndexOf(store, id).value].status))
    ensures (id in Ids(store) && store[IndexOf(store, id).value].status == Pending
             && target != "approved" && target != "rejected") ==> r == Err(InvalidStatusUpdate)
    ensures (id in Ids(store) && store[IndexOf(store, id).value].status == Pending
             && (target == "approved" || target == "rejected")) ==> r.Ok?
    ensures r.Ok? ==> id in Ids(store) && store[IndexOf(store, id).value].status == Pending
    ensures r.Ok? ==> var it := r.value.item;
      && it.status.Name() == target && it.moderator == Some(moderator)
      && TimestampsAgree(it)
      && (it.approvedAt.Some? ==> it.approvedAt.value == now)
      && (it.rejectedAt.Some? ==> it.rejectedAt.value == now)
    ensures r.Ok? ==> var i := IndexOf(store, id).value; var s' := r.value.store;
      && SameRecord(store[i], r.value.item)
      && |s'| == |store| && s'[i] == r.value.item
      && forall j :: 0 <= j < |store| && j != i ==> s'[j] == store[j]
    ensures r.Ok? ==> var it := r.value.item;
      r.value.notice == Notice(it.id, it.status, it.author, it.moderator)
  {
    match IndexOf(store, id)
    case None => Err(NotFound)
    case Some(i) =>
      var item := store[i];
      if item.status != Pending then Err(AlreadyFinalized(item.status))
      else match ParseTarget(target)
        case None => Err(InvalidStatusUpdate)
        case Some(st) =>
          var updated := Finalize(item, st, moderator, now);
          Ok(Moderated(store[i := updated], updated, Notice(updated.id, updated.status, updated.author, updated.moderator)))
  }

  /** A record can be moved only once: after a successful transition, every
      further transition of the same id fails with AlreadyFinalized naming the
      new status, whatever its target, and changes nothing. */
  lemma TransitionIsOneShot(store: Store, m1: string, id: string, t1: string, now1: int,
                            m2: string, t2: string, now2: int)
    requires Transition(store, m1, id, t1, now1).Ok?
    ensures var o := Transition(store, m1, id, t1, now1).value;
      Transition(o.store, m2, id, t2, now2) == Err(AlreadyFinalized(o.item.status))
    ensures Transition(store, m1, id, t1, now1).value.item.status != Pending
  {
    var o := Transition(store, m1, id, t1, now1).value;
    var i := IndexOf(store, id).value;
    assert o.store == store[i := o.item];
    UpdateKeepsIndex(store, i, o.item);
  }

  /** A successful transition keeps the store invariant, and keeps the id set. */
  lemma TransitionPreservesInvariant(store: Store, moderator: string, id: string, target: string, now: int)
    requires Invariant(store)
    ensures var r := Transition(store, moderator, id, target, now);
      r.Ok? ==> Invariant(r.value.store) && Ids(r.value.store) == Ids(store)
  {
    var r := Transition(store, moderator, id, target, now);
    if r.Ok? {
      var i := IndexOf(store, id).value;
      assert r.value.store == store[i := r.value.item];
      UpdateKeepsIndex(store, i, r.value.item);
      var s' := r.value.store;
      assert forall j :: 0 <= j < |s'| ==> s'[j].id == store[j].id;
    }
  }
}
