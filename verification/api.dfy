/** The three endpoints: the role gates applied first, then the engine.
    Failed requests return no store, so the store stays as it was. */
module Api {
  import opened Wrappers
  import opened Text
  import opened Feedback
  import opened Auth
  import opened Submission
  import opened Moderation
  import opened Listing

  /** True when the gate checks fail before the engine runs. */
  predicate GateError(e: Error) {
    e == MissingAuthentication || e == InvalidRole || e == ModeratorRoleRequired
  }

  /** `POST /feedback/`: any authenticated user, of either role, may submit. */
  function SubmitFeedback(store: Store, xUser: Option<string>, xRole: Option<string>,
                          content: string, freshId: string, now: int): (r: Result<Updated, Error>)
    requires freshId !in Ids(store)
    ensures !Truthy(xUser) || !Truthy(xRole) ==> r == Err(MissingAuthentication)
    ensures Truthy(xUser) && Truthy(xRole) && !KnownRole(xRole.value) ==> r == Err(InvalidRole)
    ensures Truthy(xUser) && Truthy(xRole) && KnownRole(xRole.value) ==>
      r == Submit(store, xUser.value, content, freshId, now)
    ensures r.Ok? ==> Truthy(xUser) && Truthy(xRole) && KnownRole(xRole.value)
    ensures r.Ok? ==> r.value.item.author == xUser.value && r.value.item.status == Pending
    ensures r.Ok? ==> r.value.store == store + [r.value.item]
  {
    var u :- GetCurrentUser(xUser, xRole);
    Submit(store, u.username, content, freshId, now)
  }

  /** `GET /moderate/feedbacks`: moderators only. */
  function ListFeedbacks(store: Store, xUser: Option<string>, xRole: Option<string>,
                         status: Option<string>, q: Option<string>, skip: nat, limit: nat): (r: Result<seq<Item>, Error>)
    ensures r.Ok? <==> Truthy(xUser) && xRole == Some(ModeratorRole)
    ensures r.Err? ==> GateError(r.error)
    ensures Truthy(xUser) && xRole == Some(UserRole) ==> r == Err(ModeratorRoleRequired)
    ensures r.Ok? ==> r.value == List(store, status, q, skip, limit)
  {
    var _ :- Moderator(xUser, xRole);
    Ok(List(store, status, q, skip, limit))
  }

  /** `POST /moderate/feedbacks/{id}/status`: moderators only; the gate runs
      before the record is looked up. */
  function UpdateFeedbackStatus(store: Store, xUser: Option<string>, xRole: Option<string>,
                                id: string, target: string, now: int): (r: Result<Moderated, Error>)
    ensures !(Truthy(xUser) && xRole == Some(ModeratorRole)) ==> r.Err? && GateError(r.error)
    ensures Truthy(xUser) && xRole == Some(UserRole) ==> r == Err(ModeratorRoleRequired)
    ensures Truthy(xUser) && xRole == Some(ModeratorRole) ==>
      r == Transition(store, xUser.value, id, target, now)
    ensures r.Ok? ==> r.value.item.moderator == xUser
  {
    var m :- Moderator(xUser, xRole);
    Transition(store, m.username, id, target, now)
  }

  /** Whatever two moderators send, the second status update of the same
      record fails with AlreadyFinalized and leaves it as the first left it. */
  lemma SecondUpdateFails(store: Store, u1: Option<string>, r1: Option<string>, t1: string, n1: int,
                          u2: Option<string>, r2: Option<string>, t2: string, n2: int, id: string)
    requires UpdateFeedbackStatus(store, u1, r1, id, t1, n1).Ok?
    requires Truthy(u2) && r2 == Some(ModeratorRole)
    ensures var o := UpdateFeedbackStatus(store, u1, r1, id, t1, n1).value;
      UpdateFeedbackStatus(o.store, u2, r2, id, t2, n2) == Err(AlreadyFinalized(o.item.status))
  {
    TransitionIsOneShot(store, u1.value, id, t1, n1, u2.value, t2, n2);
  }
}
