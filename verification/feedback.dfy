/** The feedback record, its status, the in-memory store and the errors the
    engine raises. */
module Feedback {
  import opened Wrappers

  /** The moderation status: a closed set of three values. */
  datatype Status = Pending | Approved | Rejected {

    /** The string the service stores and returns for this status. */
    function Name(): string {
      match this
      case Pending => "pending"
      case Approved => "approved"
      case Rejected => "rejected"
    }
  }

  /** One feedback record as returned to clients. Timestamps are integers
      (the clock is a parameter of every operation that reads it). */
  datatype Item = Item(
    id: string,
    content: string,
    status: Status,
    author: string,
    createdAt: int,
    approvedAt: Option<int>,
    rejectedAt: Option<int>,
    moderator: Option<string>)

  /** The feedback store: records in insertion order, keyed by `id`. */
  type Store = seq<Item>

  /** Every way a request can fail, with the HTTP status it is reported as. */
  datatype Error =
    | MissingAuthentication          // 401: x-user or x-role absent or empty
    | InvalidRole                    // 403: role neither "user" nor "moderator"
    | ModeratorRoleRequired          // 403: authenticated, but not a moderator
    | ProfanityDetected(word: string) // 400: content contains a profane word
    | NotFound                       // 404: no record with the given id
    | AlreadyFinalized(current: Status) // 400: record is no longer pending
    | InvalidStatusUpdate            // 400: target neither "approved" nor "rejected"
  {
    function HttpStatus(): int {
      match this
      case MissingAuthentication => 401
      case InvalidRole => 403
      case ModeratorRoleRequired => 403
      case NotFound => 404
      case _ => 400
    }
  }

  /** Content length accepted by the request model. */
  predicate ValidContent(content: string) {
    5 <= |content| <= 500
  }

  /** The ids present in the store. */
  function Ids(s: Store): set<string> {
    set i | 0 <= i < |s| :: s[i].id
  }

  predicate UniqueIds(s: Store) {
    forall i, j :: 0 <= i < |s| && 0 <= j < |s| && i != j ==> s[i].id != s[j].id
  }

  /** A terminal timestamp is set exactly when the status is the matching
      terminal state; so at most one of them is ever set. */
  predicate TimestampsAgree(it: Item) {
    && (it.approvedAt.Some? <==> it.status == Approved)
    && (it.rejectedAt.Some? <==> it.status == Rejected)
  }

  /** The record-level invariant the engine maintains. */
  predicate WellFormed(it: Item) {
    && ValidContent(it.content)
    && TimestampsAgree(it)
    && (it.moderator.Some? <==> it.status != Pending)
  }

  /** The store-level invariant: unique ids and well-formed records. */
  predicate Invariant(s: Store) {
    UniqueIds(s) && forall i :: 0 <= i < |s| ==> WellFormed(s[i])
  }

  /** The fields no operation may change once a record exists. */
  predicate SameRecord(a: Item, b: Item) {
    a.id == b.id && a.content == b.content && a.author == b.author && a.createdAt == b.createdAt
  }

  /** Position of the record with key `id`: `feedback_storage.get(id)`. */
  function IndexOf(s: Store, id: string): (r: Option<nat>)
    ensures r.None? <==> id !in Ids(s)
    ensures r.Some? ==> r.value < |s| && s[r.value].id == id
    ensures r.Some? ==> forall j :: 0 <= j < r.value ==> s[j].id != id
  {
    if |s| == 0 then None
    else if s[0].id == id then Some(0)
    else match IndexOf(s[1..], id)
      case None =>
        assert Ids(s) == {s[0].id} + Ids(s[1..]) by {
          forall x | x in Ids(s) ensures x in {s[0].id} + Ids(s[1..]) {
            var i :| 0 <= i < |s| && s[i].id == x;
            if i > 0 { assert s[1..][i - 1].id == x; }
          }
        }
        None
      case Some(k) =>
        assert s[1..][k].id == id;
        Some(k + 1)
  }

  /** Replacing a record by one with the same id keeps the id lookup and the id set. */
  lemma {:induction false} UpdateKeepsIndex(s: Store, i: nat, it: Item)
    requires i < |s| && IndexOf(s, it.id) == Some(i)
    ensures IndexOf(s[i := it], it.id) == Some(i)
    ensures Ids(s[i := it]) == Ids(s)
  {
    var s' := s[i := it];
    assert s'[i].id == it.id;
    assert forall j :: 0 <= j < i ==> s'[j] == s[j];
    forall x ensures x in Ids(s') <==> x in Ids(s) {
      if x in Ids(s') {
        var j :| 0 <= j < |s'| && s'[j].id == x;
        assert s[j].id == x;
      }
      if x in Ids(s) {
        var j :| 0 <= j < |s| && s[j].id == x;
        assert s'[j].id == x;
      }
    }
  }

  /** Appending a record adds exactly its id. */
  lemma AppendIds(s: Store, it: Item)
    ensures Ids(s + [it]) == Ids(s) + {it.id}
  {
    var s' := s + [it];
    forall x ensures x in Ids(s') <==> x in Ids(s) + {it.id} {
      if x in Ids(s) {
        var j :| 0 <= j < |s| && s[j].id == x;
        assert s'[j].id == x;
      }
      if x == it.id {
        assert s'[|s|].id == x;
      }
    }
  }
}
