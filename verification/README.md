# Feedback moderation engine — a Dafny model

This project models the logic of a small feedback moderation service. The
service is a single FastAPI module, `app/main.py`. Users submit free-text
feedback. A profanity screener refuses submissions that contain a disallowed
word. Each accepted record starts out `pending`. A moderator moves it once to
`approved` or `rejected`, and can list records by status and search text.

The model is functional:

- The in-memory `feedback_storage` dict becomes a `Store`. A store is a
  sequence of `Item` records in insertion order, keyed by `id`. Python dicts
  keep insertion order, and the listing's stable sort depends on that order.
- The status is a closed datatype, `Pending | Approved | Rejected`.
- Every operation is a pure function of the store and its inputs. An
  operation that changes the store returns `Result<…, Error>`. The success
  value carries the new store. An error carries no store, so the caller
  keeps the store it had.
- The clock (`datetime.utcnow()`) and the id generator (`uuid.uuid4()`)
  become parameters: `now: int` and `freshId`. The id must not already be in
  the store.
- The request headers `x-user` and `x-role` become `Option<string>`
  parameters.

Modules, leaf first:

| module | file | models |
|---|---|---|
| `Wrappers` | wrappers.dfy | `Option`, and `Result` for use with `:-` |
| `Text` | text.dfy | Python truthiness, ASCII `str.lower()`, the substring test `p in s` |
| `Seqs` | seqs.dfy | list comprehension filters and the slice `s[a:b]` |
| `Feedback` | feedback.dfy | `FeedbackOut` record, status, store, errors, store invariant |
| `Screener` | screener.dfy | `PROFANE_WORDS`, `contains_profanity` |
| `Auth` | auth.dfy | `get_current_user`, `moderator_required` |
| `Submission` | submission.dfy | body of `submit_feedback` |
| `Moderation` | moderation.dfy | body of `update_feedback_status`, the notification |
| `Sorting` | sorting.dfy | `sorted(..., key=created_at, reverse=True)` |
| `Listing` | listing.dfy | body of `list_feedbacks` |
| `Api` | api.dfy | the three endpoints, with the role gates in front |
| `Scenarios` | scenarios.dfy | a worked submit / approve / re-decide / list sequence |

Points where the code's behaviour is easy to misread:

- The transition checks run in the code's order: not found (main.py:142),
  then already finalized (148), then invalid target (156). So a finalized
  record reports `AlreadyFinalized` even for a bad target.
- The screener iterates a Python `set` (main.py:31), whose order is
  unspecified. When several words match, which one is reported is not fixed,
  so the contracts promise only "some matching word".
- The role is a string (main.py:39), checked against `"user"` and
  `"moderator"` (main.py:47, 52).

## Model

| member | source | states |
|---|---|---|
| Text.OccursIffSomePosition | app/main.py:32 | the scanning substring test used for `in` holds exactly when the word sits at some position of the text |
| Screener.FirstMatch | app/main.py:31-34 | scanning a word list returns `None` exactly when no listed word occurs in the lower-cased text; otherwise it returns a listed word that does occur |
| Screener.ContainsProfanity | app/main.py:28-34 | returns `None` iff no word of `PROFANE_WORDS` occurs in the text after lower-casing both; a returned word is in `PROFANE_WORDS` and occurs in the text |
| Screener.OrderIrrelevant | app/main.py:28-31 | whether the text is refused does not depend on the order in which the word set is enumerated |
| Screener.CaseInsensitive | app/main.py:32 | two texts equal after lower-casing get the same screening result |
| Screener.FlagsAnywhere | app/main.py:30-33 | a profane word in any ASCII case at any position of the text makes the screener report a word |
| Auth.GetCurrentUser | app/main.py:41-49 | missing or empty user or role header gives the 401 error; a role other than "user"/"moderator" gives InvalidRole; non-empty headers with a known role always succeed, with a user carrying exactly the header values |
| Auth.ModeratorRequired | app/main.py:51-54 | passes the user through iff the role is "moderator", else ModeratorRoleRequired |
| Auth.Moderator | app/main.py:41-54 | both gates together admit exactly a non-empty user name with role "moderator"; a "user" caller gets ModeratorRoleRequired, a missing header the 401 error, an unknown role InvalidRole |
| Feedback.IndexOf | app/main.py:141 | the dict lookup finds nothing iff the id is not in the store, and otherwise the first position holding that id |
| Feedback.UpdateKeepsIndex | app/main.py:159-166 | updating a record in place under the same id keeps the lookup result and the id set |
| Feedback.AppendIds | app/main.py:113 | inserting a record adds exactly its id to the store's ids |
| Submission.Submit | app/main.py:90-115 | fails iff some profane word occurs in the content, with an error naming such a word; on success the new record has the fresh id, the content, the author, `created_at = now`, status pending, no timestamps and no moderator, and is appended last with the id set growing by exactly that id |
| Submission.SubmitPreservesInvariant | app/main.py:101-113 | submitting keeps ids unique and every record well formed |
| Moderation.ParseTarget | app/main.py:156 | a target is accepted iff it is "approved" or "rejected", and then names a terminal status |
| Moderation.ParseName | app/main.py:57-60 | every terminal status is read back from its own name |
| Moderation.Finalize | app/main.py:158-166 | the updated record has the target status and the moderator, exactly the matching terminal timestamp set to now with the other cleared, and id, content, author and creation time unchanged |
| Moderation.Transition | app/main.py:141-174 | unknown id gives NotFound; a found pending record with target "approved" or "rejected" always succeeds; a non-pending record gives AlreadyFinalized(its status) whatever the target; a pending record with a bad target gives InvalidStatusUpdate; success happens only on a pending record, and leaves it with status = target, moderator set, one timestamp set and the other empty, identity fields and every other record unchanged, and a notice carrying the record's id, status, author and moderator |
| Moderation.TransitionIsOneShot | app/main.py:148-155 | after a successful transition, any further transition of the same id fails with AlreadyFinalized naming the new terminal status |
| Moderation.TransitionPreservesInvariant | app/main.py:158-166 | a successful transition keeps ids unique, records well formed and the id set unchanged |
| Seqs.Filter | app/main.py:127 | the comprehension filter keeps exactly the elements that pass, never more than it was given |
| Seqs.FilterCommute | app/main.py:126-129 | the status filter and the text filter can run in either order |
| Seqs.Slice | app/main.py:132 | the page `s[a:b]` has length `min(b, len) - a` when `a` is below both bounds and 0 otherwise, and its i-th element is `s[a + i]` |
| Seqs.PagesTile | app/main.py:132 | a page of m items followed by the next page of n items is the page of m + n items |
| Sorting.Insert | app/main.py:130 | inserting into a newest-first sequence keeps it newest first and adds exactly the one record |
| Sorting.SortDesc | app/main.py:130 | the result is newest first and a permutation of its input |
| Sorting.SortDescKeepsTies | app/main.py:130 | the sort is stable: for every timestamp, the records created then appear in input order |
| Sorting.SortedTiesDetermine | app/main.py:130 | two newest-first sequences that order every group of equal timestamps alike are equal |
| Sorting.StableSortIsUnique | app/main.py:130 | any newest-first arrangement that keeps ties in input order equals the model's sort, so the order is fully determined |
| Listing.Selected | app/main.py:125-129 | the filtered records are exactly the store records matching the status filter (when non-empty) and the lower-cased text filter (when non-empty) |
| Listing.SelectedIsStoreOrderFilter | app/main.py:125-129 | the two filter passes equal one order-preserving filter of the store by both conditions, so the selection lists the matching records in store insertion order |
| Listing.List | app/main.py:125-132 | every listed record is in the store and matches both filters; the page has `min(limit, n - skip)` records when `skip < n` and none otherwise, where n is the number of matching records; it is newest first |
| Listing.ListIsPageOfStableOrder | app/main.py:130-132 | the listing equals the `[skip : skip+limit]` page of any newest-first, tie-stable order of the matching records |
| Listing.FullListTiesInStoreOrder | app/main.py:125-130 | in the full listing, the records with a given creation time are the matching store records with that time, in store insertion order |
| Listing.FullListComplete | app/main.py:125-132 | the full listing holds exactly the matching store records |
| Listing.ListPagesTile | app/main.py:132 | consecutive listing pages concatenate to the larger page |
| Api.SubmitFeedback | app/main.py:84-115 | a missing header or unknown role refuses the submission; for an authenticated user of either role the outcome is exactly the submission in that user's name, so profane content is refused and clean content is appended as a pending record authored by that user |
| Api.ListFeedbacks | app/main.py:117-132 | succeeds iff the caller is a named moderator, and then returns the listing; every failure is a gate error, and a "user" caller gets ModeratorRoleRequired |
| Api.UpdateFeedbackStatus | app/main.py:134-174 | a caller who is not a named moderator gets a gate error before any lookup; for a moderator the outcome is the transition performed in that moderator's name |
| Api.SecondUpdateFails | app/main.py:139-155 | whatever two moderators send, the second update of the same record fails with AlreadyFinalized |
| Scenarios.ProfaneSubmissionRefused | app/main.py:90-100 | "This is nasty" is refused with the word "nasty" |
| Scenarios.CleanSubmissionStored | app/main.py:101-115 | alice's "Great service, thanks!" is stored as one pending record authored by alice |
| Scenarios.ModeratorApproves | app/main.py:158-167 | bob's approval sets the status, approval time and moderator, leaves the rejection time empty, and yields the notice |
| Scenarios.SecondDecisionRefused | app/main.py:148-155 | bob's later rejection of the approved record fails with AlreadyFinalized(approved) |
| Scenarios.ListingByStatus | app/main.py:121-127 | with the default window (skip 0, limit 20), filtering by "approved" returns the approved record, and filtering by "pending" returns nothing |

## Left out

- Logging (`structured_log` and the logger setup) is left out. It is output only and never changes a result.
- FastAPI routing, dependency injection, `response_model` serialisation and the `HTTPException` handler are left out. An error is the `Error` value; `Error.HttpStatus` gives the status code the handler would send.
- Request-body validation is left out. The 5–500 character bound on content appears only as `ValidContent`, part of the store invariant that `Submission.SubmitPreservesInvariant` assumes of its input.
- The background task is not run. A successful transition returns the `Notice` that `notify_status_change` would log.
- `uuid.uuid4()` and `datetime.utcnow()` become the parameters `freshId` and `now`. Timestamps are integers.
- Submission.Submit: requires an id not yet in the store. A colliding `uuid4` would overwrite a record in the dict; that case is not modelled.
- Api.SubmitFeedback: carries the same fresh-id requirement as `Submission.Submit`.
- Lower-casing covers ASCII letters only, where Python's `str.lower()` covers all of Unicode.
- `skip` and `limit` are natural numbers. Python's meaning for negative slice bounds is not modelled.
- `skip` and `limit` default to 0 and 20 when the query omits them (app/main.py:121-122). `Listing.List` and `Api.ListFeedbacks` always take both explicitly; `Listing.DefaultSkip` and `Listing.DefaultLimit` name the defaults, and `Scenarios.ListingByStatus` uses them.
- Screener.ContainsProfanity: enumerates the word set in one fixed order. Python's set order is unspecified, so the contract promises only some matching word, never a particular one.
- Concurrency and atomicity of the shared dict are left out. Every operation here runs alone.
