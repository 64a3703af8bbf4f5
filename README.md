# Claim lifecycle model

This project models the claims backend's lifecycle core in Dafny. Customers
submit claims. A claim is stored with status `submitted` and a one-entry audit
log. After that it changes only through two paths:

- a manual status update, which accepts any status string from any status;
- automatic triage, a keyword classifier that may start only from
  `submitted` or `pending_manual_review`.

Each successful transition writes the new status and appends exactly one
audit entry. Each failed one leaves the table as it was.

Files and modules:

- `models.dfy` (module `Models`): the record shapes of `backend/app/models.py`.
  These are `ClaimCreate` (customer id and description only), `ClaimUpdate`
  (status only), `AuditLogEntry` (timestamp, action and optional details) and
  `Claim`. In `Claim`, `status` is a free string, and `root_cause`,
  `resolution_type` and `refund_amount` are optional. `details` is a
  `map<string, string>`. Timestamps are opaque strings handed in by the caller.
- `triage.dfy` (module `Triage`): `ai_triage` as the function `AiTriage`.
  It uses ASCII lower-casing and an executable substring test, `Contains`.
  The test is proved equal to its meaning, `Occurs` ("some slice equals the
  keyword"). `AiTriage`'s contract is stated in terms of `Occurs`: the first
  keyword group wins, and the details are exactly the one validation reason.
  The reason strings keep their trailing periods.
- `lifecycle.dfy` (module `Lifecycle`): one stored row of the claims table
  (`Row`), whose `audit_log` may be SQL NULL. It holds the three transitions
  as pure functions (`Submit`, `UpdateStatus`, `AutoTriage`) and lemmas that
  span several operations: replaying a run of requests, two serialised
  updates, and triage followed by re-triage.
- `store.dfy` (module `Store`): the class `ClaimStore`. Its fields are the
  table `rows: map<int, Row>` and the id sequence `nextId`. Its methods are
  the five service operations. Each method is one atomic transaction, and its
  `ensures` ties the new table to the transition function of the old row.

The store does more than the bare service code. It models the limits of the
table's columns (backend/app/database.py:73-83):

- `status` is `VARCHAR(50)` and `customer_id` is `VARCHAR(255)`. Storing a
  longer string is an error, unless everything past the width is spaces. In
  that case PostgreSQL cuts the string to the width (`FitColumn`).
- So a manual update whose status the column refuses fails with
  `StorageError` and changes nothing. The service's generic exception handler
  rolls it back. A create whose customer id is refused fails the same way.
- PostgreSQL text cannot hold the NUL character, and psycopg2 refuses such a
  string parameter before the statement runs (`StorableText`). So a create
  whose customer id or description holds NUL, and an update whose status
  holds NUL, fail with `StorageError` and change nothing. The audit entries
  carry only these strings, stored statuses, and fixed texts, so the JSONB
  log never meets a NUL the checks have not already refused.
- When a status is cut, the audit entry keeps the full requested string. So
  the invariant "the status is what the last transition entry records" holds
  modulo that cut (`StatusAgreesWithLog`). For any status of at most 50
  characters it holds exactly.
- Ids come from a 32-bit `SERIAL` sequence. A create after the sequence's
  maximum fails with `StorageError`.

Failures are explicit variants of `Result`:

- `NotFound` covers `get_claim_by_id`'s and `update_claim_status`'s 404. It
  also covers `validate_claim`'s `None` return for a missing id.
- `InvalidTransition(id, status)` is `validate_claim`'s 400. It carries the
  claim id and the status that the error message names.
- `StorageError` is the 500 raised after a rollback.

## Model

| member | source | states |
|---|---|---|
| `Triage.Lower` | backend/app/services/ClaimService.py:295 | The lowered description has the same length, and each character is the lower-case form of the character at the same position. |
| `Triage.ContainsIffOccurs` | backend/app/services/ClaimService.py:299-302 | The executable substring test holds exactly when the keyword equals some slice of the text: the meaning of Python's `k in s`, both directions. |
| `Triage.AiTriage` | backend/app/services/ClaimService.py:290-309 | The status is `validated` iff the lowered description mentions missing/damaged/faulty. It is `rejected` iff it mentions none of those but one of spam/"test claim"/junk. Otherwise it is `pending_manual_review`. The details are exactly `{validation_reason: <reason>}`, with the reason text for that status. |
| `Triage.TriageIgnoresCase` | backend/app/services/ClaimService.py:295 | Triage of a description and of its lower-cased form agree, so ASCII case never changes the outcome. |
| `Triage.DefectKeywordWins` | backend/app/services/ClaimService.py:299-301 | A defect keyword anywhere in the description gives `validated` with the defect reason, whatever else it contains, "spam" included. |
| `Triage.SpamKeywordRejects` | backend/app/services/ClaimService.py:302-304 | A spam keyword anywhere in a description that names no defect gives `rejected` with the spam reason. |
| `Lifecycle.LogOrEmpty` | backend/app/services/ClaimService.py:43 | A stored log reads as itself, and a NULL or empty one reads as the empty list; the result is empty exactly in those two cases. The same rule is applied at lines 82, 122, 154 and 231. |
| `Lifecycle.ToClaim` | backend/app/services/ClaimService.py:34-45 | The claim handed back carries the row's key as its id and every column of the row unchanged, except the audit log, which is read NULL-as-empty. The same construction appears at lines 73-84, 113-124, 178-189 and 265-276. |
| `Lifecycle.FitColumn` | backend/app/database.py:75-77 | Storing into a VARCHAR(n) column succeeds iff the string fits or everything past n is spaces. The stored value is then a prefix of the string: the string itself when it fits, and exactly its first n characters when it is longer. Everything cut off is spaces. |
| `Lifecycle.SubmittedEntry` | backend/app/services/ClaimService.py:17-20 | The submission entry carries the given timestamp and the details `{customer_id}`, and its action text reads back as the status `submitted`. |
| `Lifecycle.StatusUpdatedEntry` | backend/app/services/ClaimService.py:157-160 | The update entry carries the given timestamp and the details `{previous_status, new_status}`, and its action text reads back as the requested status. |
| `Lifecycle.TriageEntry` | backend/app/services/ClaimService.py:244-247 | The triage entry carries the given timestamp and the classifier's details, and its action text reads back as the classifier's status. |
| `Lifecycle.Submit` | backend/app/services/ClaimService.py:17-29 | Creating a row succeeds iff neither the customer id nor the description holds NUL and the customer id column takes the id; otherwise it is a storage error. The stored customer id is exactly what the column makes of the given one. The new row is `submitted` with the given description and the database's submission time. Its log is the single "Claim Submitted" entry with details `{customer_id}`, and its resolution fields are empty. |
| `Lifecycle.UpdateStatus` | backend/app/services/ClaimService.py:144-173 | A manual update succeeds from any current status iff the requested status holds no NUL and the status column takes it; otherwise it is a storage error. Only status and log change. The log is the old log (NULL read as empty) plus exactly one entry: "Status Updated to {s}" with `{previous_status, new_status}`. A NUL-free status of at most 50 characters is stored as given. |
| `Lifecycle.CanAutoTriage` | backend/app/services/ClaimService.py:235 | A claim is eligible for triage exactly when its status is `submitted` or `pending_manual_review`; in particular a `validated` or `rejected` claim never is. |
| `Lifecycle.AutoTriage` | backend/app/services/ClaimService.py:218-261 | Triage succeeds iff the status is `submitted` or `pending_manual_review`. Otherwise it fails naming the id and the status. On success only status and log change. The status becomes the classifier's, and exactly one entry "AI Triage/Validation: Status changed to {s}" with the classifier's details is appended. |
| `Lifecycle.TriageSettles` | backend/app/services/ClaimService.py:234-240 | After a successful triage, a validated or rejected claim cannot be triaged again. A claim pending manual review can be, and it lands on the same status. |
| `Lifecycle.ReplayKeepsHistory` | backend/app/services/ClaimService.py:154-162 | Over any run of update and triage requests on one claim: the record fields never change, the earlier log stays a prefix, and the log grows by exactly one entry per request that succeeded. |
| `Lifecycle.SubmitThenReplay` | backend/app/services/ClaimService.py:17-22 | After submission and any run of requests, the log length is 1 plus the number of successful requests, and its first entry is the submission entry. |
| `Lifecycle.SerializedUpdatesKeepBoth` | backend/app/services/ClaimService.py:144-162 | Two manual updates that the row lock serialises, each requesting a NUL-free status of at most 50 characters, both succeed, in either order. The log gains both entries in the order they ran, and the second status wins. |
| `Lifecycle.SubmitThenTriageValidates` | backend/app/services/ClaimService.py:239-249 | A submitted claim whose customer id fits its column, whose texts hold no NUL, and whose description names a defect is validated by triage. It then has exactly two log entries, and the second gives the defect reason. |
| `Store.ClaimStore.Empty` | backend/app/database.py:73-83 | A freshly created table holds no rows, and its id sequence starts at 1. |
| `Store.ClaimStore.Open` | backend/app/database.py:74 | A table over existing rows whose ids all lie below the sequence's next value. |
| `Store.ClaimStore.CreateClaim` | backend/app/services/ClaimService.py:10-45 | On success, the row `Submit` computes is stored under a fresh id (the sequence's next value, not a stored id), the sequence advances, and that claim is returned. On a storage failure the table and the sequence are unchanged. |
| `Store.ClaimStore.GetAllClaims` | backend/app/services/ClaimService.py:56-85 | One claim per stored row, each id exactly once, each equal to its row read back (NULL log as empty). An empty table gives an empty list. |
| `Store.ClaimStore.GetClaimById` | backend/app/services/ClaimService.py:95-124 | The stored claim when the id exists, not-found otherwise. |
| `Store.ClaimStore.UpdateClaimStatus` | backend/app/services/ClaimService.py:137-189 | A missing id gives not-found, and a status the column refuses or that holds NUL gives a storage error; neither changes the table. Otherwise exactly that row becomes `UpdateStatus` of the old row, and the updated claim is returned. |
| `Store.ClaimStore.ValidateClaim` | backend/app/services/ClaimService.py:202-276 | A missing id gives not-found, and an ineligible status gives an invalid transition naming id and status; neither changes the table. Otherwise exactly that row becomes `AutoTriage` of the old row, and the updated claim is returned. |

## Left out

- Connections, cursors, commit/rollback/close, and the `SELECT ... FOR UPDATE`
  row lock are not modelled. Each operation is one atomic method, and
  concurrent requests on one claim are modelled as running one after another
  (`Replay`, `SerializedUpdatesKeepBoth`).
- Connectivity failures are not modelled. The only storage errors are the
  column limits, text holding NUL, and the end of the id sequence.
- Clock reads (`datetime.now()`, the column default `CURRENT_TIMESTAMP`) are
  parameters `at` and `dbNow`.
- JSON (de)serialisation of the audit log, `print` logging, and the
  formatting of error messages are left out. `InvalidTransition` carries the
  id and status, not the message text.
- `refund_amount` is kept as an optional whole number of hundredths. No
  operation writes it; the queries only hand it back. Its float conversion is
  not modelled.
- Lower-casing covers ASCII letters only, not Python's full Unicode
  `str.lower()`.
- Store.ClaimStore.CreateClaim: a failed insert does not advance the id
  sequence in the model. PostgreSQL can leave gaps in a sequence, and such
  gaps are not modelled.
- The HTTP layer (`backend/main.py`), the schema bootstrap, and the React
  front end are not part of this model.
