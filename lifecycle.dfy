/** The claim lifecycle on one stored row: what creating a claim, a manual
    status update and automatic triage compute, as pure functions, and the
    audit-trail invariants they keep. The store (module Store) applies these
    to its table one atomic operation at a time. */
module Lifecycle {
  import opened Models
  import opened Triage

  /** Width of the `customer_id VARCHAR(255)` column. */
  const CustomerIdWidth: nat := 255
  /** Width of the `status VARCHAR(50)` column. */
  const StatusWidth: nat := 50

  const SubmittedAction := "Claim Submitted"
  const UpdatePrefix := "Status Updated to "
  const TriagePrefix := "AI Triage/Validation: Status changed to "

  const CustomerIdKey := "customer_id"
  const PreviousStatusKey := "previous_status"
  const NewStatusKey := "new_status"

  /** Failure kinds: a missing claim, automatic triage from an ineligible
      status (naming the claim and its status), and a storage failure. */
  datatype Failure = NotFound | InvalidTransition(claimId: int, status: string) | StorageError

  datatype Result<T> = Ok(value: T) | Err(failure: Failure)

  /** One stored row of the claims table, keyed by its id in the table.
      The `audit_log` column may hold SQL NULL, hence the Option. */
  datatype Row = Row(
    customerId: string,
    description: string,
    status: string,
    submissionDate: Timestamp,
    rootCause: Option<string>,
    resolutionType: Option<string>,
    refundCents: Option<int>,
    auditLog: Option<seq<AuditLogEntry>>)

  /** A NULL or empty stored log reads as the empty list; any other log reads
      as itself. */
  function LogOrEmpty(log: Option<seq<AuditLogEntry>>): (entries: seq<AuditLogEntry>)
    ensures entries == [] <==> log == None || log == Some([])
    ensures log.Some? ==> entries == log.value
  {
    match log
    case None => []
    case Some(entries) => entries
  }

  /** The claim a query hands back for a stored row: the row's own fields
      under the row's key, with the audit log read NULL-as-empty. */
  function ToClaim(id: int, row: Row): (c: Claim)
    ensures c.id == id && c.status == row.status && c.auditLog == LogOrEmpty(row.auditLog)
    ensures c.customerId == row.customerId && c.description == row.description
    ensures c.submissionDate == row.submissionDate && c.rootCause == row.rootCause
    ensures c.resolutionType == row.resolutionType && c.refundCents == row.refundCents
  {
    Claim(id, row.customerId, row.description, row.status, row.submissionDate,
          row.rootCause, row.resolutionType, row.refundCents, LogOrEmpty(row.auditLog))
  }

  // ---------------------------------------------------------------------
  // Storing a string into a VARCHAR(n) column

  function AllSpaces(t: string): (b: bool)
    ensures b <==> forall i :: 0 <= i < |t| ==> t[i] == ' '
  {
    t == [] || (t[0] == ' ' && AllSpaces(t[1..]))
  }

  /** PostgreSQL's rule for storing `s` into a VARCHAR(width) column: a string
      that fits is stored as is; a longer one is an error unless everything past
      the width is spaces, in which case it is cut to the width. */
  function FitColumn(s: string, width: nat): (r: Option<string>)
    ensures r.Some? <==> |s| <= width || forall i :: width <= i < |s| ==> s[i] == ' '
    ensures r.Some? ==> |r.value| <= width && r.value <= s
    ensures r.Some? ==> forall i :: |r.value| <= i < |s| ==> s[i] == ' '
    ensures r.Some? && width < |s| ==> r.value == s[..width]
    ensures |s| <= width ==> r == Some(s)
  {
    if |s| <= width then Some(s)
    else if AllSpaces(s[width..]) then
      assert forall i :: width <= i < |s| ==> s[i] == s[width..][i - width];
      Some(s[..width])
    else
      assert exists i :: width <= i < |s| && s[i] == s[width..][i - width] && s[i] != ' ';
      None
  }

  /** PostgreSQL text cannot hold the NUL character, and psycopg2 refuses a
      string parameter that contains one before anything reaches the table. */
  predicate StorableText(s: string)
  {
    '\0' !in s
  }

  // ---------------------------------------------------------------------
  // Audit entries

  /** The entry a new claim starts with: it names the customer, and its action
      text reads back as the initial status. */
  function SubmittedEntry(customerId: string, at: Timestamp): (e: AuditLogEntry)
    ensures e.timestamp == at && e.details == Some(map[CustomerIdKey := customerId])
    ensures RecordedStatus(e) == Some(Submitted)
  {
    assert SubmittedAction[0] != UpdatePrefix[0];
    assert SubmittedAction[0] != TriagePrefix[0];
    AuditLogEntry(at, SubmittedAction, Some(map[CustomerIdKey := customerId]))
  }

  /** The entry of a manual update: it names the previous and the requested
      status, and its action text reads back as the requested status. */
  function StatusUpdatedEntry(previous: string, requested: string, at: Timestamp): (e: AuditLogEntry)
    ensures e.timestamp == at
    ensures e.details == Some(map[PreviousStatusKey := previous, NewStatusKey := requested])
    ensures RecordedStatus(e) == Some(requested)
  {
    var action := UpdatePrefix + requested;
    assert action[|UpdatePrefix|..] == requested;
    AuditLogEntry(at, action,
                  Some(map[PreviousStatusKey := previous, NewStatusKey := requested]))
  }

  /** The entry of automatic triage: it carries the classifier's details, and
      its action text reads back as the classifier's status. */
  function TriageEntry(t: TriageResult, at: Timestamp): (e: AuditLogEntry)
    ensures e.timestamp == at && e.details == Some(t.details)
    ensures RecordedStatus(e) == Some(t.status)
  {
    var action := TriagePrefix + t.status;
    assert action[0] != UpdatePrefix[0];
    assert action[|TriagePrefix|..] == t.status;
    AuditLogEntry(at, action, Some(t.details))
  }

  /** The status an entry's action text says the claim moved to, if it is a
      transition entry; read back from the text alone. */
  function RecordedStatus(e: AuditLogEntry): Option<string>
  {
    if UpdatePrefix <= e.action then Some(e.action[|UpdatePrefix|..])
    else if TriagePrefix <= e.action then Some(e.action[|TriagePrefix|..])
    else if e.action == SubmittedAction then Some(Submitted)
    else None
  }

  // ---------------------------------------------------------------------
  // What every transition keeps

  /** Everything but `status` and `audit_log` is the same in both rows. */
  ghost predicate SameRecord(a: Row, b: Row)
  {
    a.customerId == b.customerId && a.description == b.description &&
    a.submissionDate == b.submissionDate && a.rootCause == b.rootCause &&
    a.resolutionType == b.resolutionType && a.refundCents == b.refundCents
  }

  /** `b`'s log is `a`'s log (NULL read as empty) followed by exactly one entry. */
  ghost predicate AppendsOne(a: Row, b: Row)
  {
    b.auditLog.Some? &&
    var before := LogOrEmpty(a.auditLog);
    |b.auditLog.value| == |before| + 1 && before <= b.auditLog.value
  }

  /** The stored status is what the last audit entry records (as the status
      column stores it). */
  ghost predicate StatusAgreesWithLog(row: Row)
  {
    row.auditLog.Some? && |row.auditLog.value| > 0 &&
    var recorded := RecordedStatus(row.auditLog.value[|row.auditLog.value| - 1]);
    recorded.Some? && FitColumn(recorded.value, StatusWidth) == Some(row.status)
  }

  // ---------------------------------------------------------------------
  // The transitions

  /** `create_claim`: the new row is `submitted`, its log is the single
      submission entry naming the customer, and the resolution fields are
      empty. The customer id must fit its column, and neither text may hold NUL. */
  function Submit(req: ClaimCreate, at: Timestamp, dbNow: Timestamp): (r: Result<Row>)
    ensures r.Ok? <==> StorableText(req.customerId) && StorableText(req.description) &&
                       FitColumn(req.customerId, CustomerIdWidth).Some?
    ensures r.Err? ==> r.failure == StorageError
    ensures r.Ok? ==> r.value.status == Submitted && r.value.description == req.description
    ensures r.Ok? ==> r.value.auditLog == Some([SubmittedEntry(req.customerId, at)])
    ensures r.Ok? ==> Some(r.value.customerId) == FitColumn(req.customerId, CustomerIdWidth)
    ensures r.Ok? ==> r.value.submissionDate == dbNow
    ensures r.Ok? ==> r.value.rootCause == None && r.value.resolutionType == None && r.value.refundCents == None
    ensures r.Ok? ==> StatusAgreesWithLog(r.value)
  {
    if !StorableText(req.customerId) || !StorableText(req.description) then Err(StorageError)
    else match FitColumn(req.customerId, CustomerIdWidth)
    case None => Err(StorageError)
    case Some(stored) =>
      Ok(Row(stored, req.description, Submitted, dbNow, None, None, None,
             Some([SubmittedEntry(req.customerId, at)])))
  }

  /** `update_claim_status` on an existing row: any status is accepted from any
      status; only `status` and `audit_log` change, and the log gains exactly
      the one entry naming the previous and the requested status. The status
      column may refuse the requested string, and no text may hold NUL. */
  function UpdateStatus(row: Row, requested: string, at: Timestamp): (r: Result<Row>)
    ensures r.Ok? <==> StorableText(requested) && FitColumn(requested, StatusWidth).Some?
    ensures r.Err? ==> r.failure == StorageError
    ensures r.Ok? ==> SameRecord(row, r.value) && AppendsOne(row, r.value)
    ensures r.Ok? ==> r.value.auditLog.value[|r.value.auditLog.value| - 1] == StatusUpdatedEntry(row.status, requested, at)
    ensures r.Ok? ==> r.value.status <= requested
    ensures StorableText(requested) && |requested| <= StatusWidth ==> r.Ok? && r.value.status == requested
    ensures r.Ok? ==> StatusAgreesWithLog(r.value)
  {
    if !StorableText(requested) then Err(StorageError)
    else match FitColumn(requested, StatusWidth)
    case None => Err(StorageError)
    case Some(stored) =>
      var entry := StatusUpdatedEntry(row.status, requested, at);
      Ok(row.(status := stored, auditLog := Some(LogOrEmpty(row.auditLog) + [entry])))
  }

  /** Automatic triage may start only from these two statuses; in particular
      never from a settled `validated` or `rejected` claim. */
  predicate CanAutoTriage(status: string): (eligible: bool)
    ensures eligible <==> status in {Submitted, PendingManualReview}
    ensures eligible ==> status != Validated && status != Rejected
  {
    status == Submitted || status == PendingManualReview
  }

  /** `validate_claim` on an existing row: from `submitted` or
      `pending_manual_review` the row takes the classifier's status and its
      log gains one entry carrying the classifier's details; from any other
      status it fails, naming the claim and the status. */
  function AutoTriage(id: int, row: Row, at: Timestamp): (r: Result<Row>)
    ensures r.Ok? <==> CanAutoTriage(row.status)
    ensures r.Err? ==> r.failure == InvalidTransition(id, row.status)
    ensures r.Ok? ==> SameRecord(row, r.value) && AppendsOne(row, r.value)
    ensures r.Ok? ==> r.value.status == AiTriage(row.description).status
    ensures r.Ok? ==> r.value.auditLog.value[|r.value.auditLog.value| - 1] == TriageEntry(AiTriage(row.description), at)
    ensures r.Ok? ==> r.value.status in {Validated, Rejected, PendingManualReview}
    ensures r.Ok? ==> StatusAgreesWithLog(r.value)
  {
    if !CanAutoTriage(row.status) then Err(InvalidTransition(id, row.status))
    else
      var t := AiTriage(row.description);
      var entry := TriageEntry(t, at);
      Ok(row.(status := t.status, auditLog := Some(LogOrEmpty(row.auditLog) + [entry])))
  }

  // ---------------------------------------------------------------------
  // Lifecycle properties over several operations

  /** After triage a claim is settled or waits for review: a validated or
      rejected claim cannot be triaged again, while a claim pending manual
      review can, and (its description being unchanged) lands on the same status. */
  lemma TriageSettles(id: int, row: Row, at: Timestamp, later: Timestamp)
    requires AutoTriage(id, row, at).Ok?
    ensures var once := AutoTriage(id, row, at).value;
      if once.status == PendingManualReview then
        AutoTriage(id, once, later).Ok? && AutoTriage(id, once, later).value.status == PendingManualReview
      else
        AutoTriage(id, once, later) == Err(InvalidTransition(id, once.status))
  {
  }

  /** A request that reaches an existing claim. */
  datatype Request = SetStatus(requested: string, at: Timestamp) | AutoTriageRequest(at: Timestamp)

  function Apply(id: int, row: Row, req: Request): Result<Row>
  {
    match req
    case SetStatus(requested, at) => UpdateStatus(row, requested, at)
    case AutoTriageRequest(at) => AutoTriage(id, row, at)
  }

  /** Runs the requests one after another against one claim, as the row lock
      serialises them; a failed request leaves the row as it was. Gives the
      final row and the number of requests that succeeded. */
  function Replay(id: int, row: Row, reqs: seq<Request>): (Row, nat)
    decreases |reqs|
  {
    if reqs == [] then (row, 0)
    else
      match Apply(id, row, reqs[0])
      case Err(_) => Replay(id, row, reqs[1..])
      case Ok(next) =>
        var (final, applied) := Replay(id, next, reqs[1..]);
        (final, applied + 1)
  }

  /** Over any run of requests the record fields never change, the earlier log
      is kept as a prefix, and the log grows by exactly one entry per request
      that succeeded. */
  lemma {:induction false} ReplayKeepsHistory(id: int, row: Row, reqs: seq<Request>)
    ensures var (final, applied) := Replay(id, row, reqs);
      SameRecord(row, final) && applied <= |reqs| &&
      LogOrEmpty(row.auditLog) <= LogOrEmpty(final.auditLog) &&
      |LogOrEmpty(final.auditLog)| == |LogOrEmpty(row.auditLog)| + applied
    decreases |reqs|
  {
    if reqs != [] {
      match Apply(id, row, reqs[0])
      case Err(_) =>
        ReplayKeepsHistory(id, row, reqs[1..]);
      case Ok(next) =>
        ReplayKeepsHistory(id, next, reqs[1..]);
    }
  }

  /** From submission on, the log holds the submission entry first and one
      more entry per successful status-affecting request. */
  lemma SubmitThenReplay(req: ClaimCreate, at: Timestamp, dbNow: Timestamp, id: int, reqs: seq<Request>)
    requires Submit(req, at, dbNow).Ok?
    ensures var (final, applied) := Replay(id, Submit(req, at, dbNow).value, reqs);
      |LogOrEmpty(final.auditLog)| == 1 + applied &&
      LogOrEmpty(final.auditLog)[0] == SubmittedEntry(req.customerId, at)
  {
    var row := Submit(req, at, dbNow).value;
    ReplayKeepsHistory(id, row, reqs);
    var (final, applied) := Replay(id, row, reqs);
    assert LogOrEmpty(row.auditLog) <= LogOrEmpty(final.auditLog);
    assert LogOrEmpty(row.auditLog)[0] == SubmittedEntry(req.customerId, at);
  }

  /** Two status updates that the row lock serialises, in whichever order it
      grants them: both succeed and both entries land in the log, in that order. */
  lemma SerializedUpdatesKeepBoth(id: int, row: Row, first: string, firstAt: Timestamp, second: string, secondAt: Timestamp)
    requires |first| <= StatusWidth && |second| <= StatusWidth
    requires StorableText(first) && StorableText(second)
    ensures var (final, applied) := Replay(id, row, [SetStatus(first, firstAt), SetStatus(second, secondAt)]);
      applied == 2 && final.status == second &&
      LogOrEmpty(final.auditLog) == LogOrEmpty(row.auditLog) +
        [StatusUpdatedEntry(row.status, first, firstAt), StatusUpdatedEntry(first, second, secondAt)]
  {
    var reqs := [SetStatus(first, firstAt), SetStatus(second, secondAt)];
    var middle := UpdateStatus(row, first, firstAt).value;
    var last := UpdateStatus(middle, second, secondAt).value;
    assert reqs[1..] == [SetStatus(second, secondAt)];
    assert reqs[1..][1..] == [];
    assert Replay(id, middle, reqs[1..]) == (last, 1);
  }

  /** Submission followed by triage: a claim whose description names a defect
      (as "item missing from box" does) ends up validated with exactly two log
      entries, the second giving the defect-keyword reason. */
  lemma SubmitThenTriageValidates(req: ClaimCreate, at: Timestamp, dbNow: Timestamp, id: int, later: Timestamp)
    requires |req.customerId| <= CustomerIdWidth
    requires StorableText(req.customerId) && StorableText(req.description)
    requires MentionsDefect(req.description)
    ensures var submitted := Submit(req, at, dbNow);
      submitted.Ok? && submitted.value.status == Submitted &&
      var triaged := AutoTriage(id, submitted.value, later);
      triaged.Ok? && triaged.value.status == Validated &&
      triaged.value.auditLog == Some([SubmittedEntry(req.customerId, at), TriageEntry(AiTriage(req.description), later)]) &&
      triaged.value.auditLog.value[1].details == Some(map[ReasonKey := DefectReason])
  {
    var row := Submit(req, at, dbNow).value;
    var triaged := AutoTriage(id, row, later).value;
    assert LogOrEmpty(row.auditLog) == [SubmittedEntry(req.customerId, at)];
    var entries := [SubmittedEntry(req.customerId, at), TriageEntry(AiTriage(req.description), later)];
    assert triaged.auditLog.value == [SubmittedEntry(req.customerId, at)] + [TriageEntry(AiTriage(req.description), later)];
    assert triaged.auditLog.value == entries;
    assert entries[1].details == Some(map[ReasonKey := DefectReason]);
  }
}
