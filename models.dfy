/** Record shapes of the claims backend: the request bodies, the audit-log
    entry and the claim itself, as declared in backend/app/models.py. */
module Models {

  datatype Option<+T> = None | Some(value: T)

  /** Timestamps are produced by clocks outside the model; they are opaque
      ISO-8601 texts handed in by the caller. */
  type Timestamp = string

  /** The free-form `details` payload of an audit entry: a string-keyed dictionary. */
  type Details = map<string, string>

  /** Body of a create request: only the customer id and the description. */
  datatype ClaimCreate = ClaimCreate(customerId: string, description: string)

  /** Body of a manual status-update request: only the new status. */
  datatype ClaimUpdate = ClaimUpdate(status: string)

  /** One immutable lifecycle event. `details` is optional (absent by default). */
  datatype AuditLogEntry = AuditLogEntry(timestamp: Timestamp, action: string, details: Option<Details>)

  /** A claim as handed back to callers. `status` is an unconstrained string;
      `rootCause`, `resolutionType` and `refundCents` are reserved for a
      resolution workflow that no operation writes. The refund is kept in
      hundredths, as the DECIMAL(10, 2) column stores it. */
  datatype Claim = Claim(
    id: int,
    customerId: string,
    description: string,
    status: string,
    submissionDate: Timestamp,
    rootCause: Option<string>,
    resolutionType: Option<string>,
    refundCents: Option<int>,
    auditLog: seq<AuditLogEntry>)
}
