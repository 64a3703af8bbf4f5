/** The claims table and the service operations on it (`create_claim`,
    `get_all_claims`, `get_claim_by_id`, `update_claim_status`,
    `validate_claim`). Each method is one atomic transaction: it reads the row
    it needs, computes the new row, and either writes it back whole or leaves
    the table exactly as it was. */
module Store {
  import opened Models
  import opened Triage
  import opened Lifecycle

  /** Largest value a SERIAL (32-bit) key can take. */
  const MaxSerialId := 0x7FFF_FFFF

  /** A set with no members is the empty set. This and the unreachable branch
      of PickOne only supply the extensionality step that the `:|` choice in
      GetAllClaims needs; they model nothing of the service. */
  lemma EmptyWithoutMembers(s: set<int>)
    requires forall y :: y !in s
    ensures s == {}
  {
    assert forall y :: y in s <==> y in {};
    assert s <= {};
  }

  /** Some member of a non-empty set, chosen without any promised order. */
  method PickOne(s: set<int>) returns (x: int)
    requires s != {}
    ensures x in s
  {
    if forall y :: y !in s {
      EmptyWithoutMembers(s);
      assert false;
    }
    x :| x in s;
  }

  class ClaimStore {
    /** The claims table: stored rows by id. */
    var rows: map<int, Row>
    /** The next value of the id sequence. */
    var nextId: int

    /** Ids come from the sequence: every stored id is positive and below the
        next one, so a fresh id is never a stored one. */
    ghost predicate Valid()
      reads this
    {
      1 <= nextId <= MaxSerialId + 1 &&
      forall id :: id in rows ==> 1 <= id < nextId
    }

    /** A freshly created table. */
    constructor Empty()
      ensures Valid() && rows == map[] && nextId == 1
    {
      rows := map[];
      nextId := 1;
    }

    /** A table that already holds rows (some perhaps with a NULL audit log). */
    constructor Open(existing: map<int, Row>, next: int)
      requires 1 <= next <= MaxSerialId + 1
      requires forall id :: id in existing ==> 1 <= id < next
      ensures Valid() && rows == existing && nextId == next
    {
      rows := existing;
      nextId := next;
    }

    /** `create_claim`: inserts one `submitted` row under a fresh id and
        returns it; on a storage failure nothing is written. */
    method CreateClaim(claim: ClaimCreate, at: Timestamp, dbNow: Timestamp) returns (r: Result<Claim>)
      requires Valid()
      modifies this
      ensures Valid()
      ensures old(nextId) > MaxSerialId || Submit(claim, at, dbNow).Err? ==>
        r == Err(StorageError) && rows == old(rows) && nextId == old(nextId)
      ensures old(nextId) <= MaxSerialId && Submit(claim, at, dbNow).Ok? ==>
        old(nextId) !in old(rows) &&
        rows == old(rows)[old(nextId) := Submit(claim, at, dbNow).value] &&
        nextId == old(nextId) + 1 &&
        r == Ok(ToClaim(old(nextId), Submit(claim, at, dbNow).value))
    {
      if nextId > MaxSerialId {
        return Err(StorageError);
      }
      if !StorableText(claim.customerId) || !StorableText(claim.description) {
        return Err(StorageError);
      }
      var entry := SubmittedEntry(claim.customerId, at);
      var storedCustomerId := FitColumn(claim.customerId, CustomerIdWidth);
      if storedCustomerId.None? {
        return Err(StorageError);
      }
      var id := nextId;
      var row := Row(storedCustomerId.value, claim.description, Submitted, dbNow, None, None, None, Some([entry]));
      rows := rows[id := row];
      nextId := nextId + 1;
      r := Ok(ToClaim(id, row));
    }

    /** `get_all_claims`: one claim per stored row, each exactly once, in an
        order the table does not fix; an empty table gives an empty list. */
    method GetAllClaims() returns (claims: seq<Claim>)
      ensures |claims| == |rows|
      ensures forall i :: 0 <= i < |claims| ==> claims[i].id in rows && claims[i] == ToClaim(claims[i].id, rows[claims[i].id])
      ensures forall id :: id in rows ==> exists i :: 0 <= i < |claims| && claims[i].id == id
      ensures forall i, j :: 0 <= i < j < |claims| ==> claims[i].id != claims[j].id
    {
      var remaining := rows.Keys;
      claims := [];
      while remaining != {}
        invariant remaining <= rows.Keys
        invariant |claims| + |remaining| == |rows.Keys|
        invariant forall i :: 0 <= i < |claims| ==> claims[i].id in rows.Keys - remaining && claims[i] == ToClaim(claims[i].id, rows[claims[i].id])
        invariant forall id :: id in rows.Keys - remaining ==> exists i :: 0 <= i < |claims| && claims[i].id == id
        invariant forall i, j :: 0 <= i < j < |claims| ==> claims[i].id != claims[j].id
        decreases remaining
      {
        var id := PickOne(remaining);
        ghost var before, remainingBefore := claims, remaining;
        claims := claims + [ToClaim(id, rows[id])];
        remaining := remaining - {id};
        forall done | done in rows.Keys - remaining
          ensures exists i :: 0 <= i < |claims| && claims[i].id == done
        {
          if done == id {
            assert claims[|before|].id == done;
          } else {
            assert done in rows.Keys - remainingBefore;
            var i :| 0 <= i < |before| && before[i].id == done;
            assert claims[i] == before[i];
          }
        }
      }
      assert rows.Keys - remaining == rows.Keys;
    }

    /** `get_claim_by_id`: the stored claim, or not-found. */
    method GetClaimById(id: int) returns (r: Result<Claim>)
      ensures id in rows ==> r == Ok(ToClaim(id, rows[id]))
      ensures id !in rows ==> r == Err(NotFound)
    {
      if id !in rows {
        return Err(NotFound);
      }
      r := Ok(ToClaim(id, rows[id]));
    }

    /** `update_claim_status`: on an existing claim writes the requested status
        and the log with one more entry; a missing claim or a status the column
        refuses leaves the table untouched. */
    method UpdateClaimStatus(id: int, update: ClaimUpdate, at: Timestamp) returns (r: Result<Claim>)
      requires Valid()
      modifies this
      ensures Valid() && nextId == old(nextId)
      ensures id !in old(rows) ==> r == Err(NotFound) && rows == old(rows)
      ensures id in old(rows) && UpdateStatus(old(rows)[id], update.status, at).Err? ==>
        r == Err(StorageError) && rows == old(rows)
      ensures id in old(rows) && UpdateStatus(old(rows)[id], update.status, at).Ok? ==>
        rows == old(rows)[id := UpdateStatus(old(rows)[id], update.status, at).value] &&
        r == Ok(ToClaim(id, rows[id]))
    {
      if id !in rows {
        return Err(NotFound);
      }
      var row := rows[id];
      var auditLog := LogOrEmpty(row.auditLog);
      var currentStatus := row.status;
      var entry := StatusUpdatedEntry(currentStatus, update.status, at);
      auditLog := auditLog + [entry];
      var storedStatus := FitColumn(update.status, StatusWidth);
      if !StorableText(update.status) || storedStatus.None? {
        return Err(StorageError);
      }
      rows := rows[id := row.(status := storedStatus.value, auditLog := Some(auditLog))];
      r := Ok(ToClaim(id, rows[id]));
    }

    /** `validate_claim`: on an existing claim in `submitted` or
        `pending_manual_review`, writes the classifier's status and the log
        with one more entry; a missing claim or any other status leaves the
        table untouched. */
    method ValidateClaim(id: int, at: Timestamp) returns (r: Result<Claim>)
      requires Valid()
      modifies this
      ensures Valid() && nextId == old(nextId)
      ensures id !in old(rows) ==> r == Err(NotFound) && rows == old(rows)
      ensures id in old(rows) && !CanAutoTriage(old(rows)[id].status) ==>
        r == Err(InvalidTransition(id, old(rows)[id].status)) && rows == old(rows)
      ensures id in old(rows) && CanAutoTriage(old(rows)[id].status) ==>
        rows == old(rows)[id := AutoTriage(id, old(rows)[id], at).value] &&
        r == Ok(ToClaim(id, rows[id]))
    {
      if id !in rows {
        return Err(NotFound);
      }
      var row := rows[id];
      var auditLog := LogOrEmpty(row.auditLog);
      if row.status != Submitted && row.status != PendingManualReview {
        return Err(InvalidTransition(id, row.status));
      }
      var triage := AiTriage(row.description);
      var newStatus := triage.status;
      var entry := TriageEntry(triage, at);
      auditLog := auditLog + [entry];
      rows := rows[id := row.(status := newStatus, auditLog := Some(auditLog))];
      r := Ok(ToClaim(id, rows[id]));
    }
  }

  /** A client of the store: submit a claim whose description reports a
      missing item, triage it, and try to triage it again. */
  method SubmitTriageRetriage(before: string, after: string)
    requires StorableText(before) && StorableText(after)
  {
    var store := new ClaimStore.Empty();
    var description := before + "missing" + after;
    DefectKeywordWins(before, "missing", after);
    var created := store.CreateClaim(ClaimCreate("C1", description), "t0", "d0");
    assert created.Ok? && created.value.id == 1 && created.value.status == Submitted;
    assert |created.value.auditLog| == 1;
    var triaged := store.ValidateClaim(1, "t1");
    assert triaged.Ok? && triaged.value.status == Validated;
    assert |triaged.value.auditLog| == 2;
    assert triaged.value.auditLog[1].details == Some(map[ReasonKey := DefectReason]);
    var again := store.ValidateClaim(1, "t2");
    assert again == Err(InvalidTransition(1, Validated));
    var all := store.GetAllClaims();
    assert |all| == 1 && all[0] == triaged.value;
    var missing := store.GetClaimById(2);
    assert missing == Err(NotFound);
  }
}
