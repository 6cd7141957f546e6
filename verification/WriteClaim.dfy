/** The lease on a record that is about to be written to Xero: a timestamp, taken by one conditional
    update and cleared by another that compares it. Times are milliseconds. */
module WriteClaim {
  import opened Common

  const XERO_WRITE_CLAIM_LEASE_MS := 5 * 60 * 1000

  datatype OperationAction = Approve | Decline | Withdraw | OtherAction
  datatype OperationStatus = Prepared | OutcomeUnknown | ProviderAccepted | Settled
  datatype Operation = Operation(action: OperationAction, status: OperationStatus)

  datatype Row = Row(
    clerkOrgId: string,
    organisationId: string,
    approvalStatus: string,
    archivedAt: Option<int>,
    derivedSequence: int,
    failedAction: Option<string>,
    sourceRemoteId: Option<string>,
    sourceType: string,
    operations: seq<Operation>,
    claimedAt: Option<int>
  )

  datatype Scope = Scope(clerkOrgId: string, organisationId: string, recordId: string)

  /** `expectedFailedAction` is Some only when the caller passes it, and may then ask for no failed action. */
  datatype Expectation = Expectation(
    status: string,
    sequence: int,
    failedAction: Option<Option<string>>,
    isLocalAction: bool
  )

  predicate InScope(row: Row, scope: Scope) {
    row.clerkOrgId == scope.clerkOrgId && row.organisationId == scope.organisationId
  }

  /** noUnresolvedSubmitOperationWhere */
  predicate NoUnresolvedOperation(row: Row) {
    forall i :: 0 <= i < |row.operations| ==>
      !(row.operations[i].action in {Approve, Decline, Withdraw}
        && row.operations[i].status in {Prepared, OutcomeUnknown, ProviderAccepted})
  }

  /** unclaimedOrExpiredXeroWriteWhere */
  predicate UnclaimedOrExpired(row: Row, now: int) {
    row.claimedAt.None? || row.claimedAt.value < now - XERO_WRITE_CLAIM_LEASE_MS
  }

  /** The where clause of the acquiring update. */
  predicate MayClaim(row: Row, scope: Scope, expected: Expectation, now: int) {
    && InScope(row, scope)
    && NoUnresolvedOperation(row)
    && (expected.isLocalAction ==> row.sourceRemoteId.None? && row.sourceType == "team_calendar_leave")
    && row.approvalStatus == expected.status
    && row.archivedAt.None?
    && row.derivedSequence == expected.sequence
    && (expected.failedAction.Some? ==> row.failedAction == expected.failedAction.value)
    && UnclaimedOrExpired(row, now)
  }

  /** What a claim takes: the row of the caller's tenant as the caller last saw it, with every approval, decline
      or withdrawal settled, and no claim made in the last five minutes. */
  lemma ClaimMeaning(row: Row, scope: Scope, expected: Expectation, now: int)
    ensures MayClaim(row, scope, expected, now) <==>
              && (row.clerkOrgId, row.organisationId) == (scope.clerkOrgId, scope.organisationId)
              && (row.approvalStatus, row.derivedSequence, row.archivedAt) == (expected.status, expected.sequence, None)
              && (expected.failedAction.None? || row.failedAction == expected.failedAction.value)
              && (!expected.isLocalAction || (row.sourceRemoteId.None? && row.sourceType == "team_calendar_leave"))
              && (forall o :: o in row.operations ==> o.action == OtherAction || o.status == Settled)
              && (row.claimedAt.None? || now - row.claimedAt.value > 300_000)
  {
    assert forall i :: 0 <= i < |row.operations| ==> row.operations[i] in row.operations;
  }

  // ----- runs over one record ----------------------------------------------------------------

  /** What can happen to a record: a claim attempt, a release, or any change that leaves the stamp alone. */
  datatype Event =
    | AcquireEvent(scope: Scope, expected: Expectation, connectionActive: bool, now: int, claimedAt: int)
    | ReleaseEvent(scope: Scope, claimedAt: int)
    | OtherChange(row: Row)

  /** A claim attempt that succeeds on this row. */
  predicate Claims(row: Row, event: Event) {
    && event.AcquireEvent? && (event.connectionActive || event.expected.isLocalAction)
    && MayClaim(row, event.scope, event.expected, event.now)
  }

  predicate Releases(row: Row, event: Event) {
    event.ReleaseEvent? && InScope(row, event.scope) && row.claimedAt == Some(event.claimedAt)
  }

  function After(row: Row, event: Event): Row {
    match event
    case AcquireEvent(_, _, _, _, claimedAt) => if Claims(row, event) then row.(claimedAt := Some(claimedAt)) else row
    case ReleaseEvent(_, _) => if Releases(row, event) then row.(claimedAt := None) else row
    case OtherChange(changed) => changed.(claimedAt := row.claimedAt)
  }

  /** All records after an event on one of them. */
  function AfterOn(rows: map<string, Row>, recordId: string, event: Event): map<string, Row> {
    if recordId in rows then rows[recordId := After(rows[recordId], event)] else rows
  }

  /** The two steps, said of the row: only a local action claims without an active connection, and a release
      clears the stamp of a row of the caller's tenant that still carries it. */
  lemma StepMeaning(row: Row, scope: Scope, expected: Expectation, connectionActive: bool, now: int, claimedAt: int)
    ensures var claim := AcquireEvent(scope, expected, connectionActive, now, claimedAt);
            && (Claims(row, claim) <==> (connectionActive || expected.isLocalAction) && MayClaim(row, scope, expected, now))
            && After(row, claim) == row.(claimedAt := if Claims(row, claim) then Some(claimedAt) else row.claimedAt)
    ensures After(row, ReleaseEvent(scope, claimedAt)) ==
              row.(claimedAt :=
                if (row.clerkOrgId, row.organisationId, row.claimedAt) == (scope.clerkOrgId, scope.organisationId, Some(claimedAt))
                then None else row.claimedAt)
    ensures Releases(row, ReleaseEvent(scope, claimedAt)) <==>
              (row.clerkOrgId, row.organisationId, row.claimedAt) == (scope.clerkOrgId, scope.organisationId, Some(claimedAt))
  {
    hide MayClaim;
  }

  class AvailabilityRecords {
    var rows: map<string, Row>

    /** Claims the record, returning the claim's timestamp, or None when the update matched no row. */
    method Acquire(scope: Scope, expected: Expectation, connectionActive: bool, now: int, claimedAt: int)
      returns (claim: Option<int>)
      modifies this
      ensures claim == None || claim == Some(claimedAt)
      ensures var event := AcquireEvent(scope, expected, connectionActive, now, claimedAt);
              && (claim.Some? <==> scope.recordId in old(rows) && Claims(old(rows)[scope.recordId], event))
              && rows == AfterOn(old(rows), scope.recordId, event)
    {
      assert scope.recordId in rows ==> rows == rows[scope.recordId := rows[scope.recordId]];
      if !(connectionActive || expected.isLocalAction) {
        return None;
      }
      if scope.recordId in rows && MayClaim(rows[scope.recordId], scope, expected, now) {
        rows := rows[scope.recordId := rows[scope.recordId].(claimedAt := Some(claimedAt))];
        return Some(claimedAt);
      }
      return None;
    }

    /** Clears the claim if it is still the caller's. */
    method Release(scope: Scope, claimedAt: int) returns (released: bool)
      modifies this
      ensures var event := ReleaseEvent(scope, claimedAt);
              && (released <==> scope.recordId in old(rows) && Releases(old(rows)[scope.recordId], event))
              && rows == AfterOn(old(rows), scope.recordId, event)
    {
      assert scope.recordId in rows ==> rows == rows[scope.recordId := rows[scope.recordId]];
      released := scope.recordId in rows && InScope(rows[scope.recordId], scope)
                  && rows[scope.recordId].claimedAt == Some(claimedAt);
      if released {
        rows := rows[scope.recordId := rows[scope.recordId].(claimedAt := None)];
      }
    }
  }

  /** The row before event n. */
  function Before(start: Row, events: seq<Event>, n: nat): Row
    requires n <= |events|
  {
    if n == 0 then start else After(Before(start, events, n - 1), events[n - 1])
  }

  ghost predicate ClaimedBy(start: Row, events: seq<Event>, i: nat) {
    i < |events| && Claims(Before(start, events, i), events[i])
  }

  /** No release succeeds at events i+1 to j-1. */
  ghost predicate NoReleaseBetween(start: Row, events: seq<Event>, i: nat, j: nat) {
    forall k :: i < k < j && k < |events| ==> !Releases(Before(start, events, k), events[k])
  }

  /** The holder of claim i has not been released before event n. */
  ghost predicate Holds(start: Row, events: seq<Event>, i: nat, n: nat) {
    ClaimedBy(start, events, i) && i < n && NoReleaseBetween(start, events, i, n)
  }

  /** No successful claim is stamped with a time before the clock it is made at. */
  ghost predicate NeverBackdated(start: Row, events: seq<Event>) {
    forall k :: 0 <= k < |events| && ClaimedBy(start, events, k) ==> events[k].claimedAt >= events[k].now
  }

  /** While claim i is not released, the stamp is its own or one more than a lease later. */
  lemma {:induction false} StampSinceClaim(start: Row, events: seq<Event>, i: nat, n: nat)
    requires i < n <= |events| && Holds(start, events, i, n) && NeverBackdated(start, events)
    ensures var stamp := Before(start, events, n).claimedAt;
            stamp.Some? && (stamp.value == events[i].claimedAt || stamp.value > events[i].claimedAt + XERO_WRITE_CLAIM_LEASE_MS)
    decreases n
  {
    hide MayClaim;
    if n > i + 1 {
      StampSinceClaim(start, events, i, n - 1);
      var row := Before(start, events, n - 1);
      if Claims(row, events[n - 1]) {
        ClaimIsAfterLease(row, events[n - 1]);
      }
    }
  }

  lemma ClaimIsAfterLease(row: Row, event: Event)
    requires Claims(row, event) && row.claimedAt.Some?
    ensures event.now > row.claimedAt.value + XERO_WRITE_CLAIM_LEASE_MS
  {
  }

  /** Two claims with no successful release between them are more than five minutes apart, whatever else
      happens to the record and however the clocks run. */
  lemma ClaimsAreALeaseApart(start: Row, events: seq<Event>, i: nat, j: nat)
    requires i < j && NeverBackdated(start, events)
    requires ClaimedBy(start, events, i) && ClaimedBy(start, events, j) && NoReleaseBetween(start, events, i, j)
    ensures events[j].now > events[i].claimedAt + XERO_WRITE_CLAIM_LEASE_MS >= events[i].now + XERO_WRITE_CLAIM_LEASE_MS
  {
    hide MayClaim, Claims;
    StampSinceClaim(start, events, i, j);
    ClaimIsAfterLease(Before(start, events, j), events[j]);
  }

  /** So at no time are two holders inside their leases. */
  lemma OneHolderInsideLease(start: Row, events: seq<Event>, i: nat, j: nat, n: nat, time: int)
    requires NeverBackdated(start, events) && Holds(start, events, i, n) && Holds(start, events, j, n) && n <= |events|
    requires events[i].now <= time <= events[i].now + XERO_WRITE_CLAIM_LEASE_MS
    requires events[j].now <= time <= events[j].now + XERO_WRITE_CLAIM_LEASE_MS
    ensures i == j
  {
    hide MayClaim, Claims;
    if i < j {
      ClaimsAreALeaseApart(start, events, i, j);
    } else if j < i {
      ClaimsAreALeaseApart(start, events, j, i);
    }
  }

  /** A holder superseded by a later claim cannot release it: its release fails and the row stays. */
  lemma SupersededReleaseFails(start: Row, events: seq<Event>, i: nat, j: nat, n: nat, scope: Scope)
    requires NeverBackdated(start, events) && i < j < n <= |events|
    requires ClaimedBy(start, events, i) && NoReleaseBetween(start, events, i, n) && ClaimedBy(start, events, j)
    ensures var row, release := Before(start, events, n), ReleaseEvent(scope, events[i].claimedAt);
            !Releases(row, release) && After(row, release) == row
  {
    hide MayClaim, Claims;
    ClaimsAreALeaseApart(start, events, i, j);
    StampSinceClaim(start, events, j, n);
  }

  /** A release goes by the stamp alone: a holder that has already released clears the next claim exactly
      when that claim was stamped with the same millisecond. */
  lemma LateReleaseGoesByStamp(row: Row, scope: Scope, expected: Expectation, first: int, second: int)
    requires InScope(row, scope) && row.claimedAt == Some(first)
    requires var freed := After(row, ReleaseEvent(scope, first));
             Claims(freed, AcquireEvent(scope, expected, true, second, second))
    ensures var freed := After(row, ReleaseEvent(scope, first));
            var next := After(freed, AcquireEvent(scope, expected, true, second, second));
            Releases(next, ReleaseEvent(scope, first)) <==> first == second
  {
  }

  /** Exactly when a claim keeps everybody else out for five minutes, whatever they ask for: when it is not
      stamped with a time before the clock it is made at. */
  lemma LeaseHoldsExactly(row: Row, claim: Event)
    requires Claims(row, claim)
    ensures (forall next :: Claims(After(row, claim), next) ==> next.now > claim.now + XERO_WRITE_CLAIM_LEASE_MS)
            <==> claim.claimedAt >= claim.now
  {
    var claimed := After(row, claim);
    if claim.claimedAt < claim.now {
      var now := claim.claimedAt + XERO_WRITE_CLAIM_LEASE_MS + 1;
      assert Claims(claimed, AcquireEvent(claim.scope, claim.expected, claim.connectionActive, now, now));
    }
  }

  /** With a stamp of the caller's choosing, two claims can follow each other at once. */
  lemma BackdatedStampBreaksLease(now: int)
    ensures var row := Row("a", "b", "submitted", None, 1, None, None, "team_calendar_leave", [], None);
            var scope := Scope("a", "b", "r");
            var expected := Expectation("submitted", 1, None, false);
            var backdated := AcquireEvent(scope, expected, true, now, now - XERO_WRITE_CLAIM_LEASE_MS - 1);
            Claims(row, backdated) && Claims(After(row, backdated), AcquireEvent(scope, expected, true, now, now))
  {
  }
}
