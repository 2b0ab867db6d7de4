/** Decision rules of the enrollments syncer (enrollment-rules.ts). Dates are epoch milliseconds. */
module EnrollmentRules {
  import opened Prelude

  /** `OtherReason` is any cancel this syncer did not write, a refund for instance. */
  datatype CancelReason = LegacyRemoved | PaymentRevoked | OtherReason(name: string)

  /** A row of the target holding a (member, course) pair; `legacyId` is null for new-system rows. */
  datatype Enrollment = Enrollment(
    legacyId: Option<int>,
    isCanceled: bool,
    reason: Option<CancelReason>,
    expired: Option<int>,
    progress: int)

  datatype Write = Create | Refresh | Uncancel | Repoint | Skip

  predicate IsLegacyCancel(reason: Option<CancelReason>) {
    reason == Some(LegacyRemoved) || reason == Some(PaymentRevoked)
  }

  /** Cancelled for a reason legacy does not own. */
  predicate Refunded(e: Enrollment) { e.isCanceled && !IsLegacyCancel(e.reason) }

  function DecideEnrollmentWrite(existing: Option<Enrollment>, legacyId: int, now: int,
                                 incomingExpired: Option<int>, incomingPaid: bool): Write {
    if existing.None? then Create
    else
      var e := existing.value;
      if e.legacyId == Some(legacyId) then
        if e.isCanceled && IsLegacyCancel(e.reason) then Uncancel else Refresh
      else if e.legacyId.None? then Skip
      else
        var expired := e.expired.Some? && e.expired.value < now;
        var paidOverTrial := e.expired.Some? && incomingExpired.None?;
        var deadByLegacy := e.isCanceled && (IsLegacyCancel(e.reason) || incomingPaid);
        if deadByLegacy || (!e.isCanceled && (expired || paidOverTrial)) then Repoint else Skip
  }

  predicate MayCancelRemoved(existing: Option<Enrollment>, legacyId: int, otherActiveLegacyRows: nat,
      hasPaidOrder: bool) {
    existing.Some? && existing.value.legacyId == Some(legacyId) && !existing.value.isCanceled &&
    otherActiveLegacyRows == 0 && !hasPaidOrder
  }
}
