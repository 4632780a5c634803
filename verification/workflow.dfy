/** The classifications that the queries derive from the approval gates and
    the timestamps of a visit log, each written as the SQL `CASE` expression
    evaluated under SQL's three-valued logic. None is ever stored. */
module Workflow {
  import opened Common
  import opened Store

  /** The `status` column. */
  datatype Status = Approved | Rejected | Pending

  /** The `visit_status` column of the processed-logs listing. */
  datatype VisitStatus = VisitRejected | NotVisitedYet | CheckedInOnly | CheckedOut | Unknown

  /** The `currentStatus` column of the checked-in visitors list. */
  datatype CurrentStatus = CurrentlyCheckedIn | CurrentlyCheckedOut | CurrentlyPending

  /** `CASE WHEN m = TRUE AND s = TRUE THEN 'Approved'
           WHEN m = FALSE OR s = FALSE THEN 'Rejected' ELSE 'Pending' END`.
      It reads the two approval gates and nothing else, so it cannot depend
      on the timestamps. */
  function StatusOf(manager: Option<bool>, security: Option<bool>): (r: Status)
    ensures r == Approved <==> manager == Some(true) && security == Some(true)
    ensures r == Rejected <==> manager == Some(false) || security == Some(false)
    ensures r == Pending <==> manager != Some(false) && security != Some(false)
                              && (manager.None? || security.None?)
  {
    if Holds(And(EqBool(manager, true), EqBool(security, true))) then Approved
    else if Holds(Or(EqBool(manager, false), EqBool(security, false))) then Rejected
    else Pending
  }

  function StatusOfLog(v: VisitLog): Status {
    StatusOf(v.managerApproval, v.securityApproval)
  }

  /** `CASE WHEN m = FALSE OR s = FALSE THEN 'Rejected'
           WHEN in IS NULL AND out IS NULL THEN 'Not Visited Yet'
           WHEN in IS NOT NULL AND out IS NULL THEN 'Checked In Only'
           WHEN in IS NOT NULL AND out IS NOT NULL THEN 'Checked Out'
           ELSE 'Unknown' END`. */
  function VisitStatusOf(manager: Option<bool>, security: Option<bool>,
                         checkIn: Option<Time>, checkOut: Option<Time>): (r: VisitStatus)
    ensures r == VisitRejected <==> StatusOf(manager, security) == Rejected
    ensures r != VisitRejected ==>
              && (r == NotVisitedYet <==> checkIn.None? && checkOut.None?)
              && (r == CheckedInOnly <==> checkIn.Some? && checkOut.None?)
              && (r == CheckedOut <==> checkIn.Some? && checkOut.Some?)
              && (r == Unknown <==> checkIn.None? && checkOut.Some?)
  {
    if Holds(Or(EqBool(manager, false), EqBool(security, false))) then VisitRejected
    else if Holds(And(IsNull(checkIn), IsNull(checkOut))) then NotVisitedYet
    else if Holds(And(IsNotNull(checkIn), IsNull(checkOut))) then CheckedInOnly
    else if Holds(And(IsNotNull(checkIn), IsNotNull(checkOut))) then CheckedOut
    else Unknown
  }

  function VisitStatusOfLog(v: VisitLog): VisitStatus {
    VisitStatusOf(v.managerApproval, v.securityApproval, v.checkInTime, v.checkOutTime)
  }

  /** `CASE WHEN in IS NOT NULL AND out IS NULL THEN 'Checked In'
           WHEN in IS NOT NULL AND out IS NOT NULL THEN 'Checked Out'
           ELSE 'Pending' END`. */
  function CurrentStatusOf(checkIn: Option<Time>, checkOut: Option<Time>): (r: CurrentStatus)
    ensures r == CurrentlyCheckedIn <==> checkIn.Some? && checkOut.None?
    ensures r == CurrentlyCheckedOut <==> checkIn.Some? && checkOut.Some?
    ensures r == CurrentlyPending <==> checkIn.None?
  {
    if Holds(And(IsNotNull(checkIn), IsNull(checkOut))) then CurrentlyCheckedIn
    else if Holds(And(IsNotNull(checkIn), IsNotNull(checkOut))) then CurrentlyCheckedOut
    else CurrentlyPending
  }

  /** A visit whose gates are consistent and which security has decided has
      been checked in, so its `visit_status` is never 'Not Visited Yet' or
      'Unknown'. */
  lemma DecidedVisitWasCheckedIn(v: VisitLog)
    requires GatesConsistent(v) && v.securityApproval.Some?
    ensures VisitStatusOfLog(v) in {VisitRejected, CheckedInOnly, CheckedOut}
  {
  }
}
