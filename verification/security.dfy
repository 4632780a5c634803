/** The security desk: the security approve/reject transition (which also
    stamps the check-in time), the checkout transition, and the read-only
    queries of the security dashboard. */
module Security {
  import opened Common
  import opened Seqs
  import opened Store
  import opened Workflow

  const ApprovalNotBoolean := Failure(400, "Approval must be true or false")
  const VisitNotFound := Failure(404, "Visit log not found")
  const ManagerNotApproved := Failure(403, "Cannot approve. Manager has not approved the visit yet.")
  const VisitIdRequired := Failure(400, "Visit log ID is required")
  const CheckoutNotFound := Failure(404, "Visit log not found or already checked out")
  const DatesRequired := Failure(400, "Start and end date are required")

  const ApprovedMessage := "Visitor approved and checked in by security."
  const RejectedMessage := "Visitor rejected by security."

  /** `SELECT ... FROM vms_visit_logs WHERE visit_id = $1`, first row. */
  function FindVisit(logs: seq<VisitLog>, visitId: string): (r: Option<nat>)
    ensures r.Some? ==> r.value < |logs| && logs[r.value].visitId == visitId
    ensures r.None? <==> forall i :: 0 <= i < |logs| ==> logs[i].visitId != visitId
  {
    FindFirst(logs, (v: VisitLog) => v.visitId == visitId)
  }

  /** The JSON text stored for `security_data || {}`; `None` stands for an
      absent or falsy body value. */
  function SecurityDataOrDefault(securityData: Option<string>): string {
    securityData.GetOr("{}")
  }

  /** The security decision applied to one row. */
  function Decide(v: VisitLog, approval: bool, data: string, now: Time): VisitLog {
    v.(securityApproval := Some(approval), securityData := Some(data), checkInTime := Some(now))
  }

  /** `UPDATE vms_visit_logs SET security_approval = $1, security_data = $2,
      check_in_time = CURRENT_TIMESTAMP WHERE visit_id = $3`. */
  function ApplyApproval(logs: seq<VisitLog>, visitId: string, approval: bool, data: string, now: Time)
    : (r: seq<VisitLog>)
    ensures |r| == |logs|
    ensures VisitIds(r) == VisitIds(logs)
  {
    seq(|logs|, i requires 0 <= i < |logs| =>
      if logs[i].visitId == visitId then Decide(logs[i], approval, data, now) else logs[i])
  }

  /** `UPDATE vms_visit_logs SET check_out_time = NOW() WHERE visit_id = $1`. */
  function ApplyCheckout(logs: seq<VisitLog>, visitId: string, now: Time): (r: seq<VisitLog>)
    ensures |r| == |logs|
    ensures VisitIds(r) == VisitIds(logs)
  {
    seq(|logs|, i requires 0 <= i < |logs| =>
      if logs[i].visitId == visitId then logs[i].(checkOutTime := Some(now)) else logs[i])
  }

  /** With unique visit ids the approval update changes exactly the row that
      the lookup found, and in that row only the security gate, the security
      data and the check-in time (which is stamped on a rejection too). */
  lemma {:induction false} ApprovalChangesOneRow(logs: seq<VisitLog>, visitId: string, approval: bool,
                                                 data: string, now: Time, k: nat)
    requires Unique(VisitIds(logs))
    requires FindVisit(logs, visitId) == Some(k)
    ensures ApplyApproval(logs, visitId, approval, data, now) == logs[k := Decide(logs[k], approval, data, now)]
    ensures ApplyApproval(logs, visitId, approval, data, now)[k].checkInTime == Some(now)
  {
    var r := ApplyApproval(logs, visitId, approval, data, now);
    forall i | 0 <= i < |logs| && i != k
      ensures r[i] == logs[i]
    {
      assert VisitIds(logs)[i] != VisitIds(logs)[k];
    }
  }

  /** A rejection makes the derived status 'Rejected', whatever the timestamps,
      and an approval of a manager-approved visit makes it 'Approved' and
      'Checked In Only' unless it was already checked out. */
  lemma DecisionOutcome(v: VisitLog, approval: bool, data: string, now: Time)
    ensures !approval ==> StatusOfLog(Decide(v, approval, data, now)) == Rejected
    ensures !approval ==> VisitStatusOfLog(Decide(v, approval, data, now)) == VisitRejected
    ensures approval && v.managerApproval == Some(true) ==>
              StatusOfLog(Decide(v, approval, data, now)) == Approved
    ensures approval && v.managerApproval == Some(true) && v.checkOutTime.None? ==>
              VisitStatusOfLog(Decide(v, approval, data, now)) == CheckedInOnly
  {
  }

  /** The approval update keeps the workflow's gate invariant, provided an
      approval (true) is applied only to a manager-approved row. */
  lemma {:induction false} ApprovalKeepsGates(logs: seq<VisitLog>, visitId: string, approval: bool,
                                              data: string, now: Time)
    requires forall i :: 0 <= i < |logs| ==> GatesConsistent(logs[i])
    requires approval ==> forall i :: 0 <= i < |logs| && logs[i].visitId == visitId ==>
                                        logs[i].managerApproval == Some(true)
    ensures var r := ApplyApproval(logs, visitId, approval, data, now);
            forall i :: 0 <= i < |r| ==> GatesConsistent(r[i])
  {
  }

  /** Checking out an unknown visit id changes nothing. */
  lemma {:induction false} CheckoutUnknownIsNoOp(logs: seq<VisitLog>, visitId: string, now: Time)
    requires FindVisit(logs, visitId).None?
    ensures ApplyCheckout(logs, visitId, now) == logs
  {
    var r := ApplyCheckout(logs, visitId, now);
    assert forall i :: 0 <= i < |logs| ==> r[i] == logs[i];
  }

  /** A repeated checkout is not refused: the later time simply overwrites
      the earlier one. */
  lemma {:induction false} CheckoutTwiceOverwrites(logs: seq<VisitLog>, visitId: string, t1: Time, t2: Time)
    ensures ApplyCheckout(ApplyCheckout(logs, visitId, t1), visitId, t2) == ApplyCheckout(logs, visitId, t2)
  {
    var a := ApplyCheckout(ApplyCheckout(logs, visitId, t1), visitId, t2);
    var b := ApplyCheckout(logs, visitId, t2);
    assert forall i :: 0 <= i < |logs| ==> a[i] == b[i];
  }

  /** Checkout touches neither gate, so it keeps the gate invariant and the
      derived `status` of every row. */
  lemma {:induction false} CheckoutKeepsGates(logs: seq<VisitLog>, visitId: string, now: Time)
    requires forall i :: 0 <= i < |logs| ==> GatesConsistent(logs[i])
    ensures var r := ApplyCheckout(logs, visitId, now);
            && (forall i :: 0 <= i < |r| ==> GatesConsistent(r[i]))
            && (forall i :: 0 <= i < |r| ==> StatusOfLog(r[i]) == StatusOfLog(logs[i]))
  {
  }

  /** With unique visit ids the checkout update changes exactly the row that
      the lookup found, and in that row only the check-out time, which
      becomes `now`. */
  lemma {:induction false} CheckoutChangesOneRow(logs: seq<VisitLog>, visitId: string, now: Time, k: nat)
    requires Unique(VisitIds(logs))
    requires FindVisit(logs, visitId) == Some(k)
    ensures ApplyCheckout(logs, visitId, now) == logs[k := logs[k].(checkOutTime := Some(now))]
  {
    var r := ApplyCheckout(logs, visitId, now);
    forall i | 0 <= i < |logs| && i != k
      ensures r[i] == logs[i]
    {
      assert VisitIds(logs)[i] != VisitIds(logs)[k];
    }
  }

  /** Checkout does not require a check-in: checking out a visit that was
      never checked in (and is not rejected) leaves it with a check-out time
      and no check-in time, which `visit_status` reports as 'Unknown'. */
  lemma CheckoutBeforeCheckIn(logs: seq<VisitLog>, visitId: string, now: Time, k: nat)
    requires FindVisit(logs, visitId) == Some(k)
    requires logs[k].checkInTime.None? && StatusOfLog(logs[k]) != Rejected
    ensures ApplyCheckout(logs, visitId, now)[k].checkOutTime == Some(now)
    ensures VisitStatusOfLog(ApplyCheckout(logs, visitId, now)[k]) == Unknown
  {
  }

  /** `approveVisitBySecurity` (`POST /ceat/security/security-approve/:visit_id`). */
  method ApproveVisitBySecurity(db: Db, visitId: string, approval: Option<bool>,
                                securityData: Option<string>, now: Time)
    returns (reply: Result<(string, VisitLog)>)
    requires db.Valid()
    modifies db`visitLogs
    ensures db.Valid()
    ensures approval.None? ==> reply == Err(ApprovalNotBoolean)
    ensures approval.Some? && FindVisit(old(db.visitLogs), visitId).None? ==> reply == Err(VisitNotFound)
    ensures approval == Some(true) && FindVisit(old(db.visitLogs), visitId).Some?
            && old(db.visitLogs)[FindVisit(old(db.visitLogs), visitId).value].managerApproval != Some(true)
            ==> reply == Err(ManagerNotApproved)
    ensures approval.Some? && FindVisit(old(db.visitLogs), visitId).Some?
            && (approval.value ==>
                  old(db.visitLogs)[FindVisit(old(db.visitLogs), visitId).value].managerApproval == Some(true))
            ==> reply.Ok?
    ensures reply.Err? ==> db.visitLogs == old(db.visitLogs)
    ensures reply.Ok? ==>
              && approval.Some?
              && FindVisit(old(db.visitLogs), visitId).Some?
              && var k := FindVisit(old(db.visitLogs), visitId).value;
              && db.visitLogs == old(db.visitLogs)[k := Decide(old(db.visitLogs)[k], approval.value,
                                                              SecurityDataOrDefault(securityData), now)]
              && reply.value == (if approval.value then ApprovedMessage else RejectedMessage, db.visitLogs[k])
  {
    if approval.None? {
      return Err(ApprovalNotBoolean);
    }
    var found := FindVisit(db.visitLogs, visitId);
    if found.None? {
      return Err(VisitNotFound);
    }
    var k := found.value;
    if approval.value && db.visitLogs[k].managerApproval != Some(true) {
      return Err(ManagerNotApproved);
    }
    var data := SecurityDataOrDefault(securityData);
    ApprovalChangesOneRow(db.visitLogs, visitId, approval.value, data, now, k);
    ApprovalKeepsGates(db.visitLogs, visitId, approval.value, data, now);
    db.visitLogs := ApplyApproval(db.visitLogs, visitId, approval.value, data, now);
    reply := Ok((if approval.value then ApprovedMessage else RejectedMessage, db.visitLogs[k]));
  }

  /** `checkoutVisitor`; the reply carries the visit id
      and the new check-out time. */
  method CheckoutVisitor(db: Db, visitLogId: string, now: Time)
    returns (reply: Result<(string, Time)>)
    requires db.Valid()
    modifies db`visitLogs
    ensures db.Valid()
    ensures visitLogId == "" ==> reply == Err(VisitIdRequired)
    ensures visitLogId != "" && FindVisit(old(db.visitLogs), visitLogId).None? ==> reply == Err(CheckoutNotFound)
    ensures visitLogId != "" && FindVisit(old(db.visitLogs), visitLogId).Some? ==> reply.Ok?
    ensures reply.Err? ==> db.visitLogs == old(db.visitLogs)
    ensures reply.Ok? ==>
              && FindVisit(old(db.visitLogs), visitLogId).Some?
              && reply.value == (visitLogId, now)
              && db.visitLogs == ApplyCheckout(old(db.visitLogs), visitLogId, now)
              && var k := FindVisit(old(db.visitLogs), visitLogId).value;
              && db.visitLogs == old(db.visitLogs)[k := old(db.visitLogs)[k].(checkOutTime := Some(now))]
  {
    if visitLogId == "" {
      return Err(VisitIdRequired);
    }
    CheckoutKeepsGates(db.visitLogs, visitLogId, now);
    if FindVisit(db.visitLogs, visitLogId).None? {
      CheckoutUnknownIsNoOp(db.visitLogs, visitLogId, now);
    } else {
      CheckoutChangesOneRow(db.visitLogs, visitLogId, now, FindVisit(db.visitLogs, visitLogId).value);
    }
    var matched := FindVisit(db.visitLogs, visitLogId).Some?;
    db.visitLogs := ApplyCheckout(db.visitLogs, visitLogId, now);
    if !matched {
      return Err(CheckoutNotFound);
    }
    reply := Ok((visitLogId, now));
  }

  // ---------------------------------------------------------------------
  // Queries of the security dashboard

  /** A row of the pending-requests listing (the joined visitor and host
      columns are not part of this model). */
  datatype RequestRow = RequestRow(log: VisitLog, status: Status)

  /** `WHERE manager_approval = TRUE AND security_approval IS NULL`. */
  predicate IsSecurityRequest(v: VisitLog) {
    Holds(And(EqBool(v.managerApproval, true), IsNull(v.securityApproval)))
  }

  function RequestLogs(rows: seq<RequestRow>): seq<VisitLog> {
    Map(rows, (x: RequestRow) => x.log)
  }

  /** The visit logs the pending-requests query selects, in its order. */
  function SecurityRequestLogs(logs: seq<VisitLog>): (rows: seq<VisitLog>)
    ensures forall i :: 0 <= i < |rows| ==> IsSecurityRequest(rows[i])
    ensures forall i, j :: 0 <= i < j < |rows| ==> rows[i].visitDate >= rows[j].visitDate
    ensures forall x :: multiset(rows)[x] == if IsSecurityRequest(x) then multiset(logs)[x] else 0
  {
    LaterVisitDateOrders();
    SelectOrdered(logs, IsSecurityRequest, LaterVisitDate)
  }

  /** A security request is manager-approved, undecided by security, and
      therefore 'Pending'. */
  lemma RequestIsPending(v: VisitLog)
    requires IsSecurityRequest(v)
    ensures v.managerApproval == Some(true) && v.securityApproval.None? && StatusOfLog(v) == Pending
  {
  }

  /** `getSecurityRequests`: visits awaiting the security decision,
      latest visit date first. Every one of them is 'Pending'. */
  function SecurityRequests(logs: seq<VisitLog>): (r: seq<RequestRow>)
    ensures RequestLogs(r) == SecurityRequestLogs(logs)
    ensures forall i :: 0 <= i < |r| ==> r[i].log.managerApproval == Some(true)
                                          && r[i].log.securityApproval.None?
    ensures forall i :: 0 <= i < |r| ==> r[i].status == Pending
  {
    var rows := SecurityRequestLogs(logs);
    var r := seq(|rows|, i requires 0 <= i < |rows| => RequestRow(rows[i], StatusOfLog(rows[i])));
    assert RequestLogs(r) == rows;
    forall i | 0 <= i < |r|
      ensures r[i].log.managerApproval == Some(true) && r[i].log.securityApproval.None?
      ensures r[i].status == Pending
    {
      RequestIsPending(rows[i]);
    }
    r
  }

  /** A row of the processed-logs listing (joined columns left out). */
  datatype ProcessedRow = ProcessedRow(log: VisitLog, status: Status, visitStatus: VisitStatus)

  /** `WHERE visit_date BETWEEN $1 AND $2 AND manager_approval = TRUE
      AND security_approval = TRUE AND check_out_time IS NOT NULL`. */
  predicate IsProcessed(v: VisitLog, startDate: Time, endDate: Time) {
    && startDate <= v.visitDate <= endDate
    && Holds(And(And(EqBool(v.managerApproval, true), EqBool(v.securityApproval, true)),
                 IsNotNull(v.checkOutTime)))
  }

  /** The `ORDER BY visit_date DESC, check_out_time DESC` comparison. */
  predicate LaterVisitThenCheckout(a: VisitLog, b: VisitLog) {
    || a.visitDate > b.visitDate
    || (a.visitDate == b.visitDate && a.checkOutTime.GetOr(0) >= b.checkOutTime.GetOr(0))
  }

  lemma LaterVisitThenCheckoutOrders()
    ensures Total(LaterVisitThenCheckout) && Transitive(LaterVisitThenCheckout)
  {
  }

  function ProcessedLogs(rows: seq<ProcessedRow>): seq<VisitLog> {
    Map(rows, (x: ProcessedRow) => x.log)
  }

  /** The visit logs the processed-logs query selects, in its order. */
  function ProcessedSelection(logs: seq<VisitLog>, startDate: Time, endDate: Time): (rows: seq<VisitLog>)
    ensures forall i :: 0 <= i < |rows| ==>
              && IsProcessed(rows[i], startDate, endDate)
              && startDate <= rows[i].visitDate <= endDate
              && rows[i].checkOutTime.Some?
    ensures forall i, j :: 0 <= i < j < |rows| ==>
              || rows[i].visitDate > rows[j].visitDate
              || (rows[i].visitDate == rows[j].visitDate
                  && rows[i].checkOutTime.value >= rows[j].checkOutTime.value)
    ensures forall x :: multiset(rows)[x] == if IsProcessed(x, startDate, endDate) then multiset(logs)[x] else 0
  {
    LaterVisitThenCheckoutOrders();
    SelectOrdered(logs, (v: VisitLog) => IsProcessed(v, startDate, endDate), LaterVisitThenCheckout)
  }

  /** A processed visit has both gates TRUE, so it reads 'Approved'. */
  lemma ProcessedIsApproved(v: VisitLog, startDate: Time, endDate: Time)
    requires IsProcessed(v, startDate, endDate)
    ensures v.managerApproval == Some(true) && v.securityApproval == Some(true) && StatusOfLog(v) == Approved
  {
  }

  /** `getProcessedVisitLogs`, between two visit dates (inclusive): the
      visits both gates approved that have checked out, latest first. */
  function ProcessedVisitLogs(logs: seq<VisitLog>, startDate: Option<Time>, endDate: Option<Time>)
    : (r: Result<seq<ProcessedRow>>)
    ensures startDate.None? || endDate.None? <==> r == Err(DatesRequired)
    ensures r.Ok? ==> ProcessedLogs(r.value) == ProcessedSelection(logs, startDate.value, endDate.value)
    ensures r.Ok? ==> forall i :: 0 <= i < |r.value| ==>
              && r.value[i].status == Approved
              && r.value[i].visitStatus == VisitStatusOfLog(r.value[i].log)
  {
    if startDate.None? || endDate.None? then Err(DatesRequired)
    else
      var rows := ProcessedSelection(logs, startDate.value, endDate.value);
      var out := seq(|rows|, i requires 0 <= i < |rows| =>
                       ProcessedRow(rows[i], StatusOfLog(rows[i]), VisitStatusOfLog(rows[i])));
      assert ProcessedLogs(out) == rows;
      forall i | 0 <= i < |out| ensures out[i].status == Approved {
        ProcessedIsApproved(rows[i], startDate.value, endDate.value);
      }
      Ok(out)
  }

  /** On a table whose gates are consistent, every processed row reads
      'Approved' and 'Checked Out'. */
  lemma {:induction false} ProcessedRowsCheckedOut(logs: seq<VisitLog>, startDate: Time, endDate: Time)
    requires forall i :: 0 <= i < |logs| ==> GatesConsistent(logs[i])
    ensures var r := ProcessedVisitLogs(logs, Some(startDate), Some(endDate));
            r.Ok? && forall i :: 0 <= i < |r.value| ==>
              r.value[i].status == Approved && r.value[i].visitStatus == CheckedOut
  {
    var r := ProcessedVisitLogs(logs, Some(startDate), Some(endDate));
    forall i | 0 <= i < |r.value|
      ensures r.value[i].visitStatus == CheckedOut
    {
      var v := r.value[i].log;
      assert multiset(ProcessedLogs(r.value))[v] > 0 by {
        assert ProcessedLogs(r.value)[i] == v;
      }
      assert v in logs;
      assert GatesConsistent(v);
    }
  }

  /** A row of the checked-in visitors list (joined columns left out);
      `checkInTime` is the column the listing calls "visitDate". */
  datatype CheckedInRow = CheckedInRow(visitId: string, checkInTime: Option<Time>, purpose: Option<string>,
                                       accompanyingPersons: string, currentStatus: CurrentStatus)

  datatype SecurityAnalytics = SecurityAnalytics(
    todaysVisitors: nat,
    pendingSecurityApprovals: nat,
    approvedSecurityApprovals: nat,
    currentlyInPlant: nat,
    checkedInVisitorsList: seq<CheckedInRow>)

  /** `WHERE security_approval IS NULL`. */
  predicate IsSecurityPending(v: VisitLog) {
    Holds(IsNull(v.securityApproval))
  }

  /** `WHERE security_approval = TRUE`. */
  predicate IsSecurityApproved(v: VisitLog) {
    Holds(EqBool(v.securityApproval, true))
  }

  /** `WHERE check_in_time IS NOT NULL AND check_out_time IS NULL`. */
  predicate IsInPlant(v: VisitLog) {
    Holds(And(IsNotNull(v.checkInTime), IsNull(v.checkOutTime)))
  }

  /** The inner joins of the checked-in list find the log's visitor and its
      host user; a NULL host never joins. */
  predicate HasJoinedRows(v: VisitLog, visitors: seq<Visitor>, users: seq<User>) {
    && v.visitorId in VisitorIds(visitors)
    && v.visitingUserId.Some? && v.visitingUserId.value in UserIds(users)
  }

  /** The logs the checked-in list shows: those in the plant whose visitor
      and host user both exist (in table order, one order the database may
      return). */
  function InPlantJoined(logs: seq<VisitLog>, visitors: seq<Visitor>, users: seq<User>): (rows: seq<VisitLog>)
    ensures forall i :: 0 <= i < |rows| ==> IsInPlant(rows[i]) && HasJoinedRows(rows[i], visitors, users)
    ensures forall x :: multiset(rows)[x]
                        == if IsInPlant(x) && HasJoinedRows(x, visitors, users) then multiset(logs)[x] else 0
    ensures |rows| <= CountWhere(logs, IsInPlant)
    ensures (forall i :: 0 <= i < |logs| && IsInPlant(logs[i]) ==> HasJoinedRows(logs[i], visitors, users))
            ==> |rows| == CountWhere(logs, IsInPlant)
  {
    var joined := (v: VisitLog) => IsInPlant(v) && HasJoinedRows(v, visitors, users);
    FilterMultiset(logs, joined);
    FilterStronger(logs, IsInPlant, joined);
    Filter(logs, joined)
  }

  /** The checked-in visitors list: one row per log of `InPlantJoined`, in
      its order, carrying that log's id, check-in time, purpose and
      accompanying persons, and reading 'Checked In'. */
  function CheckedInVisitorsList(logs: seq<VisitLog>, visitors: seq<Visitor>, users: seq<User>)
    : (r: seq<CheckedInRow>)
    ensures |r| == |InPlantJoined(logs, visitors, users)|
    ensures forall i :: 0 <= i < |r| ==>
              var v := InPlantJoined(logs, visitors, users)[i];
              && r[i].visitId == v.visitId && r[i].checkInTime == v.checkInTime
              && r[i].purpose == v.purpose && r[i].accompanyingPersons == v.accompanyingPersons
    ensures forall i :: 0 <= i < |r| ==> r[i].currentStatus == CurrentlyCheckedIn && r[i].checkInTime.Some?
  {
    var inPlant := InPlantJoined(logs, visitors, users);
    var r := seq(|inPlant|, i requires 0 <= i < |inPlant| =>
               CheckedInRow(inPlant[i].visitId, inPlant[i].checkInTime, inPlant[i].purpose,
                            inPlant[i].accompanyingPersons,
                            CurrentStatusOf(inPlant[i].checkInTime, inPlant[i].checkOutTime)));
    forall i | 0 <= i < |r|
      ensures r[i].currentStatus == CurrentlyCheckedIn && r[i].checkInTime.Some?
    {
      assert IsInPlant(inPlant[i]);
    }
    r
  }

  /** Every visit in the plant whose visitor and host user both exist is
      on the list. */
  lemma CheckedInListComplete(logs: seq<VisitLog>, visitors: seq<Visitor>, users: seq<User>)
    ensures var r := CheckedInVisitorsList(logs, visitors, users);
            forall i :: 0 <= i < |logs| && IsInPlant(logs[i]) && HasJoinedRows(logs[i], visitors, users) ==>
              exists j :: 0 <= j < |r| && r[j].visitId == logs[i].visitId
  {
    var r := CheckedInVisitorsList(logs, visitors, users);
    var rows := InPlantJoined(logs, visitors, users);
    forall i | 0 <= i < |logs| && IsInPlant(logs[i]) && HasJoinedRows(logs[i], visitors, users)
      ensures exists j :: 0 <= j < |r| && r[j].visitId == logs[i].visitId
    {
      InPlantJoinedHas(logs, visitors, users, i);
      var j :| 0 <= j < |rows| && rows[j] == logs[i];
      assert r[j].visitId == logs[i].visitId;
    }
  }

  /** Every row of the list is a visit in the plant whose visitor and host
      user both exist. */
  lemma CheckedInListSound(logs: seq<VisitLog>, visitors: seq<Visitor>, users: seq<User>)
    ensures var r := CheckedInVisitorsList(logs, visitors, users);
            forall j :: 0 <= j < |r| ==>
              exists i :: 0 <= i < |logs| && logs[i].visitId == r[j].visitId && IsInPlant(logs[i])
                          && HasJoinedRows(logs[i], visitors, users)
  {
    var r := CheckedInVisitorsList(logs, visitors, users);
    var rows := InPlantJoined(logs, visitors, users);
    forall j | 0 <= j < |r|
      ensures exists i :: 0 <= i < |logs| && logs[i].visitId == r[j].visitId && IsInPlant(logs[i])
                          && HasJoinedRows(logs[i], visitors, users)
    {
      InPlantJoinedFrom(logs, visitors, users, j);
      var i :| 0 <= i < |logs| && logs[i] == rows[j];
      assert logs[i].visitId == r[j].visitId;
    }
  }

  /** A log in the plant with both joined rows is selected for the list. */
  lemma InPlantJoinedHas(logs: seq<VisitLog>, visitors: seq<Visitor>, users: seq<User>, i: nat)
    requires i < |logs| && IsInPlant(logs[i]) && HasJoinedRows(logs[i], visitors, users)
    ensures logs[i] in InPlantJoined(logs, visitors, users)
  {
    assert multiset(InPlantJoined(logs, visitors, users))[logs[i]] == multiset(logs)[logs[i]] > 0;
  }

  /** Every row selected for the list is a log of the table. */
  lemma InPlantJoinedFrom(logs: seq<VisitLog>, visitors: seq<Visitor>, users: seq<User>, j: nat)
    requires j < |InPlantJoined(logs, visitors, users)|
    ensures InPlantJoined(logs, visitors, users)[j] in logs
  {
    var rows := InPlantJoined(logs, visitors, users);
    assert multiset(logs)[rows[j]] >= multiset(rows)[rows[j]] > 0;
  }

  /** Each dashboard count is zero exactly when no log meets its `WHERE`. */
  lemma CountsZero(logs: seq<VisitLog>)
    ensures CountWhere(logs, IsSecurityPending) == 0 <==>
              forall i :: 0 <= i < |logs| ==> logs[i].securityApproval.Some?
    ensures CountWhere(logs, IsSecurityApproved) == 0 <==>
              forall i :: 0 <= i < |logs| ==> logs[i].securityApproval != Some(true)
    ensures CountWhere(logs, IsInPlant) == 0 <==>
              forall i :: 0 <= i < |logs| ==> logs[i].checkInTime.None? || logs[i].checkOutTime.Some?
  {
    assert forall v :: IsSecurityPending(v) <==> v.securityApproval.None?;
    assert forall v :: IsSecurityApproved(v) <==> v.securityApproval == Some(true);
    assert forall v :: IsInPlant(v) <==> v.checkInTime.Some? && v.checkOutTime.None?;
  }

  /** `WHERE visit_date = $1`: the visits of one day, in table order. */
  function VisitsOn(logs: seq<VisitLog>, day: Time): (rows: seq<VisitLog>)
    ensures forall i :: 0 <= i < |rows| ==> rows[i].visitDate == day
    ensures forall x :: multiset(rows)[x] == if x.visitDate == day then multiset(logs)[x] else 0
    ensures rows == [] <==> forall i :: 0 <= i < |logs| ==> logs[i].visitDate != day
  {
    FilterMultiset(logs, (v: VisitLog) => v.visitDate == day);
    FilterEmpty(logs, (v: VisitLog) => v.visitDate == day);
    Filter(logs, (v: VisitLog) => v.visitDate == day)
  }

  /** No row is both awaiting security and security-approved. */
  lemma PendingAndApprovedApart(logs: seq<VisitLog>)
    ensures CountWhere(logs, IsSecurityPending) + CountWhere(logs, IsSecurityApproved) <= |logs|
  {
    CountDisjoint(logs, IsSecurityPending, IsSecurityApproved);
  }

  /** `getSecurityVisitAnalytics`, with `today` given. Each count is
      the number of logs its `WHERE` admits, zero exactly when no log does.
      The list joins the visitor and host user while the in-plant count
      does not, so the list is never longer than the count, and as long as
      it when every visit in the plant has both rows. */
  function SecurityVisitAnalytics(logs: seq<VisitLog>, visitors: seq<Visitor>, users: seq<User>, today: Time)
    : (r: SecurityAnalytics)
    ensures r.todaysVisitors == |VisitsOn(logs, today)|
    ensures r.todaysVisitors == 0 <==> forall i :: 0 <= i < |logs| ==> logs[i].visitDate != today
    ensures r.pendingSecurityApprovals == CountWhere(logs, IsSecurityPending)
    ensures r.pendingSecurityApprovals == 0 <==> forall i :: 0 <= i < |logs| ==> logs[i].securityApproval.Some?
    ensures r.approvedSecurityApprovals == CountWhere(logs, IsSecurityApproved)
    ensures r.approvedSecurityApprovals == 0 <==>
              forall i :: 0 <= i < |logs| ==> logs[i].securityApproval != Some(true)
    ensures r.pendingSecurityApprovals + r.approvedSecurityApprovals <= |logs|
    ensures r.currentlyInPlant == CountWhere(logs, IsInPlant)
    ensures r.currentlyInPlant == 0 <==>
              forall i :: 0 <= i < |logs| ==> logs[i].checkInTime.None? || logs[i].checkOutTime.Some?
    ensures r.checkedInVisitorsList == CheckedInVisitorsList(logs, visitors, users)
    ensures |r.checkedInVisitorsList| <= r.currentlyInPlant
    ensures (forall i :: 0 <= i < |logs| && IsInPlant(logs[i]) ==> HasJoinedRows(logs[i], visitors, users))
            ==> |r.checkedInVisitorsList| == r.currentlyInPlant
  {
    PendingAndApprovedApart(logs);
    CountsZero(logs);
    SecurityAnalytics(
      |VisitsOn(logs, today)|,
      CountWhere(logs, IsSecurityPending),
      CountWhere(logs, IsSecurityApproved),
      CountWhere(logs, IsInPlant),
      CheckedInVisitorsList(logs, visitors, users))
  }
}
