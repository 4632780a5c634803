/** Visit registration: resolving the visitor by contact details and
    creating the visit log in its initial approval state. */
module Manager {
  import opened Common
  import opened Seqs
  import opened Store
  import opened Workflow

  /** `WHERE email = $1 OR contact_number = $2`; a NULL on either side
      never matches. */
  predicate MatchesContact(v: Visitor, email: Option<string>, contactNumber: Option<string>) {
    Holds(Or(EqParam(v.email, email), EqParam(v.contactNumber, contactNumber)))
  }

  /** `SELECT visitor_id ... WHERE email = $1 OR contact_number = $2 LIMIT 1`. */
  function FindVisitor(visitors: seq<Visitor>, email: Option<string>, contactNumber: Option<string>)
    : (r: Option<nat>)
    ensures r.Some? ==> r.value < |visitors| && MatchesContact(visitors[r.value], email, contactNumber)
    ensures r.None? <==> forall i :: 0 <= i < |visitors| ==> !MatchesContact(visitors[i], email, contactNumber)
  {
    FindFirst(visitors, (v: Visitor) => MatchesContact(v, email, contactNumber))
  }

  /** The visitor table after `findOrCreateVisitor`, and the id it returns.
      A match is reused as it is (no field of it is filled in or changed);
      otherwise exactly one visitor is appended under a fresh id. */
  function ResolveVisitor(visitors: seq<Visitor>, firstName: Option<string>, lastName: Option<string>,
                          email: Option<string>, contactNumber: Option<string>)
    : (r: (seq<Visitor>, string))
    ensures FindVisitor(visitors, email, contactNumber).Some? ==>
              r.0 == visitors && r.1 == visitors[FindVisitor(visitors, email, contactNumber).value].visitorId
    ensures FindVisitor(visitors, email, contactNumber).None? ==>
              && r.0 == visitors + [Visitor(r.1, firstName, lastName, email, contactNumber, None)]
              && r.1 !in VisitorIds(visitors)
    ensures exists i :: 0 <= i < |r.0| && r.0[i].visitorId == r.1
                        && (r.0[i].email == email || r.0[i].contactNumber == contactNumber)
    ensures visitors <= r.0 && |r.0| <= |visitors| + 1
    ensures Unique(VisitorIds(visitors)) ==> Unique(VisitorIds(r.0))
  {
    match FindVisitor(visitors, email, contactNumber)
    case Some(i) =>
      assert visitors[i].email == email || visitors[i].contactNumber == contactNumber;
      (visitors, visitors[i].visitorId)
    case None =>
      var id := FreshId(VisitorIds(visitors));
      var added := visitors + [Visitor(id, firstName, lastName, email, contactNumber, None)];
      assert VisitorIds(added) == VisitorIds(visitors) + [id];
      assert added[|visitors|].visitorId == id;
      (added, id)
  }

  /** Resolving the same contact details again, right after, gives the same
      visitor and adds nothing, provided an email or a contact number was
      given (with both NULL nothing ever matches, and every call adds a
      visitor). */
  lemma {:induction false} ResolveAgainReuses(visitors: seq<Visitor>, firstName: Option<string>,
                                              lastName: Option<string>, email: Option<string>,
                                              contactNumber: Option<string>,
                                              firstName': Option<string>, lastName': Option<string>)
    requires email.Some? || contactNumber.Some?
    ensures var (after, id) := ResolveVisitor(visitors, firstName, lastName, email, contactNumber);
            ResolveVisitor(after, firstName', lastName', email, contactNumber) == (after, id)
  {
    var (after, id) := ResolveVisitor(visitors, firstName, lastName, email, contactNumber);
    if FindVisitor(visitors, email, contactNumber).None? {
      var added := Visitor(id, firstName, lastName, email, contactNumber, None);
      assert MatchesContact(added, email, contactNumber);
      FindFirstAppend(visitors, added, (v: Visitor) => MatchesContact(v, email, contactNumber));
      assert FindVisitor(after, email, contactNumber) == Some(|visitors|);
    }
  }

  /** Both email and contact number NULL: no visitor matches, so each call
      appends another visitor. */
  lemma NoContactAlwaysAppends(visitors: seq<Visitor>, firstName: Option<string>, lastName: Option<string>)
    ensures |ResolveVisitor(visitors, firstName, lastName, None, None).0| == |visitors| + 1
  {
  }

  /** `findOrCreateVisitor(first_name, last_name, email, contact_number)`. */
  method FindOrCreateVisitor(db: Db, firstName: Option<string>, lastName: Option<string>,
                             email: Option<string>, contactNumber: Option<string>)
    returns (visitorId: string)
    requires db.Valid()
    modifies db`visitors
    ensures db.Valid()
    ensures (db.visitors, visitorId) == ResolveVisitor(old(db.visitors), firstName, lastName, email, contactNumber)
  {
    var found := FindVisitor(db.visitors, email, contactNumber);
    if found.Some? {
      return db.visitors[found.value].visitorId;
    }
    visitorId := FreshId(VisitorIds(db.visitors));
    db.visitors := db.visitors + [Visitor(visitorId, firstName, lastName, email, contactNumber, None)];
  }

  /** The row `logVisit` inserts: manager approval is pre-set only for a
      planned visit, `accompanying_persons || []` is stored as given or as
      the empty list, and every other gate, the security data and both
      timestamps keep their NULL default. */
  function NewVisitLog(visitId: string, visitorId: string, visitDate: Time, accompanyingPersons: Option<string>,
                       departmentId: Option<string>, visitingUserId: Option<string>, purpose: Option<string>,
                       visitType: Option<string>)
    : (r: VisitLog)
    ensures r.managerApproval == Some(true) <==> visitType == Some("planned")
    ensures r.managerApproval.None? <==> visitType != Some("planned")
    ensures r.accompanyingPersons == accompanyingPersons.GetOr("[]")
    ensures r.securityApproval.None? && r.managerExitApproval.None? && r.securityData.None?
    ensures r.checkInTime.None? && r.checkOutTime.None?
    ensures r.visitorType.None? && r.location.None?
    ensures GatesConsistent(r)
    ensures StatusOfLog(r) == Pending && VisitStatusOfLog(r) == NotVisitedYet
  {
    var managerApproval := if visitType == Some("planned") then Some(true) else None;
    VisitLog(visitId, visitorId, visitDate, accompanyingPersons.GetOr("[]"), departmentId, visitingUserId,
             purpose, visitType, None, None, managerApproval, None, None, None, None, None)
  }

  /** `logVisit` (`POST /ceat/manager/log`): resolves the visitor, then inserts one visit log
      under a fresh id and replies with that id (status 201). */
  method LogVisit(db: Db, firstName: Option<string>, lastName: Option<string>, email: Option<string>,
                  contactNumber: Option<string>, visitDate: Time, accompanyingPersons: Option<string>,
                  departmentId: Option<string>, visitingUserId: Option<string>, purpose: Option<string>,
                  visitType: Option<string>)
    returns (visitId: string)
    requires db.Valid()
    modifies db`visitors, db`visitLogs
    ensures db.Valid()
    ensures visitId !in VisitIds(old(db.visitLogs))
    ensures var (visitors, visitorId) := ResolveVisitor(old(db.visitors), firstName, lastName, email, contactNumber);
            && db.visitors == visitors
            && db.visitLogs == old(db.visitLogs) + [NewVisitLog(visitId, visitorId, visitDate, accompanyingPersons,
                                                                departmentId, visitingUserId, purpose, visitType)]
    ensures |db.visitLogs| == |old(db.visitLogs)| + 1
    ensures |old(db.visitors)| <= |db.visitors| <= |old(db.visitors)| + 1
  {
    var visitorId := FindOrCreateVisitor(db, firstName, lastName, email, contactNumber);
    visitId := FreshId(VisitIds(db.visitLogs));
    var row := NewVisitLog(visitId, visitorId, visitDate, accompanyingPersons, departmentId, visitingUserId,
                           purpose, visitType);
    AppendVisitLog(db.visitLogs, row);
    db.visitLogs := db.visitLogs + [row];
  }

  /** `getAllVisitLogs` (`GET /ceat/manager/logs`): every visit log, latest visit date first (the
      joined host and department columns are not part of this model). */
  function AllVisitLogs(logs: seq<VisitLog>): (r: seq<VisitLog>)
    ensures multiset(r) == multiset(logs)
    ensures forall i, j :: 0 <= i < j < |r| ==> r[i].visitDate >= r[j].visitDate
  {
    LaterVisitDateOrders();
    var r := SortBy(logs, LaterVisitDate);
    SortedPairwise(r, LaterVisitDate);
    r
  }
}
