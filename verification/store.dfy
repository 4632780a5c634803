/** The four tables of the "VMS" schema, held in memory. Each row is a
    record; each table is a sequence of rows in insertion order. */
module Store {
  import opened Common
  import opened Seqs

  /** A day (`visit_date`) or an instant (`check_in_time`, `check_out_time`),
      as a number on a time line. */
  type Time = int

  /** A row of `vms_visitors`. */
  datatype Visitor = Visitor(
    visitorId: string,
    firstName: Option<string>,
    lastName: Option<string>,
    email: Option<string>,
    contactNumber: Option<string>,
    company: Option<string>)

  /** A row of `vms_visit_logs`. The three approval gates are tri-state
      (`None` is SQL NULL); `accompanyingPersons` and `securityData` hold
      JSON text that the system stores without looking inside. */
  datatype VisitLog = VisitLog(
    visitId: string,
    visitorId: string,
    visitDate: Time,
    accompanyingPersons: string,
    departmentId: Option<string>,
    visitingUserId: Option<string>,
    purpose: Option<string>,
    visitType: Option<string>,
    visitorType: Option<string>,
    location: Option<string>,
    managerApproval: Option<bool>,
    securityApproval: Option<bool>,
    managerExitApproval: Option<bool>,
    securityData: Option<string>,
    checkInTime: Option<Time>,
    checkOutTime: Option<Time>)

  /** A row of `vms_users` (staff: manager, security or admin). */
  datatype User = User(
    userId: string,
    firstName: string,
    lastName: string,
    email: string,
    role: string,
    phone: string,
    departmentId: string,
    passwordHash: string,
    designation: string,
    status: string)

  /** A row of `vms_departments`. */
  datatype Department = Department(departmentId: string, departmentName: string)

  function VisitorIds(visitors: seq<Visitor>): (ids: seq<string>)
    ensures |ids| == |visitors|
    ensures forall i :: 0 <= i < |visitors| ==> ids[i] == visitors[i].visitorId
  {
    seq(|visitors|, i requires 0 <= i < |visitors| => visitors[i].visitorId)
  }

  function VisitIds(logs: seq<VisitLog>): (ids: seq<string>)
    ensures |ids| == |logs|
    ensures forall i :: 0 <= i < |logs| ==> ids[i] == logs[i].visitId
  {
    seq(|logs|, i requires 0 <= i < |logs| => logs[i].visitId)
  }

  function UserIds(users: seq<User>): (ids: seq<string>)
    ensures |ids| == |users|
    ensures forall i :: 0 <= i < |users| ==> ids[i] == users[i].userId
  {
    seq(|users|, i requires 0 <= i < |users| => users[i].userId)
  }

  /** No two entries are equal: the primary-key constraint of a table. */
  predicate Unique(ids: seq<string>) {
    forall i, j :: 0 <= i < j < |ids| ==> ids[i] != ids[j]
  }

  predicate UniqueDepartmentIds(departments: seq<Department>) {
    forall i, j :: 0 <= i < j < |departments| ==> departments[i].departmentId != departments[j].departmentId
  }

  /** What the transitions of the approval workflow keep true of every visit
      log: security decides only at check-in, so a security decision comes
      with a check-in time, and security approves only visits the manager
      has approved. */
  predicate GatesConsistent(v: VisitLog) {
    && (v.securityApproval.Some? ==> v.checkInTime.Some?)
    && (v.securityApproval == Some(true) ==> v.managerApproval == Some(true))
  }

  /** Appending a visit log under a fresh id keeps the visit ids unique and
      the gate invariant of every row. */
  lemma AppendVisitLog(logs: seq<VisitLog>, row: VisitLog)
    requires Unique(VisitIds(logs)) && row.visitId !in VisitIds(logs)
    requires forall i :: 0 <= i < |logs| ==> GatesConsistent(logs[i])
    requires GatesConsistent(row)
    ensures Unique(VisitIds(logs + [row]))
    ensures forall i :: 0 <= i < |logs + [row]| ==> GatesConsistent((logs + [row])[i])
  {
    assert VisitIds(logs + [row]) == VisitIds(logs) + [row.visitId];
  }

  /** The `ORDER BY visit_date DESC` comparison. */
  predicate LaterVisitDate(a: VisitLog, b: VisitLog) {
    a.visitDate >= b.visitDate
  }

  lemma LaterVisitDateOrders()
    ensures Total(LaterVisitDate) && Transitive(LaterVisitDate)
  {
  }

  /** The database: the four tables that the handlers read and update. */
  class Db {
    var visitors: seq<Visitor>
    var visitLogs: seq<VisitLog>
    var users: seq<User>
    var departments: seq<Department>

    ghost predicate Valid()
      reads this
    {
      && Unique(VisitorIds(visitors))
      && Unique(VisitIds(visitLogs))
      && Unique(UserIds(users))
      && UniqueDepartmentIds(departments)
      && forall i :: 0 <= i < |visitLogs| ==> GatesConsistent(visitLogs[i])
    }

    /** A database holding only the reference data of the departments. */
    constructor (departments: seq<Department>)
      requires UniqueDepartmentIds(departments)
      ensures Valid()
      ensures visitors == [] && visitLogs == [] && users == []
      ensures this.departments == departments
    {
      visitors := [];
      visitLogs := [];
      users := [];
      this.departments := departments;
    }
  }
}
