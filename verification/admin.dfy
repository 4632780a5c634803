/** The administrator's read-only views: the staff list with an optional
    department filter, the department list by name, and the visit
    analytics, three `GROUP BY` counts over the visit logs. */
module Admin {
  import opened Common
  import opened Seqs
  import opened Grouping
  import opened Store
  import opened Workflow
  import opened Auth

  // ---------------------------------------------------------------------
  // getUsers

  /** The columns `getUsers` selects: every column of a user except the
      password hash and the status. */
  datatype UserView = UserView(userId: string, firstName: string, lastName: string, email: string,
                               role: string, phone: string, departmentId: string, designation: string)

  function View(u: User): UserView {
    UserView(u.userId, u.firstName, u.lastName, u.email, u.role, u.phone, u.departmentId, u.designation)
  }

  /** The query filters by department only when the parameter is given,
      non-empty and not the "all departments" value "0". */
  predicate FiltersByDepartment(departmentId: Option<string>) {
    Truthy(departmentId) && departmentId.value != "0"
  }

  /** `WHERE department_id = $1`: the users of one department. */
  function DepartmentUsers(users: seq<User>, departmentId: string): (rows: seq<User>)
    ensures |rows| == CountWhere(users, (u: User) => u.departmentId == departmentId)
    ensures forall i :: 0 <= i < |rows| ==> rows[i].departmentId == departmentId
    ensures forall x :: multiset(rows)[x] == if x.departmentId == departmentId then multiset(users)[x] else 0
  {
    FilterMultiset(users, (u: User) => u.departmentId == departmentId);
    Filter(users, (u: User) => u.departmentId == departmentId)
  }

  /** `getUsers` (`GET /ceat/admin/users?department_id=...`). Without a
      filter every user is listed, in table order; with one, exactly the
      views of the users of that department, each as many times as the
      user occurs in the table. */
  function GetUsers(users: seq<User>, departmentId: Option<string>): (r: seq<UserView>)
    ensures !FiltersByDepartment(departmentId) ==>
              |r| == |users| && forall i :: 0 <= i < |users| ==> r[i] == View(users[i])
    ensures FiltersByDepartment(departmentId) ==>
              && |r| == CountWhere(users, (u: User) => u.departmentId == departmentId.value)
              && multiset(r) == multiset(Map(DepartmentUsers(users, departmentId.value), View))
              && (forall i :: 0 <= i < |r| ==> r[i].departmentId == departmentId.value)
              && (forall i :: 0 <= i < |users| && users[i].departmentId == departmentId.value ==>
                    View(users[i]) in r)
  {
    if !FiltersByDepartment(departmentId) then Map(users, View)
    else
      var d := departmentId.value;
      var rows := DepartmentUsers(users, d);
      var r := Map(rows, View);
      assert forall i :: 0 <= i < |users| && users[i].departmentId == d ==> View(users[i]) in r by {
        forall i | 0 <= i < |users| && users[i].departmentId == d
          ensures View(users[i]) in r
        {
          assert multiset(rows)[users[i]] == multiset(users)[users[i]] > 0;
          var j :| 0 <= j < |rows| && rows[j] == users[i];
          assert r[j] == View(users[i]);
        }
      }
      r
  }

  /** The listing never shows a password hash: two tables that differ only
      in password hashes list the same rows. */
  lemma HashesNotListed(users: seq<User>, users': seq<User>, departmentId: Option<string>)
    requires |users| == |users'|
    requires forall i :: 0 <= i < |users| ==> users'[i].(passwordHash := users[i].passwordHash) == users[i]
    ensures GetUsers(users', departmentId) == GetUsers(users, departmentId)
  {
    if FiltersByDepartment(departmentId) {
      var d := departmentId.value;
      forall i | 0 <= i < |users| ensures View(users[i]) == View(users'[i]) {
        assert users'[i].(passwordHash := users[i].passwordHash) == users[i];
      }
      FilterAgree(users, users', (u: User) => u.departmentId == d, View);
    }
  }

  /** Hence a password change leaves the staff listing as it was. */
  lemma PasswordChangeNotListed(users: seq<User>, userId: string, newHash: string, departmentId: Option<string>)
    ensures GetUsers(SetPasswordHash(users, userId, newHash), departmentId) == GetUsers(users, departmentId)
  {
    HashesNotListed(users, SetPasswordHash(users, userId, newHash), departmentId);
  }

  // ---------------------------------------------------------------------
  // getAllDepartments

  /** Lexicographic order of names by character code: a prefix comes
      first. */
  predicate NameLe(a: string, b: string) {
    a == [] || (b != [] && (a[0] < b[0] || (a[0] == b[0] && NameLe(a[1..], b[1..]))))
  }

  lemma {:induction false} NameLeTotal(a: string, b: string)
    ensures NameLe(a, b) || NameLe(b, a)
  {
    if a != [] && b != [] && a[0] == b[0] {
      NameLeTotal(a[1..], b[1..]);
    }
  }

  lemma {:induction false} NameLeTransitive(a: string, b: string, c: string)
    requires NameLe(a, b) && NameLe(b, c)
    ensures NameLe(a, c)
  {
    if a != [] && a[0] == b[0] && b[0] == c[0] {
      NameLeTransitive(a[1..], b[1..], c[1..]);
    }
  }

  /** Two names ordered both ways are the same name, so the order is a
      total order on names. */
  lemma {:induction false} NameLeAntisymmetric(a: string, b: string)
    requires NameLe(a, b) && NameLe(b, a)
    ensures a == b
  {
    if a != [] {
      NameLeAntisymmetric(a[1..], b[1..]);
      assert a == [a[0]] + a[1..] && b == [b[0]] + b[1..];
    }
  }

  /** The `ORDER BY department_name ASC` comparison. */
  predicate ByName(a: Department, b: Department) {
    NameLe(a.departmentName, b.departmentName)
  }

  lemma ByNameOrders()
    ensures Total(ByName) && Transitive(ByName)
  {
    forall a: Department, b: Department ensures ByName(a, b) || ByName(b, a) {
      NameLeTotal(a.departmentName, b.departmentName);
    }
    forall a: Department, b: Department, c: Department | ByName(a, b) && ByName(b, c)
      ensures ByName(a, c)
    {
      NameLeTransitive(a.departmentName, b.departmentName, c.departmentName);
    }
  }

  /** `getAllDepartments` (`GET /ceat/admin/departments`): every department, by name ascending. */
  function GetAllDepartments(departments: seq<Department>): (r: seq<Department>)
    ensures multiset(r) == multiset(departments)
    ensures forall i, j :: 0 <= i < j < |r| ==> NameLe(r[i].departmentName, r[j].departmentName)
  {
    ByNameOrders();
    var r := SortBy(departments, ByName);
    SortedPairwise(r, ByName);
    r
  }

  // ---------------------------------------------------------------------
  // getVisitAnalytics

  /** `d.department_name` of `LEFT JOIN vms_departments d ON v.department_id =
      d.department_id`: NULL when the log has no department or names one
      that does not exist. */
  function DepartmentNameOf(departments: seq<Department>, departmentId: Option<string>): (r: Option<string>)
    ensures r.Some? <==> departmentId.Some? &&
                         exists i :: 0 <= i < |departments| && departments[i].departmentId == departmentId.value
    ensures r.Some? ==> exists i :: 0 <= i < |departments| && departments[i].departmentId == departmentId.value
                                    && departments[i].departmentName == r.value
  {
    if departmentId.None? then None
    else
      match FindFirst(departments, (d: Department) => d.departmentId == departmentId.value)
      case None => None
      case Some(i) => Some(departments[i].departmentName)
  }

  function VisitTypeKey(v: VisitLog): Option<string> {
    v.visitType
  }

  /** The three result sets of `getVisitAnalytics`. */
  datatype VisitAnalytics = VisitAnalytics(
    visitTypeCounts: seq<Group<Option<string>>>,
    departmentCounts: seq<Group<Option<string>>>,
    approvalStatusCounts: seq<Group<Status>>)

  /** `SELECT visit_type, COUNT(*) ... GROUP BY visit_type`: each visit type
      (NULL being a key of its own) once, with the number of logs of that
      type, so the counts partition the visit logs. */
  function VisitTypeCounts(logs: seq<VisitLog>): (r: seq<Group<Option<string>>>)
    ensures DistinctKeys(r) && TotalCount(r) == |logs|
    ensures forall k :: CountOf(r, k) == CountWhere(logs, (v: VisitLog) => v.visitType == k)
    ensures forall i :: 0 <= i < |r| ==> r[i].count > 0
  {
    var r := GroupCount(Map(logs, VisitTypeKey));
    forall k ensures CountOf(r, k) == CountWhere(logs, (v: VisitLog) => v.visitType == k) {
      MapCount(logs, VisitTypeKey, k, (v: VisitLog) => v.visitType == k);
    }
    r
  }

  /** `SELECT d.department_name, COUNT(v.visit_id) ... LEFT JOIN ...
      GROUP BY d.department_name`: one group per department name, NULL for
      the logs without a known department; departments sharing a name share
      a group. */
  function DepartmentCounts(logs: seq<VisitLog>, departments: seq<Department>): (r: seq<Group<Option<string>>>)
    ensures DistinctKeys(r) && TotalCount(r) == |logs|
    ensures forall k :: CountOf(r, k)
                        == CountWhere(logs, (v: VisitLog) => DepartmentNameOf(departments, v.departmentId) == k)
    ensures forall i :: 0 <= i < |r| ==> r[i].count > 0
  {
    var departmentOf := (v: VisitLog) => DepartmentNameOf(departments, v.departmentId);
    var r := GroupCount(Map(logs, departmentOf));
    forall k ensures CountOf(r, k)
                     == CountWhere(logs, (v: VisitLog) => DepartmentNameOf(departments, v.departmentId) == k)
    {
      MapCount(logs, departmentOf, k, (v: VisitLog) => DepartmentNameOf(departments, v.departmentId) == k);
    }
    r
  }

  /** `SELECT CASE ... END AS status, COUNT(*) ... GROUP BY status`, with the
      same classification the security dashboard shows: each status once,
      with the number of logs in it, so Approved, Rejected and Pending
      partition the visit logs. */
  function ApprovalStatusCounts(logs: seq<VisitLog>): (r: seq<Group<Status>>)
    ensures DistinctKeys(r) && TotalCount(r) == |logs|
    ensures forall s :: CountOf(r, s) == CountWhere(logs, (v: VisitLog) => StatusOfLog(v) == s)
    ensures forall i :: 0 <= i < |r| ==> r[i].count > 0
  {
    var r := GroupCount(Map(logs, StatusOfLog));
    forall s ensures CountOf(r, s) == CountWhere(logs, (v: VisitLog) => StatusOfLog(v) == s) {
      MapCount(logs, StatusOfLog, s, (v: VisitLog) => StatusOfLog(v) == s);
    }
    r
  }

  /** `getVisitAnalytics` (`GET /ceat/admin/analytics`): the three counts side by side; each
      adds up to the number of visit logs. */
  function GetVisitAnalytics(logs: seq<VisitLog>, departments: seq<Department>): (r: VisitAnalytics)
    ensures TotalCount(r.visitTypeCounts) == |logs|
    ensures TotalCount(r.departmentCounts) == |logs|
    ensures TotalCount(r.approvalStatusCounts) == |logs|
  {
    VisitAnalytics(VisitTypeCounts(logs), DepartmentCounts(logs, departments), ApprovalStatusCounts(logs))
  }
}
