/**
  The composite view of index.js: how an employee's department and role are
  resolved through the junctions (`getEmployeeDepartments`, `getEmployeeRoles`),
  the detail record built from them (`getEmployeeDetails`), and the lists of
  detail records the routes return.
 */
module Aggregation {
  import opened Tables
  import EmployeeDepartmentModel
  import EmployeeRoleModel

  /** `{ ...employeeData.dataValues, department, role }`; an absent link is `undefined`, here None. */
  datatype EmployeeDetail = EmployeeDetail(
    id: int, name: string, email: string,
    department: Option<Department>,
    role: Option<Role>)
  {
    /** The employee's own columns: the record without the two added fields. */
    function Base(): Employee {
      Employee(id, name, email)
    }
  }

  /** `where: { employeeId }` on `employeeDepartment`. */
  function DepartmentLinkOf(employeeId: int): EmployeeDepartment -> bool {
    (row: EmployeeDepartment) => row.employeeId == employeeId
  }

  /** `where: { employeeId }` on `employeeRole`. */
  function RoleLinkOf(employeeId: int): EmployeeRole -> bool {
    (row: EmployeeRole) => row.employeeId == employeeId
  }

  /**
    What `getEmployeeDepartments` returns. The loop looks up the department of every
    link of the employee and each lookup overwrites the previous one, so the last link
    in store order decides; with no link the variable stays undefined.
   */
  function ResolvedDepartment(db: Db, employeeId: int): Option<Department> {
    var links := Filter(db.employeeDepartments, DepartmentLinkOf(employeeId));
    if links == [] then None else DepartmentById(db, links[|links| - 1].departmentId)
  }

  /** What `getEmployeeRoles` returns: the role of the employee's last role link, if any. */
  function ResolvedRole(db: Db, employeeId: int): Option<Role> {
    var links := Filter(db.employeeRoles, RoleLinkOf(employeeId));
    if links == [] then None else RoleById(db, links[|links| - 1].roleId)
  }

  /** The department is absent exactly when the employee has no department link. */
  lemma ResolvedDepartmentAbsent(db: Db, employeeId: int)
    requires EmployeeDepartmentModel.RowsValid(db)
    ensures ResolvedDepartment(db, employeeId).None? <==>
      forall row <- db.employeeDepartments :: row.employeeId != employeeId
  {
    var links := Filter(db.employeeDepartments, DepartmentLinkOf(employeeId));
    if links != [] {
      var last := links[|links| - 1];
      assert last in db.employeeDepartments;
      assert EmployeeDepartmentModel.References(db, last);
    }
  }

  /** The role is absent exactly when the employee has no role link. */
  lemma ResolvedRoleAbsent(db: Db, employeeId: int)
    requires EmployeeRoleModel.RowsValid(db)
    ensures ResolvedRole(db, employeeId).None? <==>
      forall row <- db.employeeRoles :: row.employeeId != employeeId
  {
    var links := Filter(db.employeeRoles, RoleLinkOf(employeeId));
    if links != [] {
      var last := links[|links| - 1];
      assert last in db.employeeRoles;
      assert EmployeeRoleModel.References(db, last);
    }
  }

  /** Last link wins: the department is the one named by the employee's last link in store order. */
  lemma ResolvedDepartmentIsLastLink(db: Db, employeeId: int, k: nat)
    requires EmployeeDepartmentModel.RowsValid(db)
    requires k < |db.employeeDepartments| && db.employeeDepartments[k].employeeId == employeeId
    requires forall j :: k < j < |db.employeeDepartments| ==> db.employeeDepartments[j].employeeId != employeeId
    ensures ResolvedDepartment(db, employeeId) == DepartmentById(db, db.employeeDepartments[k].departmentId)
    ensures ResolvedDepartment(db, employeeId).Some?
    ensures ResolvedDepartment(db, employeeId).value.id == db.employeeDepartments[k].departmentId
  {
    assert db.employeeDepartments[k] in db.employeeDepartments;
    LastDepartmentLink(db, employeeId, k);
  }

  /** The resolution step behind ResolvedDepartmentIsLastLink, for a last link that references a department. */
  lemma LastDepartmentLink(db: Db, employeeId: int, k: nat)
    requires k < |db.employeeDepartments| && db.employeeDepartments[k].employeeId == employeeId
    requires forall j :: k < j < |db.employeeDepartments| ==> db.employeeDepartments[j].employeeId != employeeId
    requires EmployeeDepartmentModel.References(db, db.employeeDepartments[k])
    ensures ResolvedDepartment(db, employeeId) == DepartmentById(db, db.employeeDepartments[k].departmentId)
    ensures ResolvedDepartment(db, employeeId).Some?
    ensures ResolvedDepartment(db, employeeId).value.id == db.employeeDepartments[k].departmentId
  {
    FilterLast(db.employeeDepartments, DepartmentLinkOf(employeeId), k);
  }

  /** Last link wins: the role is the one named by the employee's last role link in store order. */
  lemma ResolvedRoleIsLastLink(db: Db, employeeId: int, k: nat)
    requires EmployeeRoleModel.RowsValid(db)
    requires k < |db.employeeRoles| && db.employeeRoles[k].employeeId == employeeId
    requires forall j :: k < j < |db.employeeRoles| ==> db.employeeRoles[j].employeeId != employeeId
    ensures ResolvedRole(db, employeeId) == RoleById(db, db.employeeRoles[k].roleId)
    ensures ResolvedRole(db, employeeId).Some?
    ensures ResolvedRole(db, employeeId).value.id == db.employeeRoles[k].roleId
  {
    assert db.employeeRoles[k] in db.employeeRoles;
    LastRoleLink(db, employeeId, k);
  }

  /** The resolution step behind ResolvedRoleIsLastLink, for a last link that references a role. */
  lemma LastRoleLink(db: Db, employeeId: int, k: nat)
    requires k < |db.employeeRoles| && db.employeeRoles[k].employeeId == employeeId
    requires forall j :: k < j < |db.employeeRoles| ==> db.employeeRoles[j].employeeId != employeeId
    requires EmployeeRoleModel.References(db, db.employeeRoles[k])
    ensures ResolvedRole(db, employeeId) == RoleById(db, db.employeeRoles[k].roleId)
    ensures ResolvedRole(db, employeeId).Some?
    ensures ResolvedRole(db, employeeId).value.id == db.employeeRoles[k].roleId
  {
    FilterLast(db.employeeRoles, RoleLinkOf(employeeId), k);
  }

  /**
    A role link just inserted decides the employee's role, whatever links the employee
    had before, a copy of the same link included.
   */
  lemma InsertedRoleLinkWins(db: Db, row: EmployeeRole)
    requires EmployeeRoleModel.RowsValid(db) && EmployeeRoleModel.References(db, row)
    ensures var db' := EmployeeRoleModel.Append(db, row);
      ResolvedRole(db', row.employeeId).Some? && ResolvedRole(db', row.employeeId).value.id == row.roleId
  {
    var db' := EmployeeRoleModel.Append(db, row);
    ResolvedRoleIsLastLink(db', row.employeeId, |db.employeeRoles|);
  }

  /** A department link just inserted decides the employee's department. */
  lemma InsertedDepartmentLinkWins(db: Db, row: EmployeeDepartment)
    requires EmployeeDepartmentModel.RowsValid(db) && EmployeeDepartmentModel.References(db, row)
    requires row !in db.employeeDepartments
    ensures var db' := EmployeeDepartmentModel.Append(db, row);
      ResolvedDepartment(db', row.employeeId).Some? && ResolvedDepartment(db', row.employeeId).value.id == row.departmentId
  {
    var db' := EmployeeDepartmentModel.Append(db, row);
    EmployeeDepartmentModel.InsertKeepsRowsValid(db, Some(row.employeeId), Some(row.departmentId));
    ResolvedDepartmentIsLastLink(db', row.employeeId, |db.employeeDepartments|);
  }

  /**
    `getEmployeeDetails`: the employee's own columns, unchanged, plus `department` and
    `role` from the two resolvers.
   */
  function Details(db: Db, e: Employee): (d: EmployeeDetail)
    ensures d.Base() == e
  {
    EmployeeDetail(e.id, e.name, e.email, ResolvedDepartment(db, e.id), ResolvedRole(db, e.id))
  }

  /** `employees.map(getEmployeeDetails)` under `Promise.all`: the output keeps the input's order. */
  function AllDetails(db: Db, employees: seq<Employee>): (r: seq<EmployeeDetail>)
    ensures |r| == |employees|
    ensures forall i :: 0 <= i < |employees| ==> r[i] == Details(db, employees[i])
  {
    if employees == [] then []
    else [Details(db, employees[0])] + AllDetails(db, employees[1..])
  }

  /**
    The loop of the by-department and by-role routes over a list of employee ids:
    each id is looked up and its detail record appended. A missing employee is passed
    as null to `getEmployeeDetails`, which dereferences it before the `if (employeeData)`
    guard, so the whole loop fails; None stands for that failure.
   */
  function CollectDetails(db: Db, ids: seq<int>): (r: Option<seq<EmployeeDetail>>)
    ensures r.Some? <==> forall id <- ids :: EmployeeById(db, id).Some?
    ensures r.Some? ==> |r.value| == |ids|
    ensures r.Some? ==> forall i :: 0 <= i < |ids| ==> r.value[i] == Details(db, EmployeeById(db, ids[i]).value)
    decreases |ids|
  {
    if ids == [] then Some([])
    else
      var front := ids[..|ids| - 1];
      assert ids == front + [ids[|ids| - 1]];
      match CollectDetails(db, front)
      case None => None
      case Some(prefix) =>
        match EmployeeById(db, ids[|ids| - 1])
        case None => None
        case Some(e) => Some(prefix + [Details(db, e)])
  }

  /** One more found employee appends its record to the loop's list. */
  lemma CollectStep(db: Db, ids: seq<int>, i: nat, found: seq<EmployeeDetail>, e: Employee)
    requires i < |ids| && CollectDetails(db, ids[..i]) == Some(found)
    requires EmployeeById(db, ids[i]) == Some(e)
    ensures CollectDetails(db, ids[..i + 1]) == Some(found + [Details(db, e)])
  {
    assert ids[..i + 1][..i] == ids[..i];
  }

  /** One missing employee fails the whole loop. */
  lemma CollectFails(db: Db, ids: seq<int>, i: nat)
    requires i < |ids| && EmployeeById(db, ids[i]).None?
    ensures CollectDetails(db, ids).None?
  {
    assert ids[i] in ids;
  }
}
