/**
  The request handlers of index.js, without the HTTP layer: the seed route, the
  two resolvers and `getEmployeeDetails`, `addEmployee`, and the list, by-id,
  by-department, by-role, sort-by-name and create routes. Each handler takes the
  store it reads or writes and returns what the route would answer.
 */
module Service {
  import opened Tables
  import opened Aggregation
  import opened Store
  import NameOrder
  import EmployeeDepartmentModel
  import EmployeeRoleModel

  /** Why a route answers with status 500. */
  datatype Failure =
    | DbFailure(error: DbError)  // an insert refused by a schema or by the database
    | NullDereference            // `getEmployeeDetails(null)` reads `.id` of null
    | UndeclaredVariable         // the by-role 404 message reads `departmentId`, not declared there
    | UndefinedWhereValue        // a `where` clause handed `undefined`, which the ORM refuses
    | UndefinedBody              // `req.body.name` read while `req.body` is undefined

  /** What a route answers: a JSON body (200), "not found" (404) or an error (500). */
  datatype Response<T> = Json(body: T) | NotFound | ServerError(failure: Failure)

  // ---------------------------------------------------------------------------
  // Resolvers and the detail record (index.js:78-119)

  /** `getEmployeeDepartments`: loops over the employee's links, each lookup overwriting the last. */
  method GetEmployeeDepartments(store: Store, employeeId: int) returns (departmentData: Option<Department>)
    ensures departmentData == ResolvedDepartment(store.State(), employeeId)
  {
    var employeeDepartments := Filter(store.employeeDepartments, DepartmentLinkOf(employeeId));
    departmentData := None;
    for i := 0 to |employeeDepartments|
      invariant departmentData ==
        if i == 0 then None else DepartmentById(store.State(), employeeDepartments[i - 1].departmentId)
    {
      departmentData := DepartmentById(store.State(), employeeDepartments[i].departmentId);
    }
  }

  /** `getEmployeeRoles`: loops over the employee's role links, each lookup overwriting the last. */
  method GetEmployeeRoles(store: Store, employeeId: int) returns (roleData: Option<Role>)
    ensures roleData == ResolvedRole(store.State(), employeeId)
  {
    var employeeRoles := Filter(store.employeeRoles, RoleLinkOf(employeeId));
    roleData := None;
    for i := 0 to |employeeRoles|
      invariant roleData == if i == 0 then None else RoleById(store.State(), employeeRoles[i - 1].roleId)
    {
      roleData := RoleById(store.State(), employeeRoles[i].roleId);
    }
  }

  /** `getEmployeeDetails` for an employee row. */
  method GetEmployeeDetails(store: Store, employeeData: Employee) returns (detail: EmployeeDetail)
    ensures detail == Details(store.State(), employeeData)
    ensures detail.Base() == employeeData
  {
    var department := GetEmployeeDepartments(store, employeeData.id);
    var role := GetEmployeeRoles(store, employeeData.id);
    detail := EmployeeDetail(employeeData.id, employeeData.name, employeeData.email, department, role);
  }

  // ---------------------------------------------------------------------------
  // Read routes (index.js:126-282)

  /** GET /employees: the detail record of every employee, in table order. */
  method ListEmployees(store: Store) returns (r: Response<seq<EmployeeDetail>>)
    ensures r.Json? && |r.body| == |store.employees|
    ensures forall i :: 0 <= i < |store.employees| ==> r.body[i] == Details(store.State(), store.employees[i])
  {
    r := Json(AllDetails(store.State(), store.employees));
  }

  /** GET /employees/details/:id: 404 when no employee has the id, else its detail record. */
  method EmployeeDetailsById(store: Store, id: int) returns (r: Response<EmployeeDetail>)
    ensures !r.ServerError?
    ensures r.NotFound? <==> forall e <- store.employees :: e.id != id
    ensures r.Json? ==> r.body.id == id && r.body == Details(store.State(), EmployeeById(store.State(), id).value)
  {
    var employeeData := EmployeeById(store.State(), id);
    if employeeData.None? {
      return NotFound;
    }
    var detail := GetEmployeeDetails(store, employeeData.value);
    r := Json(detail);
  }

  /** `where: { departmentId }` on `employeeDepartment`. */
  function LinkToDepartment(departmentId: int): EmployeeDepartment -> bool {
    (row: EmployeeDepartment) => row.departmentId == departmentId
  }

  /** `where: { roleId }` on `employeeRole`. */
  function LinkToRole(roleId: int): EmployeeRole -> bool {
    (row: EmployeeRole) => row.roleId == roleId
  }

  /** The employee ids of the department's links, in link order. */
  function DepartmentMembers(db: Db, departmentId: int): (ids: seq<int>)
    ensures var links := Filter(db.employeeDepartments, LinkToDepartment(departmentId));
      |ids| == |links| && forall i :: 0 <= i < |links| ==> ids[i] == links[i].employeeId
  {
    var links := Filter(db.employeeDepartments, LinkToDepartment(departmentId));
    seq(|links|, i requires 0 <= i < |links| => links[i].employeeId)
  }

  /** The employee ids of the role's links, in link order. */
  function RoleMembers(db: Db, roleId: int): (ids: seq<int>)
    ensures var links := Filter(db.employeeRoles, LinkToRole(roleId));
      |ids| == |links| && forall i :: 0 <= i < |links| ==> ids[i] == links[i].employeeId
  {
    var links := Filter(db.employeeRoles, LinkToRole(roleId));
    seq(|links|, i requires 0 <= i < |links| => links[i].employeeId)
  }

  /** An id is among the department's members exactly when a link pairs it with the department. */
  lemma DepartmentMembersAreLinked(db: Db, departmentId: int, employeeId: int)
    ensures employeeId in DepartmentMembers(db, departmentId) <==>
      EmployeeDepartment(employeeId, departmentId) in db.employeeDepartments
  {
    var links := Filter(db.employeeDepartments, LinkToDepartment(departmentId));
    var ids := DepartmentMembers(db, departmentId);
    var row := EmployeeDepartment(employeeId, departmentId);
    if employeeId in ids {
      var i :| 0 <= i < |ids| && ids[i] == employeeId;
      assert links[i] in links;
      assert links[i] == row;
    }
    if row in db.employeeDepartments {
      assert LinkToDepartment(departmentId)(row);
      assert row in links;
      var i :| 0 <= i < |links| && links[i] == row;
      assert ids[i] == employeeId;
    }
  }

  /** An id is among the role's members exactly when a link pairs it with the role. */
  lemma RoleMembersAreLinked(db: Db, roleId: int, employeeId: int)
    ensures employeeId in RoleMembers(db, roleId) <==> EmployeeRole(employeeId, roleId) in db.employeeRoles
  {
    var links := Filter(db.employeeRoles, LinkToRole(roleId));
    var ids := RoleMembers(db, roleId);
    var row := EmployeeRole(employeeId, roleId);
    if employeeId in ids {
      var i :| 0 <= i < |ids| && ids[i] == employeeId;
      assert links[i] in links;
      assert links[i] == row;
    }
    if row in db.employeeRoles {
      assert LinkToRole(roleId)(row);
      assert row in links;
      var i :| 0 <= i < |links| && links[i] == row;
      assert ids[i] == employeeId;
    }
  }

  /** What GET /employees/department/:departmentId answers for a database. */
  function DepartmentListing(db: Db, departmentId: int): Response<seq<EmployeeDetail>> {
    match CollectDetails(db, DepartmentMembers(db, departmentId))
    case None => ServerError(NullDereference)
    case Some(details) => if details == [] then NotFound else Json(details)
  }

  /**
    What GET /employees/role/:roleId answers for a database: as for a department,
    except that an empty result builds its 404 message from the undeclared
    `departmentId`, and the ReferenceError turns the answer into a 500.
   */
  function RoleListing(db: Db, roleId: int): Response<seq<EmployeeDetail>> {
    match CollectDetails(db, RoleMembers(db, roleId))
    case None => ServerError(NullDereference)
    case Some(details) => if details == [] then ServerError(UndeclaredVariable) else Json(details)
  }

  /** Every link of a valid junction names an existing employee, so the loop never meets null. */
  lemma DepartmentMembersFound(db: Db, departmentId: int)
    requires EmployeeDepartmentModel.RowsValid(db)
    ensures CollectDetails(db, DepartmentMembers(db, departmentId)).Some?
  {
    var links := Filter(db.employeeDepartments, LinkToDepartment(departmentId));
    var ids := DepartmentMembers(db, departmentId);
    forall id <- ids
      ensures EmployeeById(db, id).Some?
    {
      var i :| 0 <= i < |ids| && ids[i] == id;
      assert links[i] in links;
      assert EmployeeDepartmentModel.References(db, links[i]);
    }
  }

  /** Every link of a valid role junction names an existing employee. */
  lemma RoleMembersFound(db: Db, roleId: int)
    requires EmployeeRoleModel.RowsValid(db)
    ensures CollectDetails(db, RoleMembers(db, roleId)).Some?
  {
    var links := Filter(db.employeeRoles, LinkToRole(roleId));
    var ids := RoleMembers(db, roleId);
    forall id <- ids
      ensures EmployeeById(db, id).Some?
    {
      var i :| 0 <= i < |ids| && ids[i] == id;
      assert links[i] in links;
      assert EmployeeRoleModel.References(db, links[i]);
    }
  }

  /**
    The by-department route on a consistent database: never a 500 (the null guard that
    comes too late is never needed), a 404 exactly when no link names the department,
    and otherwise one entry per link, in link order, for the employee that link names.
   */
  lemma DepartmentListingOutcome(db: Db, departmentId: int)
    requires Integrity(db)
    ensures !DepartmentListing(db, departmentId).ServerError?
    ensures DepartmentListing(db, departmentId).NotFound? <==>
      forall row <- db.employeeDepartments :: row.departmentId != departmentId
    ensures var links := Filter(db.employeeDepartments, LinkToDepartment(departmentId));
      DepartmentListing(db, departmentId).Json? ==>
        && |DepartmentListing(db, departmentId).body| == |links|
        && forall i :: 0 <= i < |links| ==>
             DepartmentListing(db, departmentId).body[i] == Details(db, EmployeeById(db, links[i].employeeId).value)
             && DepartmentListing(db, departmentId).body[i].id == links[i].employeeId
  {
    DepartmentMembersFound(db, departmentId);
    DepartmentLoopShape(db, departmentId);
  }

  /** The loop over a valid junction's links: its records, one per link in link order, or none when no link matches. */
  lemma DepartmentLoopShape(db: Db, departmentId: int)
    requires EmployeeDepartmentModel.RowsValid(db)
    ensures var links := Filter(db.employeeDepartments, LinkToDepartment(departmentId));
      var found := CollectDetails(db, DepartmentMembers(db, departmentId));
      && found.Some?
      && (found.value == [] <==> forall row <- db.employeeDepartments :: row.departmentId != departmentId)
      && |found.value| == |links|
      && forall i :: 0 <= i < |links| ==>
           found.value[i] == Details(db, EmployeeById(db, links[i].employeeId).value)
           && found.value[i].id == links[i].employeeId
  {
    DepartmentMembersFound(db, departmentId);
    var links := Filter(db.employeeDepartments, LinkToDepartment(departmentId));
    var ids := DepartmentMembers(db, departmentId);
    if links == [] {
      assert ids == [];
    } else {
      assert |CollectDetails(db, ids).value| > 0;
    }
    forall i | 0 <= i < |links|
      ensures EmployeeById(db, links[i].employeeId).value.id == links[i].employeeId
    {
      assert ids[i] in ids;
    }
  }

  /**
    The by-role route on a consistent database: never a 404. A role without links is
    answered with a 500, because building the 404 message throws; otherwise one entry
    per link, in link order.
   */
  lemma RoleListingOutcome(db: Db, roleId: int)
    requires Integrity(db)
    ensures !RoleListing(db, roleId).NotFound?
    ensures RoleListing(db, roleId).ServerError? <==> forall row <- db.employeeRoles :: row.roleId != roleId
    ensures RoleListing(db, roleId).ServerError? ==> RoleListing(db, roleId).failure == UndeclaredVariable
    ensures var links := Filter(db.employeeRoles, LinkToRole(roleId));
      RoleListing(db, roleId).Json? ==>
        && |RoleListing(db, roleId).body| == |links|
        && forall i :: 0 <= i < |links| ==>
             RoleListing(db, roleId).body[i] == Details(db, EmployeeById(db, links[i].employeeId).value)
             && RoleListing(db, roleId).body[i].id == links[i].employeeId
  {
    RoleMembersFound(db, roleId);
    RoleLoopShape(db, roleId);
  }

  /** The loop over a valid junction's links: its records, one per link in link order, or none when no link matches. */
  lemma RoleLoopShape(db: Db, roleId: int)
    requires EmployeeRoleModel.RowsValid(db)
    ensures var links := Filter(db.employeeRoles, LinkToRole(roleId));
      var found := CollectDetails(db, RoleMembers(db, roleId));
      && found.Some?
      && (found.value == [] <==> forall row <- db.employeeRoles :: row.roleId != roleId)
      && |found.value| == |links|
      && forall i :: 0 <= i < |links| ==>
           found.value[i] == Details(db, EmployeeById(db, links[i].employeeId).value)
           && found.value[i].id == links[i].employeeId
  {
    RoleMembersFound(db, roleId);
    var links := Filter(db.employeeRoles, LinkToRole(roleId));
    var ids := RoleMembers(db, roleId);
    if links == [] {
      assert ids == [];
    } else {
      assert |CollectDetails(db, ids).value| > 0;
    }
    forall i | 0 <= i < |links|
      ensures EmployeeById(db, links[i].employeeId).value.id == links[i].employeeId
    {
      assert ids[i] in ids;
    }
  }

  /**
    What the by-role route evidently means to answer: a 404 when no employee holds the
    role, as the by-department route does.
   */
  function RoleListingIntended(db: Db, roleId: int): Response<seq<EmployeeDetail>> {
    match CollectDetails(db, RoleMembers(db, roleId))
    case None => ServerError(NullDereference)
    case Some(details) => if details == [] then NotFound else Json(details)
  }

  /** The intended by-role route: never a 500 on a consistent database, a 404 exactly when no link names the role. */
  lemma RoleListingIntendedOutcome(db: Db, roleId: int)
    requires Integrity(db)
    ensures !RoleListingIntended(db, roleId).ServerError?
    ensures RoleListingIntended(db, roleId).NotFound? <==> forall row <- db.employeeRoles :: row.roleId != roleId
    ensures RoleListingIntended(db, roleId).Json? ==> RoleListingIntended(db, roleId) == RoleListing(db, roleId)
  {
    RoleMembersFound(db, roleId);
    var links := Filter(db.employeeRoles, LinkToRole(roleId));
    var ids := RoleMembers(db, roleId);
    if links == [] {
      assert ids == [];
    } else {
      assert |CollectDetails(db, ids).value| > 0;
    }
  }

  /**
    An entry of the by-department listing shows the employee's resolved department: the
    one named by the employee's last link, which need not be the department asked for
    when the employee has links to several departments.
   */
  lemma DepartmentEntryShowsLastLink(db: Db, departmentId: int, i: nat, k: nat)
    requires Integrity(db)
    requires i < |Filter(db.employeeDepartments, LinkToDepartment(departmentId))|
    requires k < |db.employeeDepartments|
    requires db.employeeDepartments[k].employeeId ==
      Filter(db.employeeDepartments, LinkToDepartment(departmentId))[i].employeeId
    requires forall j :: k < j < |db.employeeDepartments| ==>
      db.employeeDepartments[j].employeeId != db.employeeDepartments[k].employeeId
    ensures DepartmentListing(db, departmentId).Json?
    ensures DepartmentListing(db, departmentId).body[i].department.Some?
    ensures DepartmentListing(db, departmentId).body[i].department.value.id == db.employeeDepartments[k].departmentId
  {
    DepartmentListingOutcome(db, departmentId);
    var links := Filter(db.employeeDepartments, LinkToDepartment(departmentId));
    assert links[i] in db.employeeDepartments;
    ResolvedDepartmentIsLastLink(db, links[i].employeeId, k);
  }

  /** GET /employees/department/:departmentId: the loop over the department's links. */
  method EmployeesByDepartment(store: Store, departmentId: int) returns (r: Response<seq<EmployeeDetail>>)
    ensures r == DepartmentListing(store.State(), departmentId)
  {
    ghost var ids := DepartmentMembers(store.State(), departmentId);
    var employeeDepartments := Filter(store.employeeDepartments, LinkToDepartment(departmentId));
    var employeesWithDetails := [];
    for i := 0 to |employeeDepartments|
      invariant CollectDetails(store.State(), ids[..i]) == Some(employeesWithDetails)
    {
      var employeeData := EmployeeById(store.State(), employeeDepartments[i].employeeId);
      if employeeData.None? {
        // getEmployeeDetails(null) throws before the `if (employeeData)` guard is reached
        CollectFails(store.State(), ids, i);
        return ServerError(NullDereference);
      }
      var employeeWithDetails := GetEmployeeDetails(store, employeeData.value);
      CollectStep(store.State(), ids, i, employeesWithDetails, employeeData.value);
      employeesWithDetails := employeesWithDetails + [employeeWithDetails];
    }
    assert ids[..|employeeDepartments|] == ids;
    if |employeesWithDetails| == 0 {
      return NotFound;
    }
    r := Json(employeesWithDetails);
  }

  /** GET /employees/role/:roleId: the loop over the role's links. */
  method EmployeesByRole(store: Store, roleId: int) returns (r: Response<seq<EmployeeDetail>>)
    ensures r == RoleListing(store.State(), roleId)
  {
    ghost var ids := RoleMembers(store.State(), roleId);
    var employeeRoles := Filter(store.employeeRoles, LinkToRole(roleId));
    var employeesWithDetails := [];
    for i := 0 to |employeeRoles|
      invariant CollectDetails(store.State(), ids[..i]) == Some(employeesWithDetails)
    {
      var employeeData := EmployeeById(store.State(), employeeRoles[i].employeeId);
      if employeeData.None? {
        CollectFails(store.State(), ids, i);
        return ServerError(NullDereference);
      }
      var employeeWithDetails := GetEmployeeDetails(store, employeeData.value);
      CollectStep(store.State(), ids, i, employeesWithDetails, employeeData.value);
      employeesWithDetails := employeesWithDetails + [employeeWithDetails];
    }
    assert ids[..|employeeRoles|] == ids;
    if |employeesWithDetails| == 0 {
      // the 404 message reads `departmentId`, which this route never declares
      return ServerError(UndeclaredVariable);
    }
    r := Json(employeesWithDetails);
  }

  /** GET /employees/sort-by-name: every detail record, sorted in place by name. */
  method EmployeesSortedByName(store: Store, order: Option<string>) returns (r: Response<seq<EmployeeDetail>>)
    ensures r.Json?
    ensures r.body == NameOrder.Sort(AllDetails(store.State(), store.employees), NameOrder.Ascending(order))
    ensures multiset(r.body) == multiset(AllDetails(store.State(), store.employees))
    ensures NameOrder.Sorted(r.body, NameOrder.Ascending(order))
  {
    var ascending := NameOrder.Ascending(order);
    var details := AllDetails(store.State(), store.employees);
    var employeesWithDetails := new EmployeeDetail[|details|](i requires 0 <= i < |details| => details[i]);
    assert employeesWithDetails[..] == details;
    NameOrder.SortByName(employeesWithDetails, ascending);
    NameOrder.SortPermutes(details, ascending);
    NameOrder.SortSorted(details, ascending);
    r := Json(employeesWithDetails[..]);
  }

  // ---------------------------------------------------------------------------
  // Creating an employee (index.js:121-124, 284-309)

  /**
    What the create route holds after `addEmployee`: the row itself, or, as
    `addEmployee` returns it, an object `{ newEmployee }` wrapping the row.
   */
  datatype Created = Row(employee: Employee) | Wrapper(newEmployee: Employee)
  {
    /** `.id` of the value: the row's id, or `undefined` (None) on the wrapper, which has no `id`. */
    function Id(): Option<int> {
      match this
      case Row(e) => Some(e.id)
      case Wrapper(_) => None
    }
  }

  /** The database after `employee.create(empData)`: the row with the next id appended. */
  function AddedEmployee(db: Db, name: string, email: string): (r: (Db, Employee))
    ensures r.1.name == name && r.1.email == email
    ensures db.employees <= r.0.employees && r.0.employees[|db.employees|..] == [r.1]
    ensures r.0.departments == db.departments && r.0.roles == db.roles
    ensures r.0.employeeDepartments == db.employeeDepartments && r.0.employeeRoles == db.employeeRoles
    ensures IdsAutoIncremented(db) ==>
      IdsAutoIncremented(r.0) && EmployeeById(r.0, r.1.id) == Some(r.1) && forall e <- db.employees :: e.id != r.1.id
    ensures Integrity(db) ==> Integrity(r.0)
  {
    var row := Employee(|db.employees| + 1, name, email);
    var added := db.(employees := db.employees + [row]);
    NextEmployeeFits(db, added, row);
    (added, row)
  }

  /** The row with the next id keeps the ids auto-incremented, is found by its id, and keeps the database consistent. */
  lemma NextEmployeeFits(db: Db, added: Db, row: Employee)
    requires row.id == |db.employees| + 1 && added == db.(employees := db.employees + [row])
    ensures IdsAutoIncremented(db) ==>
      IdsAutoIncremented(added) && EmployeeById(added, row.id) == Some(row) && forall e <- db.employees :: e.id != row.id
    ensures Integrity(db) ==> Integrity(added)
  {
    if IdsAutoIncremented(db) {
      EmployeeByIdIsRow(added, row.id);
    }
    if Integrity(db) {
      GrowthKeepsIntegrity(db, added);
    }
  }

  /** `getEmployeeDetails` on what the create route holds; on the wrapper, `where: { employeeId: undefined }` throws. */
  function CreatedDetails(db: Db, created: Created): (r: Response<EmployeeDetail>)
    ensures r.Json? <==> created.Row?
    ensures r.Json? ==> r.body.Base() == created.employee
    ensures r.Json? ==> r.body.department == ResolvedDepartment(db, created.employee.id)
    ensures r.Json? ==> r.body.role == ResolvedRole(db, created.employee.id)
    ensures r.ServerError? ==> r.failure == UndefinedWhereValue
  {
    match created
    case Row(e) => Json(Details(db, e))
    case Wrapper(_) => ServerError(UndefinedWhereValue)
  }

  /**
    The rest of the create route once the employee exists: the department link, the
    role link, then the detail record. A refused insert throws and is answered with a
    500; what was inserted before it stays, as no transaction surrounds the route.
   */
  function Linked(db: Db, created: Created, departmentId: Option<int>, roleId: Option<int>)
    : (r: (Db, Response<EmployeeDetail>))
    ensures r.1.NotFound? == false
  {
    match EmployeeDepartmentModel.Insert(db, created.Id(), departmentId)
    case Err(e) => (db, ServerError(DbFailure(e)))
    case Ok(link) =>
      var withDepartment := EmployeeDepartmentModel.Append(db, link);
      match EmployeeRoleModel.Insert(withDepartment, created.Id(), roleId)
      case Err(e) => (withDepartment, ServerError(DbFailure(e)))
      case Ok(roleLink) =>
        var withRole := EmployeeRoleModel.Append(withDepartment, roleLink);
        (withRole, CreatedDetails(withRole, created))
  }

  /** POST /employees/new as written: the department link is made for the wrapper's missing `id`. */
  function CreateRoute(db: Db, name: string, email: string, departmentId: Option<int>, roleId: Option<int>)
    : (Db, Response<EmployeeDetail>)
  {
    var (added, row) := AddedEmployee(db, name, email);
    Linked(added, Wrapper(row), departmentId, roleId)
  }

  /** POST /employees/new as evidently intended: the links are made for the new row's id. */
  function CreateRouteIntended(db: Db, name: string, email: string, departmentId: Option<int>, roleId: Option<int>)
    : (Db, Response<EmployeeDetail>)
  {
    var (added, row) := AddedEmployee(db, name, email);
    Linked(added, Row(row), departmentId, roleId)
  }

  /**
    The create route as written always fails: the wrapper has no `id`, so the department
    link's primary key is null and the insert is refused; the employee row stays, and
    no link is made, whatever the request names.
   */
  lemma CreateRouteAlwaysFails(db: Db, name: string, email: string, departmentId: Option<int>, roleId: Option<int>)
    ensures CreateRoute(db, name, email, departmentId, roleId).1 == ServerError(DbFailure(NotNullViolation))
    ensures CreateRoute(db, name, email, departmentId, roleId).0 ==
      db.(employees := db.employees + [Employee(|db.employees| + 1, name, email)])
  {
  }

  /** With the next id, the new employee has no link yet in a consistent database. */
  lemma FreshEmployeeUnlinked(db: Db)
    requires Integrity(db)
    ensures forall row <- db.employeeDepartments :: row.employeeId != |db.employees| + 1
    ensures forall row <- db.employeeRoles :: row.employeeId != |db.employees| + 1
  {
    EmployeeByIdIsRow(db, |db.employees| + 1);
    forall row <- db.employeeDepartments
      ensures row.employeeId != |db.employees| + 1
    {
      assert EmployeeDepartmentModel.References(db, row);
    }
    forall row <- db.employeeRoles
      ensures row.employeeId != |db.employees| + 1
    {
      assert EmployeeRoleModel.References(db, row);
    }
  }

  /** Linking an existing, still unlinked employee to an existing department decides its department. */
  lemma DepartmentLinkStep(db: Db, employeeId: int, departmentId: int)
    requires Integrity(db) && EmployeeById(db, employeeId).Some?
    requires forall link <- db.employeeDepartments :: link.employeeId != employeeId
    requires DepartmentById(db, departmentId).Some?
    ensures EmployeeDepartmentModel.Insert(db, Some(employeeId), Some(departmentId)) ==
      Ok(EmployeeDepartment(employeeId, departmentId))
    ensures var db' := EmployeeDepartmentModel.Append(db, EmployeeDepartment(employeeId, departmentId));
      Integrity(db') && ResolvedDepartment(db', employeeId) == DepartmentById(db, departmentId)
  {
    var link := EmployeeDepartment(employeeId, departmentId);
    assert link !in db.employeeDepartments;
    EmployeeDepartmentModel.NewPairAccepted(db, employeeId, departmentId);
    DepartmentLinkKeepsIntegrity(db, Some(employeeId), Some(departmentId));
    var db' := EmployeeDepartmentModel.Append(db, link);
    ResolvedDepartmentIsLastLink(db', employeeId, |db.employeeDepartments|);
  }

  /** Linking an existing employee to an existing role decides its role. */
  lemma RoleLinkStep(db: Db, employeeId: int, roleId: int)
    requires Integrity(db) && EmployeeById(db, employeeId).Some? && RoleById(db, roleId).Some?
    ensures EmployeeRoleModel.Insert(db, Some(employeeId), Some(roleId)) == Ok(EmployeeRole(employeeId, roleId))
    ensures var db' := EmployeeRoleModel.Append(db, EmployeeRole(employeeId, roleId));
      Integrity(db') && ResolvedRole(db', employeeId) == RoleById(db, roleId)
  {
    var link := EmployeeRole(employeeId, roleId);
    RoleLinkKeepsIntegrity(db, Some(employeeId), Some(roleId));
    var db' := EmployeeRoleModel.Append(db, link);
    ResolvedRoleIsLastLink(db', employeeId, |db.employeeRoles|);
  }

  /**
    Linking an existing, still unlinked employee row to an existing department and an
    existing role: a 200 whose record has that department and that role, and a database
    that is still consistent.
   */
  lemma LinkedRowSucceeds(db: Db, row: Employee, departmentId: int, roleId: int)
    requires Integrity(db) && EmployeeById(db, row.id) == Some(row)
    requires forall link <- db.employeeDepartments :: link.employeeId != row.id
    requires DepartmentById(db, departmentId).Some? && RoleById(db, roleId).Some?
    ensures var (db', r) := Linked(db, Row(row), Some(departmentId), Some(roleId));
      && r == Json(Details(db', row))
      && r.body.department == DepartmentById(db, departmentId)
      && r.body.role == RoleById(db, roleId)
      && Integrity(db')
  {
    DepartmentLinkStep(db, row.id, departmentId);
    var withDepartment := EmployeeDepartmentModel.Append(db, EmployeeDepartment(row.id, departmentId));
    assert RoleById(withDepartment, roleId) == RoleById(db, roleId);
    assert EmployeeById(withDepartment, row.id) == EmployeeById(db, row.id);
    RoleLinkStep(withDepartment, row.id, roleId);
    var withRole := EmployeeRoleModel.Append(withDepartment, EmployeeRole(row.id, roleId));
    assert ResolvedDepartment(withRole, row.id) == ResolvedDepartment(withDepartment, row.id);
  }

  /**
    The intended create route on a consistent database, given an existing department
    and role: a 200 whose record is the new row with that department and that role, and
    a database that is still consistent.
   */
  lemma CreateRouteIntendedSucceeds(db: Db, name: string, email: string, departmentId: int, roleId: int)
    requires Integrity(db)
    requires DepartmentById(db, departmentId).Some? && RoleById(db, roleId).Some?
    ensures var (db', r) := CreateRouteIntended(db, name, email, Some(departmentId), Some(roleId));
      && r.Json?
      && r.body.Base() == Employee(|db.employees| + 1, name, email)
      && r.body.department == DepartmentById(db, departmentId)
      && r.body.role == RoleById(db, roleId)
      && Integrity(db')
  {
    var (added, row) := AddedEmployee(db, name, email);
    FreshEmployeeUnlinked(db);
    GrowthKeepsIntegrity(db, added);
    EmployeeByIdIsRow(added, row.id);
    assert DepartmentById(added, departmentId) == DepartmentById(db, departmentId);
    assert RoleById(added, roleId) == RoleById(db, roleId);
    LinkedRowSucceeds(added, row, departmentId, roleId);
  }

  /**
    The intended create route with a department that does not exist: a 500, and the new
    employee row stays without any link.
   */
  lemma CreateRouteIntendedUnknownDepartment(db: Db, name: string, email: string, departmentId: int, roleId: Option<int>)
    requires Integrity(db)
    requires forall d <- db.departments :: d.id != departmentId
    ensures CreateRouteIntended(db, name, email, Some(departmentId), roleId) ==
      (db.(employees := db.employees + [Employee(|db.employees| + 1, name, email)]),
       ServerError(DbFailure(ForeignKeyViolation)))
  {
    var (added, row) := AddedEmployee(db, name, email);
    GrowthKeepsIntegrity(db, added);
    EmployeeDepartmentModel.UnknownDepartmentRejected(added, row.id, departmentId);
  }

  /** Linking an unlinked employee row to an existing department and a missing role keeps the department link. */
  lemma LinkedUnknownRole(db: Db, row: Employee, departmentId: int, roleId: int)
    requires Integrity(db) && EmployeeById(db, row.id) == Some(row)
    requires forall link <- db.employeeDepartments :: link.employeeId != row.id
    requires DepartmentById(db, departmentId).Some? && RoleById(db, roleId).None?
    ensures Linked(db, Row(row), Some(departmentId), Some(roleId)) ==
      (EmployeeDepartmentModel.Append(db, EmployeeDepartment(row.id, departmentId)),
       ServerError(DbFailure(ForeignKeyViolation)))
  {
    DepartmentLinkStep(db, row.id, departmentId);
    var withDepartment := EmployeeDepartmentModel.Append(db, EmployeeDepartment(row.id, departmentId));
    assert RoleById(withDepartment, roleId) == RoleById(db, roleId);
  }

  /**
    The intended create route with an existing department but a role that does not
    exist: a 500, and both the new employee row and its department link stay.
   */
  lemma CreateRouteIntendedUnknownRole(db: Db, name: string, email: string, departmentId: int, roleId: int)
    requires Integrity(db)
    requires DepartmentById(db, departmentId).Some?
    requires forall r <- db.roles :: r.id != roleId
    ensures var row := Employee(|db.employees| + 1, name, email);
      CreateRouteIntended(db, name, email, Some(departmentId), Some(roleId)) ==
        (db.(employees := db.employees + [row],
             employeeDepartments := db.employeeDepartments + [EmployeeDepartment(row.id, departmentId)]),
         ServerError(DbFailure(ForeignKeyViolation)))
  {
    var (added, row) := AddedEmployee(db, name, email);
    FreshEmployeeUnlinked(db);
    GrowthKeepsIntegrity(db, added);
    EmployeeByIdIsRow(added, row.id);
    assert DepartmentById(added, departmentId) == DepartmentById(db, departmentId);
    assert RoleById(added, roleId) == RoleById(db, roleId);
    LinkedUnknownRole(added, row, departmentId, roleId);
  }

  /** The fields of a parsed POST /employees/new body. */
  datatype NewEmployeeBody = NewEmployeeBody(name: string, email: string, departmentId: Option<int>, roleId: Option<int>)

  /**
    POST /employees/new from the request on, as written. `req.body` is None unless a
    body-parsing middleware has run; the app registers none (only `express.static` and
    `cors`), so reading `req.body.name` throws before anything is inserted.
   */
  function CreateRequest(db: Db, body: Option<NewEmployeeBody>): (r: (Db, Response<EmployeeDetail>))
    ensures body.None? ==> r.0 == db
    ensures r.1.ServerError?
  {
    match body
    case None => (db, ServerError(UndefinedBody))
    case Some(b) =>
      CreateRouteAlwaysFails(db, b.name, b.email, b.departmentId, b.roleId);
      CreateRoute(db, b.name, b.email, b.departmentId, b.roleId)
  }

  /**
    POST /employees/new as evidently intended: a JSON body parser fills `req.body`, and
    the links are made for the new row's id.
   */
  function CreateRequestIntended(db: Db, body: Option<NewEmployeeBody>): (Db, Response<EmployeeDetail>) {
    match body
    case None => (db, ServerError(UndefinedBody))
    case Some(b) => CreateRouteIntended(db, b.name, b.email, b.departmentId, b.roleId)
  }

  /** As written, every create request fails before any insert: the database is left as it was. */
  lemma UnparsedCreateRequestFails(db: Db)
    ensures CreateRequest(db, None) == (db, ServerError(UndefinedBody))
  {
  }

  /**
    With the body parsed and the links made for the new row, a request naming an existing
    department and role stores the posted employee and answers its record.
   */
  lemma ParsedCreateRequestSucceeds(db: Db, body: NewEmployeeBody, departmentId: int, roleId: int)
    requires Integrity(db)
    requires body.departmentId == Some(departmentId) && body.roleId == Some(roleId)
    requires DepartmentById(db, departmentId).Some? && RoleById(db, roleId).Some?
    ensures var (db', r) := CreateRequestIntended(db, Some(body));
      && r.Json?
      && r.body.Base() == Employee(|db.employees| + 1, body.name, body.email)
      && r.body.department == DepartmentById(db, departmentId)
      && r.body.role == RoleById(db, roleId)
      && db'.employees == db.employees + [r.body.Base()]
      && Integrity(db')
  {
    CreateRouteIntendedSucceeds(db, body.name, body.email, departmentId, roleId);
  }

  /** `addEmployee(empData)`: creates the row and returns it wrapped as `{ newEmployee }`. */
  method AddEmployee(store: Store, name: string, email: string) returns (created: Created)
    requires store.Valid()
    modifies store
    ensures store.Valid()
    ensures var (db', row) := AddedEmployee(old(store.State()), name, email);
      created == Wrapper(row) && store.State() == db'
  {
    var newEmployee := store.CreateEmployee(name, email);
    created := Wrapper(newEmployee);
  }

  /** The two junction inserts and the detail record that follow `addEmployee` in the create route. */
  method LinkEmployee(store: Store, created: Created, departmentId: Option<int>, roleId: Option<int>)
    returns (r: Response<EmployeeDetail>)
    requires store.Valid()
    modifies store
    ensures store.Valid()
    ensures (store.State(), r) == Linked(old(store.State()), created, departmentId, roleId)
  {
    var departmentLink := store.CreateEmployeeDepartment(created.Id(), departmentId);
    if departmentLink.Err? {
      return ServerError(DbFailure(departmentLink.error));
    }
    var roleLink := store.CreateEmployeeRole(created.Id(), roleId);
    if roleLink.Err? {
      return ServerError(DbFailure(roleLink.error));
    }
    match created
    case Row(employeeData) =>
      var employeeDetail := GetEmployeeDetails(store, employeeData);
      r := Json(employeeDetail);
    case Wrapper(_) =>
      r := ServerError(UndefinedWhereValue);
  }

  /** POST /employees/new as written. */
  method CreateEmployee(store: Store, name: string, email: string, departmentId: Option<int>, roleId: Option<int>)
    returns (r: Response<EmployeeDetail>)
    requires store.Valid()
    modifies store
    ensures store.Valid()
    ensures (store.State(), r) == CreateRoute(old(store.State()), name, email, departmentId, roleId)
    ensures r == ServerError(DbFailure(NotNullViolation))
  {
    ghost var before := store.State();
    var newEmployee := AddEmployee(store, name, email);
    r := LinkEmployee(store, newEmployee, departmentId, roleId);
    CreateRouteAlwaysFails(before, name, email, departmentId, roleId);
  }

  /** POST /employees/new as evidently intended: `addEmployee` hands back the row itself. */
  method CreateEmployeeIntended(store: Store, name: string, email: string, departmentId: Option<int>, roleId: Option<int>)
    returns (r: Response<EmployeeDetail>)
    requires store.Valid()
    modifies store
    ensures store.Valid()
    ensures (store.State(), r) == CreateRouteIntended(old(store.State()), name, email, departmentId, roleId)
  {
    var newEmployee := AddEmployee(store, name, email);
    r := LinkEmployee(store, Row(newEmployee.newEmployee), departmentId, roleId);
  }
}
