/**
  GET /seed_db (index.js:23-76): the database is dropped and created again, then filled
  with two departments, three roles, three employees and one department link and one
  role link per employee.
 */
module Seed {
  import opened Tables
  import opened Store
  import opened Aggregation
  import Service
  import RoleModel
  import EmployeeDepartmentModel
  import EmployeeRoleModel

  /** The departments the seed route inserts, by name. */
  const SeedDepartmentNames: seq<string> := ["Engineering", "Marketing"]

  /** The roles the seed route inserts, by title. */
  const SeedRoleTitles: seq<string> := ["Software Engineer", "Marketing Specialist", "Product Manager"]

  /** The employees the seed route inserts, as (name, email). */
  const SeedPeople: seq<(string, string)> := [
    ("Rahul Sharma", "rahul.sharma@example.com"),
    ("Priya Singh", "priya.singh@example.com"),
    ("Ankit Verma", "ankit.verma@example.com")]

  /** The department links the seed route makes: employees 1 and 3 to department 1, employee 2 to department 2. */
  const SeedDepartmentLinks: seq<EmployeeDepartment> :=
    [EmployeeDepartment(1, 1), EmployeeDepartment(2, 2), EmployeeDepartment(3, 1)]

  /** The role links the seed route makes: employee i to role i. */
  const SeedRoleLinks: seq<EmployeeRole> := [EmployeeRole(1, 1), EmployeeRole(2, 2), EmployeeRole(3, 3)]

  /** The database the seed route leaves behind. */
  const SeedData: Db := Db(
    NumberedEmployees(0, SeedPeople), NumberedDepartments(0, SeedDepartmentNames),
    RoleModel.NumberedRoles(0, SeedRoleTitles), SeedDepartmentLinks, SeedRoleLinks)

  /** A link between an existing employee and an existing department, not yet present, is accepted. */
  lemma DepartmentLinkAccepted(db: Db, employeeId: int, departmentId: int)
    requires IdsAutoIncremented(db)
    requires 1 <= employeeId <= |db.employees| && 1 <= departmentId <= |db.departments|
    requires EmployeeDepartment(employeeId, departmentId) !in db.employeeDepartments
    ensures EmployeeDepartmentModel.Insert(db, Some(employeeId), Some(departmentId)) ==
      Ok(EmployeeDepartment(employeeId, departmentId))
  {
    EmployeeByIdIsRow(db, employeeId);
    DepartmentByIdIsRow(db, departmentId);
  }

  /** A link between an existing employee and an existing role is accepted. */
  lemma RoleLinkAccepted(db: Db, employeeId: int, roleId: int)
    requires IdsAutoIncremented(db)
    requires 1 <= employeeId <= |db.employees| && 1 <= roleId <= |db.roles|
    ensures EmployeeRoleModel.Insert(db, Some(employeeId), Some(roleId)) == Ok(EmployeeRole(employeeId, roleId))
  {
    EmployeeByIdIsRow(db, employeeId);
    RoleByIdIsRow(db, roleId);
  }

  /** The three seed titles differ, so their bulk insert into an empty relation is accepted. */
  lemma SeedTitlesUnique()
    ensures RoleModel.TitlesUnique([] + RoleModel.NumberedRoles(0, SeedRoleTitles))
  {
    assert forall i, j :: 0 <= i < j < |SeedRoleTitles| ==> SeedRoleTitles[i] != SeedRoleTitles[j];
    RoleModel.NumberedRolesUnique(0, SeedRoleTitles);
    var roles := RoleModel.NumberedRoles(0, SeedRoleTitles);
    assert [] + roles == roles;
  }

  /** The start of the seed route: `sync({ force: true })` and the three bulk inserts. */
  method SeedEntities(store: Store) returns (employees: seq<Employee>, departments: seq<Department>, roles: seq<Role>)
    modifies store
    ensures store.Valid()
    ensures store.employees == SeedData.employees && store.departments == SeedData.departments
    ensures store.roles == SeedData.roles
    ensures store.employeeDepartments == [] && store.employeeRoles == []
    ensures employees == store.employees && departments == store.departments && roles == store.roles
  {
    store.Sync();
    departments := store.BulkCreateDepartments(SeedDepartmentNames);
    SeedTitlesUnique();
    var created := store.BulkCreateRoles(SeedRoleTitles);
    roles := created.value;
    employees := store.BulkCreateEmployees(SeedPeople);
  }

  /**
    One employee's pair of inserts in the seed route: `employeeDepartment.create` and
    then `employeeRole.create`, both accepted for an existing employee, department and role.
   */
  method Associate(store: Store, employeeId: int, departmentId: int, roleId: int)
    requires store.Valid()
    requires 1 <= employeeId <= |store.employees| && 1 <= departmentId <= |store.departments|
    requires 1 <= roleId <= |store.roles|
    requires EmployeeDepartment(employeeId, departmentId) !in store.employeeDepartments
    modifies store
    ensures store.Valid()
    ensures store.employees == old(store.employees) && store.departments == old(store.departments)
    ensures store.roles == old(store.roles)
    ensures store.employeeDepartments == old(store.employeeDepartments) + [EmployeeDepartment(employeeId, departmentId)]
    ensures store.employeeRoles == old(store.employeeRoles) + [EmployeeRole(employeeId, roleId)]
  {
    DepartmentLinkAccepted(store.State(), employeeId, departmentId);
    var link := store.CreateEmployeeDepartment(Some(employeeId), Some(departmentId));
    RoleLinkAccepted(store.State(), employeeId, roleId);
    var roleLink := store.CreateEmployeeRole(Some(employeeId), Some(roleId));
  }

  /**
    The seed route: every insert it makes is accepted, so it never throws, and it
    leaves exactly the seed data, which satisfies every constraint of the schema.
   */
  method SeedDb(store: Store) returns (r: Service.Response<string>)
    modifies store
    ensures store.Valid() && store.State() == SeedData
    ensures r == Service.Json("Database seeded!")
  {
    var employees, departments, roles := SeedEntities(store);
    Associate(store, employees[0].id, departments[0].id, roles[0].id);
    Associate(store, employees[1].id, departments[1].id, roles[1].id);
    Associate(store, employees[2].id, departments[0].id, roles[2].id);
    assert store.employeeDepartments == SeedData.employeeDepartments;
    assert store.employeeRoles == SeedData.employeeRoles;
    r := Service.Json("Database seeded!");
  }

  /** A database with three employees, two departments and three roles, linked as the seed route links them. */
  predicate SeedShaped(db: Db) {
    && IdsAutoIncremented(db)
    && |db.employees| == 3 && |db.departments| == 2 && |db.roles| == 3
    && db.employeeDepartments == SeedDepartmentLinks && db.employeeRoles == SeedRoleLinks
  }

  /** The seed's links reference existing rows, and no department link occurs twice. */
  lemma SeedLinksValid(db: Db)
    requires SeedShaped(db)
    ensures EmployeeDepartmentModel.RowsValid(db) && EmployeeRoleModel.RowsValid(db)
  {
    forall row <- db.employeeDepartments
      ensures EmployeeDepartmentModel.References(db, row)
    {
      EmployeeByIdIsRow(db, row.employeeId);
      DepartmentByIdIsRow(db, row.departmentId);
    }
    forall row <- db.employeeRoles
      ensures EmployeeRoleModel.References(db, row)
    {
      EmployeeByIdIsRow(db, row.employeeId);
      RoleByIdIsRow(db, row.roleId);
    }
  }

  /** The seed's links give employees 1 and 3 the first department and employee 2 the second. */
  lemma SeedDepartmentsResolve(db: Db)
    requires SeedShaped(db)
    ensures ResolvedDepartment(db, 1) == Some(db.departments[0])
    ensures ResolvedDepartment(db, 2) == Some(db.departments[1])
    ensures ResolvedDepartment(db, 3) == Some(db.departments[0])
  {
    SeedLinksValid(db);
    DepartmentByIdIsRow(db, 1);
    DepartmentByIdIsRow(db, 2);
    ResolvedDepartmentIsLastLink(db, 1, 0);
    ResolvedDepartmentIsLastLink(db, 2, 1);
    ResolvedDepartmentIsLastLink(db, 3, 2);
  }

  /** The seed's role links give employee i the i-th role. */
  lemma SeedRolesResolve(db: Db)
    requires SeedShaped(db)
    ensures ResolvedRole(db, 1) == Some(db.roles[0])
    ensures ResolvedRole(db, 2) == Some(db.roles[1])
    ensures ResolvedRole(db, 3) == Some(db.roles[2])
  {
    SeedLinksValid(db);
    RoleByIdIsRow(db, 1);
    RoleByIdIsRow(db, 2);
    RoleByIdIsRow(db, 3);
    ResolvedRoleIsLastLink(db, 1, 0);
    ResolvedRoleIsLastLink(db, 2, 1);
    ResolvedRoleIsLastLink(db, 3, 2);
  }

  /** The seed data has the seed's shape and satisfies every constraint of the schema. */
  lemma SeedIntegrity()
    ensures SeedShaped(SeedData) && Integrity(SeedData)
  {
    assert IdsAutoIncremented(SeedData);
    assert RoleModel.TitlesUnique(SeedData.roles);
    SeedLinksValid(SeedData);
  }

  /**
    What GET /employees answers after seeding: Rahul Sharma in Engineering as Software
    Engineer, Priya Singh in Marketing as Marketing Specialist, Ankit Verma in
    Engineering as Product Manager.
   */
  lemma SeededDetails()
    ensures AllDetails(SeedData, SeedData.employees) == [
      EmployeeDetail(1, "Rahul Sharma", "rahul.sharma@example.com",
        Some(Department(1, "Engineering")), Some(Role(1, "Software Engineer"))),
      EmployeeDetail(2, "Priya Singh", "priya.singh@example.com",
        Some(Department(2, "Marketing")), Some(Role(2, "Marketing Specialist"))),
      EmployeeDetail(3, "Ankit Verma", "ankit.verma@example.com",
        Some(Department(1, "Engineering")), Some(Role(3, "Product Manager")))]
  {
    SeedIntegrity();
    SeedDepartmentsResolve(SeedData);
    SeedRolesResolve(SeedData);
  }

  /**
    After seeding, a role that no employee holds is answered with a 500 by the by-role
    route as written, where the intended route answers 404.
   */
  lemma SeededUnheldRole()
    ensures Service.RoleListing(SeedData, 4) == Service.ServerError(Service.UndeclaredVariable)
    ensures Service.RoleListingIntended(SeedData, 4) == Service.NotFound
  {
    SeedIntegrity();
    Service.RoleListingOutcome(SeedData, 4);
    Service.RoleListingIntendedOutcome(SeedData, 4);
  }
}
