/**
  The database as the service sees it: the five relations, the inserts the ORM
  performs on them (each guarded by its model's schema) and the integrity the
  schema keeps.
 */
module Store {
  import opened Tables
  import EmployeeDepartmentModel
  import EmployeeRoleModel
  import RoleModel

  /** What the schemas keep true of the database between requests. */
  predicate Integrity(db: Db) {
    && IdsAutoIncremented(db)
    && RoleModel.TitlesUnique(db.roles)
    && EmployeeDepartmentModel.RowsValid(db)
    && EmployeeRoleModel.RowsValid(db)
  }

  /** The rows a bulk insert of employees creates after `count` existing ones. */
  function NumberedEmployees(count: nat, people: seq<(string, string)>): seq<Employee> {
    seq(|people|, i requires 0 <= i < |people| => Employee(count + i + 1, people[i].0, people[i].1))
  }

  /** The rows a bulk insert of departments creates after `count` existing ones. */
  function NumberedDepartments(count: nat, names: seq<string>): seq<Department> {
    seq(|names|, i requires 0 <= i < |names| => Department(count + i + 1, names[i]))
  }

  /**
    Adding employees, departments or roles with the next ids never breaks a junction
    row: every id a row referenced is still found.
   */
  lemma GrowthKeepsIntegrity(db: Db, db': Db)
    requires Integrity(db) && IdsAutoIncremented(db') && RoleModel.TitlesUnique(db'.roles)
    requires db.employees <= db'.employees && db.departments <= db'.departments && db.roles <= db'.roles
    requires db'.employeeDepartments == db.employeeDepartments && db'.employeeRoles == db.employeeRoles
    ensures Integrity(db')
  {
    forall row <- db'.employeeDepartments
      ensures EmployeeDepartmentModel.References(db', row)
    {
      assert EmployeeDepartmentModel.References(db, row);
      EmployeeByIdIsRow(db, row.employeeId);
      EmployeeByIdIsRow(db', row.employeeId);
      DepartmentByIdIsRow(db, row.departmentId);
      DepartmentByIdIsRow(db', row.departmentId);
    }
    forall row <- db'.employeeRoles
      ensures EmployeeRoleModel.References(db', row)
    {
      assert EmployeeRoleModel.References(db, row);
      EmployeeByIdIsRow(db, row.employeeId);
      EmployeeByIdIsRow(db', row.employeeId);
      RoleByIdIsRow(db, row.roleId);
      RoleByIdIsRow(db', row.roleId);
    }
  }

  /** An accepted department link keeps the whole database consistent. */
  lemma DepartmentLinkKeepsIntegrity(db: Db, employeeId: Option<int>, departmentId: Option<int>)
    requires Integrity(db) && EmployeeDepartmentModel.Insert(db, employeeId, departmentId).Ok?
    ensures Integrity(EmployeeDepartmentModel.Append(db, EmployeeDepartmentModel.Insert(db, employeeId, departmentId).value))
  {
    var db' := EmployeeDepartmentModel.Append(db, EmployeeDepartmentModel.Insert(db, employeeId, departmentId).value);
    EmployeeDepartmentModel.InsertKeepsRowsValid(db, employeeId, departmentId);
    forall row <- db'.employeeRoles
      ensures EmployeeRoleModel.References(db', row)
    {
      assert EmployeeRoleModel.References(db, row);
    }
  }

  /** An accepted role link keeps the whole database consistent. */
  lemma RoleLinkKeepsIntegrity(db: Db, employeeId: Option<int>, roleId: Option<int>)
    requires Integrity(db) && EmployeeRoleModel.Insert(db, employeeId, roleId).Ok?
    ensures Integrity(EmployeeRoleModel.Append(db, EmployeeRoleModel.Insert(db, employeeId, roleId).value))
  {
    var db' := EmployeeRoleModel.Append(db, EmployeeRoleModel.Insert(db, employeeId, roleId).value);
    EmployeeRoleModel.InsertKeepsRowsValid(db, employeeId, roleId);
    forall row <- db'.employeeDepartments
      ensures EmployeeDepartmentModel.References(db', row)
    {
      assert EmployeeDepartmentModel.References(db, row);
    }
  }

  /** The five relations, owned by the database connection and changed only by inserts and `sync`. */
  class Store {
    var employees: seq<Employee>
    var departments: seq<Department>
    var roles: seq<Role>
    var employeeDepartments: seq<EmployeeDepartment>
    var employeeRoles: seq<EmployeeRole>

    /** The relations as one value. */
    function State(): Db
      reads this
    {
      Db(employees, departments, roles, employeeDepartments, employeeRoles)
    }

    predicate Valid()
      reads this
    {
      Integrity(State())
    }

    /** A freshly created database. */
    constructor ()
      ensures State() == EmptyDb && Valid()
    {
      employees, departments, roles := [], [], [];
      employeeDepartments, employeeRoles := [], [];
    }

    /** `sequelize.sync({ force: true })`: every relation is dropped and created again, empty. */
    method Sync()
      modifies this
      ensures State() == EmptyDb && Valid()
    {
      employees, departments, roles := [], [], [];
      employeeDepartments, employeeRoles := [], [];
    }

    /** `employee.create({ name, email })`: one new row with the next id. */
    method CreateEmployee(name: string, email: string) returns (row: Employee)
      requires Valid()
      modifies this
      ensures Valid()
      ensures row == Employee(|old(employees)| + 1, name, email)
      ensures State() == old(State()).(employees := old(employees) + [row])
    {
      row := Employee(|employees| + 1, name, email);
      ghost var before := State();
      employees := employees + [row];
      GrowthKeepsIntegrity(before, State());
    }

    /** `employee.bulkCreate(rows)`: the rows in order, with consecutive new ids. */
    method BulkCreateEmployees(people: seq<(string, string)>) returns (created: seq<Employee>)
      requires Valid()
      modifies this
      ensures Valid()
      ensures created == NumberedEmployees(|old(employees)|, people)
      ensures State() == old(State()).(employees := old(employees) + created)
    {
      created := NumberedEmployees(|employees|, people);
      ghost var before := State();
      employees := employees + created;
      GrowthKeepsIntegrity(before, State());
    }

    /** `department.bulkCreate(rows)`: the rows in order, with consecutive new ids. */
    method BulkCreateDepartments(names: seq<string>) returns (created: seq<Department>)
      requires Valid()
      modifies this
      ensures Valid()
      ensures created == NumberedDepartments(|old(departments)|, names)
      ensures State() == old(State()).(departments := old(departments) + created)
    {
      created := NumberedDepartments(|departments|, names);
      ghost var before := State();
      departments := departments + created;
      GrowthKeepsIntegrity(before, State());
    }

    /** `role.create({ title })`: inserted only when the role schema accepts it. */
    method CreateRole(title: Option<string>) returns (r: Result<Role>)
      requires Valid()
      modifies this
      ensures Valid()
      ensures r == RoleModel.Create(old(State()), title)
      ensures State() == if r.Ok? then old(State()).(roles := old(roles) + [r.value]) else old(State())
    {
      r := RoleModel.Create(State(), title);
      if r.Ok? {
        ghost var before := State();
        RoleModel.CreateKeepsTitlesUnique(before, title);
        roles := roles + [r.value];
        GrowthKeepsIntegrity(before, State());
      }
    }

    /** `role.bulkCreate(rows)`: all rows or, on a duplicate title, none. */
    method BulkCreateRoles(titles: seq<string>) returns (r: Result<seq<Role>>)
      requires Valid()
      modifies this
      ensures Valid()
      ensures r == RoleModel.BulkCreate(old(State()), titles)
      ensures State() == if r.Ok? then old(State()).(roles := old(roles) + r.value) else old(State())
    {
      r := RoleModel.BulkCreate(State(), titles);
      if r.Ok? {
        ghost var before := State();
        roles := roles + r.value;
        GrowthKeepsIntegrity(before, State());
      }
    }

    /** `employeeDepartment.create({ employeeId, departmentId })`. */
    method CreateEmployeeDepartment(employeeId: Option<int>, departmentId: Option<int>)
      returns (r: Result<EmployeeDepartment>)
      requires Valid()
      modifies this
      ensures Valid()
      ensures r == EmployeeDepartmentModel.Insert(old(State()), employeeId, departmentId)
      ensures State() == if r.Ok? then EmployeeDepartmentModel.Append(old(State()), r.value) else old(State())
    {
      r := EmployeeDepartmentModel.Insert(State(), employeeId, departmentId);
      if r.Ok? {
        EmployeeDepartmentModel.InsertKeepsRowsValid(State(), employeeId, departmentId);
        employeeDepartments := employeeDepartments + [r.value];
      }
    }

    /** `employeeRole.create({ employeeId, roleId })`. */
    method CreateEmployeeRole(employeeId: Option<int>, roleId: Option<int>)
      returns (r: Result<EmployeeRole>)
      requires Valid()
      modifies this
      ensures Valid()
      ensures r == EmployeeRoleModel.Insert(old(State()), employeeId, roleId)
      ensures State() == if r.Ok? then EmployeeRoleModel.Append(old(State()), r.value) else old(State())
    {
      r := EmployeeRoleModel.Insert(State(), employeeId, roleId);
      if r.Ok? {
        EmployeeRoleModel.InsertKeepsRowsValid(State(), employeeId, roleId);
        employeeRoles := employeeRoles + [r.value];
      }
    }
  }
}
