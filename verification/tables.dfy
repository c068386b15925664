/**
  The five relations of the employee service, held in insertion order, and the
  two ORM queries the service runs on them: `findOne({ where })` and
  `findAll({ where })`, neither of which is given an `order`.
 */
module Tables {

  datatype Option<+T> = None | Some(value: T)

  /** A row of `employees`: only the columns the service reads or writes. */
  datatype Employee = Employee(id: int, name: string, email: string)

  /** A row of `departments`. */
  datatype Department = Department(id: int, name: string)

  /** A row of `roles`. */
  datatype Role = Role(id: int, title: string)

  /** A row of the `employeeDepartment` junction. */
  datatype EmployeeDepartment = EmployeeDepartment(employeeId: int, departmentId: int)

  /** A row of the `employeeRole` junction. */
  datatype EmployeeRole = EmployeeRole(employeeId: int, roleId: int)

  /** The whole database: every relation as the sequence of its rows in insertion order. */
  datatype Db = Db(
    employees: seq<Employee>,
    departments: seq<Department>,
    roles: seq<Role>,
    employeeDepartments: seq<EmployeeDepartment>,
    employeeRoles: seq<EmployeeRole>)

  /** What `sync({ force: true })` leaves: every relation dropped and created again, empty. */
  const EmptyDb: Db := Db([], [], [], [], [])

  /** The ways an insert is refused by the ORM's validation or by the database. */
  datatype DbError =
    | NotNullViolation     // a column declared non-null (or part of a primary key) is null
    | NotEmptyViolation    // the `notEmpty` validator of a column failed
    | UniqueViolation      // a unique column or a primary key would hold the same value twice
    | ForeignKeyViolation  // a `references` column names no row of the referenced relation

  datatype Result<+T> = Ok(value: T) | Err(error: DbError)

  /** `findOne({ where })`: the first row, in store order, that satisfies the condition. */
  function FindFirst<T>(rows: seq<T>, where: T -> bool): (r: Option<T>)
    ensures r.Some? ==> r.value in rows && where(r.value)
    ensures r.None? <==> forall x <- rows :: !where(x)
  {
    if rows == [] then None
    else if where(rows[0]) then Some(rows[0])
    else FindFirst(rows[1..], where)
  }

  /** `findAll({ where })`: every row that satisfies the condition, in store order. */
  function Filter<T>(rows: seq<T>, where: T -> bool): (r: seq<T>)
    ensures |r| <= |rows|
    ensures forall x <- r :: x in rows && where(x)
    ensures forall x <- rows :: where(x) ==> x in r
    ensures r == [] <==> forall x <- rows :: !where(x)
    decreases |rows|
  {
    if rows == [] then []
    else
      var last := rows[|rows| - 1];
      Filter(rows[..|rows| - 1], where) + (if where(last) then [last] else [])
  }

  /** The first matching row is the one at index k when no earlier row matches. */
  lemma {:induction false} FindFirstAt<T>(rows: seq<T>, where: T -> bool, k: nat)
    requires k < |rows| && where(rows[k])
    requires forall j :: 0 <= j < k ==> !where(rows[j])
    ensures FindFirst(rows, where) == Some(rows[k])
  {
    if k > 0 {
      assert forall j :: 0 <= j < k - 1 ==> rows[1..][j] == rows[j + 1];
      FindFirstAt(rows[1..], where, k - 1);
    }
  }

  /** The last row `findAll` returns is the last matching row of the relation. */
  lemma {:induction false} FilterLast<T>(rows: seq<T>, where: T -> bool, k: nat)
    requires k < |rows| && where(rows[k])
    requires forall j :: k < j < |rows| ==> !where(rows[j])
    ensures var f := Filter(rows, where); f != [] && f[|f| - 1] == rows[k]
  {
    var n := |rows|;
    var front := rows[..n - 1];
    if k < n - 1 {
      assert !where(rows[n - 1]);
      assert Filter(rows, where) == Filter(front, where) + [];
      assert front[k] == rows[k];
      assert forall j :: k < j < |front| ==> front[j] == rows[j];
      FilterLast(front, where, k);
    } else {
      assert Filter(rows, where) == Filter(front, where) + [rows[k]];
    }
  }

  /** `findAll` distributes over a relation split in two. */
  lemma {:induction false} FilterAppend<T>(a: seq<T>, b: seq<T>, where: T -> bool)
    ensures Filter(a + b, where) == Filter(a, where) + Filter(b, where)
    decreases |b|
  {
    if b != [] {
      var n := |b|;
      assert (a + b)[..|a + b| - 1] == a + b[..n - 1];
      FilterAppend(a, b[..n - 1], where);
    } else {
      assert a + b == a;
    }
  }

  // The `where` clauses of the service, one named condition each.

  function EmployeeIdIs(id: int): Employee -> bool { (e: Employee) => e.id == id }
  function DepartmentIdIs(id: int): Department -> bool { (d: Department) => d.id == id }
  function RoleIdIs(id: int): Role -> bool { (r: Role) => r.id == id }

  function EmployeeById(db: Db, id: int): Option<Employee> { FindFirst(db.employees, EmployeeIdIs(id)) }
  function DepartmentById(db: Db, id: int): Option<Department> { FindFirst(db.departments, DepartmentIdIs(id)) }
  function RoleById(db: Db, id: int): Option<Role> { FindFirst(db.roles, RoleIdIs(id)) }

  /**
    The auto-increment keys: the relations start empty after `sync({ force: true })`
    and no row is ever deleted, so the row at index i carries the id i + 1.
   */
  predicate IdsAutoIncremented(db: Db) {
    && (forall i :: 0 <= i < |db.employees| ==> db.employees[i].id == i + 1)
    && (forall i :: 0 <= i < |db.departments| ==> db.departments[i].id == i + 1)
    && (forall i :: 0 <= i < |db.roles| ==> db.roles[i].id == i + 1)
  }

  /** With auto-increment keys, looking an employee up by id is indexing by id - 1. */
  lemma EmployeeByIdIsRow(db: Db, id: int)
    requires IdsAutoIncremented(db)
    ensures EmployeeById(db, id) == if 1 <= id <= |db.employees| then Some(db.employees[id - 1]) else None
  {
    if 1 <= id <= |db.employees| {
      FindFirstAt(db.employees, EmployeeIdIs(id), id - 1);
    }
  }

  lemma DepartmentByIdIsRow(db: Db, id: int)
    requires IdsAutoIncremented(db)
    ensures DepartmentById(db, id) == if 1 <= id <= |db.departments| then Some(db.departments[id - 1]) else None
  {
    if 1 <= id <= |db.departments| {
      FindFirstAt(db.departments, DepartmentIdIs(id), id - 1);
    }
  }

  lemma RoleByIdIsRow(db: Db, id: int)
    requires IdsAutoIncremented(db)
    ensures RoleById(db, id) == if 1 <= id <= |db.roles| then Some(db.roles[id - 1]) else None
  {
    if 1 <= id <= |db.roles| {
      FindFirstAt(db.roles, RoleIdIs(id), id - 1);
    }
  }
}
