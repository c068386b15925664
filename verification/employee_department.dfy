/**
  The `employeeDepartment` junction (models/employeeDepartment.model.js): the pair
  (employeeId, departmentId) is the primary key, each column references the id of
  an employee or a department, and the two `belongsToMany` declarations make the
  link many-to-many in both directions.
 */
module EmployeeDepartmentModel {
  import opened Tables

  /** Both foreign keys name an existing row. */
  predicate References(db: Db, row: EmployeeDepartment) {
    EmployeeById(db, row.employeeId).Some? && DepartmentById(db, row.departmentId).Some?
  }

  /** What the schema keeps true: every row references existing rows, and no pair occurs twice. */
  predicate RowsValid(db: Db) {
    && (forall row <- db.employeeDepartments :: References(db, row))
    && (forall i, j :: 0 <= i < j < |db.employeeDepartments| ==>
          db.employeeDepartments[i] != db.employeeDepartments[j])
  }

  /**
    `employeeDepartment.create({ employeeId, departmentId })`: a primary-key column may
    not be null; the database then rejects a pair that is already present and a key
    that references no row.
   */
  function Insert(db: Db, employeeId: Option<int>, departmentId: Option<int>): (r: Result<EmployeeDepartment>)
    ensures r.Ok? ==> employeeId.Some? && departmentId.Some?
    ensures r.Ok? ==> r.value == EmployeeDepartment(employeeId.value, departmentId.value)
    ensures r.Ok? ==> r.value !in db.employeeDepartments && References(db, r.value)
  {
    if employeeId.None? || departmentId.None? then Err(NotNullViolation)
    else
      var row := EmployeeDepartment(employeeId.value, departmentId.value);
      if row in db.employeeDepartments then Err(UniqueViolation)
      else if !References(db, row) then Err(ForeignKeyViolation)
      else Ok(row)
  }

  /** The database after a successful insert. */
  function Append(db: Db, row: EmployeeDepartment): Db {
    db.(employeeDepartments := db.employeeDepartments + [row])
  }

  /** A null key is refused before the database is asked anything. */
  lemma NullKeyRejected(db: Db, employeeId: Option<int>, departmentId: Option<int>)
    requires employeeId.None? || departmentId.None?
    ensures Insert(db, employeeId, departmentId) == Err(NotNullViolation)
  {
  }

  /** A pair already present violates the composite primary key. */
  lemma DuplicatePairRejected(db: Db, employeeId: int, departmentId: int)
    requires EmployeeDepartment(employeeId, departmentId) in db.employeeDepartments
    ensures Insert(db, Some(employeeId), Some(departmentId)) == Err(UniqueViolation)
  {
  }

  /** An employeeId that names no employee is a foreign-key violation, and nothing is inserted. */
  lemma UnknownEmployeeRejected(db: Db, employeeId: int, departmentId: int)
    requires RowsValid(db)
    requires forall e <- db.employees :: e.id != employeeId
    ensures Insert(db, Some(employeeId), Some(departmentId)) == Err(ForeignKeyViolation)
  {
    var row := EmployeeDepartment(employeeId, departmentId);
    assert EmployeeById(db, employeeId).None?;
    assert row !in db.employeeDepartments;
  }

  /** A departmentId that names no department is a foreign-key violation, and nothing is inserted. */
  lemma UnknownDepartmentRejected(db: Db, employeeId: int, departmentId: int)
    requires RowsValid(db)
    requires forall d <- db.departments :: d.id != departmentId
    ensures Insert(db, Some(employeeId), Some(departmentId)) == Err(ForeignKeyViolation)
  {
    var row := EmployeeDepartment(employeeId, departmentId);
    assert DepartmentById(db, departmentId).None?;
    assert row !in db.employeeDepartments;
  }

  /**
    Many-to-many: a new pair of existing rows is accepted whatever other rows already
    link the same employee to other departments or the same department to other employees.
   */
  lemma NewPairAccepted(db: Db, employeeId: int, departmentId: int)
    requires EmployeeById(db, employeeId).Some? && DepartmentById(db, departmentId).Some?
    requires EmployeeDepartment(employeeId, departmentId) !in db.employeeDepartments
    ensures Insert(db, Some(employeeId), Some(departmentId)) == Ok(EmployeeDepartment(employeeId, departmentId))
  {
  }

  /** An accepted insert keeps the schema's guarantees. */
  lemma InsertKeepsRowsValid(db: Db, employeeId: Option<int>, departmentId: Option<int>)
    requires RowsValid(db)
    requires Insert(db, employeeId, departmentId).Ok?
    ensures RowsValid(Append(db, Insert(db, employeeId, departmentId).value))
  {
    var row := Insert(db, employeeId, departmentId).value;
    var rows' := db.employeeDepartments + [row];
    forall i, j | 0 <= i < j < |rows'| ensures rows'[i] != rows'[j] {
      if j == |rows'| - 1 {
        assert rows'[i] in db.employeeDepartments;
      }
    }
  }
}
