/**
  The `employeeRole` junction (models/employeeRole.model.js): both columns are
  non-null and reference `employees.id` and `roles.id`; no key is declared over
  the pair, so the same link may be stored more than once.
 */
module EmployeeRoleModel {
  import opened Tables

  /** Both foreign keys name an existing row. */
  predicate References(db: Db, row: EmployeeRole) {
    EmployeeById(db, row.employeeId).Some? && RoleById(db, row.roleId).Some?
  }

  /** What the schema keeps true: every row references existing rows (and nothing more). */
  predicate RowsValid(db: Db) {
    forall row <- db.employeeRoles :: References(db, row)
  }

  /**
    `employeeRole.create({ employeeId, roleId })`: the `allowNull: false` check runs
    first, then the database checks the two references.
   */
  function Insert(db: Db, employeeId: Option<int>, roleId: Option<int>): (r: Result<EmployeeRole>)
    ensures r.Ok? ==> employeeId.Some? && roleId.Some?
    ensures r.Ok? ==> r.value == EmployeeRole(employeeId.value, roleId.value) && References(db, r.value)
  {
    if employeeId.None? || roleId.None? then Err(NotNullViolation)
    else
      var row := EmployeeRole(employeeId.value, roleId.value);
      if !References(db, row) then Err(ForeignKeyViolation)
      else Ok(row)
  }

  /** The database after a successful insert. */
  function Append(db: Db, row: EmployeeRole): Db {
    db.(employeeRoles := db.employeeRoles + [row])
  }

  /** `employeeId` is declared `allowNull: false`. */
  lemma NullEmployeeRejected(db: Db, roleId: Option<int>)
    ensures Insert(db, None, roleId) == Err(NotNullViolation)
  {
  }

  /** `roleId` is declared `allowNull: false`. */
  lemma NullRoleRejected(db: Db, employeeId: Option<int>)
    ensures Insert(db, employeeId, None) == Err(NotNullViolation)
  {
  }

  /** A key that references no employee or no role is a foreign-key violation. */
  lemma UnknownReferenceRejected(db: Db, employeeId: int, roleId: int)
    requires (forall e <- db.employees :: e.id != employeeId) || (forall r <- db.roles :: r.id != roleId)
    ensures Insert(db, Some(employeeId), Some(roleId)) == Err(ForeignKeyViolation)
  {
  }

  /**
    No key covers the pair: inserting a link that is already stored is accepted and
    leaves one more copy of it, as the last row of the relation.
   */
  lemma DuplicatePairAccepted(db: Db, employeeId: int, roleId: int)
    requires RowsValid(db)
    requires EmployeeRole(employeeId, roleId) in db.employeeRoles
    ensures Insert(db, Some(employeeId), Some(roleId)) == Ok(EmployeeRole(employeeId, roleId))
    ensures var rows' := Append(db, EmployeeRole(employeeId, roleId)).employeeRoles;
      multiset(rows')[EmployeeRole(employeeId, roleId)] == multiset(db.employeeRoles)[EmployeeRole(employeeId, roleId)] + 1
  {
    assert References(db, EmployeeRole(employeeId, roleId));
  }

  /** An accepted insert keeps the schema's guarantees. */
  lemma InsertKeepsRowsValid(db: Db, employeeId: Option<int>, roleId: Option<int>)
    requires RowsValid(db)
    requires Insert(db, employeeId, roleId).Ok?
    ensures RowsValid(Append(db, Insert(db, employeeId, roleId).value))
  {
  }
}
