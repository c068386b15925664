# Employee management service — a verified model

A model of an Express and Sequelize service that keeps employees, departments and roles in
five relations:
- `employees` and `departments`;
- `roles`, with an auto-increment id and a title that is non-null, unique and not blank;
- the `employeeDepartment` junction, whose primary key is the pair (employeeId, departmentId);
- the `employeeRole` junction, with non-null foreign keys and no key over the pair.

The model covers these parts of the service:
- the seed route;
- the two "last link wins" resolvers and the detail record built from them;
- the list, by-id, by-department, by-role and sort-by-name queries;
- the create route, including the partial inserts it leaves behind.

Every ORM call is a read of, or an insert into, sequences of rows held in insertion order.
`findAll` without an `order` is taken to return rows in that order.

Layout:
- `tables.dfy` (`Tables`): the rows, the database value `Db`, `findOne` and `findAll` as
  `FindFirst` and `Filter`, and the auto-increment invariant.
- `employee_department.dfy`, `employee_role.dfy`, `role.dfy`: the three schemas, each as the
  insert it guards and the predicate it keeps.
- `store.dfy` (`Store`): the class `Store`, whose five sequence fields the insert methods
  update in place, and the integrity its methods keep.
- `aggregation.dfy` (`Aggregation`): `getEmployeeDepartments`, `getEmployeeRoles` and
  `getEmployeeDetails` as specification functions.
- `name_order.dfy` (`NameOrder`): JavaScript string comparison, the route's comparator, a stable
  sort specified as a function, and the in-place array sort proved against it.
- `service.dfy` (`Service`): the route handlers as methods on a `Store`. Each is proved equal to a
  specification function, and the outcomes are proved as lemmas about those functions.
- `seed.dfy` (`Seed`): the seed route and the exact database and answers it produces.

Route answers are `Json(body)` (status 200), `NotFound` (404) or `ServerError(failure)` (500).
The failure records why the handler threw.

The model follows what the code does, including where that departs from what the route names,
comments and messages suggest:
- In the by-department answer, each entry's `department` is that employee's last-linked
  department, which need not be the queried one.
- A link whose employee is missing makes the by-department and by-role routes fail with a 500.
  They do not skip that link.
- Any `order` other than `'asc'` (or a missing or empty one) sorts descending. Unrecognised
  values do not default to ascending.
- The create route as written never returns a detail record (see Findings).

## Model

| member | source | states |
|---|---|---|
| Tables.FindFirst | index.js:85-87 | `findOne` yields a stored row that satisfies the condition, and yields nothing exactly when no row does |
| Tables.Filter | index.js:79-81 | `findAll` yields only stored rows that satisfy the condition, every stored row that does, never more rows than stored, and nothing exactly when no row matches |
| Tables.FindFirstAt | index.js:150-152 | `findOne` returns the row at index k when it matches and no earlier row does |
| Tables.FilterLast | index.js:84-88 | the last row `findAll` returns is the last matching row of the relation |
| Tables.FilterAppend | index.js:79-81 | `findAll` over two concatenated parts is the concatenation of the two results |
| Tables.EmployeeByIdIsRow | index.js:150-152 | with auto-increment ids, the employee with id k is row k-1, and no employee has an id outside 1..count |
| Tables.DepartmentByIdIsRow | index.js:85-87 | with auto-increment ids, the department with id k is row k-1, and there is none outside 1..count |
| Tables.RoleByIdIsRow | models/role.model.js:4-8 | with auto-increment ids, the role with id k is row k-1, and there is none outside 1..count |
| EmployeeDepartmentModel.Insert | models/employeeDepartment.model.js:5-22 | an accepted link has both keys present, is not yet stored, and references an existing employee and department |
| EmployeeDepartmentModel.NullKeyRejected | models/employeeDepartment.model.js:6-16 | a null key in the composite primary key is refused with a not-null violation |
| EmployeeDepartmentModel.DuplicatePairRejected | models/employeeDepartment.model.js:6-21 | a pair already stored violates the composite primary key |
| EmployeeDepartmentModel.UnknownEmployeeRejected | models/employeeDepartment.model.js:9-12 | an employeeId that names no employee is a foreign-key violation |
| EmployeeDepartmentModel.UnknownDepartmentRejected | models/employeeDepartment.model.js:17-20 | a departmentId that names no department is a foreign-key violation |
| EmployeeDepartmentModel.NewPairAccepted | models/employeeDepartment.model.js:24-34 | any new pair of existing rows is accepted, whatever other links share its employee or its department (many-to-many both ways) |
| EmployeeDepartmentModel.InsertKeepsRowsValid | models/employeeDepartment.model.js:5-22 | an accepted insert keeps every link referencing existing rows and no pair stored twice |
| EmployeeRoleModel.Insert | models/employeeRole.model.js:5-22 | an accepted link has both keys present and references an existing employee and role |
| EmployeeRoleModel.NullEmployeeRejected | models/employeeRole.model.js:6-8 | a null employeeId is refused with a not-null violation |
| EmployeeRoleModel.NullRoleRejected | models/employeeRole.model.js:14-16 | a null roleId is refused with a not-null violation |
| EmployeeRoleModel.UnknownReferenceRejected | models/employeeRole.model.js:9-20 | a key naming no employee or no role is a foreign-key violation |
| EmployeeRoleModel.DuplicatePairAccepted | models/employeeRole.model.js:5-22 | with no key over the pair, a stored link is accepted again and then occurs once more |
| EmployeeRoleModel.InsertKeepsRowsValid | models/employeeRole.model.js:5-22 | an accepted insert keeps every role link referencing existing rows |
| RoleModel.Create | models/role.model.js:3-17 | an accepted role has the given title, which is not blank (not only whitespace), the next id, and a title no stored role has |
| RoleModel.BulkCreate | index.js:33-37 | an accepted bulk insert creates one role per title, in order, with consecutive ids, and keeps all titles unique; it is accepted only when the new titles are distinct and none is stored, and on unique stored titles always then; a refusal is a unique violation |
| RoleModel.BulkTitlesUnique | models/role.model.js:12 | stored roles followed by the new ones have unique titles exactly when the new titles are distinct and none is stored (the stored titles being unique) |
| RoleModel.NumberedRolesUnique | models/role.model.js:12 | distinct titles, numbered as a bulk insert numbers them, are unique roles |
| RoleModel.NullTitleRejected | models/role.model.js:10-11 | a null title is refused |
| RoleModel.BlankTitleRejected | models/role.model.js:13-15 | an empty title, or one of whitespace only, fails the notEmpty validator |
| RoleModel.VisibleTitleAccepted | models/role.model.js:9-16 | a title with a non-whitespace character that no role holds is stored with the next id |
| RoleModel.DuplicateTitleRejected | models/role.model.js:12 | a non-blank title held by a stored role is a unique violation |
| RoleModel.BulkCreateSkipsNotEmpty | models/role.model.js:13-15 | a bulk insert runs no validator, so an empty title is stored |
| RoleModel.RoleIdsDistinct | models/role.model.js:4-8 | no two roles share an id, and a created role's id is new |
| RoleModel.CreateKeepsTitlesUnique | models/role.model.js:12 | a successful create keeps all titles unique |
| Store.GrowthKeepsIntegrity | index.js:27-44 | adding employees, departments or roles with the next ids leaves every junction row valid |
| Store.DepartmentLinkKeepsIntegrity | models/employeeDepartment.model.js:5-22 | an accepted department link keeps the whole database consistent |
| Store.RoleLinkKeepsIntegrity | models/employeeRole.model.js:5-22 | an accepted role link keeps the whole database consistent |
| Store.Store.constructor | index.js:24 | a new database is empty and consistent |
| Store.Store.Sync | index.js:24 | `sync({ force: true })` empties all five relations |
| Store.Store.CreateEmployee | index.js:122 | the new row gets the next id and is appended, and nothing else changes |
| Store.Store.BulkCreateEmployees | index.js:40-44 | the rows are appended in order with consecutive ids, and consistency is kept |
| Store.Store.BulkCreateDepartments | index.js:27-30 | the rows are appended in order with consecutive ids, and consistency is kept |
| Store.Store.CreateRole | models/role.model.js:3-17 | the role is stored exactly when the schema accepts it, and consistency is kept |
| Store.Store.BulkCreateRoles | index.js:33-37 | all roles are stored or, on a clash of titles, none, and consistency is kept |
| Store.Store.CreateEmployeeDepartment | index.js:48-51 | the link is stored exactly when the schema accepts it, and consistency is kept |
| Store.Store.CreateEmployeeRole | index.js:52-55 | the link is stored exactly when the schema accepts it, and consistency is kept |
| Aggregation.ResolvedDepartment | index.js:78-91 | definition of what `getEmployeeDepartments` returns; properties in the rows below |
| Aggregation.ResolvedRole | index.js:94-107 | definition of what `getEmployeeRoles` returns; properties in the rows below |
| Aggregation.ResolvedDepartmentAbsent | index.js:78-91 | the department is undefined exactly when the employee has no department link |
| Aggregation.ResolvedRoleAbsent | index.js:94-107 | the role is undefined exactly when the employee has no role link |
| Aggregation.ResolvedDepartmentIsLastLink | index.js:84-88 | the department is the one named by the employee's last link in store order; earlier links are overwritten |
| Aggregation.ResolvedRoleIsLastLink | index.js:100-104 | the role is the one named by the employee's last role link in store order |
| Aggregation.LastDepartmentLink | index.js:84-88 | the last link of the employee decides the department whenever that link references one |
| Aggregation.LastRoleLink | index.js:100-104 | the last role link of the employee decides the role whenever that link references one |
| Aggregation.InsertedRoleLinkWins | index.js:94-107 | a role link just inserted, a repeat of a stored one included, decides the employee's role |
| Aggregation.InsertedDepartmentLinkWins | index.js:78-91 | a department link just inserted decides the employee's department |
| Aggregation.Details | index.js:110-119 | the detail record carries the employee's own fields unchanged |
| Aggregation.AllDetails | index.js:132-136 | the mapped list has the input's length and order, and entry i is the detail record of employee i |
| Aggregation.CollectDetails | index.js:182-191 | the loop fails exactly when some link names a missing employee; otherwise it yields, in link order, each linked employee's detail record |
| Aggregation.CollectStep | index.js:182-191 | one more found employee appends its detail record to the loop's list |
| Aggregation.CollectFails | index.js:184-188 | one missing employee fails the whole loop |
| NameOrder.StringLess | index.js:269-270 | definition of JavaScript's `<` on strings; properties in the four rows below |
| NameOrder.StringLessIrreflexive | index.js:269-270 | no string is `<` itself |
| NameOrder.StringLessTransitive | index.js:269-270 | string `<` is transitive |
| NameOrder.StringLessTotal | index.js:269-270 | of two different strings, one is `<` the other |
| NameOrder.StringLessAsymmetric | index.js:269-270 | string `<` never holds both ways |
| NameOrder.Ascending | index.js:256 | the order is ascending exactly when `order` is missing, empty or `'asc'` |
| NameOrder.Compare | index.js:268-272 | the comparator is 0 exactly on equal names, and negative exactly when a's name comes first in the requested direction |
| NameOrder.CompareInOrder | index.js:268-272 | the comparator keeps a before b exactly when their names are in the requested order |
| NameOrder.InOrderTransitive | index.js:268-272 | the requested order on names is transitive |
| NameOrder.InOrderTotal | index.js:268-272 | any two records are in the requested order one way or the other |
| NameOrder.InsertPermutes | index.js:268 | inserting a record adds exactly that record |
| NameOrder.InsertSorted | index.js:268-272 | inserting into a sorted list keeps it sorted |
| NameOrder.InsertKeepsNameOrder | index.js:271 | inserting x keeps the relative order of the records named as x, with x placed after them |
| NameOrder.Sort | index.js:268-272 | definition of the stable sort by the comparator; properties in SortPermutes, SortSorted and SortStable |
| NameOrder.SortPermutes | index.js:268 | the sorted list is a permutation of its input |
| NameOrder.SortSorted | index.js:268-272 | the sorted list is non-decreasing by name when ascending and non-increasing otherwise |
| NameOrder.SortStable | index.js:271 | records with equal names keep their input order |
| NameOrder.SortByName | index.js:268-272 | the in-place array sort leaves exactly the stable sort of the array's old contents |
| NameOrder.InsertInPlace | index.js:268 | one in-place insertion step leaves the stable insertion of the next element in the prefix, and the rest of the array unchanged |
| Service.GetEmployeeDepartments | index.js:78-91 | the loop that overwrites `departmentData` returns the last-link department |
| Service.GetEmployeeRoles | index.js:94-107 | the loop that overwrites `roleData` returns the last-link role |
| Service.GetEmployeeDetails | index.js:110-119 | the employee's own fields unchanged, plus the two resolved fields |
| Service.ListEmployees | index.js:126-146 | always 200; the list has one entry per employee, in table order, and entry i is employee i's detail record |
| Service.EmployeeDetailsById | index.js:148-166 | never 500; 404 exactly when no employee has the id, otherwise that employee's detail record |
| Service.DepartmentMembers | index.js:174-176 | definition of the ids the by-department loop visits, one per link, in link order; membership in DepartmentMembersAreLinked |
| Service.RoleMembers | index.js:216-218 | definition of the ids the by-role loop visits, one per link, in link order; membership in RoleMembersAreLinked |
| Service.DepartmentMembersAreLinked | index.js:174-176 | an id is visited exactly when a stored link pairs it with the department |
| Service.RoleMembersAreLinked | index.js:216-218 | an id is visited exactly when a stored link pairs it with the role |
| Service.DepartmentListing | index.js:169-208 | definition of the by-department answer; properties in DepartmentListingOutcome and DepartmentEntryShowsLastLink |
| Service.RoleListing | index.js:211-250 | definition of the by-role answer as written; properties in RoleListingOutcome |
| Service.RoleListingIntended | index.js:236-240 | definition of the corrected by-role answer; properties in RoleListingIntendedOutcome |
| Service.DepartmentMembersFound | index.js:182-191 | in a consistent database, every linked employee is found, so the null dereference cannot happen |
| Service.RoleMembersFound | index.js:224-233 | in a consistent database, every employee linked to the role is found |
| Service.DepartmentLoopShape | index.js:182-191 | over a valid junction the loop never fails, collects nothing exactly when no link names the department, and otherwise collects entry i for the employee on the department's i-th link |
| Service.RoleLoopShape | index.js:224-233 | over a valid role junction the loop never fails, collects nothing exactly when no link names the role, and otherwise collects entry i for the employee on the role's i-th link |
| Service.DepartmentListingOutcome | index.js:169-208 | in a consistent database, never 500; 404 exactly when no link names the department; otherwise entry i is the detail record of the employee on the department's i-th link |
| Service.DepartmentEntryShowsLastLink | index.js:182-191 | an entry's department is that employee's last-linked department, not necessarily the queried one |
| Service.RoleListingOutcome | index.js:211-250 | in a consistent database, never 404; a 500 from the undeclared variable exactly when no link names the role; otherwise entry i is the detail record of the employee on the role's i-th link |
| Service.RoleListingIntendedOutcome | index.js:236-240 | the corrected route never answers 500 in a consistent database, answers 404 exactly when no link names the role, and otherwise agrees with the route as written |
| Service.EmployeesByDepartment | index.js:169-208 | the push loop answers what the department listing specifies |
| Service.EmployeesByRole | index.js:211-250 | the push loop answers what the role listing specifies |
| Service.EmployeesSortedByName | index.js:253-282 | always 200, with every detail record, sorted by name in the requested direction, stable for equal names |
| Service.AddedEmployee | index.js:122 | the new row carries the posted name and email and is added at the end, nothing else changes; with auto-increment ids its id is new and finds it; consistency is kept |
| Service.NextEmployeeFits | index.js:122 | the row with the next id keeps ids auto-incremented, is found by its id, and keeps the database consistent |
| Service.CreatedDetails | index.js:300-301 | a record exactly for the row itself: the row's own fields with its resolved department and role; on the `{ newEmployee }` wrapper, the lookup with an undefined key fails |
| Service.Linked | index.js:291-301 | the link inserts and the detail lookup never answer 404 |
| Service.CreateRoute | index.js:290-301 | definition of the route from a parsed body on, as written; properties in CreateRouteAlwaysFails |
| Service.CreateRouteIntended | index.js:290-301 | definition of the corrected route; properties in the CreateRouteIntended rows below |
| Service.CreateRequest | index.js:284-309 | the whole request as written: always a 500, and without a parsed body nothing is stored |
| Service.CreateRequestIntended | index.js:284-309 | definition of the request with a body parser and the corrected route; properties in ParsedCreateRequestSucceeds |
| Service.UnparsedCreateRequestFails | index.js:15-16 | without body-parsing middleware the request answers 500 and the database is unchanged |
| Service.ParsedCreateRequestSucceeds | index.js:284-309 | with a parsed body and the corrected route, the posted employee is stored at the end and answered with the named department and role, and consistency is kept |
| Service.CreateRouteAlwaysFails | index.js:290-298 | from a parsed body on, the create route as written always answers 500 with a not-null violation, and the new employee row stays without links |
| Service.FreshEmployeeUnlinked | index.js:122 | in a consistent database, no link names the id the next employee will get |
| Service.DepartmentLinkStep | index.js:291-294 | linking an existing, unlinked employee to an existing department is accepted and decides its department |
| Service.RoleLinkStep | index.js:295-298 | linking an existing employee to an existing role is accepted and decides its role |
| Service.LinkedRowSucceeds | index.js:291-301 | for an unlinked row, an existing department and an existing role, the record carries that department and role, and consistency is kept |
| Service.CreateRouteIntendedSucceeds | index.js:284-309 | the corrected route answers 200 with the new employee, the named department and the named role, and keeps the database consistent |
| Service.CreateRouteIntendedUnknownDepartment | index.js:291-294 | an unknown department answers 500, and the employee row stays with no link (no rollback) |
| Service.LinkedUnknownRole | index.js:295-298 | an unknown role fails the second insert, and the department link already made stays |
| Service.CreateRouteIntendedUnknownRole | index.js:295-298 | an unknown role answers 500, and both the employee row and its department link stay (no rollback) |
| Service.AddEmployee | index.js:121-124 | the row is stored with the next id and returned wrapped as `{ newEmployee }` |
| Service.LinkEmployee | index.js:291-301 | the two inserts and the lookup leave the store and answer as the link specification says |
| Service.CreateEmployee | index.js:284-309 | from a parsed body on, the route as written always answers 500, and the employee row persists |
| Service.CreateEmployeeIntended | index.js:284-309 | the corrected route changes the store and answers as the corrected specification says |
| Seed.DepartmentLinkAccepted | index.js:48-51 | a new link between an existing employee and an existing department is accepted |
| Seed.RoleLinkAccepted | index.js:52-55 | a link between an existing employee and an existing role is accepted |
| Seed.SeedTitlesUnique | index.js:33-37 | the three seed titles differ, so their bulk insert is accepted |
| Seed.SeedEntities | index.js:24-44 | after the sync and the three bulk inserts, the store holds the seed's employees, departments and roles, and no links |
| Seed.Associate | index.js:48-55 | one employee's pair of link inserts adds exactly those two links |
| Seed.SeedDb | index.js:23-76 | every insert is accepted, the route answers "Database seeded!", and the store is exactly the seed data, consistent |
| Seed.SeedLinksValid | index.js:48-73 | the seed's links reference existing rows, and no department link repeats |
| Seed.SeedDepartmentsResolve | index.js:48-69 | employees 1 and 3 resolve to the first department, and employee 2 to the second |
| Seed.SeedRolesResolve | index.js:52-73 | employee i resolves to role i |
| Seed.SeedIntegrity | index.js:23-76 | the seed data has 3 employees, 2 departments, 3 roles and the seed's links, and satisfies every schema constraint |
| Seed.SeededDetails | index.js:126-146 | after seeding, the list route yields exactly Rahul Sharma (Engineering, Software Engineer), Priya Singh (Marketing, Marketing Specialist) and Ankit Verma (Engineering, Product Manager) |
| Seed.SeededUnheldRole | index.js:236-240 | after seeding, asking for role 4 answers 500 as written and 404 in the corrected route |

## Left out

- The HTTP layer is not modelled: Express routing, static files, `sendFile`, CORS and `app.listen`. Routes are modelled by their outcome only, with no status bodies or message texts.
- Logging (`console.log`, `console.error`) is not modelled.
- `async`/`await` and `Promise.all` are modelled as a sequential, order-preserving map. The calls only read the store, so nothing observable depends on interleaving.
- Request parsing is not modelled (`parseInt`, `req.params`, `req.query`, and the fields of `req.body` beyond whether the body exists). Handlers take ints and strings, and missing ids are `Option`s.
- `order` passed as an array in the query string is not modelled.
- JSON serialisation of `dataValues` is not modelled.
- Columns the service never reads are not modelled: `createdAt`, `updatedAt` and the other implicit ORM columns.
- models/employee.model.js and models/department.model.js are not part of this model. Employees have only `{id, name, email}` and departments only `{id, name}`, with no constraint beyond the auto-increment id.
- The connection and `sync` internals in lib/index are not part of this model. `sync({ force: true })` is modelled as all five relations becoming empty.
- Primary-key columns of `employeeDepartment` are treated as NOT NULL. A SQLite table accepts NULL in a non-integer composite primary key; the model follows the usual SQL rule.
- The `employeeRole` through table is modelled with exactly the declared columns. A unique key that `belongsToMany` might add over the pair is not modelled.
- The model checks a unique or primary-key violation before a foreign-key violation. It does not model which error a database reports when an insert breaks both.
- NameOrder.StringLess compares Dafny characters, not the UTF-16 code units JavaScript compares. The two differ only for characters outside the Basic Multilingual Plane.
- NameOrder.SortByName is an insertion sort. It stands for the engine's stable `Array.prototype.sort`: the result is the same for any stable sort with this comparator, but the sequence of comparisons is not.
- Service.CreateRoute, Service.CreateEmployee and Service.CreateEmployeeIntended start from a parsed request body. The app as written registers no body parser, so the route never gets that far (Service.CreateRequest models the request as written).
- Aggregation.ResolvedDepartment and Aggregation.ResolvedRole use None both for "no link" (`undefined`) and for "the last link names a missing row" (`findOne` gives `null`). JSON shows the two differently. In a consistent database the second case cannot happen.
- Service.ListEmployees and Service.EmployeesSortedByName: "always 200" assumes the database never fails. The catch blocks of these routes are not modelled.
- The seed route has no try/catch. Its error path is not modelled; Seed.SeedDb proves that no insert in it fails.
- The relation between a descending and an ascending sort of the same list (reversal up to ties) is not stated as a lemma. Each direction's sortedness, permutation and stability are proved.

## Findings

| source | as written | input that shows it | evidently intended | confidence | as-written member | corrected member |
|---|---|---|---|---|---|---|
| index.js:121-124, 290-298 | `addEmployee` returns `{ newEmployee }`, so `newEmployee.id` is undefined. The department link insert then gets a null key and fails, and the route answers 500 after storing the employee. This is masked as written by the missing body parser (next row). | once a body is parsed: any POST /employees/new, e.g. name "A", email "a@x", departmentId 1, roleId 1 after seeding | the links are made for the new row's id, and the route answers that row's detail record | high (not executed) | Service.CreateRouteAlwaysFails | Service.CreateRouteIntendedSucceeds |
| index.js:15-16, 286 | no body-parsing middleware is registered, so `req.body` is undefined. Reading `req.body.name` throws, and the route answers 500 before any insert. | any POST /employees/new with a JSON body | a body parser such as `express.json()`, so the route reads the posted fields | high (not executed) | Service.UnparsedCreateRequestFails | Service.ParsedCreateRequestSucceeds |
| index.js:236-240 | the 404 message of the by-role route reads `departmentId`, which that route never declares. The ReferenceError makes an empty result a 500. | GET /employees/role/4 after seeding | a 404 "No employees found for role ID 4" | high (not executed) | Seed.SeededUnheldRole | Service.RoleListingIntendedOutcome |
