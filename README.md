# Employee directory — a Dafny model of its data layer

The system is a small web application for keeping a company's staff
records: departments (`Отделы`), positions (`Должности`) and employees
(`Сотрудники`), each employee pointing at one department and one position.
This project models the part of it that decides what is stored and what
is shown:

- the tables and their keys (`app/models.py`) and the request shapes
  (`app/schemas.py`);
- the data-access functions of `app/crud.py`: look up an employee by key,
  the filtered and paginated employee query, create / update / delete of an
  employee, listing and creating departments and positions;
- the decision logic of the request handlers in `app/main.py`: how the
  listing page turns raw query-string values into query arguments (empty or
  malformed values are no filter, never an error), which handlers answer
  "not found", and which re-show a form with an error instead of
  redirecting.

Layout, one module per file:

| file | module | models |
|---|---|---|
| `wrappers.dfy` | `Wrappers` | `Option` and `Result` |
| `calendar.dfy` | `Calendar` | calendar dates, their order, `YYYY-MM-DD` formatting and parsing |
| `models.dfy` | `Models` | the three tables' rows and what keeps a table well formed |
| `schemas.dfy` | `Schemas` | the create and update request shapes, and which fields an update supplies |
| `crud.dfy` | `Crud` | the queries as functions over table contents, and the database as a `Store` class whose methods change the tables |
| `routes.dfy` | `Routes` | the handlers' decisions as functions and methods returning a `Response` |

Modelling choices:

- A nullable column is an `Option`. A NULL column fails every comparison in
  a filter, so a row with no salary is never in a salary-bounded result.
- A table is a sequence of rows in ascending key order. The queries carry
  no `ORDER BY`; the model fixes the order as key order and proves that
  every query keeps it.
- The query's optional arguments follow Python truthiness: `None`, `""`,
  `0` and `0.0` add no filter. A date argument always filters.
- A case-insensitive substring match (`ilike '%…%'`) folds Latin and Russian
  Cyrillic capitals to lower case.
- An update request lists only the fields the client set, in declaration
  order, as a sequence of `UpdateItem` values; `None` there is an explicit
  null. The loop that copies them onto the row is the `while` loop of
  `SetAttrLoop`, called by `Store.UpdateEmployee`, proved equal to the field-by-field merge `Merge`.
- A commit that breaks a `unique` name or a foreign key is a `Failure`
  result that leaves every table and counter unchanged. Both constraints
  are taken from the column declarations in `app/models.py:9`,
  `app/models.py:17` and `app/models.py:34-35`.
- `int()` and `float()` on query-string values are parameters of the
  listing (`parseInt`, `parseFloat`), with `None` standing for
  `ValueError`. `date.fromisoformat` is modelled exactly for the
  `YYYY-MM-DD` form.
- A date in a create request and a parsed filter bound is a `ValidDate`: a
  day that exists, between the years 1 and 9999, as every Python `date` is.
- Default arguments carry the source's defaults: a listing of 100 rows in
  `crud.py`, and of 10 rows on the listing page.

Behaviour reproduced as written:

- The birth date cannot be changed by an update. The update request names
  the field `Дата_ДР` (`app/schemas.py:23`), the column is `ДР`
  (`app/models.py:26`), and `setattr` with the request's key
  (`app/crud.py:58-59`) sets an attribute that is not a column. The model
  reproduces this: `Crud.SetAttr` leaves the row unchanged for a birth-date
  item, and `Crud.PatchKeepsKeyAndBirthDate` proves no update changes the
  stored birth date. `Schemas.PatchKeysVersusColumns` states the mismatch
  itself.
- The listing's filters ignore `0` and `0.0`. A minimum salary of 0 or the
  department key 0 filters nothing (`Crud.ZeroArgumentsAreIgnored`,
  `Routes.UnusableDepartmentIsNoFilter`).

## Model

| member | source | states |
|---|---|---|
| Calendar.DaysInMonth | app/main.py:88 | the Gregorian month lengths: February has 29 days in a leap year and 28 otherwise, April, June, September and November have 30, and every other month has 31 |
| Calendar.LeIsTotalOrder | app/crud.py:27-30 | the date order the start-date bounds use is reflexive, antisymmetric, transitive and total |
| Calendar.ParseIsoDate | app/main.py:86-96 | a parsed date is a valid calendar date; a string that is not 10 characters long never parses |
| Calendar.FormatThenParse | app/main.py:86-96 | every valid date written as `YYYY-MM-DD` parses back to itself |
| Calendar.ParseThenFormat | app/main.py:86-96 | a string that parses is exactly the `YYYY-MM-DD` form of the date it parses to |
| Calendar.ParseIsoDateExact | app/main.py:86-96 | a string parses to a date if and only if it is that date's `YYYY-MM-DD` form |
| Calendar.DecimalRoundTrip | app/main.py:88 | a zero-padded decimal field reads back as the number written |
| Calendar.DecimalValueRoundTrip | app/main.py:88 | a digit string is the zero-padded decimal form of its value |
| Models.DepartmentKeyIsUnique | app/models.py:8 | in a well-formed department table two rows with the same key are at the same position |
| Models.EmployeeKeyIsUnique | app/models.py:24 | in an employee table with ascending keys two rows with the same key are the same row |
| Schemas.PatchKeysVersusColumns | app/schemas.py:21-31 | every update key but the birth date's names an employee column; none names the key column |
| Schemas.Supplied | app/schemas.py:21-31 | an entry built for position k is an item for field k (which fields yield one is stated by the `ExcludeUnsetCarries…` lemmas) |
| Schemas.ExcludeUnset | app/crud.py:57 | an item is in the update list exactly when the client set that field to that value; the list is empty exactly for an empty request |
| Schemas.ExcludeUnsetCarriesValues | app/crud.py:57 | for the name, birth date, start date, salary and rate: an item is in the update list exactly when the client set that field, to exactly that value (None included) |
| Schemas.ExcludeUnsetCarriesContacts | app/crud.py:57 | the same for the status, phone and email |
| Schemas.ExcludeUnsetCarriesReferences | app/crud.py:57 | the same for the department and position keys |
| Crud.Page | app/crud.py:34 | OFFSET/LIMIT returns the rows from `skip` on, at most `limit` of them, in order |
| Crud.GetDepartments | app/crud.py:73-74 | exactly min(`limit`, rows past `skip`) rows, the i-th being the table's row at `skip` + i |
| Crud.GetPositions | app/crud.py:83-84 | exactly min(`limit`, rows past `skip`) rows, the i-th being the table's row at `skip` + i |
| Crud.SecondPageOfTwo | app/crud.py:73-74 | skip 2 and limit 2 over five rows give the third and fourth rows |
| Crud.DefaultListingsAreFirstHundred | app/crud.py:73-84 | with default arguments both listings are the first 100 rows |
| Crud.Find | app/crud.py:6 | the index found holds the key asked for and no earlier row does; none is found only when no row has the key |
| Crud.GetEmployee | app/crud.py:5-6 | the row returned is in the table and has the key; no row is returned exactly when no row has the key |
| Crud.LowerChar | app/crud.py:22 | a Latin or Russian capital becomes the small letter at the same place in its alphabet (Ё becomes ё); every other character is kept; no capital comes out |
| Crud.Lower | app/crud.py:22 | a lower-cased string has the same length and no capital; each capital becomes its small letter as `LowerChar` maps it, and every non-capital is unchanged |
| Crud.LowerIsIdempotent | app/crud.py:22 | lower-casing twice is lower-casing once |
| Crud.ContainsAt | app/crud.py:22 | where the recursive substring test succeeds, the pattern occurs at the position returned |
| Crud.OccursAtContains | app/crud.py:22 | a pattern occurring at any position is found by the recursive substring test |
| Crud.ContainsMeansOccurs | app/crud.py:22 | the recursive substring test holds exactly when the pattern occurs at some position of the text |
| Crud.ILikeMeansOccurs | app/crud.py:22 | `ilike '%p%'` holds exactly when the lower-cased pattern occurs at some position of the lower-cased value |
| Crud.ILikeIgnoresCase | app/crud.py:22 | lower-casing the value or the pattern first never changes whether they match |
| Crud.PatternNotFound | app/crud.py:22 | a pattern whose first character never occurs in the text is not a substring of it |
| Crud.NameMatchExample | app/crud.py:21-22 | the name filter "ana" matches "Ana Smith" regardless of case |
| Crud.NameMismatchExample | app/crud.py:21-22 | the name filter "ana" does not match "Bob Jones" |
| Crud.Where | app/crud.py:19-32 | one filter clause keeps exactly the rows that satisfy it and never adds rows |
| Crud.FilteredIsConjunction | app/crud.py:19-32 | a chain of filter clauses keeps exactly the rows that satisfy every clause |
| Crud.WhereKeepsOrder | app/crud.py:19-32 | a filter clause keeps ascending key order |
| Crud.FilteredKeepsOrder | app/crud.py:19-32 | a chain of filter clauses keeps ascending key order |
| Crud.FilteredNoLonger | app/crud.py:19-32 | a chain of filter clauses never adds rows |
| Crud.ConditionsMembers | app/crud.py:21-32 | the clauses added are exactly one per truthy argument, each carrying that argument's value |
| Crud.ConditionsMeanMatches | app/crud.py:21-32 | a row satisfies the clauses built from the arguments exactly when it meets every truthy argument |
| Crud.GetEmployees | app/crud.py:8-34 | every row returned is in the table and meets every truthy argument; the result has exactly min(`limit`, matching rows past `skip`) rows, the i-th being the matching row at `skip` + i, so it is the whole `skip`/`limit` window; ascending key order is kept |
| Crud.UnpagedQueryIsComplete | app/crud.py:19-34 | without pagination every matching row is returned |
| Crud.Truthy | app/crud.py:21-32 | the name, salary bounds and department key are kept, unchanged, exactly when they are truthy; the date bounds are always kept |
| Crud.FalsyArgumentsAreIgnored | app/crud.py:21-32 | the query answers the same with and without its falsy arguments |
| Crud.ZeroArgumentsAreIgnored | app/crud.py:21-32 | an empty name, a minimum salary of 0.0 and a department key of 0 filter nothing |
| Crud.NoFilterIsPlainPage | app/crud.py:19-34 | without filters the query is the plain `skip`/`limit` window of the table |
| Crud.StoredInput | app/crud.py:36-48 | a row came from a create request exactly when its columns map back to one, and then the row is that request's row |
| Crud.NewRowRoundTrip | app/crud.py:36-52 | the row built from a create request gives that request back |
| Crud.SetAttr | app/crud.py:58-59 | copying one update item never changes the key or the stored birth date |
| Crud.StepThenMergeRest | app/crud.py:57-59 | copying field k and then merging the later fields is merging from field k |
| Crud.ApplyEntriesFrom | app/crud.py:57-59 | copying the supplied fields from field k on is merging from field k |
| Crud.SetAttrLoop | app/crud.py:58-59 | the `for`/`setattr` loop leaves the row as applying the entries one after another in order would, with the key and the stored birth date unchanged |
| Crud.SetAttrLoopIsMerge | app/crud.py:57-59 | the `setattr` loop over the supplied fields is the field-by-field merge of the request into the row |
| Crud.EmptyPatchChangesNothing | app/crud.py:57-59 | an update that sets no field leaves the row as it was |
| Crud.PatchKeepsKeyAndBirthDate | app/crud.py:57-59 | no update changes the key or the stored birth date |
| Crud.SuppliedFieldsOverwrite | app/crud.py:57-59 | an explicit null clears the salary or the name, a supplied department key is stored, and a start date not supplied is kept |
| Crud.SingleFieldPatch | app/crud.py:57-59 | an update of the salary alone changes the salary and nothing else |
| Crud.RemoveAtKeepsTable | app/crud.py:64-70 | removing one row keeps the table well formed, drops only that key and keeps every other row |
| Crud.Store.constructor | app/models.py:5-38 | the database starts with three empty tables |
| Crud.Store.CreateDepartment | app/crud.py:76-81 | succeeds exactly when the name is not taken, appending a row with a fresh key; otherwise nothing changes |
| Crud.Store.CreatePosition | app/crud.py:86-91 | succeeds exactly when the name is not taken, appending a row with a fresh key; otherwise nothing changes |
| Crud.Store.CreateEmployee | app/crud.py:36-52 | succeeds exactly when the department and the position exist; the appended row is the request's row under a fresh key and is found by that key; otherwise nothing changes |
| Crud.Store.UpdateEmployee | app/crud.py:54-62 | no row for the key: nothing, nothing changes; otherwise the row becomes the merge of the request into it, unless its references then fail to resolve, in which case nothing changes |
| Crud.Store.DeleteEmployee | app/crud.py:64-70 | true exactly when a row had the key; afterwards no row has it and every other row is kept in order |
| Routes.Normalize | app/main.py:78-126 | a raw value is used exactly when it is present, non-empty and parses, and then it is the parsed value |
| Routes.NormalizeFilters | app/main.py:69-138 | the name passes through; each other argument is its raw value normalised (used exactly when present, non-empty and parsable, and then the parsed value); a date bound is always the date its raw string spells |
| Routes.ReadEmployees | app/main.py:64-157 | the page is the employee query on the normalised arguments (at most `limit` rows), the first 100 departments of the table, the raw filter strings echoed back ("" when absent) and the pagination used |
| Routes.DefaultListing | app/main.py:67-68 | with no arguments the page is the first 10 employees and every echoed filter is empty |
| Routes.MalformedDateIsNoBound | app/main.py:78-96 | an empty or malformed date lists the same employees as no date and is echoed as typed |
| Routes.WellFormedDateIsInclusiveBound | app/main.py:86-96 | every employee listed under a well-formed start bound started on or after that date |
| Routes.UnusableDepartmentIsNoFilter | app/main.py:98-106 | an empty department key, one `int()` rejects, and the key 0 list the same employees as none |
| Routes.UnusableSalaryIsNoBound | app/main.py:108-126 | an empty salary bound, one `float()` rejects, and the bound 0 list the same employees as none |
| Routes.EmptyNameIsNoFilter | app/main.py:69 | an empty name lists the same employees as none and is echoed as "" |
| Routes.ReadEmployee | app/main.py:55-62 | the detail page shows the row with the key; "Сотрудник не найден" exactly when there is none |
| Routes.UpdateEmployeeForm | app/main.py:190-202 | the edit form shows the row with the key and the first 100 rows of the department and position tables; "Сотрудник не найден" exactly when there is none |
| Routes.NotFoundAgrees | app/main.py:58-60 | the detail page and the edit form answer "not found" for the same keys |
| Routes.CreateDepartmentAction | app/main.py:253-267 | redirects to the department list exactly when the name is free, and then the table has gained the row with that name under the next key; otherwise re-shows the form with "Ошибка при создании отдела." and the tables and counters unchanged |
| Routes.CreatePositionAction | app/main.py:278-292 | redirects to the position list exactly when the name is free, and then the table has gained the row with that name under the next key; otherwise re-shows the form with "Ошибка при создании должности." and the tables and counters unchanged |

## Left out

- The database connection, sessions (`get_db`), `commit` / `refresh` and the start-up retry loop: `app/database.py` is not part of this model; a call is one atomic step on the `Store`.
- The state of a session after a failed commit (no rollback in the source): each request is modelled on a fresh, consistent database.
- The `async` request handling and concurrent requests: requests are modelled one at a time.
- Templates, HTML, status codes and redirect headers: a handler's answer is a `Response` value naming the page, the redirect target or the error text.
- The exact grammars of Python's `int()` and `float()`, and float rounding, `inf` and `nan`: the parsers are parameters and salaries are exact reals.
- `ilike` wildcards: a `%` or `_` typed into the name filter acts as a pattern character in SQL; the model matches it literally.
- Case folding beyond Latin and Russian Cyrillic capitals, and the database's collation.
- `String(n)` length limits on text columns.
- `Models.Employee` and `Schemas.EmployeeUpdate`: their date fields are plain `Date`, so the model admits a stored or patched day that does not exist, which Python's `date` rules out; constraining them by type makes every proof about update items carry calendar arithmetic, and no stated property depends on it.
- `Calendar.ParseIsoDate`: only the `YYYY-MM-DD` form is accepted; the wider ISO 8601 forms that Python 3.11 and later also accept (such as `20240115`) are not modelled.
- Negative `skip` or `limit`: both are natural numbers in the model.
- The exact key values a database sequence hands out: the model gives a new row the store's counter value as its key, which is larger than every key in the table, and advances the counter only on success; a real sequence may also skip values after a failed insert.
- The ORM relationships (`Сотрудники`, `Отдел`, `Должность`): navigation from a row to its related rows.
- The read schemas `schemas.Employee`, `schemas.Department` and `schemas.Position`, and the unused `DepartmentUpdate` and `PositionUpdate`.
- Form validation by the web framework before a handler runs (a missing or badly typed form field is rejected there).
- The handler `update_employee_action`, which passes a plain `dict` to `crud.update_employee` instead of an `EmployeeUpdate`; the model covers `crud.update_employee` with a well-typed request.
- The handlers `create_employee_action` and `delete_employee_action` (each builds the input, calls `crud.create_employee` or `crud.delete_employee` and redirects), `list_departments` and `list_position` (each renders one listing), `create_employee_form` (renders the department and position listings) and the empty department and position form pages: their decisions are those of the modelled crud functions.
- Deleting or renaming departments and positions: the source has no such operation.
