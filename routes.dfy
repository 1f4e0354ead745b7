/**
 * The request handlers' decision logic: how the listing page turns raw
 * query-string values into query arguments, and which handlers answer
 * "not found" or re-show a form with an error instead of redirecting.
 * Templates, redirects and status codes are reduced to a `Response` value.
 */
module Routes {
  import opened Wrappers
  import opened Calendar
  import opened Models
  import opened Schemas
  import opened Crud

  /** The raw filter values of `GET /` as they arrive: None when absent, possibly "". */
  datatype RawFilters = RawFilters(
    name: Option<string>,
    minSalary: Option<string>,
    maxSalary: Option<string>,
    startFrom: Option<string>,
    startTo: Option<string>,
    departmentId: Option<string>)

  const NoRawFilters: RawFilters := RawFilters(None, None, None, None, None, None)

  /**
   * The treatment every parsed filter value gets: "" becomes None, a
   * non-empty string is parsed, and a parse failure (`ValueError`) is None.
   */
  function Normalize<T>(raw: Option<string>, parse: string -> Option<T>): (r: Option<T>)
    ensures r.Some? <==> raw.Some? && raw.value != "" && parse(raw.value).Some?
    ensures r.Some? ==> r == parse(raw.value)
  {
    if raw.None? || raw.value == "" then None else parse(raw.value)
  }

  /**
   * The arguments `read_employees` hands to `get_employees`: the name passes
   * through unparsed, the dates go through `date.fromisoformat`, the
   * department key through `int()` and the salary bounds through `float()`.
   * The last two are `parseInt` and `parseFloat`, None standing for `ValueError`.
   */
  function NormalizeFilters(raw: RawFilters, parseInt: string -> Option<int>, parseFloat: string -> Option<real>)
    : (f: EmployeeFilter)
    ensures f.name == raw.name
    ensures f.minSalary == Normalize(raw.minSalary, parseFloat) && f.maxSalary == Normalize(raw.maxSalary, parseFloat)
    ensures f.startFrom == Normalize(raw.startFrom, ParseIsoDate) && f.startTo == Normalize(raw.startTo, ParseIsoDate)
    ensures f.departmentId == Normalize(raw.departmentId, parseInt)
    ensures f.startFrom.Some? ==> raw.startFrom.Some? && IsValid(f.startFrom.value) && FormatIsoDate(f.startFrom.value) == raw.startFrom.value
    ensures f.startTo.Some? ==> raw.startTo.Some? && IsValid(f.startTo.value) && FormatIsoDate(f.startTo.value) == raw.startTo.value
    ensures f.departmentId.Some? ==> raw.departmentId.Some? && parseInt(raw.departmentId.value) == f.departmentId
    ensures f.minSalary.Some? ==> raw.minSalary.Some? && parseFloat(raw.minSalary.value) == f.minSalary
    ensures f.maxSalary.Some? ==> raw.maxSalary.Some? && parseFloat(raw.maxSalary.value) == f.maxSalary
  {
    assert Normalize(raw.startFrom, ParseIsoDate).Some? ==> FormatIsoDate(Normalize(raw.startFrom, ParseIsoDate).value) == raw.startFrom.value by {
      if Normalize(raw.startFrom, ParseIsoDate).Some? { ParseThenFormat(raw.startFrom.value); }
    }
    assert Normalize(raw.startTo, ParseIsoDate).Some? ==> FormatIsoDate(Normalize(raw.startTo, ParseIsoDate).value) == raw.startTo.value by {
      if Normalize(raw.startTo, ParseIsoDate).Some? { ParseThenFormat(raw.startTo.value); }
    }
    EmployeeFilter(
      raw.name,
      Normalize(raw.minSalary, parseFloat),
      Normalize(raw.maxSalary, parseFloat),
      Normalize(raw.startFrom, ParseIsoDate),
      Normalize(raw.startTo, ParseIsoDate),
      Normalize(raw.departmentId, parseInt))
  }

  /** The filter values shown back in the form: the raw strings, "" for an absent one. */
  datatype EchoedFilters = EchoedFilters(
    name: string,
    minSalary: string,
    maxSalary: string,
    startFrom: string,
    startTo: string,
    departmentId: string)

  datatype Listing = Listing(
    employees: seq<Employee>,
    departments: seq<Department>,
    filters: EchoedFilters,
    skip: nat,
    limit: nat)

  /**
   * `read_employees` (`GET /`): a page of the filtered employees (by default
   * the first 10), the department list, the raw filter values echoed back and
   * the pagination it used.
   */
  function ReadEmployees(
    employees: seq<Employee>,
    departments: seq<Department>,
    parseInt: string -> Option<int>,
    parseFloat: string -> Option<real>,
    raw: RawFilters := NoRawFilters,
    skip: nat := 0,
    limit: nat := 10)
    : (page: Listing)
    ensures page.employees == GetEmployees(employees, NormalizeFilters(raw, parseInt, parseFloat), skip, limit)
    ensures |page.employees| <= limit
    ensures page.departments == departments[..Min(100, |departments|)]
    ensures page.skip == skip && page.limit == limit
    ensures page.filters.name == raw.name.GetOr("") && page.filters.minSalary == raw.minSalary.GetOr("")
    ensures page.filters.maxSalary == raw.maxSalary.GetOr("") && page.filters.startFrom == raw.startFrom.GetOr("")
    ensures page.filters.startTo == raw.startTo.GetOr("") && page.filters.departmentId == raw.departmentId.GetOr("")
  {
    Listing(
      GetEmployees(employees, NormalizeFilters(raw, parseInt, parseFloat), skip, limit),
      GetDepartments(departments),
      EchoedFilters(
        raw.name.GetOr(""),
        raw.minSalary.GetOr(""),
        raw.maxSalary.GetOr(""),
        raw.startFrom.GetOr(""),
        raw.startTo.GetOr(""),
        raw.departmentId.GetOr("")),
      skip,
      limit)
  }

  /** With every argument defaulted the listing is the first 10 employees in table order. */
  lemma DefaultListing(employees: seq<Employee>, departments: seq<Department>,
                       parseInt: string -> Option<int>, parseFloat: string -> Option<real>)
    ensures ReadEmployees(employees, departments, parseInt, parseFloat).employees
         == employees[..Min(10, |employees|)]
    ensures ReadEmployees(employees, departments, parseInt, parseFloat).filters
         == EchoedFilters("", "", "", "", "", "")
  {
    assert NormalizeFilters(NoRawFilters, parseInt, parseFloat) == NoFilter;
    NoFilterIsPlainPage(employees, 0, 10);
  }

  /**
   * An empty or malformed date is no bound, never an error: the page lists the
   * same employees as without it, and the form shows the string as typed.
   */
  lemma MalformedDateIsNoBound(
    employees: seq<Employee>, departments: seq<Department>,
    parseInt: string -> Option<int>, parseFloat: string -> Option<real>,
    raw: RawFilters, skip: nat, limit: nat, s: string)
    requires ParseIsoDate(s).None?
    ensures ReadEmployees(employees, departments, parseInt, parseFloat, raw.(startFrom := Some(s)), skip, limit).employees
         == ReadEmployees(employees, departments, parseInt, parseFloat, raw.(startFrom := None), skip, limit).employees
    ensures ReadEmployees(employees, departments, parseInt, parseFloat, raw.(startTo := Some(s)), skip, limit).employees
         == ReadEmployees(employees, departments, parseInt, parseFloat, raw.(startTo := None), skip, limit).employees
    ensures ReadEmployees(employees, departments, parseInt, parseFloat, raw.(startFrom := Some(s)), skip, limit).filters.startFrom == s
  {
    assert NormalizeFilters(raw.(startFrom := Some(s)), parseInt, parseFloat)
        == NormalizeFilters(raw.(startFrom := None), parseInt, parseFloat);
    assert NormalizeFilters(raw.(startTo := Some(s)), parseInt, parseFloat)
        == NormalizeFilters(raw.(startTo := None), parseInt, parseFloat);
  }

  /** A well-formed date bounds the start date inclusively. */
  lemma WellFormedDateIsInclusiveBound(
    employees: seq<Employee>, departments: seq<Department>,
    parseInt: string -> Option<int>, parseFloat: string -> Option<real>,
    raw: RawFilters, skip: nat, limit: nat, d: Date)
    requires IsValid(d)
    ensures forall e :: e in ReadEmployees(employees, departments, parseInt, parseFloat,
                                           raw.(startFrom := Some(FormatIsoDate(d))), skip, limit).employees
                     ==> e.startDate.Some? && Le(d, e.startDate.value)
  {
    FormatThenParse(d);
  }

  /**
   * An empty department key, one `int()` rejects, and the key 0 (which `int()`
   * accepts but the query treats as false) all leave the department unfiltered.
   */
  lemma UnusableDepartmentIsNoFilter(
    employees: seq<Employee>, departments: seq<Department>,
    parseInt: string -> Option<int>, parseFloat: string -> Option<real>,
    raw: RawFilters, skip: nat, limit: nat, s: string)
    requires s == "" || parseInt(s).None? || parseInt(s) == Some(0)
    ensures ReadEmployees(employees, departments, parseInt, parseFloat, raw.(departmentId := Some(s)), skip, limit).employees
         == ReadEmployees(employees, departments, parseInt, parseFloat, raw.(departmentId := None), skip, limit).employees
  {
    var f := NormalizeFilters(raw.(departmentId := Some(s)), parseInt, parseFloat);
    var g := NormalizeFilters(raw.(departmentId := None), parseInt, parseFloat);
    assert Truthy(f) == Truthy(g);
    FalsyArgumentsAreIgnored(employees, f, skip, limit);
    FalsyArgumentsAreIgnored(employees, g, skip, limit);
  }

  /** Likewise an empty, unparseable or zero salary bound is no bound. */
  lemma UnusableSalaryIsNoBound(
    employees: seq<Employee>, departments: seq<Department>,
    parseInt: string -> Option<int>, parseFloat: string -> Option<real>,
    raw: RawFilters, skip: nat, limit: nat, s: string)
    requires s == "" || parseFloat(s).None? || parseFloat(s) == Some(0.0)
    ensures ReadEmployees(employees, departments, parseInt, parseFloat, raw.(minSalary := Some(s)), skip, limit).employees
         == ReadEmployees(employees, departments, parseInt, parseFloat, raw.(minSalary := None), skip, limit).employees
    ensures ReadEmployees(employees, departments, parseInt, parseFloat, raw.(maxSalary := Some(s)), skip, limit).employees
         == ReadEmployees(employees, departments, parseInt, parseFloat, raw.(maxSalary := None), skip, limit).employees
  {
    var f1 := NormalizeFilters(raw.(minSalary := Some(s)), parseInt, parseFloat);
    var g1 := NormalizeFilters(raw.(minSalary := None), parseInt, parseFloat);
    assert Truthy(f1) == Truthy(g1);
    FalsyArgumentsAreIgnored(employees, f1, skip, limit);
    FalsyArgumentsAreIgnored(employees, g1, skip, limit);
    var f2 := NormalizeFilters(raw.(maxSalary := Some(s)), parseInt, parseFloat);
    var g2 := NormalizeFilters(raw.(maxSalary := None), parseInt, parseFloat);
    assert Truthy(f2) == Truthy(g2);
    FalsyArgumentsAreIgnored(employees, f2, skip, limit);
    FalsyArgumentsAreIgnored(employees, g2, skip, limit);
  }

  /** The name is not parsed: an empty name is passed on as "" and filters nothing. */
  lemma EmptyNameIsNoFilter(
    employees: seq<Employee>, departments: seq<Department>,
    parseInt: string -> Option<int>, parseFloat: string -> Option<real>,
    raw: RawFilters, skip: nat, limit: nat)
    ensures NormalizeFilters(raw.(name := Some("")), parseInt, parseFloat).name == Some("")
    ensures ReadEmployees(employees, departments, parseInt, parseFloat, raw.(name := Some("")), skip, limit).employees
         == ReadEmployees(employees, departments, parseInt, parseFloat, raw.(name := None), skip, limit).employees
  {
    var f := NormalizeFilters(raw.(name := Some("")), parseInt, parseFloat);
    var g := NormalizeFilters(raw.(name := None), parseInt, parseFloat);
    assert Truthy(f) == Truthy(g);
    FalsyArgumentsAreIgnored(employees, f, skip, limit);
    FalsyArgumentsAreIgnored(employees, g, skip, limit);
  }

  /** What a handler answers, templates reduced to their data. */
  datatype Response =
    | EmployeeDetail(employee: Employee)
    | EmployeeForm(employee: Employee, departments: seq<Department>, positions: seq<Position>)
    | NotFound(detail: string)
    | Redirect(url: string)
    | FormError(template: string, error: string)

  const EmployeeNotFound: string := "Сотрудник не найден"

  /** `read_employee`: the employee's page, or not found when no row has the key. */
  function ReadEmployee(employees: seq<Employee>, id: int): (r: Response)
    ensures r.NotFound? <==> forall e :: e in employees ==> e.id != id
    ensures r.NotFound? ==> r.detail == EmployeeNotFound
    ensures !r.NotFound? ==> r.EmployeeDetail? && r.employee in employees && r.employee.id == id
  {
    match GetEmployee(employees, id)
    case None => NotFound(EmployeeNotFound)
    case Some(e) => EmployeeDetail(e)
  }

  /** `update_employee_form`: the edit form with the department and position lists, or not found. */
  function UpdateEmployeeForm(employees: seq<Employee>, departments: seq<Department>,
                              positions: seq<Position>, id: int): (r: Response)
    ensures r.NotFound? <==> forall e :: e in employees ==> e.id != id
    ensures r.NotFound? ==> r.detail == EmployeeNotFound
    ensures !r.NotFound? ==>
      && r.EmployeeForm? && r.employee in employees && r.employee.id == id
      && r.departments == departments[..Min(100, |departments|)]
      && r.positions == positions[..Min(100, |positions|)]
  {
    match GetEmployee(employees, id)
    case None => NotFound(EmployeeNotFound)
    case Some(e) => EmployeeForm(e, GetDepartments(departments), GetPositions(positions))
  }

  /** Both pages answer not found for the same keys. */
  lemma NotFoundAgrees(employees: seq<Employee>, departments: seq<Department>,
                       positions: seq<Position>, id: int)
    ensures ReadEmployee(employees, id).NotFound?
        <==> UpdateEmployeeForm(employees, departments, positions, id).NotFound?
  {
  }

  const DepartmentCreateFailed: string := "Ошибка при создании отдела."
  const PositionCreateFailed: string := "Ошибка при создании должности."

  /**
   * `create_department_action`: a redirect to the list when the store accepts
   * the new department; any failure (a duplicate name) re-shows the form with
   * an error and leaves the store unchanged.
   */
  method CreateDepartmentAction(db: Store, name: string) returns (r: Response)
    requires db.Valid()
    modifies db
    ensures db.Valid()
    ensures r == Redirect("/departments/") <==> !DepartmentNameTaken(old(db.departments), name)
    ensures r == Redirect("/departments/") ==>
      && db.departments == old(db.departments) + [Department(old(db.nextDepartmentId), name)]
      && db.nextDepartmentId == old(db.nextDepartmentId) + 1
    ensures r != Redirect("/departments/") ==>
      && r == FormError("department_form.html", DepartmentCreateFailed)
      && db.departments == old(db.departments) && db.nextDepartmentId == old(db.nextDepartmentId)
    ensures db.positions == old(db.positions) && db.employees == old(db.employees)
    ensures db.nextPositionId == old(db.nextPositionId) && db.nextEmployeeId == old(db.nextEmployeeId)
  {
    var created := db.CreateDepartment(DepartmentCreate(name));
    if created.Success? {
      r := Redirect("/departments/");
    } else {
      r := FormError("department_form.html", DepartmentCreateFailed);
    }
  }

  /** `create_position_action`: the same for positions. */
  method CreatePositionAction(db: Store, name: string) returns (r: Response)
    requires db.Valid()
    modifies db
    ensures db.Valid()
    ensures r == Redirect("/positions/") <==> !PositionNameTaken(old(db.positions), name)
    ensures r == Redirect("/positions/") ==>
      && db.positions == old(db.positions) + [Position(old(db.nextPositionId), name)]
      && db.nextPositionId == old(db.nextPositionId) + 1
    ensures r != Redirect("/positions/") ==>
      && r == FormError("position_form.html", PositionCreateFailed)
      && db.positions == old(db.positions) && db.nextPositionId == old(db.nextPositionId)
    ensures db.departments == old(db.departments) && db.employees == old(db.employees)
    ensures db.nextDepartmentId == old(db.nextDepartmentId) && db.nextEmployeeId == old(db.nextEmployeeId)
  {
    var created := db.CreatePosition(PositionCreate(name));
    if created.Success? {
      r := Redirect("/positions/");
    } else {
      r := FormError("position_form.html", PositionCreateFailed);
    }
  }
}
