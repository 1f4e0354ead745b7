/**
 * The three tables of the store (`Отделы`, `Должности`, `Сотрудники`) and the
 * constraints their column declarations impose: primary keys, unique names and
 * foreign keys from employees to departments and positions.
 */
module Models {
  import opened Wrappers
  import opened Calendar

  /** A row of `Отделы`: primary key `id`, unique `Название`. */
  datatype Department = Department(id: int, name: string)

  /** A row of `Должности`: primary key `id`, unique `Название`. */
  datatype Position = Position(id: int, name: string)

  /**
   * A row of `Сотрудники`. Every column but the key is nullable, and a patch can
   * write NULL into any of them, so each is an `Option`. The fields are, in
   * order, the columns `ФИО`, `ДР`, `Дата_Начала`, `ЗП`, `Ставка`, `Статус`,
   * `Номер_телефона`, `email`, `ID_Отдела` and `ID_Должности`.
   */
  datatype Employee = Employee(
    id: int,
    fullName: Option<string>,
    birthDate: Option<Date>,
    startDate: Option<Date>,
    salary: Option<real>,
    rate: Option<real>,
    status: Option<string>,
    phone: Option<string>,
    email: Option<string>,
    departmentId: Option<int>,
    positionId: Option<int>)

  /** The mapped column names of `Сотрудники`; the birth date is `ДР`, not `Дата_ДР`. */
  const EmployeeColumns: seq<string> :=
    ["id", "ФИО", "ДР", "Дата_Начала", "ЗП", "Ставка", "Статус",
     "Номер_телефона", "email", "ID_Отдела", "ID_Должности"]

  /**
   * Keys strictly ascending in table order (so at most one row per key, and
   * the store-default order is by key) and all below the next key to assign;
   * no two rows share a name.
   */
  ghost predicate DepartmentsValid(rows: seq<Department>, nextId: int) {
    && (forall i, j :: 0 <= i < j < |rows| ==> rows[i].id < rows[j].id)
    && (forall i :: 0 <= i < |rows| ==> rows[i].id < nextId)
    && (forall i, j :: 0 <= i < j < |rows| ==> rows[i].name != rows[j].name)
  }

  ghost predicate PositionsValid(rows: seq<Position>, nextId: int) {
    && (forall i, j :: 0 <= i < j < |rows| ==> rows[i].id < rows[j].id)
    && (forall i :: 0 <= i < |rows| ==> rows[i].id < nextId)
    && (forall i, j :: 0 <= i < j < |rows| ==> rows[i].name != rows[j].name)
  }

  ghost predicate EmployeeIdsAscending(rows: seq<Employee>) {
    forall i, j :: 0 <= i < j < |rows| ==> rows[i].id < rows[j].id
  }

  ghost predicate EmployeesValid(rows: seq<Employee>, nextId: int) {
    && EmployeeIdsAscending(rows)
    && (forall i :: 0 <= i < |rows| ==> rows[i].id < nextId)
  }

  predicate HasDepartment(rows: seq<Department>, id: int) {
    exists i :: 0 <= i < |rows| && rows[i].id == id
  }

  predicate HasPosition(rows: seq<Position>, id: int) {
    exists i :: 0 <= i < |rows| && rows[i].id == id
  }

  predicate DepartmentNameTaken(rows: seq<Department>, name: string) {
    exists i :: 0 <= i < |rows| && rows[i].name == name
  }

  predicate PositionNameTaken(rows: seq<Position>, name: string) {
    exists i :: 0 <= i < |rows| && rows[i].name == name
  }

  /** The foreign keys `ID_Отдела` and `ID_Должности`: NULL, or the key of an existing row. */
  predicate ReferencesResolve(e: Employee, departments: seq<Department>, positions: seq<Position>) {
    && (e.departmentId.Some? ==> HasDepartment(departments, e.departmentId.value))
    && (e.positionId.Some? ==> HasPosition(positions, e.positionId.value))
  }

  /** A primary key identifies at most one row. */
  lemma DepartmentKeyIsUnique(rows: seq<Department>, nextId: int, i: int, j: int)
    requires DepartmentsValid(rows, nextId)
    requires 0 <= i < |rows| && 0 <= j < |rows| && rows[i].id == rows[j].id
    ensures i == j
  {
  }

  lemma EmployeeKeyIsUnique(rows: seq<Employee>, i: int, j: int)
    requires EmployeeIdsAscending(rows)
    requires 0 <= i < |rows| && 0 <= j < |rows| && rows[i].id == rows[j].id
    ensures i == j
  {
  }
}
