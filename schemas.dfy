/**
 * The request shapes: the full employee input, the partial employee patch and
 * the department and position inputs, together with what
 * `dict(exclude_unset=True)` makes of a patch.
 */
module Schemas {
  import opened Wrappers
  import opened Calendar
  import opened Models

  /**
   * `EmployeeBase` / `EmployeeCreate`: all ten fields are required and typed, so
   * a value of this type is exactly a complete input.
   */
  datatype EmployeeCreate = EmployeeCreate(
    fullName: string,
    birthDate: ValidDate,
    startDate: ValidDate,
    salary: real,
    rate: real,
    status: string,
    phone: string,
    email: string,
    departmentId: int,
    positionId: int)

  /**
   * `EmployeeUpdate`: every field optional with default None. The outer Option
   * records whether the field was supplied at all ("set"), the inner one the
   * supplied value, which may itself be None.
   */
  datatype EmployeeUpdate = EmployeeUpdate(
    fullName: Option<Option<string>>,
    birthDate: Option<Option<Date>>,
    startDate: Option<Option<Date>>,
    salary: Option<Option<real>>,
    rate: Option<Option<real>>,
    status: Option<Option<string>>,
    phone: Option<Option<string>>,
    email: Option<Option<string>>,
    departmentId: Option<Option<int>>,
    positionId: Option<Option<int>>)

  /** `EmployeeUpdate()`: nothing supplied. */
  const EmptyUpdate: EmployeeUpdate :=
    EmployeeUpdate(None, None, None, None, None, None, None, None, None, None)

  /** `DepartmentCreate` / `PositionCreate`: exactly the field `Название`. */
  datatype DepartmentCreate = DepartmentCreate(name: string)
  datatype PositionCreate = PositionCreate(name: string)

  /** One `key: value` entry of `EmployeeUpdate.dict(exclude_unset=True)`. */
  datatype UpdateItem =
    | FullNameItem(fullName: Option<string>)
    | BirthDateItem(birthDate: Option<Date>)
    | StartDateItem(startDate: Option<Date>)
    | SalaryItem(salary: Option<real>)
    | RateItem(rate: Option<real>)
    | StatusItem(status: Option<string>)
    | PhoneItem(phone: Option<string>)
    | EmailItem(email: Option<string>)
    | DepartmentItem(departmentId: Option<int>)
    | PositionItem(positionId: Option<int>)

  /** The key of an entry: the schema's field name. */
  function Key(item: UpdateItem): string {
    match item
    case FullNameItem(_) => "ФИО"
    case BirthDateItem(_) => "Дата_ДР"
    case StartDateItem(_) => "Дата_Начала"
    case SalaryItem(_) => "ЗП"
    case RateItem(_) => "Ставка"
    case StatusItem(_) => "Статус"
    case PhoneItem(_) => "Номер_телефона"
    case EmailItem(_) => "email"
    case DepartmentItem(_) => "ID_Отдела"
    case PositionItem(_) => "ID_Должности"
  }

  /** Every patch key names a column of `Сотрудники` except `Дата_ДР`, and none names the key `id`. */
  lemma PatchKeysVersusColumns(item: UpdateItem)
    ensures Key(item) in EmployeeColumns <==> !item.BirthDateItem?
    ensures Key(item) != "id"
  {
  }

  /** The declaration position (0 to 9) of the field an entry sets. */
  function Field(item: UpdateItem): (k: nat)
    ensures k < 10
  {
    match item
    case FullNameItem(_) => 0
    case BirthDateItem(_) => 1
    case StartDateItem(_) => 2
    case SalaryItem(_) => 3
    case RateItem(_) => 4
    case StatusItem(_) => 5
    case PhoneItem(_) => 6
    case EmailItem(_) => 7
    case DepartmentItem(_) => 8
    case PositionItem(_) => 9
  }

  /** The entry for the field at position `k`, if that field was supplied. */
  function Supplied(u: EmployeeUpdate, k: nat): (r: Option<UpdateItem>)
    requires k < 10
    ensures r.Some? ==> Field(r.value) == k
  {
    if k == 0 then (if u.fullName.Some? then Some(FullNameItem(u.fullName.value)) else None)
    else if k == 1 then (if u.birthDate.Some? then Some(BirthDateItem(u.birthDate.value)) else None)
    else if k == 2 then (if u.startDate.Some? then Some(StartDateItem(u.startDate.value)) else None)
    else if k == 3 then (if u.salary.Some? then Some(SalaryItem(u.salary.value)) else None)
    else if k == 4 then (if u.rate.Some? then Some(RateItem(u.rate.value)) else None)
    else if k == 5 then (if u.status.Some? then Some(StatusItem(u.status.value)) else None)
    else if k == 6 then (if u.phone.Some? then Some(PhoneItem(u.phone.value)) else None)
    else if k == 7 then (if u.email.Some? then Some(EmailItem(u.email.value)) else None)
    else if k == 8 then (if u.departmentId.Some? then Some(DepartmentItem(u.departmentId.value)) else None)
    else (if u.positionId.Some? then Some(PositionItem(u.positionId.value)) else None)
  }

  /** The entries for the supplied fields at positions `k` to 9, in declaration order. */
  function EntriesFrom(u: EmployeeUpdate, k: nat): seq<UpdateItem>
    requires k <= 10
    decreases 10 - k
  {
    if k == 10 then []
    else (if Supplied(u, k).Some? then [Supplied(u, k).value] else []) + EntriesFrom(u, k + 1)
  }

  lemma {:induction false} EntriesFromMembers(u: EmployeeUpdate, k: nat, item: UpdateItem)
    requires k <= 10
    ensures item in EntriesFrom(u, k) <==> k <= Field(item) && Supplied(u, Field(item)) == Some(item)
    decreases 10 - k
  {
    if k < 10 {
      var rest := EntriesFrom(u, k + 1);
      EntriesFromMembers(u, k + 1, item);
      match Supplied(u, k)
      case None =>
        assert EntriesFrom(u, k) == rest;
      case Some(x) =>
        assert EntriesFrom(u, k) == [x] + rest;
        assert Field(x) == k;
    }
  }

  /**
   * `dict(exclude_unset=True)`: one entry per supplied field, in declaration
   * order, including fields supplied as None; nothing for an empty patch.
   */
  function ExcludeUnset(u: EmployeeUpdate): (items: seq<UpdateItem>)
    ensures forall item {:trigger item in items} :: item in items <==> Supplied(u, Field(item)) == Some(item)
    ensures items == [] <==> u == EmptyUpdate
  {
    var items := EntriesFrom(u, 0);
    assert forall item :: item in items <==> Supplied(u, Field(item)) == Some(item) by {
      forall item {
        EntriesFromMembers(u, 0, item);
      }
    }
    assert u != EmptyUpdate ==> items != [] by {
      if u != EmptyUpdate {
        var k :| 0 <= k < 10 && Supplied(u, k).Some?;
        assert Supplied(u, k).value in items;
      }
    }
    items
  }

  /**
   * Every personal field the client set, and only those, yields an entry
   * carrying exactly the value supplied, None included.
   */
  lemma ExcludeUnsetCarriesValues(
    u: EmployeeUpdate, name: Option<string>, born: Option<Date>, started: Option<Date>,
    salary: Option<real>, rate: Option<real>)
    ensures FullNameItem(name) in ExcludeUnset(u) <==> u.fullName == Some(name)
    ensures BirthDateItem(born) in ExcludeUnset(u) <==> u.birthDate == Some(born)
    ensures StartDateItem(started) in ExcludeUnset(u) <==> u.startDate == Some(started)
    ensures SalaryItem(salary) in ExcludeUnset(u) <==> u.salary == Some(salary)
    ensures RateItem(rate) in ExcludeUnset(u) <==> u.rate == Some(rate)
  {
    var items := ExcludeUnset(u);
    assert FullNameItem(name) in items <==> Supplied(u, 0) == Some(FullNameItem(name)) by {
      assert Field(FullNameItem(name)) == 0;
    }
    assert BirthDateItem(born) in items <==> Supplied(u, 1) == Some(BirthDateItem(born)) by {
      assert Field(BirthDateItem(born)) == 1;
    }
    assert StartDateItem(started) in items <==> Supplied(u, 2) == Some(StartDateItem(started)) by {
      assert Field(StartDateItem(started)) == 2;
    }
    assert SalaryItem(salary) in items <==> Supplied(u, 3) == Some(SalaryItem(salary)) by {
      assert Field(SalaryItem(salary)) == 3;
    }
    assert RateItem(rate) in items <==> Supplied(u, 4) == Some(RateItem(rate)) by {
      assert Field(RateItem(rate)) == 4;
    }
  }

  /** The same for the status and the contact fields. */
  lemma ExcludeUnsetCarriesContacts(
    u: EmployeeUpdate, status: Option<string>, phone: Option<string>, email: Option<string>)
    ensures StatusItem(status) in ExcludeUnset(u) <==> u.status == Some(status)
    ensures PhoneItem(phone) in ExcludeUnset(u) <==> u.phone == Some(phone)
    ensures EmailItem(email) in ExcludeUnset(u) <==> u.email == Some(email)
  {
    var items := ExcludeUnset(u);
    assert StatusItem(status) in items <==> Supplied(u, 5) == Some(StatusItem(status)) by {
      assert Field(StatusItem(status)) == 5;
    }
    assert PhoneItem(phone) in items <==> Supplied(u, 6) == Some(PhoneItem(phone)) by {
      assert Field(PhoneItem(phone)) == 6;
    }
    assert EmailItem(email) in items <==> Supplied(u, 7) == Some(EmailItem(email)) by {
      assert Field(EmailItem(email)) == 7;
    }
  }

  /** The same for the department and position references. */
  lemma ExcludeUnsetCarriesReferences(u: EmployeeUpdate, department: Option<int>, position: Option<int>)
    ensures DepartmentItem(department) in ExcludeUnset(u) <==> u.departmentId == Some(department)
    ensures PositionItem(position) in ExcludeUnset(u) <==> u.positionId == Some(position)
  {
    var items := ExcludeUnset(u);
    assert DepartmentItem(department) in items <==> Supplied(u, 8) == Some(DepartmentItem(department)) by {
      assert Field(DepartmentItem(department)) == 8;
    }
    assert Supplied(u, 8) == Some(DepartmentItem(department)) <==> u.departmentId == Some(department);
    assert PositionItem(position) in items <==> Supplied(u, 9) == Some(PositionItem(position)) by {
      assert Field(PositionItem(position)) == 9;
    }
    assert Supplied(u, 9) == Some(PositionItem(position)) <==> u.positionId == Some(position);
  }
}
