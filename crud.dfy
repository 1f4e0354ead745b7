/**
 * The data-access layer: the employee query with its optional filters and
 * pagination, lookups and listings as functions over a table, and the store
 * whose tables the create, update and delete operations change in place.
 *
 * A table is a sequence in key-ascending order. The queries have no ORDER BY;
 * key order stands for the store-default order as a modelling choice.
 */
module Crud {
  import opened Wrappers
  import opened Calendar
  import opened Models
  import opened Schemas

  // ---------------------------------------------------------------------------
  // Pagination: OFFSET skip LIMIT limit

  function Min(a: int, b: int): int {
    if a <= b then a else b
  }

  /** `.offset(skip).limit(limit)`: the rows at positions skip, skip + 1, ... up to `limit` of them. */
  function Page<T>(rows: seq<T>, skip: nat, limit: nat): (r: seq<T>)
    ensures |r| == if skip >= |rows| then 0 else Min(limit, |rows| - skip)
    ensures forall i :: 0 <= i < |r| ==> r[i] == rows[skip + i]
  {
    if skip >= |rows| then [] else rows[skip..Min(skip + limit, |rows|)]
  }

  /** `get_departments`: a page of the departments table, by default its first 100 rows. */
  function GetDepartments(rows: seq<Department>, skip: nat := 0, limit: nat := 100): (r: seq<Department>)
    ensures |r| == if skip >= |rows| then 0 else Min(limit, |rows| - skip)
    ensures forall i :: 0 <= i < |r| ==> skip + i < |rows| && r[i] == rows[skip + i]
  {
    Page(rows, skip, limit)
  }

  /** `get_positions`: a page of the positions table, by default its first 100 rows. */
  function GetPositions(rows: seq<Position>, skip: nat := 0, limit: nat := 100): (r: seq<Position>)
    ensures |r| == if skip >= |rows| then 0 else Min(limit, |rows| - skip)
    ensures forall i :: 0 <= i < |r| ==> skip + i < |rows| && r[i] == rows[skip + i]
  {
    Page(rows, skip, limit)
  }

  /** With the default arguments both listings are the first (at most) 100 rows in table order. */
  lemma DefaultListingsAreFirstHundred(departments: seq<Department>, positions: seq<Position>)
    ensures GetDepartments(departments) == departments[..Min(100, |departments|)]
    ensures GetPositions(positions) == positions[..Min(100, |positions|)]
  {
  }

  /** Skipping two rows of five with a limit of two gives the third and fourth rows. */
  lemma SecondPageOfTwo(rows: seq<Department>)
    requires |rows| == 5
    ensures GetDepartments(rows, 2, 2) == [rows[2], rows[3]]
  {
  }

  // ---------------------------------------------------------------------------
  // Lookup by primary key

  /** The position of the first row with key `id`, if any. */
  function Find(rows: seq<Employee>, id: int): (r: Option<nat>)
    ensures r.Some? ==> r.value < |rows| && rows[r.value].id == id
    ensures r.Some? ==> forall j :: 0 <= j < r.value ==> rows[j].id != id
    ensures r.None? <==> forall j :: 0 <= j < |rows| ==> rows[j].id != id
  {
    if rows == [] then None
    else if rows[0].id == id then Some(0)
    else match Find(rows[1..], id)
      case None => None
      case Some(j) => Some(j + 1)
  }

  /** `get_employee`: the row with key `id`, or None when there is none. */
  function GetEmployee(rows: seq<Employee>, id: int): (r: Option<Employee>)
    ensures r.Some? ==> r.value in rows && r.value.id == id
    ensures r.None? <==> forall e :: e in rows ==> e.id != id
  {
    match Find(rows, id)
    case None => None
    case Some(i) => Some(rows[i])
  }

  // ---------------------------------------------------------------------------
  // Case-insensitive substring match: `ФИО ILIKE '%pattern%'`

  /** The capital letters the name match folds: Latin `A`-`Z` and Russian `А`-`Я` and `Ё`. */
  predicate IsCapital(c: char) {
    'A' <= c <= 'Z' || 'А' <= c <= 'Я' || c == 'Ё'
  }

  /**
   * Lower case for the Latin and Russian alphabets: a capital becomes the small
   * letter at the same place in its alphabet, every other character is kept.
   */
  function LowerChar(c: char): (d: char)
    ensures 'A' <= c <= 'Z' ==> 'a' <= d <= 'z' && d as int - 'a' as int == c as int - 'A' as int
    ensures 'А' <= c <= 'Я' ==> 'а' <= d <= 'я' && d as int - 'а' as int == c as int - 'А' as int
    ensures c == 'Ё' ==> d == 'ё'
    ensures !IsCapital(c) ==> d == c
    ensures !IsCapital(d)
  {
    if 'A' <= c <= 'Z' || 'А' <= c <= 'Я' then (c as int + 32) as char
    else if c == 'Ё' then 'ё'
    else c
  }

  /** A lower-cased string has no capital left, and its other characters are unchanged. */
  function Lower(s: string): (r: string)
    ensures |r| == |s|
    ensures forall i :: 0 <= i < |r| ==> !IsCapital(r[i])
    ensures forall i :: 0 <= i < |s| && !IsCapital(s[i]) ==> r[i] == s[i]
    ensures forall i :: 0 <= i < |s| && IsCapital(s[i]) ==> r[i] == LowerChar(s[i])
  {
    seq(|s|, i requires 0 <= i < |s| => LowerChar(s[i]))
  }

  /** Lower-casing twice is lower-casing once. */
  lemma LowerIsIdempotent(s: string)
    ensures Lower(Lower(s)) == Lower(s)
  {
    var once := Lower(s);
    assert forall i :: 0 <= i < |once| ==> Lower(once)[i] == once[i];
  }

  /** `pattern` occurs in `text` at some position (recursive form). */
  predicate Contains(text: string, pattern: string)
    decreases |text|
  {
    pattern <= text || (text != [] && Contains(text[1..], pattern))
  }

  /** `pattern` occurs in `text` starting at position `i`. */
  predicate OccursAt(text: string, pattern: string, i: nat) {
    i + |pattern| <= |text| && text[i..i + |pattern|] == pattern
  }

  /** Where the recursive test succeeds, the pattern occurs at the position it returns. */
  lemma {:induction false} ContainsAt(text: string, pattern: string) returns (i: nat)
    requires Contains(text, pattern)
    ensures OccursAt(text, pattern, i)
    decreases |text|
  {
    if pattern <= text {
      i := 0;
    } else {
      var j := ContainsAt(text[1..], pattern);
      assert text[1..][j..j + |pattern|] == text[j + 1..j + 1 + |pattern|];
      i := j + 1;
    }
  }

  /** A pattern that occurs at some position is found by the recursive test. */
  lemma {:induction false} OccursAtContains(text: string, pattern: string, i: nat)
    requires OccursAt(text, pattern, i)
    ensures Contains(text, pattern)
    decreases i
  {
    if i == 0 {
      assert text[..|pattern|] == pattern;
    } else {
      assert text[1..][i - 1..i - 1 + |pattern|] == text[i..i + |pattern|];
      OccursAtContains(text[1..], pattern, i - 1);
    }
  }

  /** The recursive substring test agrees with "occurs at some position". */
  lemma ContainsMeansOccurs(text: string, pattern: string)
    ensures Contains(text, pattern) <==> exists i: nat :: OccursAt(text, pattern, i)
  {
    if Contains(text, pattern) {
      var i := ContainsAt(text, pattern);
    }
    if exists i: nat :: OccursAt(text, pattern, i) {
      var i: nat :| OccursAt(text, pattern, i);
      OccursAtContains(text, pattern, i);
    }
  }

  /** `ilike '%pattern%'`, case-insensitive containment. */
  predicate ILike(value: string, pattern: string) {
    Contains(Lower(value), Lower(pattern))
  }

  /** `ilike '%pattern%'` holds exactly when the lower-cased pattern occurs somewhere in the lower-cased value. */
  lemma ILikeMeansOccurs(value: string, pattern: string)
    ensures ILike(value, pattern) <==> exists i: nat :: OccursAt(Lower(value), Lower(pattern), i)
  {
    ContainsMeansOccurs(Lower(value), Lower(pattern));
  }

  /** The match ignores case on both sides: lower-casing the value or the pattern first changes nothing. */
  lemma ILikeIgnoresCase(value: string, pattern: string)
    ensures ILike(value, pattern) == ILike(Lower(value), pattern)
    ensures ILike(value, pattern) == ILike(value, Lower(pattern))
  {
    LowerIsIdempotent(value);
    LowerIsIdempotent(pattern);
  }

  /** A pattern whose first character never occurs in the text does not occur in it. */
  lemma {:induction false} PatternNotFound(text: string, pattern: string)
    requires pattern != [] && forall i :: 0 <= i < |text| ==> text[i] != pattern[0]
    ensures !Contains(text, pattern)
    decreases |text|
  {
    if text != [] {
      assert text[0] != pattern[0];
      assert forall i :: 0 <= i < |text[1..]| ==> text[1..][i] == text[i + 1];
      PatternNotFound(text[1..], pattern);
    }
  }

  /** The name filter is case-insensitive: "Ana Smith" matches the pattern "ana". */
  lemma NameMatchExample()
    ensures ILike("Ana Smith", "ana")
  {
    assert Lower("ana") == "ana";
    assert Lower("Ana Smith") == "ana smith";
    assert "ana" <= "ana smith";
  }

  /** "Bob Jones" does not match the pattern "ana". */
  lemma NameMismatchExample()
    ensures !ILike("Bob Jones", "ana")
  {
    assert Lower("ana") == "ana";
    assert Lower("Bob Jones") == "bob jones";
    PatternNotFound("bob jones", "ana");
  }

  // ---------------------------------------------------------------------------
  // The employee query

  /**
   * The arguments of `get_employees` after skip and limit: the name pattern,
   * the salary bounds, the start-date bounds and the department key.
   */
  datatype EmployeeFilter = EmployeeFilter(
    name: Option<string>,
    minSalary: Option<real>,
    maxSalary: Option<real>,
    startFrom: Option<ValidDate>,
    startTo: Option<ValidDate>,
    departmentId: Option<int>)

  const NoFilter: EmployeeFilter := EmployeeFilter(None, None, None, None, None, None)

  /** Python truthiness: None, "", 0 and 0.0 are false; a date is always true. */
  predicate TruthyText(a: Option<string>) { a.Some? && a.value != "" }
  predicate TruthyReal(a: Option<real>) { a.Some? && a.value != 0.0 }
  predicate TruthyInt(a: Option<int>) { a.Some? && a.value != 0 }
  predicate TruthyDate(a: Option<Date>) { a.Some? }

  /** One `query.filter(...)` clause. */
  datatype Condition =
    | NameLike(pattern: string)
    | SalaryAtLeast(minimum: real)
    | SalaryAtMost(maximum: real)
    | StartOnOrAfter(from: Date)
    | StartOnOrBefore(to: Date)
    | DepartmentIs(departmentId: int)

  /** Whether a row passes a clause; a NULL column makes the SQL comparison fail. */
  predicate Holds(e: Employee, c: Condition) {
    match c
    case NameLike(p) => e.fullName.Some? && ILike(e.fullName.value, p)
    case SalaryAtLeast(m) => e.salary.Some? && e.salary.value >= m
    case SalaryAtMost(m) => e.salary.Some? && e.salary.value <= m
    case StartOnOrAfter(d) => e.startDate.Some? && Le(d, e.startDate.value)
    case StartOnOrBefore(d) => e.startDate.Some? && Le(e.startDate.value, d)
    case DepartmentIs(id) => e.departmentId == Some(id)
  }

  /** The clauses `get_employees` adds, in order: one per argument that is truthy. */
  function Conditions(f: EmployeeFilter): seq<Condition> {
    (if TruthyText(f.name) then [NameLike(f.name.value)] else [])
    + (if TruthyReal(f.minSalary) then [SalaryAtLeast(f.minSalary.value)] else [])
    + (if TruthyReal(f.maxSalary) then [SalaryAtMost(f.maxSalary.value)] else [])
    + (if TruthyDate(f.startFrom) then [StartOnOrAfter(f.startFrom.value)] else [])
    + (if TruthyDate(f.startTo) then [StartOnOrBefore(f.startTo.value)] else [])
    + (if TruthyInt(f.departmentId) then [DepartmentIs(f.departmentId.value)] else [])
  }

  /** `query.filter(c)`: the rows that pass `c`, in their order. */
  function Where(rows: seq<Employee>, c: Condition): (r: seq<Employee>)
    ensures |r| <= |rows|
    ensures forall e :: e in r <==> e in rows && Holds(e, c)
  {
    if rows == [] then []
    else if Holds(rows[0], c) then [rows[0]] + Where(rows[1..], c)
    else Where(rows[1..], c)
  }

  /** `query = query.filter(c)` for each clause in turn. */
  function Filtered(rows: seq<Employee>, cs: seq<Condition>): seq<Employee> {
    if cs == [] then rows else Where(Filtered(rows, cs[..|cs| - 1]), cs[|cs| - 1])
  }

  predicate SatisfiesAll(e: Employee, cs: seq<Condition>) {
    forall c :: c in cs ==> Holds(e, c)
  }

  /** Successive filters combine with AND. */
  lemma {:induction false} FilteredIsConjunction(rows: seq<Employee>, cs: seq<Condition>)
    ensures forall e :: e in Filtered(rows, cs) <==> e in rows && SatisfiesAll(e, cs)
  {
    if cs != [] {
      var init := cs[..|cs| - 1];
      FilteredIsConjunction(rows, init);
      assert cs == init + [cs[|cs| - 1]];
    }
  }

  /** Filtering keeps table order: a key-ascending table gives a key-ascending result. */
  lemma {:induction false} WhereKeepsOrder(rows: seq<Employee>, c: Condition)
    requires EmployeeIdsAscending(rows)
    ensures EmployeeIdsAscending(Where(rows, c))
  {
    if rows != [] {
      var rest := rows[1..];
      WhereKeepsOrder(rest, c);
      var w := Where(rest, c);
      forall e | e in w ensures rows[0].id < e.id {
        var k :| 0 <= k < |rest| && rest[k] == e;
        assert rows[k + 1] == e;
      }
    }
  }

  lemma {:induction false} FilteredKeepsOrder(rows: seq<Employee>, cs: seq<Condition>)
    requires EmployeeIdsAscending(rows)
    ensures EmployeeIdsAscending(Filtered(rows, cs))
  {
    if cs != [] {
      FilteredKeepsOrder(rows, cs[..|cs| - 1]);
      WhereKeepsOrder(Filtered(rows, cs[..|cs| - 1]), cs[|cs| - 1]);
    }
  }

  /**
   * What a filter means argument by argument: each truthy argument constrains
   * its column; salary and start-date bounds are inclusive, the department is
   * an exact match, and a NULL column fails any constraint on it.
   */
  predicate Matches(e: Employee, f: EmployeeFilter) {
    && (TruthyText(f.name) ==> e.fullName.Some? && ILike(e.fullName.value, f.name.value))
    && (TruthyReal(f.minSalary) ==> e.salary.Some? && f.minSalary.value <= e.salary.value)
    && (TruthyReal(f.maxSalary) ==> e.salary.Some? && e.salary.value <= f.maxSalary.value)
    && (f.startFrom.Some? ==> e.startDate.Some? && Le(f.startFrom.value, e.startDate.value))
    && (f.startTo.Some? ==> e.startDate.Some? && Le(e.startDate.value, f.startTo.value))
    && (TruthyInt(f.departmentId) ==> e.departmentId == f.departmentId)
  }

  /** The clauses built from a filter are exactly one per truthy argument, carrying that argument. */
  lemma ConditionsMembers(f: EmployeeFilter, c: Condition)
    ensures c in Conditions(f) <==>
      || (TruthyText(f.name) && c == NameLike(f.name.value))
      || (TruthyReal(f.minSalary) && c == SalaryAtLeast(f.minSalary.value))
      || (TruthyReal(f.maxSalary) && c == SalaryAtMost(f.maxSalary.value))
      || (TruthyDate(f.startFrom) && c == StartOnOrAfter(f.startFrom.value))
      || (TruthyDate(f.startTo) && c == StartOnOrBefore(f.startTo.value))
      || (TruthyInt(f.departmentId) && c == DepartmentIs(f.departmentId.value))
  {
  }

  lemma ConditionsMeanMatches(e: Employee, f: EmployeeFilter)
    ensures SatisfiesAll(e, Conditions(f)) <==> Matches(e, f)
  {
    var cs := Conditions(f);
    if Matches(e, f) {
      forall c | c in cs ensures Holds(e, c) {
        ConditionsMembers(f, c);
      }
    }
    if SatisfiesAll(e, cs) {
      if TruthyText(f.name) { assert NameLike(f.name.value) in cs; }
      if TruthyReal(f.minSalary) { assert SalaryAtLeast(f.minSalary.value) in cs; }
      if TruthyReal(f.maxSalary) { assert SalaryAtMost(f.maxSalary.value) in cs; }
      if TruthyDate(f.startFrom) { assert StartOnOrAfter(f.startFrom.value) in cs; }
      if TruthyDate(f.startTo) { assert StartOnOrBefore(f.startTo.value) in cs; }
      if TruthyInt(f.departmentId) { assert DepartmentIs(f.departmentId.value) in cs; }
    }
  }

  /**
   * `get_employees`: the filtered table, then OFFSET skip LIMIT limit. Every
   * row returned is a table row that satisfies every truthy argument; the
   * result is the window of the filtered rows starting at `skip`.
   */
  function GetEmployees(rows: seq<Employee>, f: EmployeeFilter := NoFilter, skip: nat := 0, limit: nat := 100)
    : (r: seq<Employee>)
    ensures |r| <= limit
    ensures |r| == if skip >= |Filtered(rows, Conditions(f))| then 0
                   else Min(limit, |Filtered(rows, Conditions(f))| - skip)
    ensures forall e :: e in r ==> e in rows && Matches(e, f)
    ensures forall i :: 0 <= i < |r| ==>
      skip + i < |Filtered(rows, Conditions(f))| && r[i] == Filtered(rows, Conditions(f))[skip + i]
    ensures EmployeeIdsAscending(rows) ==> EmployeeIdsAscending(r)
  {
    var all := Filtered(rows, Conditions(f));
    assert forall e :: e in all ==> e in rows && Matches(e, f) by {
      FilteredIsConjunction(rows, Conditions(f));
      forall e | e in all ensures Matches(e, f) {
        ConditionsMeanMatches(e, f);
      }
    }
    assert EmployeeIdsAscending(rows) ==> EmployeeIdsAscending(all) by {
      if EmployeeIdsAscending(rows) {
        FilteredKeepsOrder(rows, Conditions(f));
      }
    }
    Page(all, skip, limit)
  }

  /** Without pagination the query returns every matching row: it is complete as well as sound. */
  lemma UnpagedQueryIsComplete(rows: seq<Employee>, f: EmployeeFilter, e: Employee)
    requires e in rows && Matches(e, f)
    ensures e in GetEmployees(rows, f, 0, |rows|)
  {
    FilteredIsConjunction(rows, Conditions(f));
    ConditionsMeanMatches(e, f);
    var all := Filtered(rows, Conditions(f));
    var k :| 0 <= k < |all| && all[k] == e;
    assert |all| <= |rows| by { FilteredNoLonger(rows, Conditions(f)); }
    assert GetEmployees(rows, f, 0, |rows|)[k] == e;
  }

  lemma {:induction false} FilteredNoLonger(rows: seq<Employee>, cs: seq<Condition>)
    ensures |Filtered(rows, cs)| <= |rows|
  {
    if cs != [] {
      FilteredNoLonger(rows, cs[..|cs| - 1]);
    }
  }

  /** The filter with every falsy argument (None, "", 0, 0.0) replaced by None. */
  function Truthy(f: EmployeeFilter): (g: EmployeeFilter)
    ensures g.name.Some? <==> TruthyText(f.name)
    ensures g.minSalary.Some? <==> TruthyReal(f.minSalary)
    ensures g.maxSalary.Some? <==> TruthyReal(f.maxSalary)
    ensures g.departmentId.Some? <==> TruthyInt(f.departmentId)
    ensures TruthyText(f.name) ==> g.name == f.name
    ensures TruthyReal(f.minSalary) ==> g.minSalary == f.minSalary
    ensures TruthyReal(f.maxSalary) ==> g.maxSalary == f.maxSalary
    ensures TruthyInt(f.departmentId) ==> g.departmentId == f.departmentId
    ensures g.startFrom == f.startFrom && g.startTo == f.startTo
  {
    EmployeeFilter(
      if TruthyText(f.name) then f.name else None,
      if TruthyReal(f.minSalary) then f.minSalary else None,
      if TruthyReal(f.maxSalary) then f.maxSalary else None,
      f.startFrom,
      f.startTo,
      if TruthyInt(f.departmentId) then f.departmentId else None)
  }

  /** A falsy argument imposes no constraint: it gives the same rows as omitting it. */
  lemma FalsyArgumentsAreIgnored(rows: seq<Employee>, f: EmployeeFilter, skip: nat, limit: nat)
    ensures GetEmployees(rows, f, skip, limit) == GetEmployees(rows, Truthy(f), skip, limit)
  {
    assert Conditions(f) == Conditions(Truthy(f));
  }

  /** For example, a minimum salary of 0 or a department key of 0 is the same as none. */
  lemma ZeroArgumentsAreIgnored(rows: seq<Employee>, f: EmployeeFilter, skip: nat, limit: nat)
    ensures GetEmployees(rows, f.(minSalary := Some(0.0)), skip, limit)
         == GetEmployees(rows, f.(minSalary := None), skip, limit)
    ensures GetEmployees(rows, f.(departmentId := Some(0)), skip, limit)
         == GetEmployees(rows, f.(departmentId := None), skip, limit)
    ensures GetEmployees(rows, f.(name := Some("")), skip, limit)
         == GetEmployees(rows, f.(name := None), skip, limit)
  {
    assert Conditions(f.(minSalary := Some(0.0))) == Conditions(f.(minSalary := None));
    assert Conditions(f.(departmentId := Some(0))) == Conditions(f.(departmentId := None));
    assert Conditions(f.(name := Some(""))) == Conditions(f.(name := None));
  }

  /** With no truthy argument the query is a plain page of the table. */
  lemma NoFilterIsPlainPage(rows: seq<Employee>, skip: nat, limit: nat)
    ensures GetEmployees(rows, NoFilter, skip, limit) == Page(rows, skip, limit)
  {
    assert Conditions(NoFilter) == [];
  }

  // ---------------------------------------------------------------------------
  // Rows built from inputs and patches

  /** The row `create_employee` builds: the input's `Дата_ДР` is stored as the column `ДР`. */
  function NewEmployeeRow(id: int, c: EmployeeCreate): (e: Employee) {
    Employee(id, Some(c.fullName), Some(c.birthDate), Some(c.startDate), Some(c.salary),
             Some(c.rate), Some(c.status), Some(c.phone), Some(c.email),
             Some(c.departmentId), Some(c.positionId))
  }

  /** The complete input a row holds, or None when some column is NULL. */
  function StoredInput(e: Employee): (c: Option<EmployeeCreate>)
    ensures c.Some? ==> NewEmployeeRow(e.id, c.value) == e
    ensures c.None? ==> forall x :: NewEmployeeRow(e.id, x) != e
  {
    if && e.fullName.Some? && e.birthDate.Some? && e.startDate.Some? && e.salary.Some?
       && IsValid(e.birthDate.value) && IsValid(e.startDate.value)
       && e.rate.Some? && e.status.Some? && e.phone.Some? && e.email.Some?
       && e.departmentId.Some? && e.positionId.Some?
    then Some(EmployeeCreate(e.fullName.value, e.birthDate.value, e.startDate.value,
                             e.salary.value, e.rate.value, e.status.value, e.phone.value,
                             e.email.value, e.departmentId.value, e.positionId.value))
    else None
  }

  /** A created row holds exactly its input, under the key it was given. */
  lemma NewRowRoundTrip(id: int, c: EmployeeCreate)
    ensures NewEmployeeRow(id, c).id == id
    ensures StoredInput(NewEmployeeRow(id, c)) == Some(c)
  {
  }

  /**
   * `setattr(row, key, value)` for one entry. The key `Дата_ДР` names no mapped
   * column (the column is `ДР`), so that entry leaves the row as it was.
   */
  function SetAttr(e: Employee, item: UpdateItem): (r: Employee)
    ensures r.id == e.id && r.birthDate == e.birthDate
  {
    match item
    case FullNameItem(v) => e.(fullName := v)
    case BirthDateItem(_) => e
    case StartDateItem(v) => e.(startDate := v)
    case SalaryItem(v) => e.(salary := v)
    case RateItem(v) => e.(rate := v)
    case StatusItem(v) => e.(status := v)
    case PhoneItem(v) => e.(phone := v)
    case EmailItem(v) => e.(email := v)
    case DepartmentItem(v) => e.(departmentId := v)
    case PositionItem(v) => e.(positionId := v)
  }

  /** The `for key, value in update_data.items(): setattr(...)` loop, entry by entry. */
  function ApplyAll(e: Employee, items: seq<UpdateItem>): Employee
    decreases |items|
  {
    if items == [] then e else ApplyAll(SetAttr(e, items[0]), items[1..])
  }

  /**
   * The effect of a patch, column by column: a column whose name is a supplied
   * patch key takes the supplied value (None included); every other column,
   * the key, and the birth date `ДР` (whose patch key is `Дата_ДР`) keep theirs.
   */
  function Merge(e: Employee, u: EmployeeUpdate): Employee {
    e.(fullName := u.fullName.GetOr(e.fullName),
       startDate := u.startDate.GetOr(e.startDate),
       salary := u.salary.GetOr(e.salary),
       rate := u.rate.GetOr(e.rate),
       status := u.status.GetOr(e.status),
       phone := u.phone.GetOr(e.phone),
       email := u.email.GetOr(e.email),
       departmentId := u.departmentId.GetOr(e.departmentId),
       positionId := u.positionId.GetOr(e.positionId))
  }

  /** `Merge` restricted to the fields at declaration positions `k` and later. */
  ghost function MergeFrom(e: Employee, u: EmployeeUpdate, k: nat): Employee {
    e.(fullName := if k <= 0 then u.fullName.GetOr(e.fullName) else e.fullName,
       startDate := if k <= 2 then u.startDate.GetOr(e.startDate) else e.startDate,
       salary := if k <= 3 then u.salary.GetOr(e.salary) else e.salary,
       rate := if k <= 4 then u.rate.GetOr(e.rate) else e.rate,
       status := if k <= 5 then u.status.GetOr(e.status) else e.status,
       phone := if k <= 6 then u.phone.GetOr(e.phone) else e.phone,
       email := if k <= 7 then u.email.GetOr(e.email) else e.email,
       departmentId := if k <= 8 then u.departmentId.GetOr(e.departmentId) else e.departmentId,
       positionId := if k <= 9 then u.positionId.GetOr(e.positionId) else e.positionId)
  }

  /** The entry at position `k`, when supplied, applied to a row. */
  function Step(e: Employee, u: EmployeeUpdate, k: nat): Employee
    requires k < 10
  {
    match Supplied(u, k)
    case None => e
    case Some(item) => SetAttr(e, item)
  }

  lemma StepThenMergeRest(e: Employee, u: EmployeeUpdate, k: nat)
    requires k < 10
    ensures MergeFrom(Step(e, u, k), u, k + 1) == MergeFrom(e, u, k)
  {
    if k == 0 { assert Step(e, u, 0) == e.(fullName := u.fullName.GetOr(e.fullName)); }
    else if k == 1 { assert Step(e, u, 1) == e; }
    else if k == 2 { assert Step(e, u, 2) == e.(startDate := u.startDate.GetOr(e.startDate)); }
    else if k == 3 { assert Step(e, u, 3) == e.(salary := u.salary.GetOr(e.salary)); }
    else if k == 4 { assert Step(e, u, 4) == e.(rate := u.rate.GetOr(e.rate)); }
    else if k == 5 { assert Step(e, u, 5) == e.(status := u.status.GetOr(e.status)); }
    else if k == 6 { assert Step(e, u, 6) == e.(phone := u.phone.GetOr(e.phone)); }
    else if k == 7 { assert Step(e, u, 7) == e.(email := u.email.GetOr(e.email)); }
    else if k == 8 { assert Step(e, u, 8) == e.(departmentId := u.departmentId.GetOr(e.departmentId)); }
    else { assert Step(e, u, 9) == e.(positionId := u.positionId.GetOr(e.positionId)); }
  }

  lemma {:induction false} ApplyEntriesFrom(e: Employee, u: EmployeeUpdate, k: nat)
    requires k <= 10
    ensures ApplyAll(e, EntriesFrom(u, k)) == MergeFrom(e, u, k)
    decreases 10 - k
  {
    if k < 10 {
      var rest := EntriesFrom(u, k + 1);
      ApplyEntriesFrom(Step(e, u, k), u, k + 1);
      StepThenMergeRest(e, u, k);
      match Supplied(u, k)
      case None =>
        assert EntriesFrom(u, k) == rest;
      case Some(item) =>
        assert EntriesFrom(u, k) == [item] + rest;
        assert ([item] + rest)[1..] == rest;
        assert ApplyAll(e, [item] + rest) == ApplyAll(SetAttr(e, item), rest);
    }
  }

  /** The `setattr` loop over the supplied entries, applied one after another in order. */
  method SetAttrLoop(original: Employee, items: seq<UpdateItem>) returns (row: Employee)
    ensures row == ApplyAll(original, items)
    ensures row.id == original.id && row.birthDate == original.birthDate
  {
    row := original;
    var k := 0;
    while k < |items|
      invariant 0 <= k <= |items|
      invariant ApplyAll(row, items[k..]) == ApplyAll(original, items)
      invariant row.id == original.id && row.birthDate == original.birthDate
    {
      assert items[k..][1..] == items[k + 1..];
      row := SetAttr(row, items[k]);
      k := k + 1;
    }
    assert items[k..] == [];
  }

  /** The setattr loop over `dict(exclude_unset=True)` performs exactly `Merge`. */
  lemma SetAttrLoopIsMerge(e: Employee, u: EmployeeUpdate)
    ensures ApplyAll(e, ExcludeUnset(u)) == Merge(e, u)
  {
    ApplyEntriesFrom(e, u, 0);
  }

  /** An empty patch changes nothing. */
  lemma EmptyPatchChangesNothing(e: Employee)
    ensures ExcludeUnset(EmptyUpdate) == []
    ensures Merge(e, EmptyUpdate) == e
  {
  }

  /** A patch never changes the key, and never the birth date `ДР`, even when `Дата_ДР` is supplied. */
  lemma PatchKeepsKeyAndBirthDate(e: Employee, u: EmployeeUpdate)
    ensures Merge(e, u).id == e.id
    ensures Merge(e, u).birthDate == e.birthDate
  {
  }

  /** A field supplied as None clears its column; a field supplied with a value overwrites it. */
  lemma SuppliedFieldsOverwrite(e: Employee, u: EmployeeUpdate)
    ensures u.salary == Some(None) ==> Merge(e, u).salary == None
    ensures u.fullName == Some(None) ==> Merge(e, u).fullName == None
    ensures forall v :: u.departmentId == Some(Some(v)) ==> Merge(e, u).departmentId == Some(v)
    ensures u.startDate.None? ==> Merge(e, u).startDate == e.startDate
  {
  }

  /** A patch supplying one field changes that column and no other. */
  lemma SingleFieldPatch(e: Employee, v: Option<real>)
    ensures Merge(e, EmptyUpdate.(salary := Some(v))) == e.(salary := v)
  {
  }

  /** Removing one row from a valid employee table leaves a valid table holding every other row. */
  lemma RemoveAtKeepsTable(rows: seq<Employee>, i: nat, nextId: int)
    requires EmployeesValid(rows, nextId) && i < |rows|
    ensures EmployeesValid(rows[..i] + rows[i + 1..], nextId)
    ensures forall e :: e in rows[..i] + rows[i + 1..] ==> e in rows && e.id != rows[i].id
    ensures forall e :: e in rows && e.id != rows[i].id ==> e in rows[..i] + rows[i + 1..]
  {
    var r := rows[..i] + rows[i + 1..];
    assert forall j :: 0 <= j < i ==> r[j] == rows[j];
    assert forall j :: i <= j < |r| ==> r[j] == rows[j + 1];
    forall e | e in rows && e.id != rows[i].id ensures e in r {
      var j :| 0 <= j < |rows| && rows[j] == e;
      if j < i { assert r[j] == e; } else { assert r[j - 1] == e; }
    }
  }

  // ---------------------------------------------------------------------------
  // The store

  /** A constraint the store refuses to violate: a unique name or a foreign key. */
  datatype StoreError = UniqueViolation | ForeignKeyViolation

  /**
   * The three tables and the store's key sequences. Each create, update or
   * delete is one atomic unit of work; a violated constraint leaves every
   * table as it was.
   */
  class Store {
    var departments: seq<Department>
    var positions: seq<Position>
    var employees: seq<Employee>
    var nextDepartmentId: int
    var nextPositionId: int
    var nextEmployeeId: int

    ghost predicate Valid()
      reads this
    {
      && DepartmentsValid(departments, nextDepartmentId)
      && PositionsValid(positions, nextPositionId)
      && EmployeesValid(employees, nextEmployeeId)
      && forall e :: e in employees ==> ReferencesResolve(e, departments, positions)
    }

    constructor ()
      ensures Valid()
      ensures departments == [] && positions == [] && employees == []
      ensures nextDepartmentId == 1 && nextPositionId == 1 && nextEmployeeId == 1
    {
      departments, positions, employees := [], [], [];
      nextDepartmentId, nextPositionId, nextEmployeeId := 1, 1, 1;
    }

    /** `create_department`: a new row with a fresh key, unless the name is taken. */
    method CreateDepartment(input: DepartmentCreate) returns (r: Result<Department, StoreError>)
      requires Valid()
      modifies this
      ensures Valid()
      ensures r.Success? <==> !DepartmentNameTaken(old(departments), input.name)
      ensures r.Success? ==>
        && r.value == Department(old(nextDepartmentId), input.name)
        && (forall d :: d in old(departments) ==> d.id < r.value.id)
        && departments == old(departments) + [r.value]
        && nextDepartmentId == old(nextDepartmentId) + 1
      ensures r.Failure? ==>
        && r.error == UniqueViolation
        && departments == old(departments) && nextDepartmentId == old(nextDepartmentId)
      ensures positions == old(positions) && nextPositionId == old(nextPositionId)
      ensures employees == old(employees) && nextEmployeeId == old(nextEmployeeId)
    {
      if DepartmentNameTaken(departments, input.name) {
        return Failure(UniqueViolation);
      }
      var row := Department(nextDepartmentId, input.name);
      ghost var before := departments;
      departments := departments + [row];
      nextDepartmentId := nextDepartmentId + 1;
      forall e | e in employees ensures ReferencesResolve(e, departments, positions) {
        assert ReferencesResolve(e, before, positions);
        if e.departmentId.Some? {
          var i :| 0 <= i < |before| && before[i].id == e.departmentId.value;
          assert departments[i] == before[i];
        }
      }
      r := Success(row);
    }

    /** `create_position`: a new row with a fresh key, unless the name is taken. */
    method CreatePosition(input: PositionCreate) returns (r: Result<Position, StoreError>)
      requires Valid()
      modifies this
      ensures Valid()
      ensures r.Success? <==> !PositionNameTaken(old(positions), input.name)
      ensures r.Success? ==>
        && r.value == Position(old(nextPositionId), input.name)
        && (forall p :: p in old(positions) ==> p.id < r.value.id)
        && positions == old(positions) + [r.value]
        && nextPositionId == old(nextPositionId) + 1
      ensures r.Failure? ==>
        && r.error == UniqueViolation
        && positions == old(positions) && nextPositionId == old(nextPositionId)
      ensures departments == old(departments) && nextDepartmentId == old(nextDepartmentId)
      ensures employees == old(employees) && nextEmployeeId == old(nextEmployeeId)
    {
      if PositionNameTaken(positions, input.name) {
        return Failure(UniqueViolation);
      }
      var row := Position(nextPositionId, input.name);
      ghost var before := positions;
      positions := positions + [row];
      nextPositionId := nextPositionId + 1;
      forall e | e in employees ensures ReferencesResolve(e, departments, positions) {
        assert ReferencesResolve(e, departments, before);
        if e.positionId.Some? {
          var i :| 0 <= i < |before| && before[i].id == e.positionId.value;
          assert positions[i] == before[i];
        }
      }
      r := Success(row);
    }

    /**
     * `create_employee`: a new row holding the input under a fresh key, unless
     * the department or the position it names does not exist.
     */
    method CreateEmployee(input: EmployeeCreate) returns (r: Result<Employee, StoreError>)
      requires Valid()
      modifies this
      ensures Valid()
      ensures r.Success? <==>
        HasDepartment(departments, input.departmentId) && HasPosition(positions, input.positionId)
      ensures r.Success? ==>
        && r.value.id == old(nextEmployeeId)
        && StoredInput(r.value) == Some(input)
        && (forall e :: e in old(employees) ==> e.id < r.value.id)
        && employees == old(employees) + [r.value]
        && nextEmployeeId == old(nextEmployeeId) + 1
        && GetEmployee(employees, r.value.id) == Some(r.value)
      ensures r.Failure? ==>
        && r.error == ForeignKeyViolation
        && employees == old(employees) && nextEmployeeId == old(nextEmployeeId)
      ensures departments == old(departments) && nextDepartmentId == old(nextDepartmentId)
      ensures positions == old(positions) && nextPositionId == old(nextPositionId)
    {
      var row := NewEmployeeRow(nextEmployeeId, input);
      if !ReferencesResolve(row, departments, positions) {
        return Failure(ForeignKeyViolation);
      }
      NewRowRoundTrip(nextEmployeeId, input);
      ghost var before := employees;
      employees := employees + [row];
      nextEmployeeId := nextEmployeeId + 1;
      assert employees[|before|] == row;
      r := Success(row);
    }

    /**
     * `update_employee`: None, changing nothing, when no row has key `id`;
     * otherwise each supplied patch entry is written with setattr and the
     * updated row is returned, unless it names a missing department or position.
     */
    method UpdateEmployee(id: int, patch: EmployeeUpdate) returns (r: Result<Option<Employee>, StoreError>)
      requires Valid()
      modifies this
      ensures Valid()
      ensures Find(old(employees), id).None? ==> r == Success(None) && employees == old(employees)
      ensures Find(old(employees), id).Some? ==>
        var i := Find(old(employees), id).value;
        var updated := Merge(old(employees)[i], patch);
        if ReferencesResolve(updated, departments, positions)
        then r == Success(Some(updated)) && employees == old(employees)[i := updated]
        else r == Failure(ForeignKeyViolation) && employees == old(employees)
      ensures departments == old(departments) && positions == old(positions)
      ensures nextDepartmentId == old(nextDepartmentId) && nextPositionId == old(nextPositionId)
      ensures nextEmployeeId == old(nextEmployeeId)
    {
      var found := Find(employees, id);
      if found.None? {
        return Success(None);
      }
      var i := found.value;
      var original := employees[i];
      var row := SetAttrLoop(original, ExcludeUnset(patch));
      SetAttrLoopIsMerge(original, patch);
      PatchKeepsKeyAndBirthDate(original, patch);
      if !ReferencesResolve(row, departments, positions) {
        return Failure(ForeignKeyViolation);
      }
      employees := employees[i := row];
      r := Success(Some(row));
    }

    /**
     * `delete_employee`: true exactly when a row with key `id` existed; that row
     * is removed and every other row is kept, in order.
     */
    method DeleteEmployee(id: int) returns (removed: bool)
      requires Valid()
      modifies this
      ensures Valid()
      ensures removed <==> Find(old(employees), id).Some?
      ensures removed ==>
        var i := Find(old(employees), id).value;
        employees == old(employees)[..i] + old(employees)[i + 1..]
      ensures !removed ==> employees == old(employees)
      ensures GetEmployee(employees, id).None?
      ensures forall e :: e in old(employees) && e.id != id ==> e in employees
      ensures departments == old(departments) && positions == old(positions)
      ensures nextDepartmentId == old(nextDepartmentId) && nextPositionId == old(nextPositionId)
      ensures nextEmployeeId == old(nextEmployeeId)
    {
      var found := Find(employees, id);
      if found.None? {
        return false;
      }
      var i := found.value;
      RemoveAtKeepsTable(employees, i, nextEmployeeId);
      employees := employees[..i] + employees[i + 1..];
      removed := true;
    }
  }
}
