/**
 * The server's employee endpoints: the public login list, the listing a
 * signed-in caller sees, and a manager creating, editing, re-passwording
 * and deactivating employees.
 */
module EmployeeController {
  import opened Common
  import opened Sorting
  import opened ServerData

  // ---- normalizeStatus ----

  /** `status` lower-cased when it names a listing; 'active' otherwise. */
  function NormalizeStatus(status: Option<string>): (r: string)
    ensures r == "active" || r == "inactive" || r == "all"
    ensures Truthy(status) && (Lower(status.value) == "inactive" || Lower(status.value) == "all")
            ==> r == Lower(status.value)
    ensures r != "active" ==> Truthy(status) && r == Lower(status.value)
  {
    if !Truthy(status) then "active"
    else
      var s := Lower(status.value);
      if s == "active" || s == "inactive" || s == "all" then s else "active"
  }

  /** Letter case does not matter. */
  lemma NormalizeStatusIgnoresCase(s: string)
    ensures NormalizeStatus(Some(Lower(s))) == NormalizeStatus(Some(s))
  {
    LowerIdempotent(s);
  }

  /** A normalised status normalises to itself. */
  lemma {:induction false} NormalizeStatusIdempotent(status: Option<string>)
    ensures NormalizeStatus(Some(NormalizeStatus(status))) == NormalizeStatus(status)
  {
    var r := NormalizeStatus(status);
    if Truthy(status) && r == Lower(status.value) {
      LowerIdempotent(status.value);
    } else {
      assert r == "active";
      assert Lower(r) == r by {
        assert forall k :: 0 <= k < |r| ==> !('A' <= r[k] <= 'Z');
      }
    }
  }

  // ---- listings ----

  predicate NameOrder(a: Employee, b: Employee) {
    StrLe(a.name, b.name)
  }

  /** `sort({ name: 1 })`, employees with the same name kept in store
      order. */
  function SortByName(es: seq<Employee>): (r: seq<Employee>)
    ensures SortedBy(r, NameOrder) && multiset(r) == multiset(es)
    ensures forall e :: e in r <==> e in es
  {
    StrLeTotalPreorder();
    assert TotalPreorder(NameOrder);
    var r := SortBy(es, NameOrder);
    assert forall e :: e in r <==> e in es by {
      forall e ensures e in r <==> e in es {
        SortByMembers(es, NameOrder, e);
      }
    }
    r
  }

  datatype ListResult = ListFailed(status: int, error: string) | Listing(employees: seq<Employee>)

  function InCompany(companyId: string, active: Option<bool>): Employee -> bool {
    (e: Employee) => e.companyId == companyId && (active.Some? ==> e.active == active.value)
  }

  /** The login screen's list: the active employees of the named company,
      by name. */
  function ListPublicEmployees(employees: seq<Employee>, companyIdIn: Option<string>): (r: ListResult)
    ensures r.ListFailed? <==> NormalizeCompanyId(companyIdIn).None?
    ensures r.ListFailed? ==> r == ListFailed(400, "companyId is required")
    ensures r.Listing? ==>
      && SortedBy(r.employees, NameOrder)
      && (forall e :: e in r.employees <==>
            e in employees && e.active && e.companyId == NormalizeCompanyId(companyIdIn).value)
      && (forall e :: multiset(r.employees)[e] ==
            if e.active && e.companyId == NormalizeCompanyId(companyIdIn).value then multiset(employees)[e] else 0)
  {
    var companyId := NormalizeCompanyId(companyIdIn);
    if companyId.None? then ListFailed(400, "companyId is required")
    else
      FilterCount(employees, InCompany(companyId.value, Some(true)));
      Listing(SortByName(Filter(employees, InCompany(companyId.value, Some(true)))))
  }

  /** The `active` filter of a status. */
  function ActiveFilter(status: string): (active: Option<bool>)
    ensures active == Some(true) <==> status == "active"
    ensures active == Some(false) <==> status == "inactive"
  {
    if status == "active" then Some(true) else if status == "inactive" then Some(false) else None
  }

  /** What `listEmployees` shows a caller: an employee at most its own
      record, when it is active; anyone else the company's employees of the
      asked status, by name. */
  function Visible(employees: seq<Employee>, companyId: string, user: SessionUser, statusIn: Option<string>): seq<Employee> {
    if user.role == "employee" then
      if !Truthy(user.employeeId) then []
      else
        match Find(employees, ActiveEmployee(companyId, user.employeeId.value))
        case None => []
        case Some(e) => [e]
    else
      SortByName(Filter(employees, InCompany(companyId, ActiveFilter(NormalizeStatus(statusIn)))))
  }

  method ListEmployees(db: Db, companyId: string, user: SessionUser, statusIn: Option<string>)
    returns (es: seq<Employee>)
    ensures es == Visible(db.employees, companyId, user, statusIn)
  {
    var status := NormalizeStatus(statusIn);
    if user.role == "employee" {
      if !Truthy(user.employeeId) {
        return [];
      }
      var emp := Find(db.employees, ActiveEmployee(companyId, user.employeeId.value));
      if emp.None? {
        return [];
      }
      return [emp.value];
    }
    var active: Option<bool> := None;
    if status == "active" {
      active := Some(true);
    }
    if status == "inactive" {
      active := Some(false);
    }
    es := SortByName(Filter(db.employees, InCompany(companyId, active)));
  }

  /** An employee-role caller sees nothing but its own active record. */
  lemma EmployeeSeesOnlyItself(employees: seq<Employee>, companyId: string, user: SessionUser, statusIn: Option<string>)
    requires user.role == "employee"
    ensures var r := Visible(employees, companyId, user, statusIn);
      && |r| <= 1
      && (forall e :: e in r ==> e in employees && Some(e.id) == user.employeeId && e.active && e.companyId == companyId)
      && (|r| == 1 <==>
            Truthy(user.employeeId)
            && exists e :: e in employees && e.id == user.employeeId.value && e.active && e.companyId == companyId)
  {
    if Truthy(user.employeeId) {
      var found := Find(employees, ActiveEmployee(companyId, user.employeeId.value));
      if found.None? {
        forall e | e in employees ensures !(e.id == user.employeeId.value && e.active && e.companyId == companyId) {
          assert !ActiveEmployee(companyId, user.employeeId.value)(e);
        }
      }
    }
  }

  /** Anyone else sees, by name, the employees of the company whose
      activity matches the status: active ones by default, inactive ones
      for 'inactive', all for 'all'. */
  lemma ManagerListing(employees: seq<Employee>, companyId: string, user: SessionUser, statusIn: Option<string>)
    requires user.role != "employee"
    ensures var r := Visible(employees, companyId, user, statusIn);
      var status := NormalizeStatus(statusIn);
      && SortedBy(r, NameOrder)
      && (forall e :: e in r <==>
            && e in employees && e.companyId == companyId
            && (status == "active" ==> e.active)
            && (status == "inactive" ==> !e.active))
      && (forall e :: multiset(r)[e] ==
            if && e.companyId == companyId
               && (status == "active" ==> e.active)
               && (status == "inactive" ==> !e.active)
            then multiset(employees)[e] else 0)
  {
    FilterCount(employees, InCompany(companyId, ActiveFilter(NormalizeStatus(statusIn))));
  }

  // ---- writes ----

  datatype EmployeeResult =
    | EmployeeFailed(status: int, error: string)
    | EmployeeCreated(id: string, tempPassword: string)
    | EmployeeSaved

  const FieldsRequired := EmployeeFailed(400, "Name and employee number are required")
  const NumberExists := EmployeeFailed(400, "Employee number already exists")
  const DatabaseError := EmployeeFailed(500, "Database error")

  /** `value ? String(value).trim() : undefined`. */
  function TrimmedOrAbsent(s: Option<string>): Option<string> {
    if Truthy(s) then Some(Trim(s.value)) else None
  }

  /** The body value of `active`, as JSON gives it. */
  datatype Json = Undefined | Null | Bool(b: bool) | Num(n: int) | Str(s: string)

  /** `active === undefined ? undefined : !!(active === true || active === 1 || active === '1')`. */
  function ActiveFlag(a: Json): (r: Option<bool>)
    ensures r.None? <==> a == Undefined
    ensures r == Some(true) <==> a == Bool(true) || a == Num(1) || a == Str("1")
  {
    match a
    case Undefined => None
    case _ => Some(a == Bool(true) || a == Num(1) || a == Str("1"))
  }

  function HasNumber(companyId: string, number: string): Employee -> bool {
    (e: Employee) => e.companyId == companyId && e.employeeNumber == number
  }

  /** The unique username index: an account with that username in that
      company. */
  function HasUsername(companyId: string, username: string): User -> bool {
    (u: User) => UsernameKey(u) == (companyId, username)
  }

  /** What creating an employee leaves: the answer, the employee records
      and the accounts. */
  datatype Stored = Stored(result: EmployeeResult, employees: seq<Employee>, users: seq<User>)

  /** Stores a new active employee with the trimmed fields, then its
      employee account whose username is the trimmed number and whose
      password is the hash of the generated `tempPassword`. The unique
      indexes refuse a number or username already taken in the company;
      an empty trimmed name or number fails validation. A taken username
      is only found after the employee is stored, which then stays. */
  function CreateOf(employees: seq<Employee>, users: seq<User>, companyId: string, nameIn: Option<string>,
                    numberIn: Option<string>, emailIn: Option<string>, phoneIn: Option<string>,
                    newEmployeeId: string, newUserId: string, tempPassword: string): (c: Stored)
  {
    if !Truthy(nameIn) || !Truthy(numberIn) then Stored(FieldsRequired, employees, users)
    else
      var name, number := Trim(nameIn.value), Trim(numberIn.value);
      if name == "" || number == "" then Stored(DatabaseError, employees, users)
      else if Find(employees, HasNumber(companyId, number)).Some? then Stored(NumberExists, employees, users)
      else
        var employee := Employee(newEmployeeId, companyId, name, number, TrimmedOrAbsent(emailIn), TrimmedOrAbsent(phoneIn), true);
        if Find(users, HasUsername(companyId, number)).Some? then
          // the employee record is saved before the account is refused
          Stored(NumberExists, employees + [employee], users)
        else
          var account := User(newUserId, companyId, number, Hash(tempPassword), "employee", Some(newEmployeeId));
          Stored(EmployeeCreated(newEmployeeId, tempPassword), employees + [employee], users + [account])
  }

  /** The answers of a creation and what each leaves stored. */
  lemma CreateOutcome(employees: seq<Employee>, users: seq<User>, companyId: string, nameIn: Option<string>,
                      numberIn: Option<string>, emailIn: Option<string>, phoneIn: Option<string>,
                      newEmployeeId: string, newUserId: string, tempPassword: string, c: Stored)
    requires c == CreateOf(employees, users, companyId, nameIn, numberIn, emailIn, phoneIn,
                           newEmployeeId, newUserId, tempPassword)
    ensures !Truthy(nameIn) || !Truthy(numberIn) ==> c.result == FieldsRequired
    ensures c.result.EmployeeFailed? && c.result != NumberExists ==> c.employees == employees
    ensures c.result.EmployeeFailed? ==> c.users == users
    ensures c.result.EmployeeCreated? || c.employees != employees ==>
      && Truthy(nameIn) && Truthy(numberIn) && Trim(nameIn.value) != "" && Trim(numberIn.value) != ""
      && Find(employees, HasNumber(companyId, Trim(numberIn.value))).None?
      && c.employees == employees + [Employee(newEmployeeId, companyId, Trim(nameIn.value), Trim(numberIn.value),
                                              TrimmedOrAbsent(emailIn), TrimmedOrAbsent(phoneIn), true)]
    ensures c.result.EmployeeCreated? <==>
      && Truthy(nameIn) && Truthy(numberIn) && Trim(nameIn.value) != "" && Trim(numberIn.value) != ""
      && Find(employees, HasNumber(companyId, Trim(numberIn.value))).None?
      && (forall u :: u in users ==> UsernameKey(u) != (companyId, Trim(numberIn.value)))
    ensures c.result.EmployeeCreated? ==>
      && c.result == EmployeeCreated(newEmployeeId, tempPassword)
      && c.users == users + [User(newUserId, companyId, Trim(numberIn.value), Hash(tempPassword), "employee", Some(newEmployeeId))]
    ensures c.result.EmployeeFailed? ==> c.result == FieldsRequired || c.result == DatabaseError || c.result == NumberExists
    ensures c.result == DatabaseError <==>
      Truthy(nameIn) && Truthy(numberIn) && (Trim(nameIn.value) == "" || Trim(numberIn.value) == "")
    ensures Truthy(nameIn) && Truthy(numberIn) && Trim(nameIn.value) != "" && Trim(numberIn.value) != ""
            && Find(employees, HasNumber(companyId, Trim(numberIn.value))).Some? ==>
      c == Stored(NumberExists, employees, users)
    ensures Truthy(nameIn) && Truthy(numberIn) && Trim(nameIn.value) != "" && Trim(numberIn.value) != ""
            && Find(employees, HasNumber(companyId, Trim(numberIn.value))).None?
            && (exists u :: u in users && UsernameKey(u) == (companyId, Trim(numberIn.value))) ==>
      c == Stored(NumberExists,
                  employees + [Employee(newEmployeeId, companyId, Trim(nameIn.value), Trim(numberIn.value),
                                        TrimmedOrAbsent(emailIn), TrimmedOrAbsent(phoneIn), true)],
                  users)
  {
    var number := if Truthy(numberIn) then Trim(numberIn.value) else "";
    if Find(users, HasUsername(companyId, number)).None? {
      assert forall u :: u in users ==> UsernameKey(u) != (companyId, number) by {
        forall u | u in users ensures UsernameKey(u) != (companyId, number) {
          assert !HasUsername(companyId, number)(u);
        }
      }
    }
  }

  /** A creation keeps the unique indexes unique: the new ids are fresh,
      and a number or username already taken in the company is refused. */
  lemma CreateKeepsUnique(employees: seq<Employee>, users: seq<User>, companyId: string, nameIn: Option<string>,
                          numberIn: Option<string>, emailIn: Option<string>, phoneIn: Option<string>,
                          newEmployeeId: string, newUserId: string, tempPassword: string)
    requires forall e :: e in employees ==> e.id != newEmployeeId
    requires forall u :: u in users ==> u.id != newUserId
    requires UniqueBy(employees, EmployeeKey) && UniqueBy(employees, NumberKey)
    requires UniqueBy(users, UserKey) && UniqueBy(users, UsernameKey)
    ensures var c := CreateOf(employees, users, companyId, nameIn, numberIn, emailIn, phoneIn,
                              newEmployeeId, newUserId, tempPassword);
      && UniqueBy(c.employees, EmployeeKey) && UniqueBy(c.employees, NumberKey)
      && UniqueBy(c.users, UserKey) && UniqueBy(c.users, UsernameKey)
  {
    if Truthy(nameIn) && Truthy(numberIn) {
      var name, number := Trim(nameIn.value), Trim(numberIn.value);
      if name != "" && number != "" && Find(employees, HasNumber(companyId, number)).None? {
        var employee := Employee(newEmployeeId, companyId, name, number, TrimmedOrAbsent(emailIn), TrimmedOrAbsent(phoneIn), true);
        NewEmployeeKeepsUnique(employees, employee, newEmployeeId, companyId, number);
        if Find(users, HasUsername(companyId, number)).None? {
          var account := User(newUserId, companyId, number, Hash(tempPassword), "employee", Some(newEmployeeId));
          NewAccountKeepsUnique(users, account, newUserId, companyId, number);
        }
      }
    }
  }

  lemma NewEmployeeKeepsUnique(employees: seq<Employee>, e: Employee, id: string, companyId: string, number: string)
    requires UniqueBy(employees, EmployeeKey) && UniqueBy(employees, NumberKey)
    requires forall x :: x in employees ==> x.id != id
    requires Find(employees, HasNumber(companyId, number)).None?
    requires e.id == id && e.companyId == companyId && e.employeeNumber == number
    ensures UniqueBy(employees + [e], EmployeeKey) && UniqueBy(employees + [e], NumberKey)
  {
    forall x | x in employees ensures NumberKey(x) != NumberKey(e) {
      assert !HasNumber(companyId, number)(x);
    }
    AppendKeepsUnique(employees, EmployeeKey, e);
    AppendKeepsUnique(employees, NumberKey, e);
  }

  lemma NewAccountKeepsUnique(users: seq<User>, u: User, id: string, companyId: string, number: string)
    requires UniqueBy(users, UserKey) && UniqueBy(users, UsernameKey)
    requires forall x :: x in users ==> x.id != id
    requires Find(users, HasUsername(companyId, number)).None?
    requires u.id == id && u.companyId == companyId && u.username == number
    ensures UniqueBy(users + [u], UserKey) && UniqueBy(users + [u], UsernameKey)
  {
    forall x | x in users ensures UsernameKey(x) != UsernameKey(u) {
      assert !HasUsername(companyId, number)(x);
    }
    AppendKeepsUnique(users, UserKey, u);
    AppendKeepsUnique(users, UsernameKey, u);
  }

  method CreateEmployee(db: Db, companyId: string, nameIn: Option<string>, numberIn: Option<string>,
                        emailIn: Option<string>, phoneIn: Option<string>,
                        newEmployeeId: string, newUserId: string, tempPassword: string)
    returns (r: EmployeeResult)
    requires db.Valid()
    requires forall e :: e in db.employees ==> e.id != newEmployeeId
    requires forall u :: u in db.users ==> u.id != newUserId
    modifies db
    ensures db.Valid()
    ensures Stored(r, db.employees, db.users)
         == CreateOf(old(db.employees), old(db.users), companyId, nameIn, numberIn, emailIn, phoneIn,
                     newEmployeeId, newUserId, tempPassword)
    ensures db.punches == old(db.punches) && db.settings == old(db.settings) && db.companies == old(db.companies)
  {
    CreateKeepsUnique(db.employees, db.users, companyId, nameIn, numberIn, emailIn, phoneIn,
                      newEmployeeId, newUserId, tempPassword);
    var c := CreateOf(db.employees, db.users, companyId, nameIn, numberIn, emailIn, phoneIn,
                      newEmployeeId, newUserId, tempPassword);
    db.employees, db.users := c.employees, c.users;
    r := c.result;
  }

  /** The record an edit saves: trimmed name and number, email and phone
      replaced (dropped when not given), activity changed only when the body
      says something about it; id and company kept. */
  function Edited(e: Employee, name: string, number: string, emailIn: Option<string>, phoneIn: Option<string>,
                  activeIn: Json): (r: Employee)
    ensures r.id == e.id && r.companyId == e.companyId
    ensures r.name == Trim(name) && r.employeeNumber == Trim(number)
    ensures r.email == TrimmedOrAbsent(emailIn) && r.phone == TrimmedOrAbsent(phoneIn)
    ensures activeIn == Undefined ==> r.active == e.active
    ensures activeIn != Undefined ==> (r.active <==> activeIn == Bool(true) || activeIn == Num(1) || activeIn == Str("1"))
  {
    var flag := ActiveFlag(activeIn);
    e.(name := Trim(name), employeeNumber := Trim(number),
       email := TrimmedOrAbsent(emailIn), phone := TrimmedOrAbsent(phoneIn),
       active := if flag.Some? then flag.value else e.active)
  }

  /** Another employee of the company, not the one at `i`, already has the
      number. */
  predicate NumberTakenByOther(employees: seq<Employee>, i: nat, companyId: string, number: string) {
    exists j :: 0 <= j < |employees| && j != i && NumberKey(employees[j]) == (companyId, number)
  }

  /** Another account of the company, not the one at `k`, already has the
      username. */
  predicate UsernameTakenByOther(users: seq<User>, k: nat, companyId: string, username: string) {
    exists j :: 0 <= j < |users| && j != k && UsernameKey(users[j]) == (companyId, username)
  }

  const EmployeeNotFound := EmployeeFailed(404, "Employee not found")

  /** Edits the employee with that id in the company: the answer, the
      employee records and the accounts it leaves. The edited record is
      saved unless validation refuses a blank name or number or the unique
      index finds the number on another employee of the company. When the
      number changed, the employee's account (if any) is then renamed to
      it, unless another account of the company has that username; that
      is only found after the employee is saved, which then stays. */
  function UpdateOf(employees: seq<Employee>, users: seq<User>, companyId: string, id: string,
                    nameIn: Option<string>, numberIn: Option<string>, emailIn: Option<string>,
                    phoneIn: Option<string>, activeIn: Json): (c: Stored)
  {
    if !Truthy(nameIn) || !Truthy(numberIn) then Stored(FieldsRequired, employees, users)
    else
      var found := IndexWhere(employees, EmployeeIn(companyId, id));
      if found.None? then Stored(EmployeeNotFound, employees, users)
      else
        var i := found.value;
        var e := Edited(employees[i], nameIn.value, numberIn.value, emailIn, phoneIn, activeIn);
        if e.name == "" || e.employeeNumber == "" then Stored(DatabaseError, employees, users)
        else if NumberTakenByOther(employees, i, companyId, e.employeeNumber) then Stored(NumberExists, employees, users)
        else
          var saved := employees[i := e];
          if employees[i].employeeNumber == e.employeeNumber then Stored(EmployeeSaved, saved, users)
          else
            var renamed := RenameOf(users, companyId, id, e.employeeNumber);
            Stored(if renamed.0 then EmployeeSaved else NumberExists, saved, renamed.1)
  }

  /** `User.updateOne({ companyId, employeeId, role: 'employee' },
      { $set: { username } })`: whether it succeeds and the accounts it
      leaves. The employee's account is renamed unless another account of
      the company has that username; having no account is no error. */
  function RenameOf(users: seq<User>, companyId: string, id: string, username: string): (r: (bool, seq<User>))
    ensures var k := IndexWhere(users, EmployeeAccount(companyId, id));
      && (k.None? ==> r == (true, users))
      && (k.Some? ==> (r.0 <==> !UsernameTakenByOther(users, k.value, companyId, username)))
      && (k.Some? && r.0 ==> r.1 == users[k.value := users[k.value].(username := username)])
      && (!r.0 ==> r.1 == users)
    ensures UniqueBy(users, UserKey) && UniqueBy(users, UsernameKey) ==>
      UniqueBy(r.1, UserKey) && UniqueBy(r.1, UsernameKey)
  {
    var k := IndexWhere(users, EmployeeAccount(companyId, id));
    if k.None? then (true, users)
    else if UsernameTakenByOther(users, k.value, companyId, username) then (false, users)
    else
      assert UniqueBy(users, UserKey) && UniqueBy(users, UsernameKey) ==>
        UniqueBy(users[k.value := users[k.value].(username := username)], UserKey)
        && UniqueBy(users[k.value := users[k.value].(username := username)], UsernameKey) by {
        if UniqueBy(users, UserKey) && UniqueBy(users, UsernameKey) {
          RenameKeepsUnique(users, k.value, companyId, username);
        }
      }
      (true, users[k.value := users[k.value].(username := username)])
  }

  /** The answers of an edit and what each leaves stored. With both fields
      given and the employee found at `i`, the edited record `e` is saved
      exactly when its name and number are non-blank and no other employee
      of the company has the number; the answer is a success exactly when,
      in addition, a changed number is free as a username or there is no
      account to rename. */
  lemma UpdateOutcome(employees: seq<Employee>, users: seq<User>, companyId: string, id: string,
                      nameIn: Option<string>, numberIn: Option<string>, emailIn: Option<string>,
                      phoneIn: Option<string>, activeIn: Json, c: Stored)
    requires c == UpdateOf(employees, users, companyId, id, nameIn, numberIn, emailIn, phoneIn, activeIn)
    ensures !Truthy(nameIn) || !Truthy(numberIn) ==> c == Stored(FieldsRequired, employees, users)
    ensures Truthy(nameIn) && Truthy(numberIn) && IndexWhere(employees, EmployeeIn(companyId, id)).None? ==>
      c == Stored(EmployeeNotFound, employees, users)
    ensures c.result.EmployeeFailed? ==> c.users == users
    ensures c.result.EmployeeFailed? && c.result != NumberExists ==> c.employees == employees
    ensures c.result == FieldsRequired || c.result == EmployeeNotFound || c.result == DatabaseError
         || c.result == NumberExists || c.result == EmployeeSaved
    ensures Truthy(nameIn) && Truthy(numberIn) && IndexWhere(employees, EmployeeIn(companyId, id)).Some? ==>
      var i := IndexWhere(employees, EmployeeIn(companyId, id)).value;
      var e := Edited(employees[i], nameIn.value, numberIn.value, emailIn, phoneIn, activeIn);
      var k := IndexWhere(users, EmployeeAccount(companyId, id));
      var renames := employees[i].employeeNumber != e.employeeNumber && k.Some?;
      && (e.name == "" || e.employeeNumber == "" <==> c.result == DatabaseError)
      && (e.name != "" && e.employeeNumber != "" && NumberTakenByOther(employees, i, companyId, e.employeeNumber) ==>
            c == Stored(NumberExists, employees, users))
      && (e.name != "" && e.employeeNumber != "" && !NumberTakenByOther(employees, i, companyId, e.employeeNumber) ==>
            c.employees == employees[i := e])
      && (e.name == "" || e.employeeNumber == "" || NumberTakenByOther(employees, i, companyId, e.employeeNumber) ==>
            c.employees == employees)
      && (c.result == EmployeeSaved <==>
            && e.name != "" && e.employeeNumber != "" && !NumberTakenByOther(employees, i, companyId, e.employeeNumber)
            && !(renames && UsernameTakenByOther(users, k.value, companyId, e.employeeNumber)))
      && (c.result == EmployeeSaved && renames ==>
            c.users == users[k.value := users[k.value].(username := e.employeeNumber)])
      && (c.result == EmployeeSaved && !renames ==> c.users == users)
  {
  }

  /** An edit keeps the unique indexes unique. */
  lemma UpdateKeepsUnique(employees: seq<Employee>, users: seq<User>, companyId: string, id: string,
                          nameIn: Option<string>, numberIn: Option<string>, emailIn: Option<string>,
                          phoneIn: Option<string>, activeIn: Json)
    requires UniqueBy(employees, EmployeeKey) && UniqueBy(employees, NumberKey)
    requires UniqueBy(users, UserKey) && UniqueBy(users, UsernameKey)
    ensures var c := UpdateOf(employees, users, companyId, id, nameIn, numberIn, emailIn, phoneIn, activeIn);
      && UniqueBy(c.employees, EmployeeKey) && UniqueBy(c.employees, NumberKey)
      && UniqueBy(c.users, UserKey) && UniqueBy(c.users, UsernameKey)
  {
    var c := UpdateOf(employees, users, companyId, id, nameIn, numberIn, emailIn, phoneIn, activeIn);
    var found := IndexWhere(employees, EmployeeIn(companyId, id));
    if !Truthy(nameIn) || !Truthy(numberIn) || found.None? {
      assert c.employees == employees && c.users == users;
    } else {
      var i := found.value;
      var e := Edited(employees[i], nameIn.value, numberIn.value, emailIn, phoneIn, activeIn);
      if e.name == "" || e.employeeNumber == "" || NumberTakenByOther(employees, i, companyId, e.employeeNumber) {
        assert c.employees == employees && c.users == users;
      } else {
        SaveKeepsUnique(employees, i, e, companyId);
        assert c.employees == employees[i := e];
        if employees[i].employeeNumber != e.employeeNumber {
          assert c.users == RenameOf(users, companyId, id, e.employeeNumber).1;
        } else {
          assert c.users == users;
        }
      }
    }
  }

  /** Saving an employee under its own id, with a number no other employee
      of its company has, keeps both employee indexes unique. */
  lemma SaveKeepsUnique(employees: seq<Employee>, i: nat, e: Employee, companyId: string)
    requires i < |employees| && UniqueBy(employees, EmployeeKey) && UniqueBy(employees, NumberKey)
    requires e.id == employees[i].id && e.companyId == companyId
    requires !NumberTakenByOther(employees, i, companyId, e.employeeNumber)
    ensures UniqueBy(employees[i := e], EmployeeKey) && UniqueBy(employees[i := e], NumberKey)
  {
    assert NumberKey(e) == (companyId, e.employeeNumber);
    ReplaceKeepsUnique(employees, EmployeeKey, i, e);
    ReplaceKeepsUnique(employees, NumberKey, i, e);
  }

  /** Renaming an account of the company to a username no other account of
      the company has keeps both account indexes unique. */
  lemma RenameKeepsUnique(users: seq<User>, k: nat, companyId: string, username: string)
    requires k < |users| && UniqueBy(users, UserKey) && UniqueBy(users, UsernameKey)
    requires users[k].companyId == companyId
    requires !UsernameTakenByOther(users, k, companyId, username)
    ensures var account := users[k].(username := username);
      UniqueBy(users[k := account], UserKey) && UniqueBy(users[k := account], UsernameKey)
  {
    var account := users[k].(username := username);
    assert UsernameKey(account) == (companyId, username);
    ReplaceKeepsUnique(users, UserKey, k, account);
    ReplaceKeepsUnique(users, UsernameKey, k, account);
  }

  /** `updateEmployee`: stores the records `UpdateOf` decides on. */
  method UpdateEmployee(db: Db, companyId: string, id: string, nameIn: Option<string>, numberIn: Option<string>,
                        emailIn: Option<string>, phoneIn: Option<string>, activeIn: Json)
    returns (r: EmployeeResult)
    requires db.Valid()
    modifies db
    ensures db.Valid()
    ensures Stored(r, db.employees, db.users)
         == UpdateOf(old(db.employees), old(db.users), companyId, id, nameIn, numberIn, emailIn, phoneIn, activeIn)
    ensures db.punches == old(db.punches) && db.settings == old(db.settings) && db.companies == old(db.companies)
  {
    UpdateKeepsUnique(db.employees, db.users, companyId, id, nameIn, numberIn, emailIn, phoneIn, activeIn);
    var c := UpdateOf(db.employees, db.users, companyId, id, nameIn, numberIn, emailIn, phoneIn, activeIn);
    db.employees, db.users := c.employees, c.users;
    r := c.result;
  }

  /** The rename of the employee's account on its own, on the database,
      as `RenameOf` says. */
  method RenameAccount(db: Db, companyId: string, id: string, username: string) returns (ok: bool)
    requires db.Valid()
    modifies db
    ensures db.Valid()
    ensures (ok, db.users) == RenameOf(old(db.users), companyId, id, username)
    ensures db.employees == old(db.employees) && db.punches == old(db.punches)
    ensures db.settings == old(db.settings) && db.companies == old(db.companies)
  {
    var k := IndexWhere(db.users, EmployeeAccount(companyId, id));
    if k.None? {
      return true;
    }
    if UsernameTakenByOther(db.users, k.value, companyId, username) {
      return false;
    }
    RenameKeepsUnique(db.users, k.value, companyId, username);
    db.users := db.users[k.value := db.users[k.value].(username := username)];
    ok := true;
  }

  /** The password rules, in order: present and not blank, then at least
      six characters, blanks included. */
  function PasswordProblem(password: Option<string>): (r: Option<string>)
    ensures r == Some("Password is required") <==> !Truthy(password) || Trim(password.value) == ""
    ensures r == Some("Password must be at least 6 characters") <==>
      Truthy(password) && Trim(password.value) != "" && |password.value| < 6
    ensures r.None? <==> Truthy(password) && Trim(password.value) != "" && |password.value| >= 6
  {
    if !Truthy(password) || Trim(password.value) == "" then Some("Password is required")
    else if |password.value| < 6 then Some("Password must be at least 6 characters")
    else None
  }

  /** Sets the password of the employee's account to the hash of the new
      password: the answer and the accounts it leaves. */
  function PasswordSetOf(employees: seq<Employee>, users: seq<User>, companyId: string, id: string,
                         password: Option<string>): (r: (EmployeeResult, seq<User>))
    ensures PasswordProblem(password).Some? ==> r.0 == EmployeeFailed(400, PasswordProblem(password).value)
    ensures PasswordProblem(password).None? && Find(employees, EmployeeIn(companyId, id)).None? ==>
      r.0 == EmployeeFailed(404, "Employee not found")
    ensures r.0 == EmployeeSaved <==>
      && PasswordProblem(password).None?
      && Find(employees, EmployeeIn(companyId, id)).Some?
      && IndexWhere(users, EmployeeAccount(companyId, id)).Some?
    ensures r.0 == EmployeeSaved ==>
      var k := IndexWhere(users, EmployeeAccount(companyId, id)).value;
      r.1 == users[k := users[k].(password := Hash(password.value))]
    ensures r.0 != EmployeeSaved ==> r.1 == users
    ensures PasswordProblem(password).None? && Find(employees, EmployeeIn(companyId, id)).Some?
            && IndexWhere(users, EmployeeAccount(companyId, id)).None? ==>
      r.0 == EmployeeFailed(404, "Employee user account not found")
    ensures UniqueBy(users, UserKey) && UniqueBy(users, UsernameKey) ==>
      UniqueBy(r.1, UserKey) && UniqueBy(r.1, UsernameKey)
  {
    var problem := PasswordProblem(password);
    if problem.Some? then (EmployeeFailed(400, problem.value), users)
    else
      var employee := Find(employees, EmployeeIn(companyId, id));
      if employee.None? then (EmployeeFailed(404, "Employee not found"), users)
      else
        var k := IndexWhere(users, EmployeeAccount(companyId, employee.value.id));
        if k.None? then (EmployeeFailed(404, "Employee user account not found"), users)
        else
          var account := users[k.value].(password := Hash(password.value));
          ReplaceKeepsUniqueIf(users, UserKey, k.value, account);
          ReplaceKeepsUniqueIf(users, UsernameKey, k.value, account);
          (EmployeeSaved, users[k.value := account])
  }

  method SetEmployeePassword(db: Db, companyId: string, id: string, password: Option<string>)
    returns (r: EmployeeResult)
    requires db.Valid()
    modifies db
    ensures db.Valid()
    ensures (r, db.users) == PasswordSetOf(old(db.employees), old(db.users), companyId, id, password)
    ensures db.employees == old(db.employees) && db.punches == old(db.punches)
    ensures db.settings == old(db.settings) && db.companies == old(db.companies)
  {
    var outcome := PasswordSetOf(db.employees, db.users, companyId, id, password);
    db.users := outcome.1;
    r := outcome.0;
  }

  /** Deactivating only clears `active`: the record and its account stay. */
  method DeactivateEmployee(db: Db, companyId: string, id: string) returns (r: EmployeeResult)
    requires db.Valid()
    modifies db
    ensures db.Valid()
    ensures var i := IndexWhere(old(db.employees), EmployeeIn(companyId, id));
      && (i.None? ==> r == EmployeeFailed(404, "Employee not found") && db.employees == old(db.employees))
      && (i.Some? ==> r == EmployeeSaved
                      && db.employees == old(db.employees)[i.value := old(db.employees)[i.value].(active := false)])
    ensures db.users == old(db.users) && db.punches == old(db.punches)
    ensures db.settings == old(db.settings) && db.companies == old(db.companies)
  {
    var i := IndexWhere(db.employees, EmployeeIn(companyId, id));
    if i.None? {
      return EmployeeFailed(404, "Employee not found");
    }
    var e := db.employees[i.value].(active := false);
    ReplaceKeepsUnique(db.employees, EmployeeKey, i.value, e);
    ReplaceKeepsUnique(db.employees, NumberKey, i.value, e);
    db.employees := db.employees[i.value := e];
    r := EmployeeSaved;
  }

  /** A deactivated employee can no longer log in or be punched for, and
      every other employee keeps its activity. */
  lemma DeactivatedIsInactive(employees: seq<Employee>, companyId: string, id: string)
    requires UniqueBy(employees, EmployeeKey)
    requires IndexWhere(employees, EmployeeIn(companyId, id)).Some?
    ensures var i := IndexWhere(employees, EmployeeIn(companyId, id)).value;
      var after := employees[i := employees[i].(active := false)];
      && Find(after, ActiveEmployee(companyId, id)).None?
      && forall j :: 0 <= j < |after| && j != i ==> after[j] == employees[j]
  {
    var i := IndexWhere(employees, EmployeeIn(companyId, id)).value;
    var after := employees[i := employees[i].(active := false)];
    forall x | x in after ensures !ActiveEmployee(companyId, id)(x) {
      var j :| 0 <= j < |after| && after[j] == x;
      if j != i {
        assert EmployeeKey(employees[j]) != EmployeeKey(employees[i]);
      }
    }
  }
}
