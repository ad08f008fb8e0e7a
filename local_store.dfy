/**
 * The localStorage client (public/script.js): the employee and punch
 * arrays it keeps in browser storage, the operations that update them in
 * place, the punch gate in front of an employee's own punches, the
 * manager's report and the employee's history view.
 *
 * The two arrays and the company name are the fields of `Storage`; each
 * read-modify-write of the source (`getX()`, change, `setX(...)`) is one
 * method. The clock, the random part of punch ids and the local-day
 * conversion are parameters.
 */
module LocalStore {
  import opened Common
  import opened Punches
  import opened Sorting
  import opened PunchGate
  import opened DayHours
  import opened Grouping
  import opened History
  import opened TextFormat

  /** An employee record. Fields the default admin lacks are `None`
      (`undefined` in the stored object). */
  datatype LocalEmployee = LocalEmployee(
    id: string, name: string, role: string, password: string,
    employeeNumber: Option<string>, email: Option<string>, phone: Option<string>,
    active: Option<bool>, createdAt: Option<int>)

  /** A stored punch, with a snapshot of the employee's name. */
  datatype LocalPunch = LocalPunch(
    id: string, employeeId: string, employeeName: string, kind: PunchType,
    notes: string, createdById: string, timestamp: int)

  const AdminId := "admin"

  function DefaultAdmin(): LocalEmployee {
    LocalEmployee(AdminId, "Admin (Manager)", "admin", "admin", None, None, None, Some(true), None)
  }

  /** `e.active !== false`: an employee is active unless explicitly not. */
  predicate IsActive(e: LocalEmployee) {
    e.active != Some(false)
  }

  /** `String(emp.employee_number)`. */
  function NumberString(n: Option<string>): string {
    match n
    case None => "undefined"
    case Some(s) => s
  }

  /** A form field read as `$(id)?.value?.trim()`. */
  function InputValue(x: Option<string>): (r: Option<string>) {
    match x
    case None => None
    case Some(s) => Some(Trim(s))
  }

  /** A form field read as `$(id)?.value?.trim() || ''`. */
  function InputText(x: Option<string>): (r: string) {
    match x
    case None => ""
    case Some(s) => Trim(s)
  }

  /** A form field read as `$(id)?.value || ''`. */
  function ValueOr(x: Option<string>): (r: string)
    ensures Truthy(x) ==> r == x.value
    ensures !Truthy(x) ==> r == ""
  {
    match x
    case None => ""
    case Some(s) => s
  }

  // ---- lookups and the employee-store specification ----

  predicate HasAdmin(es: seq<LocalEmployee>) {
    exists e :: e in es && e.id == AdminId
  }

  /** The employee list after `ensureDefaults`: the default admin is put in
      front when no employee has the admin id (on an empty list that is the
      one-admin list). */
  function WithAdmin(es: seq<LocalEmployee>): (r: seq<LocalEmployee>)
    ensures HasAdmin(r)
    ensures HasAdmin(es) ==> r == es
    ensures |es| <= |r| <= |es| + 1 && r[|r| - |es|..] == es
    ensures es == [] ==> r == [DefaultAdmin()]
  {
    if HasAdmin(es) then es
    else
      var r := [DefaultAdmin()] + es;
      assert r[0] in r;
      r
  }

  /** `findIndex(e => e.id === id)`. */
  function IndexOfId(es: seq<LocalEmployee>, id: string): (r: Option<nat>)
    ensures r.Some? ==> r.value < |es| && es[r.value].id == id
    ensures r.Some? ==> forall j :: 0 <= j < r.value ==> es[j].id != id
    ensures r.None? <==> forall e :: e in es ==> e.id != id
  {
    if es == [] then None
    else if es[0].id == id then Some(0)
    else
      match IndexOfId(es[1..], id)
      case None =>
        assert forall e :: e in es ==> e == es[0] || e in es[1..];
        None
      case Some(i) => Some(i + 1)
  }

  /** Two lists with the same ids position by position find the same
      index. */
  lemma {:induction false} IndexOfIdSameIds(a: seq<LocalEmployee>, b: seq<LocalEmployee>, id: string)
    requires |a| == |b| && forall j :: 0 <= j < |a| ==> a[j].id == b[j].id
    ensures IndexOfId(a, id) == IndexOfId(b, id)
  {
    if a != [] && a[0].id != id {
      IndexOfIdSameIds(a[1..], b[1..], id);
    }
  }

  /** `getEmployees().find(e => e.id === employeeId)`. */
  function FindEmployee(es: seq<LocalEmployee>, id: Option<string>): (r: Option<LocalEmployee>)
    ensures r.Some? ==> r.value in es && id == Some(r.value.id)
    ensures r.None? <==> id.None? || forall e :: e in es ==> e.id != id.value
  {
    match id
    case None => None
    case Some(x) =>
      match IndexOfId(es, x)
      case None => None
      case Some(i) => Some(es[i])
  }

  /** Another non-admin employee (one whose id is not `except`) already has
      this employee number. */
  predicate NumberTaken(es: seq<LocalEmployee>, number: string, except: Option<string>) {
    exists e :: e in es && (except.None? || e.id != except.value) && e.role != "admin"
      && NumberString(e.employeeNumber) == number
  }

  /** The store invariant the number checks aim at: no two non-admin
      employees share an employee number. */
  predicate NumbersUnique(es: seq<LocalEmployee>) {
    forall i, j :: 0 <= i < j < |es| && es[i].role != "admin" && es[j].role != "admin" ==>
      NumberString(es[i].employeeNumber) != NumberString(es[j].employeeNumber)
  }

  predicate IdsUnique(es: seq<LocalEmployee>) {
    forall i, j :: 0 <= i < j < |es| ==> es[i].id != es[j].id
  }

  /** The record `handleAddEmployeeSubmit` creates. */
  function NewEmployee(name: string, number: string, email: string, phone: string, now: nat): LocalEmployee {
    LocalEmployee("emp_" + NatString(now), name, "employee", "password123",
      Some(number), Some(email), Some(phone), Some(true), Some(now))
  }

  /** Appending an employee whose number no non-admin has keeps the
      numbers unique. */
  lemma AddKeepsNumbersUnique(es: seq<LocalEmployee>, e: LocalEmployee)
    requires NumbersUnique(es)
    requires !NumberTaken(es, NumberString(e.employeeNumber), None)
    ensures NumbersUnique(es + [e])
  {
    var r := es + [e];
    forall i, j | 0 <= i < j < |r| && r[i].role != "admin" && r[j].role != "admin"
      ensures NumberString(r[i].employeeNumber) != NumberString(r[j].employeeNumber)
    {
      if j == |es| {
        assert r[i] in es;
      }
    }
  }

  /** The record `handleEditEmployeeSubmit` stores: name, number, phone and
      status replaced, the password only when a new one is given. */
  function Edited(e: LocalEmployee, name: string, number: string, phone: string, password: string, active: bool): (r: LocalEmployee)
    ensures r.id == e.id && r.role == e.role && r.email == e.email && r.createdAt == e.createdAt
    ensures r.employeeNumber == Some(number)
    ensures password == "" ==> r.password == e.password
  {
    e.(name := name, employeeNumber := Some(number), phone := Some(phone), active := Some(active),
       password := if password != "" then password else e.password)
  }

  /** Replacing an employee by a record with the same id and role whose
      number no other non-admin has keeps the numbers unique, provided ids
      are unique. */
  lemma EditKeepsNumbersUnique(es: seq<LocalEmployee>, i: nat, e: LocalEmployee)
    requires NumbersUnique(es) && IdsUnique(es)
    requires i < |es| && e.id == es[i].id && e.role == es[i].role
    requires !NumberTaken(es, NumberString(e.employeeNumber), Some(e.id))
    ensures NumbersUnique(es[i := e])
  {
    var r := es[i := e];
    forall a, b | 0 <= a < b < |r| && r[a].role != "admin" && r[b].role != "admin"
      ensures NumberString(r[a].employeeNumber) != NumberString(r[b].employeeNumber)
    {
      if a == i {
        assert es[b] in es && es[b].id != e.id;
      } else if b == i {
        assert es[a] in es && es[a].id != e.id;
      }
    }
  }

  /** `active: active === false ? true : false`. */
  function Toggled(e: LocalEmployee): (r: LocalEmployee)
    ensures IsActive(r) == !IsActive(e)
    ensures r == e.(active := r.active) && r.active.Some?
  {
    e.(active := if e.active == Some(false) then Some(true) else Some(false))
  }

  /** Toggling twice restores a set flag. */
  lemma ToggledTwice(e: LocalEmployee)
    requires e.active.Some?
    ensures Toggled(Toggled(e)) == e
  {
    var t := Toggled(e);
    if e.active == Some(false) {
      assert t.active == Some(true);
      assert Toggled(t).active == Some(false);
    } else {
      assert e.active.value;
      assert t.active == Some(false);
      assert Toggled(t).active == Some(true);
    }
    assert Toggled(t).active == e.active;
    assert Toggled(t) == t.(active := e.active);
    assert t.(active := e.active) == e;
  }

  /** The employee list after toggling the first employee with this id. */
  function ToggleAt(es: seq<LocalEmployee>, id: string): (r: seq<LocalEmployee>)
    ensures |r| == |es|
    ensures forall j :: 0 <= j < |es| ==> r[j] == if IndexOfId(es, id) == Some(j) then Toggled(es[j]) else es[j]
  {
    match IndexOfId(es, id)
    case None => es
    case Some(i) => es[i := Toggled(es[i])]
  }

  /** Toggling twice restores every employee's activity, and restores the
      list itself when the toggled employee had its flag set. */
  lemma ToggleTwice(es: seq<LocalEmployee>, id: string)
    ensures forall j :: 0 <= j < |es| ==> IsActive(ToggleAt(ToggleAt(es, id), id)[j]) == IsActive(es[j])
    ensures (forall e :: e in es && e.id == id ==> e.active.Some?) ==> ToggleAt(ToggleAt(es, id), id) == es
  {
    var once := ToggleAt(es, id);
    IndexOfIdSameIds(es, once, id);
    var twice := ToggleAt(once, id);
    if forall e :: e in es && e.id == id ==> e.active.Some? {
      forall j | 0 <= j < |es| ensures twice[j] == es[j] {
        if IndexOfId(es, id) == Some(j) {
          assert es[j] in es;
          assert once[j] == Toggled(es[j]);
          assert twice[j] == Toggled(once[j]);
          ToggledTwice(es[j]);
        } else {
          assert once[j] == es[j];
          assert twice[j] == once[j];
        }
      }
    }
  }

  // ---- punches ----

  /** `getCurrentUserPunches`: a user without an id has none. */
  function UserPunches(ps: seq<LocalPunch>, userId: string): (r: seq<LocalPunch>)
    ensures forall p :: p in r <==> p in ps && userId != "" && p.employeeId == userId
  {
    if userId == "" then [] else Filter(ps, OfEmployee(userId))
  }

  function OfEmployee(userId: string): LocalPunch -> bool {
    (p: LocalPunch) => p.employeeId == userId
  }

  /** The punch types the user has recorded on the given day. */
  function TodayKindsOf(ps: seq<LocalPunch>, userId: string, today: string, keyOf: int -> string): (s: set<PunchType>)
    ensures forall t :: t in s <==>
      (exists p :: p in ps && userId != "" && p.employeeId == userId &&
         keyOf(p.timestamp) == today && p.kind == t)
  {
    set p | p in UserPunches(ps, userId) && keyOf(p.timestamp) == today :: p.kind
  }

  /** An accepted punch adds its own type to the day and keeps the day
      consistent; a user with an empty id never sees punches of its own, so
      its day stays empty. */
  lemma AcceptedPunchKeepsDay(ps: seq<LocalPunch>, p: LocalPunch, keyOf: int -> string)
    requires var today := TodayKindsOf(ps, p.employeeId, keyOf(p.timestamp), keyOf);
      Consistent(today) && Gate(today, p.kind) == Allowed
    ensures var today := TodayKindsOf(ps, p.employeeId, keyOf(p.timestamp), keyOf);
      var after := TodayKindsOf(ps + [p], p.employeeId, keyOf(p.timestamp), keyOf);
      && after == (if p.employeeId == "" then {} else today + {p.kind})
      && p.kind !in today
      && Consistent(after)
  {
    TodayKindsAppend(ps, p, keyOf);
  }

  /** Recording a punch adds its type to its own user's day. */
  lemma TodayKindsAppend(ps: seq<LocalPunch>, p: LocalPunch, keyOf: int -> string)
    ensures TodayKindsOf(ps + [p], p.employeeId, keyOf(p.timestamp), keyOf)
         == if p.employeeId == "" then {} else TodayKindsOf(ps, p.employeeId, keyOf(p.timestamp), keyOf) + {p.kind}
  {
    var key := keyOf(p.timestamp);
    var today := TodayKindsOf(ps, p.employeeId, key, keyOf);
    var after := TodayKindsOf(ps + [p], p.employeeId, key, keyOf);
    if p.employeeId != "" {
      assert p in ps + [p];
      forall t | t in after ensures t in today + {p.kind} {
        var q :| q in ps + [p] && q.employeeId == p.employeeId && keyOf(q.timestamp) == key && q.kind == t;
        if q != p {
          assert q in ps;
        }
      }
      forall t | t in today ensures t in after {
        var q :| q in ps && q.employeeId == p.employeeId && keyOf(q.timestamp) == key && q.kind == t;
        assert q in ps + [p];
      }
    } else {
      assert after == {};
    }
  }

  function NotId(id: string): LocalPunch -> bool {
    (p: LocalPunch) => p.id != id
  }

  /** The punches after `deletePunch(id)`. */
  function RemoveById(ps: seq<LocalPunch>, id: string): (r: seq<LocalPunch>)
    ensures |r| <= |ps|
    ensures forall p :: p in r <==> p in ps && p.id != id
  {
    Filter(ps, NotId(id))
  }

  /** Deleting keeps the other punches in their order: it works part by
      part and leaves a list without that id as it is. */
  lemma RemoveByIdKeepsOrder(a: seq<LocalPunch>, b: seq<LocalPunch>, id: string)
    ensures RemoveById(a + b, id) == RemoveById(a, id) + RemoveById(b, id)
    ensures (forall p :: p in a ==> p.id != id) ==> RemoveById(a, id) == a
  {
    FilterConcat(a, b, NotId(id));
    if forall p :: p in a ==> p.id != id {
      FilterAllPass(a, NotId(id));
    }
  }

  /** Deleting the same id twice deletes nothing more. */
  lemma RemoveByIdIdempotent(ps: seq<LocalPunch>, id: string)
    ensures RemoveById(RemoveById(ps, id), id) == RemoveById(ps, id)
  {
    FilterAllPass(RemoveById(ps, id), NotId(id));
  }

  // ---- report ----

  /** The report's punch filter: its day key within the inclusive range
      (compared as strings) and, when an employee is chosen, that
      employee's. */
  predicate InReport(p: LocalPunch, employeeId: string, start: string, end: string, keyOf: int -> string) {
    var day := keyOf(p.timestamp);
    !StrLt(day, start) && !StrLt(end, day) && (employeeId == "" || p.employeeId == employeeId)
  }

  /** The filter keeps a punch exactly when start <= day <= end. */
  lemma InReportRange(p: LocalPunch, employeeId: string, start: string, end: string, keyOf: int -> string)
    ensures InReport(p, employeeId, start, end, keyOf)
        <==> StrLe(start, keyOf(p.timestamp)) && StrLe(keyOf(p.timestamp), end)
             && (employeeId == "" || p.employeeId == employeeId)
  {
    var day := keyOf(p.timestamp);
    StrLtTrichotomy(day, start);
    StrLtTrichotomy(end, day);
    if StrLt(start, day) {
      StrLtAsymmetric(start, day);
    }
    if StrLt(day, end) {
      StrLtAsymmetric(day, end);
    }
    StrLtIrreflexive(day);
  }

  function ReportFilter(employeeId: string, start: string, end: string, keyOf: int -> string): LocalPunch -> bool {
    (p: LocalPunch) => InReport(p, employeeId, start, end, keyOf)
  }

  function Selected(ps: seq<LocalPunch>, employeeId: string, start: string, end: string, keyOf: int -> string): (r: seq<LocalPunch>)
    ensures forall p :: p in r <==> p in ps && InReport(p, employeeId, start, end, keyOf)
  {
    Filter(ps, ReportFilter(employeeId, start, end, keyOf))
  }

  /** The report groups by employee id and local day, headed by the name
      on the employee's first punch. */
  function ReportKeys(keyOf: int -> string): Keys<LocalPunch, string> {
    Keys((p: LocalPunch) => p.employeeId, (p: LocalPunch) => keyOf(p.timestamp),
         (p: LocalPunch) => Entry(p.kind, p.timestamp, Some(p.notes)), (p: LocalPunch) => p.employeeName)
  }

  /** Cards are ordered by employee name. */
  predicate NameLe(a: ReportRow<string>, b: ReportRow<string>) {
    StrLe(a.head, b.head)
  }

  lemma NameLeTotalPreorder()
    ensures TotalPreorder(NameLe)
  {
    StrLeTotalPreorder();
  }

  /** `new Date(start) > new Date(end)`: an unparseable date compares
      false. */
  predicate After(a: Option<int>, b: Option<int>) {
    a.Some? && b.Some? && a.value > b.value
  }

  datatype ReportResult = MissingDates | StartAfterEnd | NoRecords | Cards(rows: seq<ReportRow<string>>)

  /** Stable sort of the cards by name: cards with the same name keep
      the order they had. */
  function ByName(rows: seq<ReportRow<string>>): (r: seq<ReportRow<string>>)
    ensures SortedBy(r, NameLe) && multiset(r) == multiset(rows)
    ensures forall c :: Filter(r, Ties(NameLe, c)) == Filter(rows, Ties(NameLe, c))
  {
    NameLeTotalPreorder();
    forall c ensures Filter(SortBy(rows, NameLe), Ties(NameLe, c)) == Filter(rows, Ties(NameLe, c)) {
      SortByStable(rows, NameLe, c);
    }
    SortBy(rows, NameLe)
  }

  // ---- history ----

  predicate NewerFirst(a: LocalPunch, b: LocalPunch) {
    a.timestamp >= b.timestamp
  }

  /** `slice().sort((a, b) => b.timestamp - a.timestamp)`: newest first,
      punches with the same time in their stored order. */
  function NewestFirst(ps: seq<LocalPunch>): (r: seq<LocalPunch>)
    ensures SortedBy(r, NewerFirst) && multiset(r) == multiset(ps)
    ensures forall c :: Filter(r, Ties(NewerFirst, c)) == Filter(ps, Ties(NewerFirst, c))
  {
    assert TotalPreorder(NewerFirst);
    forall c ensures Filter(SortBy(ps, NewerFirst), Ties(NewerFirst, c)) == Filter(ps, Ties(NewerFirst, c)) {
      SortByStable(ps, NewerFirst, c);
    }
    SortBy(ps, NewerFirst)
  }

  function LocalDay(keyOf: int -> string): LocalPunch -> string {
    (p: LocalPunch) => keyOf(p.timestamp)
  }

  function LocalEntry(p: LocalPunch): Entry {
    Entry(p.kind, p.timestamp, Some(p.notes))
  }

  /** The history view shows the user's 100 newest punches: none left out
      is newer than one shown. */
  lemma HistoryShowsNewest(ps: seq<LocalPunch>, userId: string, i: nat, j: nat)
    requires var s := NewestFirst(UserPunches(ps, userId)); i < |Recent(s)| <= j < |s|
    ensures var s := NewestFirst(UserPunches(ps, userId));
      Recent(s)[i].timestamp >= s[j].timestamp && s[j] in ps && s[j].employeeId == userId
  {
    var s := NewestFirst(UserPunches(ps, userId));
    assert s[j] in multiset(UserPunches(ps, userId));
  }

  /** The outcome of the add form and the employee list it leaves: the
      name and number are required, the number may not belong to any
      employee, and the new record is appended. */
  function AddOf(es: seq<LocalEmployee>, nameIn: Option<string>, numberIn: Option<string>, emailIn: Option<string>,
                 phoneIn: Option<string>, now: nat): (r: (Outcome, seq<LocalEmployee>))
    ensures r.0 != NotFound
    ensures r.0 == MissingFields <==> !Truthy(InputValue(nameIn)) || !Truthy(InputValue(numberIn))
    ensures r.0 == DuplicateNumber <==>
      Truthy(InputValue(nameIn)) && Truthy(InputValue(numberIn))
      && NumberTaken(es, InputValue(numberIn).value, None)
    ensures r.0 == Saved ==>
      r.1 == es + [NewEmployee(InputValue(nameIn).value, InputValue(numberIn).value, InputText(emailIn), InputText(phoneIn), now)]
    ensures r.0 != Saved ==> r.1 == es
    ensures NumbersUnique(es) ==> NumbersUnique(r.1)
  {
    var name := InputValue(nameIn);
    var number := InputValue(numberIn);
    if !Truthy(name) || !Truthy(number) then (MissingFields, es)
    else if NumberTaken(es, number.value, None) then (DuplicateNumber, es)
    else
      var e := NewEmployee(name.value, number.value, InputText(emailIn), InputText(phoneIn), now);
      AddKeepsUniqueIf(es, e);
      (Saved, es + [e])
  }

  lemma AddKeepsUniqueIf(es: seq<LocalEmployee>, e: LocalEmployee)
    requires !NumberTaken(es, NumberString(e.employeeNumber), None)
    ensures NumbersUnique(es) ==> NumbersUnique(es + [e])
  {
    if NumbersUnique(es) {
      AddKeepsNumbersUnique(es, e);
    }
  }

  /** The outcome of the edit form and the employee list it leaves: the
      id, name and number are required, the number may not belong to
      another employee, and the first employee with the id is replaced by
      its edited record. */
  function EditOf(es: seq<LocalEmployee>, idIn: Option<string>, nameIn: Option<string>, numberIn: Option<string>,
                  phoneIn: Option<string>, passwordIn: Option<string>, statusIn: Option<string>): (r: (Outcome, seq<LocalEmployee>))
    ensures r.0 == MissingFields <==>
      !Truthy(idIn) || !Truthy(InputValue(nameIn)) || !Truthy(InputValue(numberIn))
    ensures r.0 == DuplicateNumber <==>
      Truthy(idIn) && Truthy(InputValue(nameIn)) && Truthy(InputValue(numberIn))
      && NumberTaken(es, InputValue(numberIn).value, idIn)
    ensures r.0 == NotFound <==>
      Truthy(idIn) && Truthy(InputValue(nameIn)) && Truthy(InputValue(numberIn))
      && !NumberTaken(es, InputValue(numberIn).value, idIn)
      && IndexOfId(es, idIn.value).None?
    ensures r.0 == Saved ==>
      IndexOfId(es, idIn.value).Some?
      && var i := IndexOfId(es, idIn.value).value;
      r.1 == es[i := Edited(es[i], InputValue(nameIn).value, InputValue(numberIn).value,
                            InputText(phoneIn), InputText(passwordIn), statusIn == Some("1"))]
    ensures r.0 != Saved ==> r.1 == es
    ensures NumbersUnique(es) && IdsUnique(es) ==> NumbersUnique(r.1)
  {
    var name := InputValue(nameIn);
    var number := InputValue(numberIn);
    if !Truthy(idIn) || !Truthy(name) || !Truthy(number) then (MissingFields, es)
    else if NumberTaken(es, number.value, idIn) then (DuplicateNumber, es)
    else
      var idx := IndexOfId(es, idIn.value);
      if idx.None? then (NotFound, es)
      else
        var i := idx.value;
        var updated := Edited(es[i], name.value, number.value, InputText(phoneIn), InputText(passwordIn), statusIn == Some("1"));
        EditKeepsUniqueIf(es, i, updated);
        (Saved, es[i := updated])
  }

  lemma EditKeepsUniqueIf(es: seq<LocalEmployee>, i: nat, e: LocalEmployee)
    requires i < |es| && e.id == es[i].id && e.role == es[i].role
    requires !NumberTaken(es, NumberString(e.employeeNumber), Some(e.id))
    ensures NumbersUnique(es) && IdsUnique(es) ==> NumbersUnique(es[i := e])
  {
    if NumbersUnique(es) && IdsUnique(es) {
      EditKeepsNumbersUnique(es, i, e);
    }
  }

  class Storage {
    var employees: seq<LocalEmployee>
    var punches: seq<LocalPunch>
    var companyName: Option<string>

    /** The state as loaded from storage. */
    constructor (employees: seq<LocalEmployee>, punches: seq<LocalPunch>, companyName: Option<string>)
      ensures this.employees == employees && this.punches == punches && this.companyName == companyName
    {
      this.employees := employees;
      this.punches := punches;
      this.companyName := companyName;
    }

    /** `loadString(companyName, 'MVC')`: an empty or missing name reads as
        'MVC'. */
    function CompanyName(): (name: string)
      reads this
      ensures name != []
      ensures !Truthy(companyName) ==> name == "MVC"
      ensures Truthy(companyName) ==> name == companyName.value
    {
      if Truthy(companyName) then companyName.value else "MVC"
    }

    /** `ensureDefaults`: guarantees an employee with the admin id. The
        company name and the punches are left as stored, since the name is
        read through its 'MVC' fallback and never found empty. */
    method EnsureDefaults()
      modifies this
      ensures employees == WithAdmin(old(employees))
      ensures punches == old(punches) && companyName == old(companyName)
    {
      if |employees| == 0 {
        employees := [DefaultAdmin()];
      } else {
        var hasAdmin := exists e :: e in employees && e.id == AdminId;
        if !hasAdmin {
          employees := [DefaultAdmin()] + employees;
        }
      }
    }

    /** `addPunch`: appends exactly one record and changes nothing else. */
    method AddPunch(employeeId: string, employeeName: string, kind: PunchType, notes: string, createdById: string, id: string, now: int)
      modifies this
      ensures punches == old(punches) + [LocalPunch(id, employeeId, employeeName, kind, notes, createdById, now)]
      ensures employees == old(employees) && companyName == old(companyName)
    {
      punches := punches + [LocalPunch(id, employeeId, employeeName, kind, notes, createdById, now)];
    }

    /** `handleEmployeePunch`: the gate decides on the user's punch types of
        today; an accepted punch is appended, a refused one changes
        nothing. No user: nothing happens. */
    method HandleEmployeePunch(user: Option<LocalEmployee>, kind: PunchType, noteIn: Option<string>, keyOf: int -> string, now: int, id: string)
      returns (d: Option<Decision>)
      modifies this
      ensures user.None? ==> d.None?
      ensures user.Some? ==> d == Some(Gate(TodayKindsOf(old(punches), user.value.id, keyOf(now), keyOf), kind))
      ensures d == Some(Allowed) ==>
        punches == old(punches) + [LocalPunch(id, user.value.id, user.value.name, kind, InputText(noteIn), user.value.id, now)]
      ensures d != Some(Allowed) ==> punches == old(punches)
      ensures employees == old(employees) && companyName == old(companyName)
    {
      if user.None? {
        return None;
      }
      var u := user.value;
      var note := InputText(noteIn);
      var today := keyOf(now);
      var todays := set p | p in UserPunches(punches, u.id) && keyOf(p.timestamp) == today :: p.kind;
      d := Some(Gate(todays, kind));
      if d == Some(Allowed) {
        AddPunch(u.id, u.name, kind, note, u.id, id, now);
      }
    }

    /** `handleManualPunchSubmit`: a manager records a punch of any type for
        any existing employee, with no gate. */
    method ManualPunch(user: Option<LocalEmployee>, employeeIdIn: Option<string>, kind: PunchType, notesIn: Option<string>, now: int, id: string)
      returns (r: ManualResult)
      modifies this
      ensures r == NotManager <==> user.None? || user.value.role != "admin"
      ensures r == EmployeeNotFound <==>
        user.Some? && user.value.role == "admin" && FindEmployee(old(employees), employeeIdIn).None?
      ensures r == Recorded ==>
        var e := FindEmployee(old(employees), employeeIdIn).value;
        punches == old(punches) + [LocalPunch(id, e.id, e.name, kind, InputText(notesIn), user.value.id, now)]
      ensures r != Recorded ==> punches == old(punches)
      ensures employees == old(employees) && companyName == old(companyName)
    {
      if user.None? || user.value.role != "admin" {
        return NotManager;
      }
      var notes := InputText(notesIn);
      var employee := FindEmployee(employees, employeeIdIn);
      if employee.None? {
        return EmployeeNotFound;
      }
      AddPunch(employee.value.id, employee.value.name, kind, notes, user.value.id, id, now);
      r := Recorded;
    }

    /** `deletePunch`: removes exactly the punches with that id. */
    method DeletePunch(id: string)
      modifies this
      ensures punches == RemoveById(old(punches), id)
      ensures employees == old(employees) && companyName == old(companyName)
    {
      punches := RemoveById(punches, id);
    }

    /** `handleAddEmployeeSubmit`: saves what `AddOf` decides. */
    method AddEmployee(nameIn: Option<string>, numberIn: Option<string>, emailIn: Option<string>, phoneIn: Option<string>, now: nat)
      returns (r: Outcome)
      modifies this
      ensures (r, employees) == AddOf(old(employees), nameIn, numberIn, emailIn, phoneIn, now)
      ensures punches == old(punches) && companyName == old(companyName)
    {
      var add := AddOf(employees, nameIn, numberIn, emailIn, phoneIn, now);
      r := add.0;
      employees := add.1;
    }

    /** `handleEditEmployeeSubmit`: saves what `EditOf` decides. */
    method EditEmployee(idIn: Option<string>, nameIn: Option<string>, numberIn: Option<string>, phoneIn: Option<string>,
                        passwordIn: Option<string>, statusIn: Option<string>)
      returns (r: Outcome)
      modifies this
      ensures (r, employees) == EditOf(old(employees), idIn, nameIn, numberIn, phoneIn, passwordIn, statusIn)
      ensures punches == old(punches) && companyName == old(companyName)
    {
      var edit := EditOf(employees, idIn, nameIn, numberIn, phoneIn, passwordIn, statusIn);
      r := edit.0;
      employees := edit.1;
    }

    /** `toggleEmployeeActive`: flips the first matching employee's flag;
        an unknown id changes nothing. */
    method ToggleEmployeeActive(empId: string)
      modifies this
      ensures employees == ToggleAt(old(employees), empId)
      ensures punches == old(punches) && companyName == old(companyName)
    {
      var idx := IndexOfId(employees, empId);
      if idx.None? {
        return;
      }
      var i := idx.value;
      employees := employees[i := Toggled(employees[i])];
    }

    /** `generateReport`: validates the dates, selects the punches in the
        range (and of the chosen employee), groups them by employee and day
        and lists one card per employee, sorted by name, each day ascending
        with its hours under the localStorage rule. */
    method GenerateReport(employeeIn: Option<string>, startIn: Option<string>, endIn: Option<string>,
                          parse: string -> Option<int>, keyOf: int -> string)
      returns (r: ReportResult)
      ensures r == MissingDates <==> !Truthy(startIn) || !Truthy(endIn)
      ensures r == StartAfterEnd <==>
        Truthy(startIn) && Truthy(endIn) && After(parse(startIn.value), parse(endIn.value))
      ensures r == NoRecords <==>
        Truthy(startIn) && Truthy(endIn) && !After(parse(startIn.value), parse(endIn.value))
        && Selected(punches, ValueOr(employeeIn), startIn.value, endIn.value, keyOf) == []
      ensures r.Cards? ==>
        Truthy(startIn) && Truthy(endIn)
        && var sel := Selected(punches, ValueOr(employeeIn), startIn.value, endIn.value, keyOf);
        var g := GroupAll(sel, ReportKeys(keyOf));
        && WellFormed(g)
        && r.rows == ByName(RowsOf(ScriptRule, g, g.order, Ascending))
        && SortedBy(r.rows, NameLe)
        && multiset(r.rows) == multiset(RowsOf(ScriptRule, g, g.order, Ascending))
    {
      var employeeId := ValueOr(employeeIn);
      if !Truthy(startIn) || !Truthy(endIn) {
        return MissingDates;
      }
      var start, end := startIn.value, endIn.value;
      if After(parse(start), parse(end)) {
        return StartAfterEnd;
      }
      var sel := Filter(punches, ReportFilter(employeeId, start, end, keyOf));
      if |sel| == 0 {
        return NoRecords;
      }
      var k := ReportKeys(keyOf);
      var g := GroupPunches(sel, k);
      GroupAllWellFormed(sel, k);
      var rows := BuildRows(ScriptRule, g, Ascending);
      r := Cards(ByName(rows));
    }

    /** `renderEmployeeRecords`: the signed-in employee's punches, newest
        first, of which the first 100 are grouped by local day. */
    method RenderEmployeeRecords(user: Option<LocalEmployee>, keyOf: int -> string) returns (days: seq<DayReport>)
      ensures user.None? ==> days == []
      ensures user.Some? ==>
        days == HistoryOf(ScriptRule, NewestFirst(UserPunches(punches, user.value.id)), LocalDay(keyOf), LocalEntry)
    {
      if user.None? {
        return [];
      }
      var mine := NewestFirst(UserPunches(punches, user.value.id));
      days := HistoryDays(ScriptRule, mine, LocalDay(keyOf), LocalEntry);
    }
  }

  datatype ManualResult = NotManager | EmployeeNotFound | Recorded

  /** The outcome of an employee form. */
  datatype Outcome = Saved | MissingFields | DuplicateNumber | NotFound
}
