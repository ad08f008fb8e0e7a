/**
 * The server's stored documents — employees, user accounts, punches,
 * company settings and company records, all partitioned by company id —
 * and the helpers its controllers share: company-id normalisation, the
 * date-only query parameters and the punch filter the punch listing and
 * the weekly report both build.
 *
 * A collection is a sequence in the store's natural order; `findOne`,
 * `updateOne` and `deleteOne` act on the first document that matches.
 */
module ServerData {
  import opened Common
  import opened Punches
  import opened Sorting

  /** A bcrypt hash, standing for the password it was made from:
      `compareSync(p, h)` holds exactly when `h == Hash(p)`. */
  datatype Hash = Hash(secret: string)

  datatype Employee = Employee(id: string, companyId: string, name: string, employeeNumber: string,
                               email: Option<string>, phone: Option<string>, active: bool)

  datatype User = User(id: string, companyId: string, username: string, password: Hash,
                       role: string, employeeId: Option<string>)

  datatype Punch = Punch(id: string, companyId: string, employeeId: string, employeeName: Option<string>,
                         kind: PunchType, time: int, notes: Option<string>, createdBy: Option<string>)

  /** The subscription status of a company record. */
  datatype Status = Active | Suspended | Trial

  /** What `login` stores in the session. */
  datatype SessionUser = SessionUser(id: string, username: string, role: string, companyId: string,
                                     employeeId: Option<string>, employeeName: Option<string>)

  /** No two elements share a key. */
  predicate UniqueBy<T, K(==)>(s: seq<T>, key: T -> K) {
    forall i, j :: 0 <= i < j < |s| ==> key(s[i]) != key(s[j])
  }

  /** Adding an element whose key is new keeps keys unique. */
  lemma AppendKeepsUnique<T, K>(s: seq<T>, key: T -> K, x: T)
    requires UniqueBy(s, key) && forall y :: y in s ==> key(y) != key(x)
    ensures UniqueBy(s + [x], key)
  {
    var r := s + [x];
    forall i, j | 0 <= i < j < |r| ensures key(r[i]) != key(r[j]) {
      if j == |s| {
        assert r[i] in s;
      }
    }
  }

  lemma AppendKeepsUniqueIf<T, K>(s: seq<T>, key: T -> K, x: T)
    requires forall y :: y in s ==> key(y) != key(x)
    ensures UniqueBy(s, key) ==> UniqueBy(s + [x], key)
  {
    if UniqueBy(s, key) {
      AppendKeepsUnique(s, key, x);
    }
  }

  /** Replacing an element by one with the same key keeps keys unique. */
  lemma ReplaceKeepsUniqueIf<T, K>(s: seq<T>, key: T -> K, i: nat, x: T)
    requires i < |s| && key(x) == key(s[i])
    ensures UniqueBy(s, key) ==> UniqueBy(s[i := x], key)
  {
    if UniqueBy(s, key) {
      ReplaceKeepsUnique(s, key, i, x);
    }
  }

  /** Replacing an element by one whose key no other element has keeps
      keys unique. */
  lemma ReplaceKeepsUnique<T, K>(s: seq<T>, key: T -> K, i: nat, x: T)
    requires i < |s| && UniqueBy(s, key)
    requires forall j :: 0 <= j < |s| && j != i ==> key(s[j]) != key(x)
    ensures UniqueBy(s[i := x], key)
  {
  }

  function EmployeeKey(e: Employee): string { e.id }
  function NumberKey(e: Employee): (string, string) { (e.companyId, e.employeeNumber) }
  function UserKey(u: User): string { u.id }
  function UsernameKey(u: User): (string, string) { (u.companyId, u.username) }
  function PunchKey(p: Punch): string { p.id }

  /** The database: one field per collection. Company settings map a
      company id to its name, company records a slug to its status. */
  class Db {
    var employees: seq<Employee>
    var users: seq<User>
    var punches: seq<Punch>
    var settings: map<string, string>
    var companies: map<string, Status>

    /** The unique indexes: document ids, employee numbers within a
        company and usernames within a company. */
    predicate Valid()
      reads this
    {
      && UniqueBy(employees, EmployeeKey) && UniqueBy(employees, NumberKey)
      && UniqueBy(users, UserKey) && UniqueBy(users, UsernameKey)
      && UniqueBy(punches, PunchKey)
    }

    constructor ()
      ensures employees == [] && users == [] && punches == []
      ensures settings == map[] && companies == map[]
      ensures Valid()
    {
      employees, users, punches := [], [], [];
      settings, companies := map[], map[];
    }
  }

  /** `{ _id: id, companyId }`: the employee with that id in that company. */
  function EmployeeIn(companyId: string, id: string): Employee -> bool {
    (e: Employee) => e.id == id && e.companyId == companyId
  }

  /** `{ _id: id, companyId, active: true }`. */
  function ActiveEmployee(companyId: string, id: string): Employee -> bool {
    (e: Employee) => e.id == id && e.companyId == companyId && e.active
  }

  /** `{ companyId, employeeId, role: 'employee' }`: the login account of
      that employee. */
  function EmployeeAccount(companyId: string, employeeId: string): User -> bool {
    (u: User) => u.companyId == companyId && u.employeeId == Some(employeeId) && u.role == "employee"
  }

  /** `String(raw || '').trim()`, with the empty result turned into `null`. */
  function NormalizeCompanyId(raw: Option<string>): (r: Option<string>)
    ensures r.None? <==> raw.None? || Trim(raw.value) == ""
    ensures r.Some? ==> r.value == Trim(raw.value) && r.value != ""
  {
    if raw.None? || Trim(raw.value) == "" then None else Some(Trim(raw.value))
  }

  /** Normalising a normalised company id changes nothing. */
  lemma NormalizeCompanyIdIdempotent(raw: Option<string>)
    ensures NormalizeCompanyId(NormalizeCompanyId(raw)) == NormalizeCompanyId(raw)
  {
    if raw.Some? {
      TrimIdempotent(raw.value);
    }
  }

  /** `notes || null`. */
  function NotesOrNull(notes: Option<string>): (r: Option<string>)
    ensures r.Some? ==> r == notes && r.value != ""
    ensures Truthy(notes) ==> r == notes
  {
    if Truthy(notes) then notes else None
  }

  const MillisPerDay := 24 * 60 * 60 * 1000

  /** `new Date(dateStr + 'T00:00:00')`, local midnight of the day named,
      or `null` for a missing, empty or unparseable value. Date parsing
      is the parameter `parse`. */
  function ParseDateOnly(s: Option<string>, parse: string -> Option<int>): Option<int> {
    if !Truthy(s) then None else parse(s.value + "T00:00:00")
  }

  /** The last millisecond of the day that starts at `t`. */
  function EndOfDay(t: int): int {
    t + MillisPerDay - 1
  }

  // ---- the punch filter of listPunches and weekly ----

  /** The employee part of a punch filter: none, or `employeeId` equal to
      a given value (`null` / `undefined` matching no punch, since every
      punch has an employee). */
  datatype EmployeeMatch = AnyEmployee | OnlyEmployee(id: Option<string>)

  datatype PunchQuery = PunchQuery(companyId: string, employee: EmployeeMatch, from: Option<int>, to: Option<int>)

  /** The caller's role decides the employee filter: an employee always
      sees its own punches, anyone else the `employee_id` asked for, if
      any. */
  function EmployeeFilter(user: SessionUser, employeeIdIn: Option<string>): EmployeeMatch {
    if user.role == "employee" then OnlyEmployee(user.employeeId)
    else if Truthy(employeeIdIn) then OnlyEmployee(employeeIdIn)
    else AnyEmployee
  }

  predicate Selects(q: PunchQuery, p: Punch) {
    && p.companyId == q.companyId
    && (q.employee.OnlyEmployee? ==> q.employee.id == Some(p.employeeId))
    && (q.from.Some? ==> q.from.value <= p.time)
    && (q.to.Some? ==> p.time <= q.to.value)
  }

  function Selector(q: PunchQuery): Punch -> bool {
    (p: Punch) => Selects(q, p)
  }

  /** An employee-role caller's filter selects only that employee's punches
      in the caller's company, whatever employee was asked for. */
  lemma EmployeeRoleSeesOwnPunches(user: SessionUser, employeeIdIn: Option<string>, companyId: string,
                                    from: Option<int>, to: Option<int>, p: Punch)
    requires user.role == "employee"
    requires Selects(PunchQuery(companyId, EmployeeFilter(user, employeeIdIn), from, to), p)
    ensures user.employeeId == Some(p.employeeId) && p.companyId == companyId
  {
  }
}
