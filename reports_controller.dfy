/**
 * The server's weekly report: the punches of a date range grouped by
 * employee and by local day, each day's time worked under the server's
 * rule, and each employee's total.
 */
module ReportsController {
  import opened Common
  import opened Punches
  import opened Sorting
  import opened DayHours
  import opened Grouping
  import opened ServerData

  /** What a report row says about its employee: the name and, when known,
      the employee number. */
  datatype Header = Header(name: string, number: Option<string>)

  /** The name falls back from the employee record to the punch's name
      snapshot to 'Employee'; the number is the record's, if any. */
  function HeaderOf(employees: seq<Employee>, companyId: string, p: Punch): (h: Header)
    ensures h.name != ""
    ensures var emp := Find(employees, EmployeeIn(companyId, p.employeeId));
      && (emp.Some? && emp.value.name != "" ==> h.name == emp.value.name)
      && (!(emp.Some? && emp.value.name != "") && Truthy(p.employeeName) ==> h.name == p.employeeName.value)
      && (h.number.Some? <==> emp.Some? && emp.value.employeeNumber != "")
      && (h.number.Some? ==> h.number.value == emp.value.employeeNumber)
  {
    var emp := Find(employees, EmployeeIn(companyId, p.employeeId));
    var name := if emp.Some? && emp.value.name != "" then emp.value.name
                else if Truthy(p.employeeName) then p.employeeName.value
                else "Employee";
    var number := if emp.Some? && emp.value.employeeNumber != "" then Some(emp.value.employeeNumber) else None;
    Header(name, number)
  }

  /** A day bucket's view of a punch. */
  function WeeklyEntry(p: Punch): Entry {
    Entry(p.kind, p.time, NotesOrNull(p.notes))
  }

  /** Group by employee id and by the local date key of the punch time;
      `keyOf` is the host's `dateKeyLocal`. */
  function WeeklyKeys(employees: seq<Employee>, companyId: string, keyOf: int -> string): Keys<Punch, Header> {
    Keys((p: Punch) => p.employeeId, (p: Punch) => keyOf(p.time), WeeklyEntry,
         (p: Punch) => HeaderOf(employees, companyId, p))
  }

  /** `sort({ employeeId: 1, punchTime: 1 })`. */
  predicate EmployeeThenTime(a: Punch, b: Punch) {
    StrLt(a.employeeId, b.employeeId) || (a.employeeId == b.employeeId && a.time <= b.time)
  }

  lemma EmployeeThenTimeTotal()
    ensures TotalPreorder(EmployeeThenTime)
  {
    forall a: Punch, b: Punch ensures EmployeeThenTime(a, b) || EmployeeThenTime(b, a) {
      StrLtTrichotomy(a.employeeId, b.employeeId);
    }
    forall a: Punch, b: Punch, c: Punch | EmployeeThenTime(a, b) && EmployeeThenTime(b, c)
      ensures EmployeeThenTime(a, c)
    {
      if StrLt(a.employeeId, b.employeeId) && StrLt(b.employeeId, c.employeeId) {
        StrLtTransitive(a.employeeId, b.employeeId, c.employeeId);
      }
    }
  }

  /** The report's filter: the caller's company and employee filter, from
      the start day's midnight to the last millisecond of the end day. */
  function WeeklyQuery(companyId: string, user: SessionUser, employeeIdIn: Option<string>, start: int, end: int): PunchQuery {
    PunchQuery(companyId, EmployeeFilter(user, employeeIdIn), Some(start), Some(EndOfDay(end)))
  }

  /** The punches the report reads, in fetch order. */
  function Fetched(punches: seq<Punch>, q: PunchQuery): (r: seq<Punch>)
    ensures SortedBy(r, EmployeeThenTime)
    ensures forall p :: p in r <==> p in punches && Selects(q, p)
  {
    EmployeeThenTimeTotal();
    var selected := Filter(punches, Selector(q));
    var r := SortBy(selected, EmployeeThenTime);
    assert forall p :: p in r <==> p in selected by {
      forall p ensures p in r <==> p in selected {
        SortByMembers(selected, EmployeeThenTime, p);
      }
    }
    r
  }

  /** The rows of a report over the fetched punches: one per employee in
      order of first appearance, the days in order of first appearance,
      hours under the server's rule. */
  function WeeklyRowsOf(employees: seq<Employee>, punches: seq<Punch>, q: PunchQuery, keyOf: int -> string)
    : seq<ReportRow<Header>>
  {
    var ps := Fetched(punches, q);
    var k := WeeklyKeys(employees, q.companyId, keyOf);
    GroupAllWellFormed(ps, k);
    RowsOf(ServerRule, GroupAll(ps, k), GroupAll(ps, k).order, FirstSeen)
  }

  datatype WeeklyResult = WeeklyFailed(status: int, error: string) | WeeklyRows(rows: seq<ReportRow<Header>>)

  /** Checks the dates, fetches the punches of the range, groups them and
      computes the hours. Date parsing is the parameter `parse`. */
  method Weekly(db: Db, companyId: string, user: SessionUser, startIn: Option<string>, endIn: Option<string>,
                employeeIdIn: Option<string>, parse: string -> Option<int>, keyOf: int -> string)
    returns (r: WeeklyResult)
    ensures var start, end := ParseDateOnly(startIn, parse), ParseDateOnly(endIn, parse);
      && (r == WeeklyFailed(400, "start_date and end_date are required") <==> start.None? || end.None?)
      && (r == WeeklyFailed(400, "start_date must be before or equal to end_date") <==>
            start.Some? && end.Some? && start.value > end.value)
      && (r.WeeklyRows? <==> start.Some? && end.Some? && start.value <= end.value)
      && (r.WeeklyRows? ==>
            r.rows == WeeklyRowsOf(db.employees, db.punches,
                                   WeeklyQuery(companyId, user, employeeIdIn, start.value, end.value), keyOf))
  {
    var start := ParseDateOnly(startIn, parse);
    var end := ParseDateOnly(endIn, parse);
    if start.None? || end.None? {
      return WeeklyFailed(400, "start_date and end_date are required");
    }
    if start.value > end.value {
      return WeeklyFailed(400, "start_date must be before or equal to end_date");
    }
    var q := WeeklyQuery(companyId, user, employeeIdIn, start.value, end.value);
    var punches := Fetched(db.punches, q);
    var k := WeeklyKeys(db.employees, companyId, keyOf);
    var g := GroupPunches(punches, k);
    GroupAllWellFormed(punches, k);
    var rows := BuildRows(ServerRule, g, FirstSeen);
    r := WeeklyRows(rows);
  }

  /** Rows come out in ascending employee id order, one per employee. */
  lemma WeeklyRowsAscend(employees: seq<Employee>, punches: seq<Punch>, q: PunchQuery, keyOf: int -> string)
    ensures var rows := WeeklyRowsOf(employees, punches, q, keyOf);
      forall i, j :: 0 <= i < j < |rows| ==> StrLt(rows[i].employeeId, rows[j].employeeId)
  {
    var ps := Fetched(punches, q);
    var k := WeeklyKeys(employees, q.companyId, keyOf);
    GroupAllWellFormed(ps, k);
    var es := Emps(ps, k);
    StrLeTotalPreorder();
    forall i, j | 0 <= i < j < |es| ensures StrLe(es[i], es[j]) {
      assert EmployeeThenTime(ps[i], ps[j]);
    }
    GroupAllOrderAscends(ps, k);
    ReportRowsEmployees(ServerRule, ps, k, FirstSeen);
    GroupAllOrder(ps, k);
  }

  lemma EmpsMembers<P, H>(ps: seq<P>, k: Keys<P, H>, e: string)
    ensures e in Emps(ps, k) <==> exists p :: p in ps && k.emp(p) == e
  {
    var es := Emps(ps, k);
    if e in es {
      var n :| 0 <= n < |es| && es[n] == e;
      assert ps[n] in ps;
    }
    if exists p :: p in ps && k.emp(p) == e {
      var p :| p in ps && k.emp(p) == e;
      var n :| 0 <= n < |ps| && ps[n] == p;
      assert es[n] == e;
    }
  }

  /** The rows are exactly the employees with a selected punch. */
  lemma WeeklyRowEmployees(employees: seq<Employee>, punches: seq<Punch>, q: PunchQuery, keyOf: int -> string)
    ensures var rows := WeeklyRowsOf(employees, punches, q, keyOf);
      forall e :: e in EmployeeIds(rows) <==> exists p :: p in punches && Selects(q, p) && p.employeeId == e
  {
    var ps := Fetched(punches, q);
    var k := WeeklyKeys(employees, q.companyId, keyOf);
    GroupAllWellFormed(ps, k);
    ReportRowsEmployees(ServerRule, ps, k, FirstSeen);
    var ids := EmployeeIds(WeeklyRowsOf(employees, punches, q, keyOf));
    assert ids == Dedup(Emps(ps, k));
    forall e ensures e in ids <==> exists p :: p in punches && Selects(q, p) && p.employeeId == e {
      EmpsMembers(ps, k, e);
      assert (exists p :: p in ps && k.emp(p) == e) <==> exists p :: p in ps && p.employeeId == e;
    }
  }

  /** An employee-role caller's report holds at most its own row. */
  lemma WeeklyEmployeeScoped(employees: seq<Employee>, punches: seq<Punch>, companyId: string, user: SessionUser,
                             employeeIdIn: Option<string>, start: int, end: int, keyOf: int -> string)
    requires user.role == "employee"
    ensures var rows := WeeklyRowsOf(employees, punches, WeeklyQuery(companyId, user, employeeIdIn, start, end), keyOf);
      forall i :: 0 <= i < |rows| ==> user.employeeId == Some(rows[i].employeeId)
  {
    var q := WeeklyQuery(companyId, user, employeeIdIn, start, end);
    var rows := WeeklyRowsOf(employees, punches, q, keyOf);
    WeeklyRowEmployees(employees, punches, q, keyOf);
    forall i | 0 <= i < |rows| ensures user.employeeId == Some(rows[i].employeeId) {
      assert rows[i].employeeId in EmployeeIds(rows);
    }
  }

  /** A row's header is built from its employee's record, falling back to
      the name snapshot of that employee's earliest fetched punch. */
  lemma WeeklyRowHeader(employees: seq<Employee>, punches: seq<Punch>, q: PunchQuery, keyOf: int -> string, i: nat)
    requires i < |WeeklyRowsOf(employees, punches, q, keyOf)|
    ensures var row := WeeklyRowsOf(employees, punches, q, keyOf)[i];
      var emp := Find(employees, EmployeeIn(q.companyId, row.employeeId));
      && row.head.name != ""
      && (emp.Some? && emp.value.name != "" ==> row.head.name == emp.value.name)
      && (row.head.number.Some? <==> emp.Some? && emp.value.employeeNumber != "")
      && (row.head.number.Some? ==> row.head.number.value == emp.value.employeeNumber)
      && exists p :: && p in punches && Selects(q, p) && p.employeeId == row.employeeId
                     && row.head == HeaderOf(employees, q.companyId, p)
                     && forall p' :: p' in punches && Selects(q, p') && p'.employeeId == row.employeeId ==> p.time <= p'.time
  {
    var ps := Fetched(punches, q);
    var k := WeeklyKeys(employees, q.companyId, keyOf);
    GroupAllWellFormed(ps, k);
    var g := GroupAll(ps, k);
    GroupAllEmployees(ps, k);
    var e := g.order[i];
    RowsOfAt(ServerRule, g, g.order, FirstSeen, i);
    var n := FirstIndex(Emps(ps, k), e);
    var first := ps[n];
    assert first.employeeId == e;
    assert first in ps;
    assert forall j :: 0 <= j < n ==> ps[j].employeeId != e by {
      forall j | 0 <= j < n ensures ps[j].employeeId != e {
        assert Emps(ps, k)[j] != e;
      }
    }
    FirstIsEarliest(ps, n, e);
    var row := WeeklyRowsOf(employees, punches, q, keyOf)[i];
    assert row.employeeId == e && row.head == HeaderOf(employees, q.companyId, first);
    assert first in punches && Selects(q, first);
    forall p' | p' in punches && Selects(q, p') && p'.employeeId == e ensures first.time <= p'.time {
      assert p' in ps;
    }
  }

  /** In fetch order an employee's first punch is its earliest. */
  lemma FirstIsEarliest(ps: seq<Punch>, n: nat, e: string)
    requires SortedBy(ps, EmployeeThenTime)
    requires n < |ps| && ps[n].employeeId == e
    requires forall j :: 0 <= j < n ==> ps[j].employeeId != e
    ensures forall p :: p in ps && p.employeeId == e ==> ps[n].time <= p.time
  {
    forall p | p in ps && p.employeeId == e ensures ps[n].time <= p.time {
      var m :| 0 <= m < |ps| && ps[m] == p;
      if n < m {
        assert EmployeeThenTime(ps[n], ps[m]);
        StrLtIrreflexive(e);
      }
    }
  }

  /** Each day of a row holds exactly the selected punches of that
      employee whose local date is that day. */
  lemma WeeklyRowDay(employees: seq<Employee>, punches: seq<Punch>, q: PunchQuery, keyOf: int -> string,
                     i: nat, j: nat, x: Entry)
    requires i < |WeeklyRowsOf(employees, punches, q, keyOf)|
    requires j < |WeeklyRowsOf(employees, punches, q, keyOf)[i].days|
    ensures var row := WeeklyRowsOf(employees, punches, q, keyOf)[i];
      x in row.days[j].punches <==>
        exists p :: p in punches && Selects(q, p) && p.employeeId == row.employeeId
                    && keyOf(p.time) == row.days[j].date && WeeklyEntry(p) == x
  {
    var ps := Fetched(punches, q);
    var k := WeeklyKeys(employees, q.companyId, keyOf);
    GroupAllWellFormed(ps, k);
    ReportRowEntries(ServerRule, ps, k, FirstSeen, i, j, x);
  }

  /** A day's time under the server's rule is never negative, and a row's
      total is the sum of its days. */
  lemma WeeklyRowTotal(employees: seq<Employee>, punches: seq<Punch>, q: PunchQuery, keyOf: int -> string, i: nat)
    requires i < |WeeklyRowsOf(employees, punches, q, keyOf)|
    ensures var row := WeeklyRowsOf(employees, punches, q, keyOf)[i];
      && (forall j :: 0 <= j < |row.days| ==> row.days[j].millis >= 0)
      && row.totalMillis == SumMillis(row.days)
  {
    var ps := Fetched(punches, q);
    var k := WeeklyKeys(employees, q.companyId, keyOf);
    GroupAllWellFormed(ps, k);
    ReportRowTotal(ServerRule, ps, k, FirstSeen, i);
  }
}
