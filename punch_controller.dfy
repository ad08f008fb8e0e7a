/**
 * The server's punch endpoints: recording a punch, listing punches and a
 * manager deleting one.
 */
module PunchController {
  import opened Common
  import opened Punches
  import opened Sorting
  import opened ServerData

  // ---- createPunch ----

  datatype CreateResult = PunchRejected(status: int, error: string) | PunchCreated(id: string)

  /** Whom a punch is for: a manager names the employee, anyone else
      punches for the employee of its own session. */
  function Target(user: SessionUser, employeeIdIn: Option<string>): Option<string> {
    if user.role == "manager" then employeeIdIn else user.employeeId
  }

  /** Employees can only punch themselves: for any other role the employee
      named in the request makes no difference. */
  lemma EmployeesPunchThemselves(user: SessionUser, a: Option<string>, b: Option<string>)
    requires user.role != "manager"
    ensures Target(user, a) == Target(user, b) == user.employeeId
  {
  }

  /** The punch type is checked first, then the target, then that the
      target is an active employee of the company; the punch is then stored
      at the server's time `now` under the fresh id `newId`. Nothing about
      the punches already stored is checked. */
  method CreatePunch(db: Db, companyId: string, user: SessionUser, employeeIdIn: Option<string>,
                     punchTypeIn: Option<string>, notesIn: Option<string>, now: int, newId: string)
    returns (r: CreateResult)
    requires db.Valid() && forall p :: p in db.punches ==> p.id != newId
    modifies db
    ensures db.Valid()
    ensures ParsePunchType(punchTypeIn).None? ==> r == PunchRejected(400, "Invalid punch type")
    ensures ParsePunchType(punchTypeIn).Some? && !Truthy(Target(user, employeeIdIn)) ==>
      r == PunchRejected(400, "Employee ID required")
    ensures (ParsePunchType(punchTypeIn).Some? && Truthy(Target(user, employeeIdIn))
             && Find(db.employees, ActiveEmployee(companyId, Target(user, employeeIdIn).value)).None?) ==>
      r == PunchRejected(404, "Employee not found")
    ensures r.PunchCreated? <==>
      ParsePunchType(punchTypeIn).Some? && Truthy(Target(user, employeeIdIn))
      && Find(db.employees, ActiveEmployee(companyId, Target(user, employeeIdIn).value)).Some?
    ensures r.PunchCreated? ==>
      var e := Find(db.employees, ActiveEmployee(companyId, Target(user, employeeIdIn).value)).value;
      && r.id == newId
      && db.punches == old(db.punches) + [Punch(newId, companyId, e.id, Some(e.name), ParsePunchType(punchTypeIn).value,
                                                now, NotesOrNull(notesIn), Some(user.id))]
    ensures r.PunchRejected? ==> db.punches == old(db.punches)
    ensures db.employees == old(db.employees) && db.users == old(db.users)
    ensures db.settings == old(db.settings) && db.companies == old(db.companies)
  {
    var kind := ParsePunchType(punchTypeIn);
    if kind.None? {
      return PunchRejected(400, "Invalid punch type");
    }
    var target := Target(user, employeeIdIn);
    if !Truthy(target) {
      return PunchRejected(400, "Employee ID required");
    }
    var emp := Find(db.employees, ActiveEmployee(companyId, target.value));
    if emp.None? {
      return PunchRejected(404, "Employee not found");
    }
    var e := emp.value;
    var punch := Punch(newId, companyId, e.id, Some(e.name), kind.value, now, NotesOrNull(notesIn), Some(user.id));
    AppendKeepsUnique(db.punches, PunchKey, punch);
    db.punches := db.punches + [punch];
    r := PunchCreated(newId);
  }

  // ---- listPunches ----

  /** The filter `listPunches` builds: the caller's company, the employee
      filter of the caller's role, and the optional bounds from local
      midnight of the start day to the last millisecond of the end day. */
  function PunchQueryOf(companyId: string, user: SessionUser, employeeIdIn: Option<string>,
                        startIn: Option<string>, endIn: Option<string>, parse: string -> Option<int>): PunchQuery
  {
    var end := ParseDateOnly(endIn, parse);
    PunchQuery(companyId, EmployeeFilter(user, employeeIdIn), ParseDateOnly(startIn, parse),
               if end.Some? then Some(EndOfDay(end.value)) else None)
  }

  /** The whole end day is included, and nothing after it. */
  lemma EndDayIncluded(companyId: string, user: SessionUser, employeeIdIn: Option<string>,
                       startIn: Option<string>, endIn: Option<string>, parse: string -> Option<int>, p: Punch)
    requires ParseDateOnly(endIn, parse).Some?
    ensures var q := PunchQueryOf(companyId, user, employeeIdIn, startIn, endIn, parse);
      q.to.Some? && (p.time <= q.to.value <==> p.time < ParseDateOnly(endIn, parse).value + MillisPerDay)
  {
  }

  predicate Later(a: Punch, b: Punch) {
    a.time >= b.time
  }

  /** `sort({ punchTime: -1 })`, punches at the same time kept in store
      order. */
  function LatestFirst(ps: seq<Punch>): (r: seq<Punch>)
    ensures SortedBy(r, Later) && multiset(r) == multiset(ps) && |r| == |ps|
  {
    assert TotalPreorder(Later);
    SortBy(ps, Later)
  }

  /** `limit(n)`. */
  function Take<T>(s: seq<T>, n: nat): (r: seq<T>)
    ensures |r| == if |s| <= n then |s| else n
    ensures r == s[..|r|]
  {
    if |s| <= n then s else s[..n]
  }

  const ListLimit := 500

  /** What a punch listing returns: the newest 500 punches the filter
      selects, newest first. */
  function Listed(punches: seq<Punch>, q: PunchQuery): seq<Punch> {
    Take(LatestFirst(Filter(punches, Selector(q))), ListLimit)
  }

  method ListPunches(db: Db, companyId: string, user: SessionUser, employeeIdIn: Option<string>,
                     startIn: Option<string>, endIn: Option<string>, parse: string -> Option<int>)
    returns (ps: seq<Punch>)
    ensures ps == Listed(db.punches, PunchQueryOf(companyId, user, employeeIdIn, startIn, endIn, parse))
  {
    var employee := AnyEmployee;
    if user.role == "employee" {
      employee := OnlyEmployee(user.employeeId);
    } else if Truthy(employeeIdIn) {
      employee := OnlyEmployee(employeeIdIn);
    }
    var start := ParseDateOnly(startIn, parse);
    var end := ParseDateOnly(endIn, parse);
    var from: Option<int>, to: Option<int> := None, None;
    if start.Some? || end.Some? {
      if start.Some? {
        from := start;
      }
      if end.Some? {
        to := Some(end.value + MillisPerDay - 1);
      }
    }
    var filter := PunchQuery(companyId, employee, from, to);
    assert employee == EmployeeFilter(user, employeeIdIn);
    assert filter == PunchQueryOf(companyId, user, employeeIdIn, startIn, endIn, parse);
    ps := Take(LatestFirst(Filter(db.punches, Selector(filter))), ListLimit);
  }

  /** A listing holds at most 500 punches, newest first, each a stored
      punch of the caller's company that the filter selects. */
  lemma ListedSound(punches: seq<Punch>, q: PunchQuery)
    ensures var r := Listed(punches, q);
      && |r| <= ListLimit
      && SortedBy(r, Later)
      && forall p :: p in r ==> p in punches && Selects(q, p) && p.companyId == q.companyId
  {
    var sorted := LatestFirst(Filter(punches, Selector(q)));
    var r := Listed(punches, q);
    forall p | p in r ensures p in punches && Selects(q, p) {
      assert p in multiset(sorted);
    }
  }

  /** Up to the limit, every selected punch is listed, as often as it is
      stored. */
  lemma ListedComplete(punches: seq<Punch>, q: PunchQuery)
    requires |Filter(punches, Selector(q))| <= ListLimit
    ensures multiset(Listed(punches, q)) == multiset(Filter(punches, Selector(q)))
  {
  }

  /** Beyond the limit the oldest punches are the ones left out: a selected
      punch newer than a listed one is itself listed. */
  lemma ListedKeepsNewest(punches: seq<Punch>, q: PunchQuery, x: Punch, y: Punch)
    requires x in Filter(punches, Selector(q)) && y in Listed(punches, q)
    requires x.time > y.time
    ensures x in Listed(punches, q)
  {
    var sorted := LatestFirst(Filter(punches, Selector(q)));
    var r := Listed(punches, q);
    assert x in multiset(sorted);
    var j :| 0 <= j < |sorted| && sorted[j] == x;
    var i :| 0 <= i < |r| && r[i] == y;
    assert j < |r|;
    assert r[j] == x;
  }

  // ---- deletePunch ----

  datatype DeleteResult = PunchDeleted | PunchNotFound

  /** `{ _id: id, companyId }`. */
  function SameDocument(id: string, companyId: string): Punch -> bool {
    (p: Punch) => p.id == id && p.companyId == companyId
  }

  /** The sequence without its i-th element. */
  function RemoveAt<T>(s: seq<T>, i: nat): (r: seq<T>)
    requires i < |s|
    ensures |r| == |s| - 1
    ensures multiset(r) + multiset{s[i]} == multiset(s)
  {
    assert s == s[..i] + [s[i]] + s[i + 1..];
    s[..i] + s[i + 1..]
  }

  /** Deletes the punch with that id in the caller's company; a punch of
      another company is never touched. */
  method DeletePunch(db: Db, companyId: string, id: string) returns (r: DeleteResult)
    requires db.Valid()
    modifies db
    ensures db.Valid()
    ensures var i := IndexWhere(old(db.punches), SameDocument(id, companyId));
      && (i.None? ==> r == PunchNotFound && db.punches == old(db.punches))
      && (i.Some? ==> r == PunchDeleted && db.punches == RemoveAt(old(db.punches), i.value))
    ensures db.employees == old(db.employees) && db.users == old(db.users)
    ensures db.settings == old(db.settings) && db.companies == old(db.companies)
  {
    var i := IndexWhere(db.punches, SameDocument(id, companyId));
    if i.None? {
      return PunchNotFound;
    }
    DeleteRemovesOnlyThatPunch(db.punches, id, companyId);
    db.punches := RemoveAt(db.punches, i.value);
    r := PunchDeleted;
  }

  lemma RemoveAtMembers<T>(s: seq<T>, i: nat, x: T)
    requires i < |s|
    ensures x in RemoveAt(s, i) <==> exists k :: 0 <= k < |s| && k != i && s[k] == x
  {
    var r := RemoveAt(s, i);
    if x in r {
      var k :| 0 <= k < |r| && r[k] == x;
      if k < i {
        assert s[k] == x;
      } else {
        assert s[k + 1] == x;
      }
    }
    if exists k :: 0 <= k < |s| && k != i && s[k] == x {
      var k :| 0 <= k < |s| && k != i && s[k] == x;
      if k < i {
        assert r[k] == x;
      } else {
        assert r[k - 1] == x;
      }
    }
  }

  lemma RemoveAtUnique<T, K>(s: seq<T>, key: T -> K, i: nat)
    requires i < |s| && UniqueBy(s, key)
    ensures UniqueBy(RemoveAt(s, i), key)
  {
    var r := RemoveAt(s, i);
    forall a, b | 0 <= a < b < |r| ensures key(r[a]) != key(r[b]) {
      var a' := if a < i then a else a + 1;
      var b' := if b < i then b else b + 1;
      assert r[a] == s[a'] && r[b] == s[b'];
    }
  }

  /** With unique punch ids, deleting removes exactly the punch with that
      id in that company and keeps ids unique. */
  lemma DeleteRemovesOnlyThatPunch(ps: seq<Punch>, id: string, companyId: string)
    requires UniqueBy(ps, PunchKey)
    requires IndexWhere(ps, SameDocument(id, companyId)).Some?
    ensures var r := RemoveAt(ps, IndexWhere(ps, SameDocument(id, companyId)).value);
      && UniqueBy(r, PunchKey)
      && forall p :: p in r <==> p in ps && !(p.id == id && p.companyId == companyId)
  {
    var i := IndexWhere(ps, SameDocument(id, companyId)).value;
    var r := RemoveAt(ps, i);
    RemoveAtUnique(ps, PunchKey, i);
    forall p ensures p in r <==> p in ps && !(p.id == id && p.companyId == companyId) {
      RemoveAtMembers(ps, i, p);
      if p in r {
        var k :| 0 <= k < |ps| && k != i && ps[k] == p;
        assert PunchKey(ps[k]) != PunchKey(ps[i]);
      }
      if p in ps && !(p.id == id && p.companyId == companyId) {
        var k :| 0 <= k < |ps| && ps[k] == p;
        assert k != i;
      }
    }
  }
}
