/**
 * Grouping punches by employee and then by day, as both reports and the
 * history views do: one pass over the punches that creates an employee
 * entry (with its header taken from that employee's first punch) and a day
 * bucket the first time each is seen, and appends the punch to its bucket.
 * JavaScript objects keep string keys in insertion order, so the order of
 * `Object.values` / `Object.keys` is modelled by an explicit order sequence
 * beside each map.
 */
module Grouping {
  import opened Punches
  import opened Sorting
  import opened DayHours

  predicate NoDup(s: seq<string>) {
    forall i, j :: 0 <= i < j < |s| ==> s[i] != s[j]
  }

  /** The distinct elements of s in the order of their first appearance. */
  function Dedup(s: seq<string>): (r: seq<string>)
    ensures NoDup(r)
    ensures forall x :: x in r <==> x in s
  {
    if s == [] then []
    else
      var pre := s[..|s| - 1];
      assert s == pre + [s[|s| - 1]];
      if s[|s| - 1] in pre then Dedup(pre) else Dedup(pre) + [s[|s| - 1]]
  }

  /** The index of the first occurrence of x in s. */
  function FirstIndex(s: seq<string>, x: string): (i: nat)
    requires x in s
    ensures i < |s| && s[i] == x
    ensures forall j :: 0 <= j < i ==> s[j] != x
  {
    if s[0] == x then 0 else 1 + FirstIndex(s[1..], x)
  }

  lemma FirstIndexOfPrefix(s: seq<string>, m: nat, x: string)
    requires m <= |s| && x in s[..m]
    ensures FirstIndex(s, x) == FirstIndex(s[..m], x)
  {
    var i := FirstIndex(s[..m], x);
    assert s[i] == x;
    assert forall j :: 0 <= j < i ==> s[j] == s[..m][j];
  }

  /** Dedup lists the elements in the order their first occurrences have. */
  lemma {:induction false} DedupFirstAppearance(s: seq<string>)
    ensures forall i, j :: 0 <= i < j < |Dedup(s)| ==>
      FirstIndex(s, Dedup(s)[i]) < FirstIndex(s, Dedup(s)[j])
  {
    if s != [] {
      var n := |s| - 1;
      var pre := s[..n];
      DedupFirstAppearance(pre);
      var r := Dedup(s);
      forall x | x in pre ensures FirstIndex(s, x) == FirstIndex(pre, x) && FirstIndex(pre, x) < n {
        FirstIndexOfPrefix(s, n, x);
      }
      if s[n] !in pre {
        assert r == Dedup(pre) + [s[n]];
        assert FirstIndex(s, s[n]) == n;
      }
    }
  }

  /** In a sequence sorted by string order, first appearance is ascending
      order. */
  lemma DedupOfSortedAscends(s: seq<string>)
    requires SortedBy(s, StrLe)
    ensures forall i, j :: 0 <= i < j < |Dedup(s)| ==> StrLt(Dedup(s)[i], Dedup(s)[j])
  {
    var r := Dedup(s);
    DedupFirstAppearance(s);
    forall i, j | 0 <= i < j < |r| ensures StrLt(r[i], r[j]) {
      var a, b := FirstIndex(s, r[i]), FirstIndex(s, r[j]);
      assert StrLe(s[a], s[b]);
    }
  }

  /** How a punch record is read by a grouping: its employee key, its day
      key, the entry put into a bucket and the header an employee entry
      starts with. */
  datatype Keys<!P, H> = Keys(emp: P -> string, day: P -> string, entry: P -> Entry, head: P -> H)

  /** One employee's entry: its header, the day keys in insertion order
      and the day buckets. */
  datatype Group<H> = Group(head: H, dayOrder: seq<string>, days: map<string, seq<Entry>>)

  /** All employee entries, with the employee keys in insertion order. */
  datatype Grouped<H> = Grouped(order: seq<string>, groups: map<string, Group<H>>)

  // ---- reference definitions ----

  /** The employee key of each punch. */
  function Emps<P, H>(ps: seq<P>, k: Keys<P, H>): (r: seq<string>)
    ensures |r| == |ps| && forall i :: 0 <= i < |ps| ==> r[i] == k.emp(ps[i])
  {
    if ps == [] then [] else Emps(ps[..|ps| - 1], k) + [k.emp(ps[|ps| - 1])]
  }

  /** The day keys of employee e's punches, in order. */
  function DaysOf<P, H>(ps: seq<P>, k: Keys<P, H>, e: string): seq<string> {
    if ps == [] then []
    else
      var p := ps[|ps| - 1];
      DaysOf(ps[..|ps| - 1], k, e) + if k.emp(p) == e then [k.day(p)] else []
  }

  /** The entries of employee e's punches on day d, in order. */
  function Bucket<P, H>(ps: seq<P>, k: Keys<P, H>, e: string, d: string): seq<Entry> {
    if ps == [] then []
    else
      var p := ps[|ps| - 1];
      Bucket(ps[..|ps| - 1], k, e, d) + if k.emp(p) == e && k.day(p) == d then [k.entry(p)] else []
  }

  /** DaysOf holds the days of exactly employee e's punches. */
  lemma {:induction false} DaysOfMembers<P, H>(ps: seq<P>, k: Keys<P, H>, e: string, d: string)
    ensures d in DaysOf(ps, k, e) <==> exists p :: p in ps && k.emp(p) == e && k.day(p) == d
  {
    if ps != [] {
      var pre := ps[..|ps| - 1];
      var p := ps[|ps| - 1];
      assert ps == pre + [p];
      DaysOfMembers(pre, k, e, d);
      if exists q :: q in ps && k.emp(q) == e && k.day(q) == d {
        var q :| q in ps && k.emp(q) == e && k.day(q) == d;
        if q != p {
          assert q in pre;
        }
      }
    }
  }

  /** A bucket holds the entries of exactly employee e's punches on day d. */
  lemma {:induction false} BucketMembers<P, H>(ps: seq<P>, k: Keys<P, H>, e: string, d: string, x: Entry)
    ensures x in Bucket(ps, k, e, d) <==> exists p :: p in ps && k.emp(p) == e && k.day(p) == d && k.entry(p) == x
  {
    if ps != [] {
      var pre := ps[..|ps| - 1];
      var p := ps[|ps| - 1];
      assert ps == pre + [p];
      BucketMembers(pre, k, e, d, x);
      if exists q :: q in ps && k.emp(q) == e && k.day(q) == d && k.entry(q) == x {
        var q :| q in ps && k.emp(q) == e && k.day(q) == d && k.entry(q) == x;
        if q != p {
          assert q in pre;
        }
      }
    }
  }

  /** An employee without punches has no days and empty buckets. */
  lemma {:induction false} NoPunchesNoDays<P, H>(ps: seq<P>, k: Keys<P, H>, e: string, d: string)
    requires forall q :: q in ps ==> k.emp(q) != e
    ensures DaysOf(ps, k, e) == [] && Bucket(ps, k, e, d) == []
  {
    if ps != [] {
      var pre := ps[..|ps| - 1];
      assert ps[|ps| - 1] in ps;
      forall q | q in pre ensures k.emp(q) != e {
        assert q in ps;
      }
      NoPunchesNoDays(pre, k, e, d);
    }
  }

  // ---- the grouping pass ----

  /** Files one punch: a new employee entry and a new day bucket when
      first seen, then the punch's entry appended to its bucket. */
  function Place<P, H>(g: Grouped<H>, p: P, k: Keys<P, H>): Grouped<H> {
    var e := k.emp(p);
    var d := k.day(p);
    var order := if e in g.groups then g.order else g.order + [e];
    var grp := if e in g.groups then g.groups[e] else Group(k.head(p), [], map[]);
    var grp' := if d in grp.days then grp else grp.(dayOrder := grp.dayOrder + [d], days := grp.days[d := []]);
    Grouped(order, g.groups[e := grp'.(days := grp'.days[d := grp'.days[d] + [k.entry(p)]])])
  }

  function GroupAll<P, H>(ps: seq<P>, k: Keys<P, H>): Grouped<H> {
    if ps == [] then Grouped([], map[])
    else Place(GroupAll(ps[..|ps| - 1], k), ps[|ps| - 1], k)
  }

  /** The grouping pass, one punch at a time into mutable order and map
      variables. */
  method GroupPunches<P, H>(ps: seq<P>, k: Keys<P, H>) returns (g: Grouped<H>)
    ensures g == GroupAll(ps, k)
  {
    var order: seq<string> := [];
    var groups: map<string, Group<H>> := map[];
    for i := 0 to |ps|
      invariant Grouped(order, groups) == GroupAll(ps[..i], k)
    {
      assert ps[..i + 1][..i] == ps[..i];
      var p := ps[i];
      var e := k.emp(p);
      var d := k.day(p);
      if e !in groups {
        order := order + [e];
        groups := groups[e := Group(k.head(p), [], map[])];
      }
      var grp := groups[e];
      if d !in grp.days {
        grp := grp.(dayOrder := grp.dayOrder + [d], days := grp.days[d := []]);
      }
      grp := grp.(days := grp.days[d := grp.days[d] + [k.entry(p)]]);
      groups := groups[e := grp];
    }
    assert ps[..|ps|] == ps;
    g := Grouped(order, groups);
  }

  /** The employee entries: one per employee with punches, in order of
      first appearance, each headed by that employee's first punch. */
  lemma GroupAllEmployees<P, H>(ps: seq<P>, k: Keys<P, H>)
    ensures GroupAll(ps, k).order == Dedup(Emps(ps, k))
    ensures forall e :: e in GroupAll(ps, k).groups <==> e in Emps(ps, k)
    ensures forall e :: e in GroupAll(ps, k).groups ==>
      GroupAll(ps, k).groups[e].head == k.head(ps[FirstIndex(Emps(ps, k), e)])
  {
    GroupAllOrder(ps, k);
    GroupAllHeads(ps, k);
  }

  /** The employee entries, in order of first appearance. */
  lemma {:induction false} GroupAllOrder<P, H>(ps: seq<P>, k: Keys<P, H>)
    ensures GroupAll(ps, k).order == Dedup(Emps(ps, k))
    ensures forall e :: e in GroupAll(ps, k).groups <==> e in Emps(ps, k)
  {
    if ps != [] {
      var n := |ps| - 1;
      GroupAllOrder(ps[..n], k);
      assert Emps(ps, k) == Emps(ps[..n], k) + [k.emp(ps[n])];
    }
  }

  /** Each employee entry is headed by that employee's first punch. */
  lemma {:induction false} GroupAllHeads<P, H>(ps: seq<P>, k: Keys<P, H>)
    ensures forall e :: e in GroupAll(ps, k).groups ==>
      e in Emps(ps, k) && GroupAll(ps, k).groups[e].head == k.head(ps[FirstIndex(Emps(ps, k), e)])
  {
    if ps != [] {
      var n := |ps| - 1;
      var pre := ps[..n];
      GroupAllHeads(pre, k);
      GroupAllOrder(pre, k);
      var es := Emps(ps, k);
      assert es[..n] == Emps(pre, k);
      assert es == Emps(pre, k) + [k.emp(ps[n])];
      var g := GroupAll(pre, k);
      forall e | e in GroupAll(ps, k).groups
        ensures e in es && GroupAll(ps, k).groups[e].head == k.head(ps[FirstIndex(es, e)])
      {
        PlaceHead(g, ps[n], k, e);
        if e in g.groups {
          FirstIndexOfPrefix(es, n, e);
          assert ps[FirstIndex(es, e)] == pre[FirstIndex(Emps(pre, k), e)];
        } else {
          assert FirstIndex(es, e) == n;
        }
      }
    }
  }

  /** Filing a punch keeps every entry's head and heads a new entry with
      that punch. */
  lemma PlaceHead<P, H>(g: Grouped<H>, p: P, k: Keys<P, H>, e: string)
    requires e in Place(g, p, k).groups
    ensures e in g.groups || e == k.emp(p)
    ensures Place(g, p, k).groups[e].head == if e in g.groups then g.groups[e].head else k.head(p)
  {
  }

  /** What filing one punch does to the entry of its own employee. */
  lemma PlaceOwnGroup<P, H>(g: Grouped<H>, p: P, k: Keys<P, H>)
    ensures var e, d := k.emp(p), k.day(p);
      var grp := Place(g, p, k).groups[e];
      if e in g.groups then
        var old_ := g.groups[e];
        && grp.head == old_.head
        && grp.dayOrder == old_.dayOrder + (if d in old_.days then [] else [d])
        && grp.days == old_.days[d := (if d in old_.days then old_.days[d] else []) + [k.entry(p)]]
      else
        grp == Group(k.head(p), [d], map[d := [k.entry(p)]])
  {
    assert [] + [k.entry(p)] == [k.entry(p)];
  }

  /** Each employee's day buckets are the days that employee has punches
      on. */
  lemma {:induction false} GroupAllDayKeys<P, H>(ps: seq<P>, k: Keys<P, H>, e: string)
    requires e in GroupAll(ps, k).groups
    ensures forall d :: d in GroupAll(ps, k).groups[e].days <==> d in DaysOf(ps, k, e)
  {
    var n := |ps| - 1;
    var pre := ps[..n];
    var p := ps[n];
    var g := GroupAll(pre, k);
    assert ps == pre + [p];
    PlaceOwnGroup(g, p, k);
    if e in g.groups {
      GroupAllDayKeys(pre, k, e);
    } else {
      EmptyBeforeFirst(pre, k, e);
    }
  }

  /** Each bucket holds exactly that employee's punches of that day, in
      their original order. */
  lemma {:induction false} GroupAllBuckets<P, H>(ps: seq<P>, k: Keys<P, H>, e: string, d: string)
    requires e in GroupAll(ps, k).groups && d in GroupAll(ps, k).groups[e].days
    ensures GroupAll(ps, k).groups[e].days[d] == Bucket(ps, k, e, d)
  {
    var n := |ps| - 1;
    var pre := ps[..n];
    var p := ps[n];
    var g := GroupAll(pre, k);
    assert ps == pre + [p];
    PlaceOwnGroup(g, p, k);
    if e in g.groups {
      GroupAllDayKeys(pre, k, e);
      if d in g.groups[e].days {
        GroupAllBuckets(pre, k, e, d);
      } else {
        EmptyBeforeFirstDay(pre, k, e, d);
      }
    } else {
      EmptyBeforeFirst(pre, k, e);
    }
  }

  /** Each employee's days are listed in order of first appearance. */
  lemma {:induction false} GroupAllDayOrder<P, H>(ps: seq<P>, k: Keys<P, H>, e: string)
    requires e in GroupAll(ps, k).groups
    ensures GroupAll(ps, k).groups[e].dayOrder == Dedup(DaysOf(ps, k, e))
  {
    var n := |ps| - 1;
    var pre := ps[..n];
    var p := ps[n];
    var g := GroupAll(pre, k);
    assert ps == pre + [p];
    PlaceOwnGroup(g, p, k);
    var ds := DaysOf(ps, k, e);
    if k.emp(p) != e {
      GroupAllDayOrder(pre, k, e);
      assert ds == DaysOf(pre, k, e);
    } else {
      assert ds == DaysOf(pre, k, e) + [k.day(p)];
      assert ds[..|ds| - 1] == DaysOf(pre, k, e);
      if e in g.groups {
        GroupAllDayOrder(pre, k, e);
        GroupAllDayKeys(pre, k, e);
      } else {
        EmptyBeforeFirst(pre, k, e);
        assert Dedup(ds) == Dedup([]) + [k.day(p)];
      }
    }
  }

  /** An employee day bucket that does not exist yet has no punches. */
  lemma EmptyBeforeFirstDay<P, H>(ps: seq<P>, k: Keys<P, H>, e: string, d: string)
    requires e in GroupAll(ps, k).groups && d !in GroupAll(ps, k).groups[e].days
    ensures Bucket(ps, k, e, d) == []
  {
    GroupAllDayKeys(ps, k, e);
    DaysOfMembers(ps, k, e, d);
    if Bucket(ps, k, e, d) != [] {
      BucketMembers(ps, k, e, d, Bucket(ps, k, e, d)[0]);
      assert false;
    }
  }

  /** Before an employee's entry exists, that employee has no punches. */
  lemma EmptyBeforeFirst<P, H>(ps: seq<P>, k: Keys<P, H>, e: string)
    requires e !in GroupAll(ps, k).groups
    ensures DaysOf(ps, k, e) == []
    ensures forall d :: Bucket(ps, k, e, d) == []
  {
    GroupAllOrder(ps, k);
    forall q | q in ps ensures k.emp(q) != e {
      var j :| 0 <= j < |ps| && ps[j] == q;
      assert Emps(ps, k)[j] == k.emp(q);
    }
    forall d ensures DaysOf(ps, k, e) == [] && Bucket(ps, k, e, d) == [] {
      NoPunchesNoDays(ps, k, e, d);
    }
  }

  /** Every punch is filed under its own employee and day, and a bucket
      holds nothing else. */
  lemma GroupAllFilesEveryPunch<P, H>(ps: seq<P>, k: Keys<P, H>, p: P)
    requires p in ps
    ensures k.emp(p) in GroupAll(ps, k).groups
    ensures k.day(p) in GroupAll(ps, k).groups[k.emp(p)].days
    ensures k.entry(p) in GroupAll(ps, k).groups[k.emp(p)].days[k.day(p)]
  {
    var j :| 0 <= j < |ps| && ps[j] == p;
    assert Emps(ps, k)[j] == k.emp(p);
    GroupAllOrder(ps, k);
    GroupAllDayKeys(ps, k, k.emp(p));
    DaysOfMembers(ps, k, k.emp(p), k.day(p));
    GroupAllBuckets(ps, k, k.emp(p), k.day(p));
    BucketMembers(ps, k, k.emp(p), k.day(p), k.entry(p));
  }

  /** When the punches arrive sorted by employee key, as the server fetches
      them, the employee entries come out in ascending key order. */
  lemma GroupAllOrderAscends<P, H>(ps: seq<P>, k: Keys<P, H>)
    requires SortedBy(Emps(ps, k), StrLe)
    ensures forall i, j :: 0 <= i < j < |GroupAll(ps, k).order| ==>
      StrLt(GroupAll(ps, k).order[i], GroupAll(ps, k).order[j])
  {
    GroupAllOrder(ps, k);
    DedupOfSortedAscends(Emps(ps, k));
  }

  // ---- day reports and totals ----

  /** One day of a report: its key, its punches in time order and the
      milliseconds worked under the rule. */
  datatype DayReport = DayReport(date: string, punches: seq<Entry>, millis: int)

  function DayReportOf(rule: Rule, date: string, es: seq<Entry>): DayReport {
    DayReport(date, SortByTime(es), DayMillisOf(rule, es))
  }

  function SumMillis(ds: seq<DayReport>): int {
    if ds == [] then 0 else SumMillis(ds[..|ds| - 1]) + ds[|ds| - 1].millis
  }

  /** Every listed day has a bucket. */
  predicate DaysCovered<H>(grp: Group<H>, dates: seq<string>) {
    forall n :: 0 <= n < |dates| ==> dates[n] in grp.days
  }

  lemma DaysCoveredPrefix<H>(grp: Group<H>, dates: seq<string>, i: nat)
    requires DaysCovered(grp, dates) && i <= |dates|
    ensures DaysCovered(grp, dates[..i])
  {
    forall n | 0 <= n < i ensures dates[..i][n] in grp.days {
      assert dates[..i][n] == dates[n];
    }
  }

  /** The reports of the given days of one employee under a rule. */
  function DayReportsOf<H>(rule: Rule, grp: Group<H>, dates: seq<string>): (r: seq<DayReport>)
    requires DaysCovered(grp, dates)
    ensures |r| == |dates|
  {
    if dates == [] then []
    else
      DaysCoveredPrefix(grp, dates, |dates| - 1);
      DayReportsOf(rule, grp, dates[..|dates| - 1]) + [DayReportOf(rule, dates[|dates| - 1], grp.days[dates[|dates| - 1]])]
  }

  /** The i-th day report is the report of the i-th date's bucket, and no
      day's time is negative. */
  lemma {:induction false} DayReportsOfAt<H>(rule: Rule, grp: Group<H>, dates: seq<string>, i: nat)
    requires DaysCovered(grp, dates)
    requires i < |dates|
    ensures DayReportsOf(rule, grp, dates)[i] == DayReportOf(rule, dates[i], grp.days[dates[i]])
    ensures DayReportsOf(rule, grp, dates)[i].millis >= 0
  {
    if i < |dates| - 1 {
      DaysCoveredPrefix(grp, dates, |dates| - 1);
      DayReportsOfAt(rule, grp, dates[..|dates| - 1], i);
    }
  }

  lemma DayReportsStep<H>(rule: Rule, grp: Group<H>, dates: seq<string>, i: nat)
    requires i < |dates| && DaysCovered(grp, dates)
    ensures DayReportsOf(rule, grp, dates[..i + 1])
         == DayReportsOf(rule, grp, dates[..i]) + [DayReportOf(rule, dates[i], grp.days[dates[i]])]
  {
    assert dates[..i + 1][..i] == dates[..i];
  }

  /** The day reports carry the dates they were asked for, in order. */
  lemma DayReportsDates<H>(rule: Rule, grp: Group<H>, dates: seq<string>)
    requires DaysCovered(grp, dates)
    ensures Dates(DayReportsOf(rule, grp, dates)) == dates
  {
    var days := DayReportsOf(rule, grp, dates);
    forall m | 0 <= m < |days| ensures days[m].date == dates[m] {
      DayReportsOfAt(rule, grp, dates, m);
    }
  }

  /** A total of day reports is never negative. */
  lemma {:induction false} SumMillisNonNegative(ds: seq<DayReport>)
    requires forall i :: 0 <= i < |ds| ==> ds[i].millis >= 0
    ensures SumMillis(ds) >= 0
  {
    if ds != [] {
      SumMillisNonNegative(ds[..|ds| - 1]);
    }
  }

  lemma SumMillisAppend(ds: seq<DayReport>, d: DayReport)
    ensures SumMillis(ds + [d]) == SumMillis(ds) + d.millis
  {
    assert (ds + [d])[..|ds|] == ds;
  }

  /** Computes the day reports of one employee in the given day order and
      accumulates their total. */
  method ReportDays<H>(rule: Rule, grp: Group<H>, dates: seq<string>) returns (days: seq<DayReport>, total: int)
    requires DaysCovered(grp, dates)
    ensures days == DayReportsOf(rule, grp, dates)
    ensures total == SumMillis(days) && total >= 0
  {
    days := [];
    total := 0;
    for i := 0 to |dates|
      invariant days == DayReportsOf(rule, grp, dates[..i])
      invariant total == SumMillis(days) && total >= 0
    {
      var es := grp.days[dates[i]];
      var sorted, ms := DayMillis(rule, es);
      var day := DayReport(dates[i], sorted, ms);
      DayReportsStep(rule, grp, dates, i);
      SumMillisAppend(days, day);
      days := days + [day];
      total := total + ms;
    }
    assert dates[..|dates|] == dates;
  }

  /** One employee's report row. */
  datatype ReportRow<H> = ReportRow(employeeId: string, head: H, days: seq<DayReport>, totalMillis: int)

  function RowOf<H>(rule: Rule, e: string, grp: Group<H>, dates: seq<string>): ReportRow<H>
    requires DaysCovered(grp, dates)
  {
    var days := DayReportsOf(rule, grp, dates);
    ReportRow(e, grp.head, days, SumMillis(days))
  }

  /** How a view lists an employee's days: in order of first appearance,
      ascending, or most recent first. */
  datatype DayOrder = FirstSeen | Ascending | Descending

  function Reverse(s: seq<string>): (r: seq<string>)
    ensures |r| == |s| && forall i :: 0 <= i < |s| ==> r[i] == s[|s| - 1 - i]
  {
    if s == [] then [] else Reverse(s[1..]) + [s[0]]
  }

  function Arrange(s: seq<string>, order: DayOrder): (r: seq<string>)
    ensures forall d :: d in r <==> d in s
  {
    match order
    case FirstSeen => s
    case Ascending => SortStrings(s)
    case Descending =>
      var a := SortStrings(s);
      assert forall d :: d in Reverse(a) <==> d in a by {
        forall d ensures d in Reverse(a) <==> d in a {
          if d in a {
            var i :| 0 <= i < |a| && a[i] == d;
            assert Reverse(a)[|a| - 1 - i] == d;
          }
        }
      }
      Reverse(a)
  }

  /** Distinct day keys sorted ascending are strictly ascending. */
  lemma AscendingStrict(s: seq<string>)
    requires NoDup(s)
    ensures var r := Arrange(s, Ascending);
      forall i, j :: 0 <= i < j < |r| ==> StrLt(r[i], r[j])
  {
    var a := SortStrings(s);
    NoDupMultiset(s);
    NoDupMultiset(a);
    forall i, j | 0 <= i < j < |a| ensures StrLt(a[i], a[j]) {
      assert StrLe(a[i], a[j]) && a[i] != a[j];
    }
  }

  /** Distinct day keys arranged most recent first are strictly
      descending. */
  lemma DescendingStrict(s: seq<string>)
    requires NoDup(s)
    ensures var r := Arrange(s, Descending);
      forall i, j :: 0 <= i < j < |r| ==> StrLt(r[j], r[i])
  {
    var a := SortStrings(s);
    AscendingStrict(s);
    assert Arrange(s, Ascending) == a;
    var r := Reverse(a);
    forall i, j | 0 <= i < j < |r| ensures StrLt(r[j], r[i]) {
      var i', j' := |a| - 1 - j, |a| - 1 - i;
      assert r[i] == a[j'] && r[j] == a[i'];
      assert 0 <= i' < j' < |a|;
      assert StrLt(a[i'], a[j']);
    }
  }

  /** The dates a report lists for one employee: the day keys in the
      chosen order. */
  function DatesOf<H>(grp: Group<H>, order: DayOrder): (r: seq<string>)
    ensures forall d :: d in r <==> d in grp.dayOrder
  {
    Arrange(grp.dayOrder, order)
  }

  /** Every listed employee has an entry and every listed day a bucket. */
  ghost predicate WellFormed<H>(g: Grouped<H>) {
    && KeysCovered(g, g.order)
    && (forall e, d :: e in g.groups && d in g.groups[e].dayOrder ==> d in g.groups[e].days)
  }

  lemma GroupAllWellFormed<P, H>(ps: seq<P>, k: Keys<P, H>)
    ensures WellFormed(GroupAll(ps, k))
  {
    var g := GroupAll(ps, k);
    GroupAllOrder(ps, k);
    forall e, d | e in g.groups && d in g.groups[e].dayOrder ensures d in g.groups[e].days {
      GroupAllDayOrder(ps, k, e);
      GroupAllDayKeys(ps, k, e);
    }
  }

  /** Every listed employee has an entry. */
  predicate KeysCovered<H>(g: Grouped<H>, keys: seq<string>) {
    forall n :: 0 <= n < |keys| ==> keys[n] in g.groups
  }

  lemma KeysCoveredPrefix<H>(g: Grouped<H>, keys: seq<string>, i: nat)
    requires KeysCovered(g, keys) && i <= |keys|
    ensures KeysCovered(g, keys[..i])
  {
    forall n | 0 <= n < i ensures keys[..i][n] in g.groups {
      assert keys[..i][n] == keys[n];
    }
  }

  /** Every date listed for a known employee has a bucket. */
  lemma DatesOfCovered<H>(g: Grouped<H>, e: string, order: DayOrder)
    requires WellFormed(g) && e in g.groups
    ensures DaysCovered(g.groups[e], DatesOf(g.groups[e], order))
  {
    var dates := DatesOf(g.groups[e], order);
    forall n | 0 <= n < |dates| ensures dates[n] in g.groups[e].days {
      assert dates[n] in g.groups[e].dayOrder;
    }
  }

  /** The rows of the given employees, in the given order. */
  function RowsOf<H>(rule: Rule, g: Grouped<H>, keys: seq<string>, order: DayOrder): (r: seq<ReportRow<H>>)
    requires WellFormed(g) && KeysCovered(g, keys)
    ensures |r| == |keys|
  {
    if keys == [] then []
    else
      var e := keys[|keys| - 1];
      KeysCoveredPrefix(g, keys, |keys| - 1);
      DatesOfCovered(g, e, order);
      var grp := g.groups[e];
      RowsOf(rule, g, keys[..|keys| - 1], order) + [RowOf(rule, e, grp, DatesOf(grp, order))]
  }

  lemma {:induction false} RowsOfAt<H>(rule: Rule, g: Grouped<H>, keys: seq<string>, order: DayOrder, i: nat)
    requires WellFormed(g) && KeysCovered(g, keys)
    requires i < |keys|
    ensures RowsOf(rule, g, keys, order)[i]
         == RowOf(rule, keys[i], g.groups[keys[i]], DatesOf(g.groups[keys[i]], order))
  {
    var pre := keys[..|keys| - 1];
    var e := keys[|keys| - 1];
    KeysCoveredPrefix(g, keys, |keys| - 1);
    DatesOfCovered(g, e, order);
    var last := RowOf(rule, e, g.groups[e], DatesOf(g.groups[e], order));
    assert RowsOf(rule, g, keys, order) == RowsOf(rule, g, pre, order) + [last];
    if i < |keys| - 1 {
      RowsOfAt(rule, g, pre, order, i);
      assert pre[i] == keys[i];
    }
  }

  lemma RowsOfStep<H>(rule: Rule, g: Grouped<H>, keys: seq<string>, order: DayOrder, i: nat)
    requires WellFormed(g) && KeysCovered(g, keys)
    requires i < |keys|
    ensures RowsOf(rule, g, keys[..i + 1], order)
         == RowsOf(rule, g, keys[..i], order) + [RowOf(rule, keys[i], g.groups[keys[i]], DatesOf(g.groups[keys[i]], order))]
  {
    assert keys[..i + 1][..i] == keys[..i];
  }

  /** Builds one report row per employee entry, in entry order: each row
      lists the employee's days with their sorted punches and milliseconds,
      and totals them. */
  method BuildRows<H>(rule: Rule, g: Grouped<H>, order: DayOrder) returns (rows: seq<ReportRow<H>>)
    requires WellFormed(g)
    ensures rows == RowsOf(rule, g, g.order, order)
  {
    rows := [];
    for i := 0 to |g.order|
      invariant KeysCovered(g, g.order[..i])
      invariant rows == RowsOf(rule, g, g.order[..i], order)
    {
      var e := g.order[i];
      var grp := g.groups[e];
      DatesOfCovered(g, e, order);
      var dates := DatesOf(grp, order);
      var days, total := ReportDays(rule, grp, dates);
      RowsOfStep(rule, g, g.order, order, i);
      KeysCoveredPrefix(g, g.order, i + 1);
      rows := rows + [ReportRow(e, grp.head, days, total)];
    }
    assert g.order[..|g.order|] == g.order;
  }

  function EmployeeIds<H>(rows: seq<ReportRow<H>>): (r: seq<string>)
    ensures |r| == |rows| && forall n :: 0 <= n < |rows| ==> r[n] == rows[n].employeeId
  {
    if rows == [] then [] else EmployeeIds(rows[..|rows| - 1]) + [rows[|rows| - 1].employeeId]
  }

  function Dates(days: seq<DayReport>): (r: seq<string>)
    ensures |r| == |days| && forall m :: 0 <= m < |days| ==> r[m] == days[m].date
  {
    if days == [] then [] else Dates(days[..|days| - 1]) + [days[|days| - 1].date]
  }

  /** A report has one row per employee with punches, in order of first
      appearance, and so no employee twice. */
  lemma ReportRowsEmployees<P, H>(rule: Rule, ps: seq<P>, k: Keys<P, H>, order: DayOrder)
    requires WellFormed(GroupAll(ps, k))
    ensures EmployeeIds(RowsOf(rule, GroupAll(ps, k), GroupAll(ps, k).order, order)) == Dedup(Emps(ps, k))
  {
    GroupAllOrder(ps, k);
    RowsOfIds(rule, GroupAll(ps, k), GroupAll(ps, k).order, order);
  }

  lemma {:induction false} RowsOfIds<H>(rule: Rule, g: Grouped<H>, keys: seq<string>, order: DayOrder)
    requires WellFormed(g) && KeysCovered(g, keys)
    ensures EmployeeIds(RowsOf(rule, g, keys, order)) == keys
  {
    if keys != [] {
      var pre := keys[..|keys| - 1];
      KeysCoveredPrefix(g, keys, |keys| - 1);
      RowsOfIds(rule, g, pre, order);
      var rows := RowsOf(rule, g, keys, order);
      assert rows[..|rows| - 1] == RowsOf(rule, g, pre, order);
      assert keys == pre + [keys[|keys| - 1]];
    }
  }

  /** A row lists each day its employee punched on exactly once, in the
      chosen arrangement of their order of first appearance. */
  lemma ReportRowDates<P, H>(rule: Rule, ps: seq<P>, k: Keys<P, H>, order: DayOrder, i: nat)
    requires WellFormed(GroupAll(ps, k))
    requires i < |GroupAll(ps, k).order|
    ensures var row := RowsOf(rule, GroupAll(ps, k), GroupAll(ps, k).order, order)[i];
      var firsts := Dedup(DaysOf(ps, k, row.employeeId));
      && Dates(row.days) == Arrange(firsts, order)
      && NoDup(Dates(row.days))
  {
    var g := GroupAll(ps, k);
    var e := g.order[i];
    var grp := g.groups[e];
    var dates := DatesOf(grp, order);
    RowsOfAt(rule, g, g.order, order, i);
    DatesOfCovered(g, e, order);
    DayReportsDates(rule, grp, dates);
    GroupAllDayOrder(ps, k, e);
    DatesDistinct(grp, order);
  }

  /** Each day of a row holds exactly its employee's punches of that day,
      sorted by time, and the time worked on them under the rule. */
  lemma ReportRowDay<P, H>(rule: Rule, ps: seq<P>, k: Keys<P, H>, order: DayOrder, i: nat, j: nat)
    requires WellFormed(GroupAll(ps, k))
    requires i < |GroupAll(ps, k).order|
    requires j < |RowsOf(rule, GroupAll(ps, k), GroupAll(ps, k).order, order)[i].days|
    ensures var row := RowsOf(rule, GroupAll(ps, k), GroupAll(ps, k).order, order)[i];
      var bucket := Bucket(ps, k, row.employeeId, row.days[j].date);
      && row.days[j].punches == SortByTime(bucket)
      && multiset(row.days[j].punches) == multiset(bucket)
      && row.days[j].millis == DayMillisOf(rule, bucket)
  {
    var g := GroupAll(ps, k);
    var e := g.order[i];
    var grp := g.groups[e];
    var dates := DatesOf(grp, order);
    RowsOfAt(rule, g, g.order, order, i);
    DatesOfCovered(g, e, order);
    DayReportsOfAt(rule, grp, dates, j);
    GroupAllBuckets(ps, k, e, dates[j]);
  }

  /** An entry is listed on a day of a row exactly when some punch of that
      row's employee on that day carries it. */
  lemma ReportRowEntries<P, H>(rule: Rule, ps: seq<P>, k: Keys<P, H>, order: DayOrder, i: nat, j: nat, x: Entry)
    requires WellFormed(GroupAll(ps, k))
    requires i < |GroupAll(ps, k).order|
    requires j < |RowsOf(rule, GroupAll(ps, k), GroupAll(ps, k).order, order)[i].days|
    ensures var row := RowsOf(rule, GroupAll(ps, k), GroupAll(ps, k).order, order)[i];
      x in row.days[j].punches <==>
        exists p :: p in ps && k.emp(p) == row.employeeId && k.day(p) == row.days[j].date && k.entry(p) == x
  {
    ReportRowDay(rule, ps, k, order, i, j);
    var row := RowsOf(rule, GroupAll(ps, k), GroupAll(ps, k).order, order)[i];
    var bucket := Bucket(ps, k, row.employeeId, row.days[j].date);
    BucketMembers(ps, k, row.employeeId, row.days[j].date, x);
    assert x in row.days[j].punches <==> x in multiset(row.days[j].punches);
    assert x in bucket <==> x in multiset(bucket);
  }

  /** No day's time is negative, and a row's total is the sum of its days. */
  lemma ReportRowTotal<P, H>(rule: Rule, ps: seq<P>, k: Keys<P, H>, order: DayOrder, i: nat)
    requires WellFormed(GroupAll(ps, k))
    requires i < |GroupAll(ps, k).order|
    ensures var row := RowsOf(rule, GroupAll(ps, k), GroupAll(ps, k).order, order)[i];
      && (forall m :: 0 <= m < |row.days| ==> row.days[m].millis >= 0)
      && row.totalMillis == SumMillis(row.days) && row.totalMillis >= 0
  {
    var g := GroupAll(ps, k);
    var e := g.order[i];
    var grp := g.groups[e];
    var dates := DatesOf(grp, order);
    RowsOfAt(rule, g, g.order, order, i);
    DatesOfCovered(g, e, order);
    DayReportsNonNegative(rule, grp, dates);
  }

  lemma DayReportsNonNegative<H>(rule: Rule, grp: Group<H>, dates: seq<string>)
    requires DaysCovered(grp, dates)
    ensures var days := DayReportsOf(rule, grp, dates);
      (forall m :: 0 <= m < |days| ==> days[m].millis >= 0) && SumMillis(days) >= 0
  {
    var days := DayReportsOf(rule, grp, dates);
    forall m | 0 <= m < |days| ensures days[m].millis >= 0 {
      DayReportsOfAt(rule, grp, dates, m);
    }
    SumMillisNonNegative(days);
  }

  /** A report never lists a date twice for one employee. */
  lemma DatesDistinct<H>(grp: Group<H>, order: DayOrder)
    requires NoDup(grp.dayOrder)
    ensures NoDup(DatesOf(grp, order))
  {
    match order
    case FirstSeen =>
    case Ascending => SortKeepsNoDup(grp.dayOrder);
    case Descending =>
      SortKeepsNoDup(grp.dayOrder);
      ReverseKeepsNoDup(SortStrings(grp.dayOrder));
  }

  lemma SortKeepsNoDup(s: seq<string>)
    requires NoDup(s)
    ensures NoDup(SortStrings(s))
  {
    NoDupMultiset(s);
    NoDupMultiset(SortStrings(s));
  }

  lemma ReverseKeepsNoDup(a: seq<string>)
    requires NoDup(a)
    ensures NoDup(Reverse(a))
  {
    var r := Reverse(a);
    forall i, j | 0 <= i < j < |r| ensures r[i] != r[j] {
      assert r[i] == a[|a| - 1 - i] && r[j] == a[|a| - 1 - j];
    }
  }

  /** A sequence has no repeats exactly when no element occurs twice in
      its multiset, so sorting keeps it free of repeats. */
  lemma {:induction false} NoDupMultiset(s: seq<string>)
    ensures NoDup(s) <==> forall x :: multiset(s)[x] <= 1
  {
    if s != [] {
      var pre := s[..|s| - 1];
      var x := s[|s| - 1];
      assert s == pre + [x];
      NoDupMultiset(pre);
      assert x in pre <==> multiset(pre)[x] > 0;
      assert forall y :: multiset(s)[y] == multiset(pre)[y] + if y == x then 1 else 0;
      assert NoDup(s) <==> NoDup(pre) && x !in pre by {
        if NoDup(pre) && x !in pre {
          forall i, j | 0 <= i < j < |s| ensures s[i] != s[j] {
            if j < |s| - 1 {
              assert s[i] == pre[i] && s[j] == pre[j];
            } else {
              assert s[i] == pre[i];
            }
          }
        }
        if NoDup(s) {
          forall i, j | 0 <= i < j < |pre| ensures pre[i] != pre[j] {
            assert pre[i] == s[i] && pre[j] == s[j];
          }
          forall i | 0 <= i < |pre| ensures pre[i] != x {
            assert pre[i] == s[i];
          }
        }
      }
    }
  }
}
