/**
 * The employee history views of both clients: the first 100 of an
 * employee's records, grouped by day, the days listed most recent first,
 * each day's punches in time order with the time worked that day.
 */
module History {
  import opened Common
  import opened Punches
  import opened Sorting
  import opened DayHours
  import opened Grouping
  import opened PunchGate

  /** The first 100 records (`slice(0, 100)`). */
  function Recent<P>(ps: seq<P>): (r: seq<P>)
    ensures |r| == if |ps| <= 100 then |ps| else 100
    ensures forall i :: 0 <= i < |r| ==> r[i] == ps[i]
  {
    if |ps| <= 100 then ps else ps[..100]
  }

  /** A history view shows one employee, so it groups by day alone: every
      record gets the same employee key. */
  function DayKeys<P>(dayOf: P -> string, entryOf: P -> Entry): Keys<P, ()> {
    Keys(_ => "", dayOf, entryOf, _ => ())
  }

  /** The single employee entry of a grouping by day of a non-empty list. */
  lemma OneEntry<P>(ps: seq<P>, k: Keys<P, ()>)
    requires ps != [] && forall p :: k.emp(p) == ""
    ensures "" in GroupAll(ps, k).groups
    ensures WellFormed(GroupAll(ps, k))
  {
    GroupAllOrder(ps, k);
    assert Emps(ps, k)[0] == "";
    GroupAllWellFormed(ps, k);
  }

  /** The days a history view lists, in order. */
  function HistoryOf<P>(rule: Rule, ps: seq<P>, dayOf: P -> string, entryOf: P -> Entry): seq<DayReport> {
    if ps == [] then []
    else
      var recent := Recent(ps);
      var k := DayKeys(dayOf, entryOf);
      OneEntry(recent, k);
      var grp := GroupAll(recent, k).groups[""];
      DayReportsOf(rule, grp, DatesOf(grp, Descending))
  }

  /** Groups the first 100 records by day, lists the days most recent
      first, and reports each day under the rule. */
  method HistoryDays<P>(rule: Rule, ps: seq<P>, dayOf: P -> string, entryOf: P -> Entry) returns (days: seq<DayReport>)
    ensures days == HistoryOf(rule, ps, dayOf, entryOf)
  {
    if |ps| == 0 {
      return [];
    }
    var recent := if |ps| <= 100 then ps else ps[..100];
    var k := DayKeys(dayOf, entryOf);
    var g := GroupPunches(recent, k);
    OneEntry(recent, k);
    var grp := g.groups[""];
    var total;
    days, total := ReportDays(rule, grp, DatesOf(grp, Descending));
  }

  /** The bucket of one day in a history view. */
  function DayBucket<P>(ps: seq<P>, dayOf: P -> string, entryOf: P -> Entry, d: string): seq<Entry> {
    Bucket(Recent(ps), DayKeys(dayOf, entryOf), "", d)
  }

  /** A history view lists its days in the order of the day keys of its
      grouping, arranged most recent first. */
  lemma HistoryDatesAre<P>(rule: Rule, ps: seq<P>, dayOf: P -> string, entryOf: P -> Entry)
    requires ps != []
    ensures var grp := GroupAll(Recent(ps), DayKeys(dayOf, entryOf)).groups[""];
      "" in GroupAll(Recent(ps), DayKeys(dayOf, entryOf)).groups
      && Dates(HistoryOf(rule, ps, dayOf, entryOf)) == DatesOf(grp, Descending)
      && grp.dayOrder == Dedup(DaysOf(Recent(ps), DayKeys(dayOf, entryOf), ""))
  {
    var recent := Recent(ps);
    var k := DayKeys(dayOf, entryOf);
    OneEntry(recent, k);
    var grp := GroupAll(recent, k).groups[""];
    var dates := DatesOf(grp, Descending);
    var days := HistoryOf(rule, ps, dayOf, entryOf);
    GroupAllDayOrder(recent, k, "");
    forall m | 0 <= m < |days| ensures days[m].date == dates[m] {
      DayReportsOfAt(rule, grp, dates, m);
    }
  }

  /** A history view lists exactly the days of its first 100 records, each
      once, most recent first. */
  lemma HistoryDates<P>(rule: Rule, ps: seq<P>, dayOf: P -> string, entryOf: P -> Entry)
    ensures var days := HistoryOf(rule, ps, dayOf, entryOf);
      && (forall i, j :: 0 <= i < j < |days| ==> StrLt(days[j].date, days[i].date))
      && (forall d :: d in Dates(days) <==> exists p :: p in Recent(ps) && dayOf(p) == d)
  {
    if ps != [] {
      var recent := Recent(ps);
      var k := DayKeys(dayOf, entryOf);
      var grp := GroupAll(recent, k).groups[""];
      var days := HistoryOf(rule, ps, dayOf, entryOf);
      HistoryDatesAre(rule, ps, dayOf, entryOf);
      DescendingStrict(grp.dayOrder);
      forall i, j | 0 <= i < j < |days| ensures StrLt(days[j].date, days[i].date) {
        assert days[i].date == Dates(days)[i] && days[j].date == Dates(days)[j];
      }
      forall d ensures d in Dates(days) <==> exists p :: p in recent && dayOf(p) == d {
        DaysOfMembers(recent, k, "", d);
      }
    }
  }

  /** A history view is empty exactly when there are no records. */
  lemma HistoryEmpty<P>(rule: Rule, ps: seq<P>, dayOf: P -> string, entryOf: P -> Entry)
    ensures HistoryOf(rule, ps, dayOf, entryOf) == [] <==> ps == []
  {
    if ps != [] {
      var recent := Recent(ps);
      var k := DayKeys(dayOf, entryOf);
      HistoryDatesAre(rule, ps, dayOf, entryOf);
      var d := dayOf(ps[0]);
      assert recent[0] == ps[0];
      DaysOfMembers(recent, k, "", d);
      var dates := Dates(HistoryOf(rule, ps, dayOf, entryOf));
      assert d in dates;
    }
  }

  /** Each listed day holds that day's records in time order, and the time
      worked on them under the rule. */
  lemma HistoryDay<P>(rule: Rule, ps: seq<P>, dayOf: P -> string, entryOf: P -> Entry, j: nat)
    requires j < |HistoryOf(rule, ps, dayOf, entryOf)|
    ensures var day := HistoryOf(rule, ps, dayOf, entryOf)[j];
      var bucket := DayBucket(ps, dayOf, entryOf, day.date);
      && day.punches == SortByTime(bucket)
      && multiset(day.punches) == multiset(bucket)
      && day.millis == DayMillisOf(rule, bucket)
      && day.millis >= 0
  {
    var recent := Recent(ps);
    var k := DayKeys(dayOf, entryOf);
    OneEntry(recent, k);
    var grp := GroupAll(recent, k).groups[""];
    var dates := DatesOf(grp, Descending);
    DayReportsOfAt(rule, grp, dates, j);
    GroupAllBuckets(recent, k, "", dates[j]);
  }

  // ---- public/app.js: displayEmployeeRecords ----

  function RecordDay(utcKey: int -> string): Record -> string {
    (r: Record) => utcKey(r.time)
  }

  function RecordEntry(r: Record): Entry {
    Entry(r.kind, r.time, None)
  }

  /** The server client's history: records as the server lists them, keyed
      by the date part of their UTC timestamp. */
  function AppHistoryOf(records: seq<Record>, utcKey: int -> string): seq<DayReport> {
    HistoryOf(AppRule, records, RecordDay(utcKey), RecordEntry)
  }

  method DisplayEmployeeRecords(records: seq<Record>, utcKey: int -> string) returns (days: seq<DayReport>)
    ensures days == AppHistoryOf(records, utcKey)
    ensures records == [] <==> days == []
  {
    days := HistoryDays(AppRule, records, RecordDay(utcKey), RecordEntry);
    HistoryEmpty(AppRule, records, RecordDay(utcKey), RecordEntry);
  }

  /** Unless a record sits at the epoch itself, the server client's history
      shows the hours the localStorage client's rule gives. */
  lemma AppHistoryAgreesWithScript(records: seq<Record>, utcKey: int -> string)
    requires forall r :: r in records ==> r.time != 0
    ensures AppHistoryOf(records, utcKey)
         == HistoryOf(ScriptRule, records, RecordDay(utcKey), RecordEntry)
  {
    var dayOf := RecordDay(utcKey);
    var entryOf := RecordEntry;
    var a := AppHistoryOf(records, utcKey);
    var s := HistoryOf(ScriptRule, records, dayOf, entryOf);
    if records != [] {
      var recent := Recent(records);
      var k := DayKeys(dayOf, entryOf);
      OneEntry(recent, k);
      var grp := GroupAll(recent, k).groups[""];
      var dates := DatesOf(grp, Descending);
      forall j | 0 <= j < |dates| ensures a[j] == s[j] {
        DayReportsOfAt(AppRule, grp, dates, j);
        DayReportsOfAt(ScriptRule, grp, dates, j);
        GroupAllBuckets(recent, k, "", dates[j]);
        var bucket := grp.days[dates[j]];
        forall e | e in bucket ensures e.time != 0 {
          BucketMembers(recent, k, "", dates[j], e);
          var r :| r in recent && k.emp(r) == "" && k.day(r) == dates[j] && k.entry(r) == e;
          assert r in records;
        }
        DayAppAgreesWithScript(bucket);
      }
    }
  }
}
