/**
 * The day-hours rule. All three implementations sort a day's punches by
 * time, keep the last-seen time of each punch type, and subtract the lunch
 * break from the clock span, clamped at zero. They differ in their guards:
 *
 *   - the localStorage client (`generateReport`, `renderEmployeeRecords`)
 *     holds raw millisecond numbers, so a time of 0 counts as missing; it
 *     needs clock-out after clock-in and subtracts lunch only when the
 *     return follows the departure;
 *   - the server client's history view (`displayEmployeeRecords`) holds
 *     Date objects, which are always present, and drops the clock guard;
 *   - the server report (`weekly`) also drops the lunch-order guard.
 *
 * Hours are kept in integer milliseconds; the division into hours and the
 * rounding to two decimals are not modelled.
 */
module DayHours {
  import opened Common
  import opened Punches
  import opened Sorting

  /** The last-seen time of each punch type on one day. */
  datatype Marks = Marks(clockIn: Option<int>, clockOut: Option<int>, lunchOut: Option<int>, lunchIn: Option<int>)

  /** The time of the last entry of type k, if any. */
  function LastOf(es: seq<Entry>, k: PunchType): Option<int> {
    if es == [] then None
    else if es[|es| - 1].kind == k then Some(es[|es| - 1].time)
    else LastOf(es[..|es| - 1], k)
  }

  function MarksOf(es: seq<Entry>): Marks {
    Marks(LastOf(es, ClockIn), LastOf(es, ClockOut), LastOf(es, LunchOut), LastOf(es, LunchIn))
  }

  /** The scan over a day's punches that overwrites one variable per punch
      type, so each ends holding the last time seen. */
  method ScanMarks(es: seq<Entry>) returns (m: Marks)
    ensures m == MarksOf(es)
  {
    var clockIn: Option<int> := None;
    var clockOut: Option<int> := None;
    var lunchOut: Option<int> := None;
    var lunchIn: Option<int> := None;
    for i := 0 to |es|
      invariant clockIn == LastOf(es[..i], ClockIn)
      invariant clockOut == LastOf(es[..i], ClockOut)
      invariant lunchOut == LastOf(es[..i], LunchOut)
      invariant lunchIn == LastOf(es[..i], LunchIn)
    {
      assert es[..i + 1][..i] == es[..i];
      if es[i].kind == ClockIn { clockIn := Some(es[i].time); }
      if es[i].kind == ClockOut { clockOut := Some(es[i].time); }
      if es[i].kind == LunchOut { lunchOut := Some(es[i].time); }
      if es[i].kind == LunchIn { lunchIn := Some(es[i].time); }
    }
    assert es[..|es|] == es;
    m := Marks(clockIn, clockOut, lunchOut, lunchIn);
  }

  predicate TimeLe(a: Entry, b: Entry) {
    a.time <= b.time
  }

  lemma TimeLeTotalPreorder()
    ensures TotalPreorder(TimeLe)
  {
  }

  /** `punches.sort((a, b) => a.time - b.time)`. */
  function SortByTime(es: seq<Entry>): (r: seq<Entry>)
    ensures multiset(r) == multiset(es) && SortedBy(r, TimeLe)
  {
    TimeLeTotalPreorder();
    SortBy(es, TimeLe)
  }

  /** t is the latest time among the entries of type k. */
  ghost predicate IsLatest(es: seq<Entry>, k: PunchType, t: int) {
    (exists e :: e in es && e.kind == k && e.time == t)
    && (forall e :: e in es && e.kind == k ==> e.time <= t)
  }

  /** On time-sorted entries the last-seen time of a type is its latest
      time, and it is missing exactly when the type does not occur. */
  lemma {:induction false} LastOfSorted(es: seq<Entry>, k: PunchType)
    requires SortedBy(es, TimeLe)
    ensures LastOf(es, k).None? <==> forall e :: e in es ==> e.kind != k
    ensures LastOf(es, k).Some? ==> IsLatest(es, k, LastOf(es, k).value)
  {
    if es != [] {
      var pre := es[..|es| - 1];
      var last := es[|es| - 1];
      assert es == pre + [last];
      assert SortedBy(pre, TimeLe);
      LastOfSorted(pre, k);
      if last.kind == k {
        forall e | e in es && e.kind == k ensures e.time <= last.time {
          if e != last {
            var j :| 0 <= j < |pre| && pre[j] == e;
            assert TimeLe(es[j], es[|es| - 1]);
          }
        }
      }
    }
  }

  /** Which last-seen times a day yields does not depend on the order its
      punches arrive in. */
  lemma MarksOrderIndependent(a: seq<Entry>, b: seq<Entry>)
    requires multiset(a) == multiset(b)
    ensures MarksOf(SortByTime(a)) == MarksOf(SortByTime(b))
  {
    var sa, sb := SortByTime(a), SortByTime(b);
    assert forall e :: e in sa <==> e in sb by {
      forall e ensures e in sa <==> e in sb {
        assert e in sa <==> e in multiset(sa);
        assert e in sb <==> e in multiset(sb);
      }
    }
    forall k ensures LastOf(sa, k) == LastOf(sb, k) {
      LastOfSorted(sa, k);
      LastOfSorted(sb, k);
      if LastOf(sa, k).Some? && LastOf(sb, k).Some? {
        var ta, tb := LastOf(sa, k).value, LastOf(sb, k).value;
        var ea :| ea in sa && ea.kind == k && ea.time == ta;
        var eb :| eb in sb && eb.kind == k && eb.time == tb;
        assert ta <= tb && tb <= ta;
      }
    }
  }

  function Max0(x: int): int {
    if x < 0 then 0 else x
  }

  /** A millisecond number is truthy unless it is missing or 0. */
  predicate Present(t: Option<int>) {
    t.Some? && t.value != 0
  }

  /** The localStorage client's rule. */
  function ScriptMillis(m: Marks): (ms: int)
    ensures ms >= 0
  {
    if Present(m.clockIn) && Present(m.clockOut) && m.clockOut.value > m.clockIn.value then
      var lunch :=
        if Present(m.lunchOut) && Present(m.lunchIn) && m.lunchIn.value > m.lunchOut.value
        then m.lunchIn.value - m.lunchOut.value else 0;
      Max0(m.clockOut.value - m.clockIn.value - lunch)
    else 0
  }

  /** The server client's history-view rule. */
  function AppMillis(m: Marks): (ms: int)
    ensures ms >= 0
  {
    if m.clockIn.Some? && m.clockOut.Some? then
      var lunch :=
        if m.lunchOut.Some? && m.lunchIn.Some? && m.lunchOut.value < m.lunchIn.value
        then m.lunchIn.value - m.lunchOut.value else 0;
      Max0(m.clockOut.value - m.clockIn.value - lunch)
    else 0
  }

  /** The server report's rule. */
  function ServerMillis(m: Marks): (ms: int)
    ensures ms >= 0
  {
    if m.clockIn.Some? && m.clockOut.Some? then
      var lunch :=
        if m.lunchIn.Some? && m.lunchOut.Some?
        then m.lunchIn.value - m.lunchOut.value else 0;
      Max0(m.clockOut.value - m.clockIn.value - lunch)
    else 0
  }

  /** The localStorage rule, case by case: nothing without an ordered
      clock pair; the span when there is no ordered lunch pair; the span
      minus the lunch break, never below zero, when there is. */
  lemma ScriptMillisCases(m: Marks)
    ensures !(Present(m.clockIn) && Present(m.clockOut) && m.clockOut.value > m.clockIn.value) ==> ScriptMillis(m) == 0
    ensures Present(m.clockIn) && Present(m.clockOut) && m.clockOut.value > m.clockIn.value
      && !(Present(m.lunchOut) && Present(m.lunchIn) && m.lunchIn.value > m.lunchOut.value)
      ==> ScriptMillis(m) == m.clockOut.value - m.clockIn.value
    ensures Present(m.clockIn) && Present(m.clockOut) && Present(m.lunchOut) && Present(m.lunchIn)
      && m.clockIn.value < m.lunchOut.value < m.lunchIn.value < m.clockOut.value
      ==> ScriptMillis(m) == (m.clockOut.value - m.clockIn.value) - (m.lunchIn.value - m.lunchOut.value)
    ensures ScriptMillis(m) <= if m.clockIn.Some? && m.clockOut.Some? then Max0(m.clockOut.value - m.clockIn.value) else 0
  {
  }

  /** The history view's missing clock guard changes nothing: whenever no
      time is 0, it computes what the localStorage rule computes, because
      an inverted clock pair already gives a negative span that the clamp
      turns into 0. */
  lemma AppAgreesWithScript(m: Marks)
    requires m.clockIn != Some(0) && m.clockOut != Some(0) && m.lunchOut != Some(0) && m.lunchIn != Some(0)
    ensures AppMillis(m) == ScriptMillis(m)
  {
  }

  /** A time of exactly 0 (the epoch) is where they part: the localStorage
      rule treats it as a missing punch. */
  lemma AppDiffersFromScriptAtZero()
    ensures var m := Marks(Some(0), Some(3600000), None, None);
      ScriptMillis(m) == 0 && AppMillis(m) == 3600000
  {
  }

  /** The server rule agrees with the others on a well-formed day: clock-out
      after clock-in, and a lunch pair, if complete, in order. */
  lemma ServerAgreesOnOrderedDays(m: Marks)
    requires m.clockIn.Some? && m.clockOut.Some? && m.clockIn.value < m.clockOut.value
    requires m.lunchOut.Some? && m.lunchIn.Some? ==> m.lunchOut.value < m.lunchIn.value
    ensures ServerMillis(m) == AppMillis(m)
  {
  }

  /** Without the lunch-order guard an inverted lunch pair adds time: 09:00
      to 17:00 with lunch marked 12:30 to 12:00 gives 8.5 hours on the
      server and 8 hours in the clients. */
  lemma ServerInvertedLunchAddsTime()
    ensures var m := Marks(Some(32400000), Some(61200000), Some(45000000), Some(43200000));
      ServerMillis(m) == 30600000 && AppMillis(m) == 28800000 && ScriptMillis(m) == 28800000
  {
  }

  /** Without the clock guard a day whose clock-out precedes its clock-in
      can still yield hours: in at 10:00, out at 09:00, lunch marked 15:00
      to 12:00 gives 2 hours on the server and none in the clients. */
  lemma ServerInvertedClockCanCount()
    ensures var m := Marks(Some(36000000), Some(32400000), Some(54000000), Some(43200000));
      ServerMillis(m) == 7200000 && AppMillis(m) == 0 && ScriptMillis(m) == 0
  {
  }

  /** Which implementation's rule a caller uses. */
  datatype Rule = ScriptRule | AppRule | ServerRule

  function RuleMillis(rule: Rule, m: Marks): (ms: int)
    ensures ms >= 0
  {
    match rule
    case ScriptRule => ScriptMillis(m)
    case AppRule => AppMillis(m)
    case ServerRule => ServerMillis(m)
  }

  /** A day's worked milliseconds under a rule: sort, scan, apply. */
  function DayMillisOf(rule: Rule, es: seq<Entry>): int {
    RuleMillis(rule, MarksOf(SortByTime(es)))
  }

  /** Computes one day's worked milliseconds as all three implementations
      do: sort the day's punches by time (the report keeps them sorted),
      scan for the last-seen times, apply the rule. */
  method DayMillis(rule: Rule, es: seq<Entry>) returns (sorted: seq<Entry>, ms: int)
    ensures sorted == SortByTime(es)
    ensures ms == DayMillisOf(rule, es)
    ensures ms >= 0
  {
    sorted := SortByTime(es);
    var m := ScanMarks(sorted);
    ms := RuleMillis(rule, m);
  }

  /** On a day with no punch at the epoch itself, the server client's
      history rule and the localStorage client's rule agree. */
  lemma DayAppAgreesWithScript(es: seq<Entry>)
    requires forall e :: e in es ==> e.time != 0
    ensures DayMillisOf(AppRule, es) == DayMillisOf(ScriptRule, es)
  {
    LatestOfDay(es, ClockIn);
    LatestOfDay(es, ClockOut);
    LatestOfDay(es, LunchOut);
    LatestOfDay(es, LunchIn);
    AppAgreesWithScript(MarksOf(SortByTime(es)));
  }

  /** A day's hours depend only on which punches it holds, not on the order
      they were stored or fetched in. */
  lemma DayMillisOrderIndependent(rule: Rule, a: seq<Entry>, b: seq<Entry>)
    requires multiset(a) == multiset(b)
    ensures DayMillisOf(rule, a) == DayMillisOf(rule, b)
  {
    MarksOrderIndependent(a, b);
  }

  /** The last-seen time of a type after sorting is the latest time of that
      type among the day's punches, and it is missing exactly when the day
      has no punch of that type. */
  lemma LatestOfDay(es: seq<Entry>, k: PunchType)
    ensures LastOf(SortByTime(es), k).None? <==> forall e :: e in es ==> e.kind != k
    ensures LastOf(SortByTime(es), k).Some? ==> IsLatest(es, k, LastOf(SortByTime(es), k).value)
  {
    var s := SortByTime(es);
    LastOfSorted(s, k);
    forall e ensures e in s <==> e in es {
      assert e in s <==> e in multiset(s);
      assert e in es <==> e in multiset(es);
    }
  }

  /** Of two clock-ins on one day (one entered by a manager past the gate)
      the later one counts, whatever order they are stored in: in at 09:05
      and at 09:00, out at 17:00, gives 7 hours 55 minutes. */
  lemma DuplicateClockInUsesLatest(early: int, late: int, out: int)
    requires 0 < early <= late < out
    ensures var es := [Entry(ClockIn, late, None), Entry(ClockIn, early, None), Entry(ClockOut, out, None)];
      DayMillisOf(ScriptRule, es) == out - late
  {
    var es := [Entry(ClockIn, late, None), Entry(ClockIn, early, None), Entry(ClockOut, out, None)];
    DuplicateClockInMarks(es, early, late, out);
  }

  lemma DuplicateClockInMarks(es: seq<Entry>, early: int, late: int, out: int)
    requires 0 < early <= late < out
    requires es == [Entry(ClockIn, late, None), Entry(ClockIn, early, None), Entry(ClockOut, out, None)]
    ensures MarksOf(SortByTime(es)) == Marks(Some(late), Some(out), None, None)
  {
    assert forall e :: e in es ==> e == es[0] || e == es[1] || e == es[2];
    assert es[0] in es && es[2] in es;
    LatestIs(es, ClockIn, late);
    LatestIs(es, ClockOut, out);
    AbsentType(es, LunchOut);
    AbsentType(es, LunchIn);
  }

  /** A type with no punch that day has no time. */
  lemma AbsentType(es: seq<Entry>, k: PunchType)
    requires forall e :: e in es ==> e.kind != k
    ensures LastOf(SortByTime(es), k) == None
  {
    LatestOfDay(es, k);
  }

  /** When t is the latest time of type k among the day's punches, the
      sorted scan finds exactly t. */
  lemma LatestIs(es: seq<Entry>, k: PunchType, t: int)
    requires exists e :: e in es && e.kind == k && e.time == t
    requires forall e :: e in es && e.kind == k ==> e.time <= t
    ensures LastOf(SortByTime(es), k) == Some(t)
  {
    LatestOfDay(es, k);
    var v := LastOf(SortByTime(es), k).value;
    var e :| e in es && e.kind == k && e.time == v;
  }
}
