/**
 * The punch gate of the browser client and the enable/disable state of the
 * four punch buttons, both computed from the set of punch types an
 * employee has already recorded today.
 */
module PunchGate {
  import opened Punches

  /** The outcome of a punch attempt: accepted, or the reason it is not. */
  datatype Decision = Allowed | AlreadyRecorded | MustClockInFirst | MustGoToLunchFirst

  /** The gate of `handleEmployeePunch`: a type already recorded today is
      refused first; then anything but a clock-in needs a clock-in today;
      then returning from lunch needs a lunch departure today. */
  function Gate(today: set<PunchType>, t: PunchType): (d: Decision)
    ensures t in today ==> d == AlreadyRecorded
    ensures d == MustClockInFirst ==> t !in today && t != ClockIn && ClockIn !in today
    ensures d == MustGoToLunchFirst ==> t == LunchIn && t !in today && ClockIn in today && LunchOut !in today
    ensures d == Allowed <==>
      t !in today && (t != ClockIn ==> ClockIn in today) && (t == LunchIn ==> LunchOut in today)
  {
    if t in today then AlreadyRecorded
    else if t != ClockIn && ClockIn !in today then MustClockInFirst
    else if t == LunchIn && LunchOut !in today then MustGoToLunchFirst
    else Allowed
  }

  /** Disabled flags of the four buttons, named by the punch type each
      button records. */
  datatype Buttons = Buttons(clockIn: bool, clockOut: bool, lunchOut: bool, lunchIn: bool)

  function Disabled(b: Buttons, t: PunchType): bool {
    match t
    case ClockIn => b.clockIn
    case ClockOut => b.clockOut
    case LunchOut => b.lunchOut
    case LunchIn => b.lunchIn
  }

  /** `updatePunchButtonStates` of the localStorage client. */
  function ButtonStates(today: set<PunchType>): (b: Buttons) {
    Buttons(
      clockIn := ClockIn in today,
      clockOut := ClockIn !in today || ClockOut in today,
      lunchOut := ClockIn !in today || LunchOut in today,
      lunchIn := LunchOut !in today || LunchIn in today)
  }

  /** The day invariant that gate-accepted punching keeps: nothing but a
      clock-in is recorded before a clock-in, and no return from lunch
      before a lunch departure. */
  predicate Consistent(today: set<PunchType>) {
    (today != {} ==> ClockIn in today) && (LunchIn in today ==> LunchOut in today)
  }

  /** On every consistent day, a button is enabled exactly when the gate
      would accept the punch it records. */
  lemma ButtonsAgreeWithGate(today: set<PunchType>, t: PunchType)
    requires LunchOut in today ==> ClockIn in today
    ensures !Disabled(ButtonStates(today), t) <==> Gate(today, t) == Allowed
  {
  }

  /** Without the invariant the two disagree: after a lunch departure with
      no clock-in (possible through a manager's manual punch) the "Return
      from Lunch" button is enabled but the gate refuses the punch. */
  lemma ButtonsDisagreeWithoutInvariant()
    ensures !Disabled(ButtonStates({LunchOut}), LunchIn)
    ensures Gate({LunchOut}, LunchIn) == MustClockInFirst
  {
  }

  function Kinds(ks: seq<PunchType>): set<PunchType> {
    set k | k in ks
  }

  predicate NoRepeats(ks: seq<PunchType>) {
    forall i, j :: 0 <= i < j < |ks| ==> ks[i] != ks[j]
  }

  /** A day's punch types, in the order recorded, each of which the gate
      accepted given the ones before it. */
  predicate AcceptedRun(ks: seq<PunchType>) {
    ks == [] || (AcceptedRun(ks[..|ks| - 1]) && Gate(Kinds(ks[..|ks| - 1]), ks[|ks| - 1]) == Allowed)
  }

  /** Every run of gate-accepted punches from an empty day records each
      type at most once, starts with a clock-in and keeps the day
      consistent. */
  lemma {:induction false} AcceptedRunInvariant(ks: seq<PunchType>)
    requires AcceptedRun(ks)
    ensures NoRepeats(ks)
    ensures ks != [] ==> ks[0] == ClockIn
    ensures Consistent(Kinds(ks))
  {
    if ks != [] {
      var pre := ks[..|ks| - 1];
      var t := ks[|ks| - 1];
      AcceptedRunInvariant(pre);
      assert ks == pre + [t];
      assert Kinds(ks) == Kinds(pre) + {t};
      if pre != [] {
        assert pre[0] == ks[0];
      }
      forall i | 0 <= i < |pre| ensures pre[i] != t {
        assert pre[i] in Kinds(pre);
      }
    }
  }

  /** A manager's manual punch bypasses the gate, so the invariant can
      break: two clock-ins on one day, or a lunch departure first. */
  lemma ManualPunchesBreakInvariant()
    ensures !AcceptedRun([ClockIn, ClockIn]) && !NoRepeats([ClockIn, ClockIn])
    ensures !AcceptedRun([LunchOut]) && !Consistent(Kinds([LunchOut]))
  {
    assert [ClockIn, ClockIn][..1] == [ClockIn];
    assert Kinds([ClockIn]) == {ClockIn};
    assert [LunchOut][..0] == [];
    assert LunchOut in Kinds([LunchOut]);
  }

  // ---- public/app.js: the same buttons, addressed by element id ----

  /** The four button elements. The element ids are crossed with the
      punches: `lunch-in-btn` is "Go to Lunch" and `lunch-out-btn` is
      "Return from Lunch". */
  datatype ButtonId = ClockInBtn | ClockOutBtn | LunchInBtn | LunchOutBtn

  /** The punch each button sends when clicked (the same wiring in both
      clients). */
  function ButtonAction(b: ButtonId): (t: PunchType)
    ensures t == LunchOut <==> b == LunchInBtn
    ensures t == LunchIn <==> b == LunchOutBtn
  {
    match b
    case ClockInBtn => ClockIn
    case ClockOutBtn => ClockOut
    case LunchInBtn => LunchOut
    case LunchOutBtn => LunchIn
  }

  /** Every punch type has exactly one button: `ButtonOf` is the inverse
      of the wiring. */
  function ButtonOf(t: PunchType): ButtonId {
    match t
    case ClockIn => ClockInBtn
    case ClockOut => ClockOutBtn
    case LunchOut => LunchInBtn
    case LunchIn => LunchOutBtn
  }

  lemma ButtonActionIsBijective(b: ButtonId, t: PunchType)
    ensures ButtonAction(b) == t <==> b == ButtonOf(t)
  {
  }

  /** A punch record as the server lists it. */
  datatype Record = Record(kind: PunchType, time: int)

  /** The punch types among the records whose day key is `todayKey`. */
  function TodayKinds(records: seq<Record>, todayKey: string, keyOf: int -> string): (s: set<PunchType>)
    ensures forall t :: t in s <==> exists r :: r in records && keyOf(r.time) == todayKey && r.kind == t
  {
    set r | r in records && keyOf(r.time) == todayKey :: r.kind
  }

  datatype AppButtons = AppButtons(clockInBtn: bool, clockOutBtn: bool, lunchInBtn: bool, lunchOutBtn: bool)

  function AppDisabled(b: AppButtons, id: ButtonId): bool {
    match id
    case ClockInBtn => b.clockInBtn
    case ClockOutBtn => b.clockOutBtn
    case LunchInBtn => b.lunchInBtn
    case LunchOutBtn => b.lunchOutBtn
  }

  /** The main branch of the server client's `updatePunchButtonStates`. */
  function AppButtonsFor(today: set<PunchType>): AppButtons {
    var hasClockIn := ClockIn in today;
    var hasClockOut := ClockOut in today;
    var hasLunchIn := LunchIn in today;
    var hasLunchOut := LunchOut in today;
    AppButtons(
      clockInBtn := hasClockIn,
      clockOutBtn := hasClockOut || !hasClockIn,
      lunchInBtn := hasLunchOut || !hasClockIn,
      lunchOutBtn := hasLunchIn || !hasLunchOut)
  }

  /** The server client's `updatePunchButtonStates`: with no records at all
      only the clock-in button is enabled. */
  function AppButtonStates(records: seq<Record>, todayKey: string, keyOf: int -> string): AppButtons {
    if |records| > 0 then AppButtonsFor(TodayKinds(records, todayKey, keyOf))
    else AppButtons(clockInBtn := false, clockOutBtn := true, lunchInBtn := true, lunchOutBtn := true)
  }

  /** The no-records branch is the main branch on an empty day, and each
      element's flag is the localStorage client's flag for the punch that
      element sends. */
  lemma AppButtonsAgree(records: seq<Record>, todayKey: string, keyOf: int -> string, id: ButtonId)
    ensures records == [] ==> AppButtonStates(records, todayKey, keyOf) == AppButtonsFor({})
    ensures AppDisabled(AppButtonStates(records, todayKey, keyOf), id)
         == Disabled(ButtonStates(TodayKinds(records, todayKey, keyOf)), ButtonAction(id))
  {
    if records == [] {
      assert TodayKinds(records, todayKey, keyOf) == {};
    }
  }

  /** Hence, on a consistent day, an element is enabled exactly when the
      gate accepts the punch it sends. */
  lemma AppButtonsAgreeWithGate(records: seq<Record>, todayKey: string, keyOf: int -> string, id: ButtonId)
    requires var today := TodayKinds(records, todayKey, keyOf); LunchOut in today ==> ClockIn in today
    ensures !AppDisabled(AppButtonStates(records, todayKey, keyOf), id)
        <==> Gate(TodayKinds(records, todayKey, keyOf), ButtonAction(id)) == Allowed
  {
    AppButtonsAgree(records, todayKey, keyOf, id);
    ButtonsAgreeWithGate(TodayKinds(records, todayKey, keyOf), ButtonAction(id));
  }
}
