/**
 * The punch vocabulary shared by the browser code and the server: the four
 * punch types (a closed enumeration in the Punch schema) and the entry a day
 * bucket holds.
 *
 * Note the naming: `lunch_out` is leaving for lunch (the start of the
 * break) and `lunch_in` is returning from it.
 */
module Punches {
  import opened Common

  datatype PunchType = ClockIn | ClockOut | LunchOut | LunchIn

  /** The schema's `enum` of stored punch type names. */
  const TypeEnum: seq<string> := ["clock_in", "clock_out", "lunch_in", "lunch_out"]

  /** The wire name of a punch type. */
  function TypeName(t: PunchType): (name: string)
    ensures name in TypeEnum
    ensures |name| >= 7 && name[5] == '_'
  {
    match t
    case ClockIn => "clock_in"
    case ClockOut => "clock_out"
    case LunchOut => "lunch_out"
    case LunchIn => "lunch_in"
  }

  /** `validTypes.includes(punch_type)`: only the four exact wire names are
      punch types; anything else, a missing field included, is rejected. */
  function ParsePunchType(s: Option<string>): (r: Option<PunchType>)
    ensures r.Some? ==> s == Some(TypeName(r.value))
    ensures r.None? ==> forall t :: s != Some(TypeName(t))
  {
    match s
    case None => None
    case Some(x) =>
      if x == "clock_in" then Some(ClockIn)
      else if x == "clock_out" then Some(ClockOut)
      else if x == "lunch_out" then Some(LunchOut)
      else if x == "lunch_in" then Some(LunchIn)
      else None
  }

  /** Distinct punch types have distinct names, and every name of the
      schema's enum is the name of some type: the names are the enum. */
  lemma TypeNameBijective(a: PunchType, b: PunchType)
    ensures TypeName(a) == TypeName(b) ==> a == b
    ensures forall s :: s in TypeEnum ==> exists t :: TypeName(t) == s
  {
    assert TypeName(ClockIn) == TypeEnum[0] && TypeName(ClockOut) == TypeEnum[1];
    assert TypeName(LunchIn) == TypeEnum[2] && TypeName(LunchOut) == TypeEnum[3];
  }

  /** Parsing a type's own name gives that type back. */
  lemma ParseTypeName(t: PunchType)
    ensures ParsePunchType(Some(TypeName(t))) == Some(t)
  {
  }

  /** What a day bucket holds of a punch: its type, its time in
      milliseconds since the epoch, and its note. */
  datatype Entry = Entry(kind: PunchType, time: int, notes: Option<string>)
}
