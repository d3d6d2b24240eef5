/** Time of day as minutes since midnight: the arithmetic of the add and
    subtract buttons, the split back into hours and minutes, and the
    zero-padded "HH:MM" strings shown in the history
    (codigo_fonte/src/App.jsx:51-85). */
module Clock {
  import opened Digits

  const MinutesPerHour: nat := 60
  const MinutesPerDay: nat := 1440
  const MaxHours: nat := 23
  const MaxMinutes: nat := 59

  datatype TimeOfDay = TimeOfDay(hours: nat, minutes: nat)

  datatype Operation = Add | Subtract

  predicate ValidTime(t: TimeOfDay) { t.hours <= MaxHours && t.minutes <= MaxMinutes }

  /** `hours * 60 + minutes`, the minute of the day a valid reading names. */
  function TotalMinutes(hours: nat, minutes: nat): (t: nat)
    requires hours <= MaxHours && minutes <= MaxMinutes
    ensures t < MinutesPerDay
    ensures t / MinutesPerHour == hours && t % MinutesPerHour == minutes
  {
    hours * MinutesPerHour + minutes
  }

  /** The add button: the sum wraps past midnight at most once. */
  function AddMinutes(t1: nat, t2: nat): (r: nat)
    requires t1 < MinutesPerDay && t2 < MinutesPerDay
    ensures r < MinutesPerDay
    ensures r == if t1 + t2 < MinutesPerDay then t1 + t2 else t1 + t2 - MinutesPerDay
  {
    (t1 + t2) % MinutesPerDay
  }

  /** The subtract button: when the first time is the earlier one it is
      taken to be on the following day. The result is the difference
      reduced into the day. */
  function SubtractMinutes(t1: nat, t2: nat): (r: nat)
    requires t1 < MinutesPerDay && t2 < MinutesPerDay
    ensures r < MinutesPerDay
    ensures r == (t1 - t2) % MinutesPerDay
  {
    if t1 >= t2 then t1 - t2 else t1 + MinutesPerDay - t2
  }

  function Compute(op: Operation, t1: nat, t2: nat): (r: nat)
    requires t1 < MinutesPerDay && t2 < MinutesPerDay
    ensures r < MinutesPerDay
    ensures r == (if op == Add then t1 + t2 else t1 - t2) % MinutesPerDay
  {
    match op
    case Add => AddMinutes(t1, t2)
    case Subtract => SubtractMinutes(t1, t2)
  }

  /** `Math.floor(t / 60)` and `t % 60`: a valid reading naming minute `t`. */
  function SplitMinutes(t: nat): (r: TimeOfDay)
    requires t < MinutesPerDay
    ensures ValidTime(r)
    ensures r.hours * MinutesPerHour + r.minutes == t
  {
    TimeOfDay(t / MinutesPerHour, t % MinutesPerHour)
  }

  /** Splitting and joining are inverse on the day. */
  lemma SplitJoin(t: nat, time: TimeOfDay)
    requires t < MinutesPerDay && ValidTime(time)
    ensures TotalMinutes(SplitMinutes(t).hours, SplitMinutes(t).minutes) == t
    ensures SplitMinutes(TotalMinutes(time.hours, time.minutes)) == time
  {
  }

  /** Adding back what was subtracted gives the first time again, and
      subtracting what was added does too. */
  lemma SubtractInvertsAdd(t1: nat, t2: nat)
    requires t1 < MinutesPerDay && t2 < MinutesPerDay
    ensures AddMinutes(SubtractMinutes(t1, t2), t2) == t1
    ensures SubtractMinutes(AddMinutes(t1, t2), t2) == t1
  {
  }

  /** The same on readings: (A - B) + B == A and (A + B) - B == A. */
  lemma TimeSubtractInvertsAdd(a: TimeOfDay, b: TimeOfDay)
    requires ValidTime(a) && ValidTime(b)
    ensures var ta, tb := TotalMinutes(a.hours, a.minutes), TotalMinutes(b.hours, b.minutes);
      SplitMinutes(AddMinutes(SubtractMinutes(ta, tb), tb)) == a &&
      SplitMinutes(SubtractMinutes(AddMinutes(ta, tb), tb)) == a
  {
    var ta, tb := TotalMinutes(a.hours, a.minutes), TotalMinutes(b.hours, b.minutes);
    SubtractInvertsAdd(ta, tb);
    SplitJoin(ta, a);
  }

  // ---- "HH:MM" strings ----

  /** The value of the two-digit number at `s[i]`, `s[i + 1]`. */
  function TwoDigits(s: string, i: nat): (v: nat)
    requires i + 1 < |s| && IsDigit(s[i]) && IsDigit(s[i + 1])
    ensures v < 100
  {
    10 * DigitValue(s[i]) + DigitValue(s[i + 1])
  }

  /** Two zero-padded two-digit numbers separated by a colon, in range. */
  predicate IsClockString(s: string)
  {
    |s| == 5 && IsDigit(s[0]) && IsDigit(s[1]) && s[2] == ':' && IsDigit(s[3]) && IsDigit(s[4]) &&
    TwoDigits(s, 0) <= MaxHours && TwoDigits(s, 3) <= MaxMinutes
  }

  /** The reading an "HH:MM" string names. */
  function ClockTime(s: string): (t: TimeOfDay)
    requires IsClockString(s)
    ensures ValidTime(t)
  {
    TimeOfDay(TwoDigits(s, 0), TwoDigits(s, 3))
  }

  function ClockMinutes(s: string): (t: nat)
    requires IsClockString(s)
    ensures t < MinutesPerDay
  {
    TotalMinutes(ClockTime(s).hours, ClockTime(s).minutes)
  }

  /** Two two-digit strings in range, joined by a colon, form an "HH:MM"
      string naming their values. */
  lemma JoinClock(hh: string, mm: string)
    requires |hh| == 2 && AllDigits(hh) && DigitsValue(hh) <= MaxHours
    requires |mm| == 2 && AllDigits(mm) && DigitsValue(mm) <= MaxMinutes
    ensures IsClockString(hh + ":" + mm)
    ensures ClockTime(hh + ":" + mm) == TimeOfDay(DigitsValue(hh), DigitsValue(mm))
  {
    assert hh[..1] == [hh[0]];
    assert mm[..1] == [mm[0]];
  }

  /** `field.padStart(2, "0")`: a field of one or two digits becomes two
      digits of the same value. */
  function PadField(field: string): (s: string)
    ensures |s| == 2 <==> |field| <= 2
    ensures AllDigits(field) ==> AllDigits(s) && DigitsValue(s) == DigitsValue(field)
  {
    if AllDigits(field) then
      PadZerosValue(field, 2);
      PadStart(field, 2, '0')
    else
      PadStart(field, 2, '0')
  }

  /** The history spelling of an input time: both fields padded to two
      places and joined with a colon. Two validated fields give an in-range
      "HH:MM" string naming the same reading. */
  function FormatFields(hours: string, minutes: string): (s: string)
    ensures AllDigits(hours) && 1 <= |hours| <= 2 && DigitsValue(hours) <= MaxHours &&
            AllDigits(minutes) && 1 <= |minutes| <= 2 && DigitsValue(minutes) <= MaxMinutes ==>
      IsClockString(s) && ClockTime(s) == TimeOfDay(DigitsValue(hours), DigitsValue(minutes))
  {
    if AllDigits(hours) && 1 <= |hours| <= 2 && DigitsValue(hours) <= MaxHours &&
       AllDigits(minutes) && 1 <= |minutes| <= 2 && DigitsValue(minutes) <= MaxMinutes
    then
      JoinClock(PadField(hours), PadField(minutes));
      PadField(hours) + ":" + PadField(minutes)
    else
      PadField(hours) + ":" + PadField(minutes)
  }

  /** The history spelling of a result reading: an in-range "HH:MM" string
      that reads back as the reading. Each part is written as its tens and
      units digit (`TwoDigitString`) rather than as
      `toString().padStart(2, "0")`, which keeps the division by ten out of
      every proof that mentions a stored result; `FormatTimeAsSource` shows
      the two spellings agree. */
  function FormatTime(t: TimeOfDay): (s: string)
    requires ValidTime(t)
    ensures IsClockString(s) && ClockTime(s) == t
  {
    JoinClock(TwoDigitString(t.hours), TwoDigitString(t.minutes));
    TwoDigitString(t.hours) + ":" + TwoDigitString(t.minutes)
  }

  /** The result string is `hours.toString().padStart(2, "0")`, a colon and
      `minutes.toString().padStart(2, "0")`. */
  lemma FormatTimeAsSource(t: TimeOfDay)
    requires ValidTime(t)
    ensures FormatTime(t) == PadStart(NatToString(t.hours), 2, '0') + ":" + PadStart(NatToString(t.minutes), 2, '0')
  {
    FormatNumberRoundTrip(t.hours);
    FormatNumberRoundTrip(t.minutes);
  }
}
