/** The calculator component: four text fields, the current result and the
    history, with the handlers that change them (codigo_fonte/src/App.jsx:9-106). */
module App {
  import opened Digits
  import opened Clock
  import opened Input
  import opened History

  /** The four text fields. */
  datatype Field = Hours1 | Minutes1 | Hours2 | Minutes2

  /** The largest value each field takes (the `maxValue` its input passes). */
  function FieldMax(f: Field): (max: nat)
    ensures max == MaxHours || max == MaxMinutes
    ensures max == MaxHours <==> f == Hours1 || f == Hours2
  {
    match f
    case Hours1 => MaxHours
    case Hours2 => MaxHours
    case Minutes1 => MaxMinutes
    case Minutes2 => MaxMinutes
  }

  /** The notification a calculation raises. */
  datatype Notice = Performed | InvalidInput

  /** All four fields pass `validateInput`. */
  predicate FieldsValid(hours1: string, minutes1: string, hours2: string, minutes2: string): (ok: bool)
    ensures ok <==>
      hours1 != [] && AllDigits(hours1) && DigitsValue(hours1) <= MaxHours &&
      minutes1 != [] && AllDigits(minutes1) && DigitsValue(minutes1) <= MaxMinutes &&
      hours2 != [] && AllDigits(hours2) && DigitsValue(hours2) <= MaxHours &&
      minutes2 != [] && AllDigits(minutes2) && DigitsValue(minutes2) <= MaxMinutes
  {
    ValidateInput(hours1, MaxHours) && ValidateInput(minutes1, MaxMinutes) &&
    ValidateInput(hours2, MaxHours) && ValidateInput(minutes2, MaxMinutes)
  }

  /** What a press of the add or subtract button computes from the four
      field strings: nothing when a field fails validation, otherwise the
      reading whose minute of the day is the sum, or the difference, of the
      two times modulo a day. */
  function Evaluate(op: Operation, hours1: string, minutes1: string, hours2: string, minutes2: string): (r: Option<TimeOfDay>)
    ensures r.Some? <==> FieldsValid(hours1, minutes1, hours2, minutes2)
    ensures r.Some? ==>
      var t1 := DigitsValue(hours1) * 60 + DigitsValue(minutes1);
      var t2 := DigitsValue(hours2) * 60 + DigitsValue(minutes2);
      ValidTime(r.value) && 0 <= t1 < 1440 && 0 <= t2 < 1440 &&
      r.value.hours * 60 + r.value.minutes == (if op == Add then t1 + t2 else t1 - t2) % 1440
  {
    if !FieldsValid(hours1, minutes1, hours2, minutes2) then None
    else
      var t1 := TotalMinutes(DigitsValue(hours1), DigitsValue(minutes1));
      var t2 := TotalMinutes(DigitsValue(hours2), DigitsValue(minutes2));
      Some(SplitMinutes(Compute(op, t1, t2)))
  }

  /** The history entry a successful calculation records
      (codigo_fonte/src/App.jsx:78-86). */
  function MakeEntry(id: nat, op: Operation, hours1: string, minutes1: string, hours2: string, minutes2: string): (e: Entry)
    requires FieldsValid(hours1, minutes1, hours2, minutes2)
    ensures e.id == id
    ensures e.operation == "+" <==> op == Add
  {
    var t := Evaluate(op, hours1, minutes1, hours2, minutes2).value;
    Entry(id, FormatFields(hours1, minutes1), FormatFields(hours2, minutes2), OperationSymbol(op), FormatTime(t))
  }

  /** The entry holds both inputs and the result as in-range "HH:MM" strings
      that read back as the readings used, with the result the operation on
      the two times. */
  lemma MakeEntryWellFormed(id: nat, op: Operation, hours1: string, minutes1: string, hours2: string, minutes2: string)
    requires FieldsValid(hours1, minutes1, hours2, minutes2)
    requires |hours1| <= FieldLength && |minutes1| <= FieldLength
    requires |hours2| <= FieldLength && |minutes2| <= FieldLength
    ensures var e := MakeEntry(id, op, hours1, minutes1, hours2, minutes2);
      WellFormed(e) && e.id == id && e.operation == OperationSymbol(op) &&
      ClockTime(e.time1) == TimeOfDay(DigitsValue(hours1), DigitsValue(minutes1)) &&
      ClockTime(e.time2) == TimeOfDay(DigitsValue(hours2), DigitsValue(minutes2)) &&
      ClockTime(e.result) == Evaluate(op, hours1, minutes1, hours2, minutes2).value
  {
    EntryWellFormed(MakeEntry(id, op, hours1, minutes1, hours2, minutes2), op);
  }

  /** Recording a successful calculation keeps the history valid. */
  lemma RecordKeepsHistoryValid(id: nat, op: Operation, hours1: string, minutes1: string, hours2: string, minutes2: string, h: seq<Entry>)
    requires FieldsValid(hours1, minutes1, hours2, minutes2)
    requires |hours1| <= FieldLength && |minutes1| <= FieldLength
    requires |hours2| <= FieldLength && |minutes2| <= FieldLength
    requires HistoryValid(h)
    ensures HistoryValid(Prepend(MakeEntry(id, op, hours1, minutes1, hours2, minutes2), h))
  {
    MakeEntryWellFormed(id, op, hours1, minutes1, hours2, minutes2);
    PrependValid(MakeEntry(id, op, hours1, minutes1, hours2, minutes2), h);
  }

  /** An entry whose three strings are "HH:MM" and whose result names the
      operation applied to the two times is well formed. */
  lemma EntryWellFormed(e: Entry, op: Operation)
    requires IsClockString(e.time1) && IsClockString(e.time2) && IsClockString(e.result)
    requires e.operation == OperationSymbol(op)
    requires ClockTime(e.result) == SplitMinutes(Compute(op, ClockMinutes(e.time1), ClockMinutes(e.time2)))
    ensures WellFormed(e)
  {
    var t := ClockTime(e.result);
    SplitJoin(Compute(op, ClockMinutes(e.time1), ClockMinutes(e.time2)), t);
  }

  /** The worked examples: 23:30 + 01:00 is 00:30, 23:30 - 01:00 is 22:30,
      01:00 - 23:30 is 01:30 (the first time on the next day), and an empty
      field yields nothing. */
  lemma EvaluateExamples()
    ensures Evaluate(Add, "23", "30", "01", "00") == Some(TimeOfDay(0, 30))
    ensures Evaluate(Subtract, "23", "30", "01", "00") == Some(TimeOfDay(22, 30))
    ensures Evaluate(Subtract, "01", "00", "23", "30") == Some(TimeOfDay(1, 30))
    ensures Evaluate(Add, "23", "30", "01", "") == None
  {
    assert DigitsValue("23") == 23 by { assert "23"[..1] == "2"; }
    assert DigitsValue("30") == 30 by { assert "30"[..1] == "3"; }
    assert DigitsValue("01") == 1 by { assert "01"[..1] == "0"; }
    assert DigitsValue("00") == 0 by { assert "00"[..1] == "0"; }
  }

  class Calculator {
    var hours1: string
    var minutes1: string
    var hours2: string
    var minutes2: string
    var result: Option<TimeOfDay>
    var history: seq<Entry>

    /** Every field holds what the keystroke filter admits, a result is a
        valid reading, and the history is valid. */
    ghost predicate Valid()
      reads this
    {
      KeystrokeAccepted(hours1, FieldLength, MaxHours) &&
      KeystrokeAccepted(minutes1, FieldLength, MaxMinutes) &&
      KeystrokeAccepted(hours2, FieldLength, MaxHours) &&
      KeystrokeAccepted(minutes2, FieldLength, MaxMinutes) &&
      (result.Some? ==> ValidTime(result.value)) &&
      HistoryValid(history)
    }

    function FieldValue(f: Field): (value: string)
      reads this
    {
      match f
      case Hours1 => hours1
      case Minutes1 => minutes1
      case Hours2 => hours2
      case Minutes2 => minutes2
    }

    /** The initial state: empty fields, no result, empty history. */
    constructor ()
      ensures Valid()
      ensures hours1 == "" && minutes1 == "" && hours2 == "" && minutes2 == ""
      ensures result == None && history == []
    {
      hours1, minutes1, hours2, minutes2 := "", "", "", "";
      result := None;
      history := [];
      EmptyAccepted(FieldLength, MaxHours);
      EmptyAccepted(FieldLength, MaxMinutes);
    }

    /** `handleInputChange`: the field takes the new value only when the
        keystroke filter accepts it; nothing else changes. */
    method HandleInputChange(value: string, field: Field)
      requires Valid()
      modifies this
      ensures Valid()
      ensures FieldValue(field) ==
        if KeystrokeAccepted(value, FieldLength, FieldMax(field)) then value else old(FieldValue(field))
      ensures forall f :: f != field ==> FieldValue(f) == old(FieldValue(f))
      ensures result == old(result) && history == old(history)
    {
      if |value| <= FieldLength && AllDigits(value) {
        var numValue := DigitsValue(if value == [] then "0" else value);
        if numValue <= FieldMax(field) {
          match field
          case Hours1 => hours1 := value;
          case Minutes1 => minutes1 := value;
          case Hours2 => hours2 := value;
          case Minutes2 => minutes2 := value;
        }
      }
    }

    /** `handleCalculate`: with a field failing validation nothing changes and
        the invalid-input notice is raised; otherwise the result is set and
        the new entry goes to the front of the history, cut to five. */
    method HandleCalculate(op: Operation, id: nat) returns (notice: Notice)
      requires Valid()
      modifies this
      ensures Valid()
      ensures hours1 == old(hours1) && minutes1 == old(minutes1)
      ensures hours2 == old(hours2) && minutes2 == old(minutes2)
      ensures notice == Performed <==> old(FieldsValid(hours1, minutes1, hours2, minutes2))
      ensures notice == InvalidInput ==> result == old(result) && history == old(history)
      ensures notice == Performed ==>
        result == old(Evaluate(op, hours1, minutes1, hours2, minutes2)) &&
        history == old(Prepend(MakeEntry(id, op, hours1, minutes1, hours2, minutes2), history))
    {
      if !ValidateInput(hours1, MaxHours) || !ValidateInput(minutes1, MaxMinutes) ||
         !ValidateInput(hours2, MaxHours) || !ValidateInput(minutes2, MaxMinutes)
      {
        return InvalidInput;
      }
      var time1 := ParseDigits(hours1).value * MinutesPerHour + ParseDigits(minutes1).value;
      var time2 := ParseDigits(hours2).value * MinutesPerHour + ParseDigits(minutes2).value;
      var totalMinutes: nat;
      if op == Add {
        totalMinutes := (time1 + time2) % MinutesPerDay;
      } else {
        if time1 >= time2 {
          totalMinutes := time1 - time2;
        } else {
          totalMinutes := time1 + MinutesPerDay - time2;
        }
      }
      var resultHours := totalMinutes / MinutesPerHour;
      var resultMinutes := totalMinutes % MinutesPerHour;
      var newResult := TimeOfDay(resultHours, resultMinutes);
      assert newResult == Evaluate(op, hours1, minutes1, hours2, minutes2).value by {
        assert time1 == TotalMinutes(DigitsValue(hours1), DigitsValue(minutes1));
        assert time2 == TotalMinutes(DigitsValue(hours2), DigitsValue(minutes2));
        assert totalMinutes == Compute(op, time1, time2);
      }
      var item := MakeEntry(id, op, hours1, minutes1, hours2, minutes2);
      RecordKeepsHistoryValid(id, op, hours1, minutes1, hours2, minutes2, history);
      Record(newResult, item);
      notice := Performed;
    }

    /** `setResult` and the history prepend of a successful calculation. */
    method Record(newResult: TimeOfDay, item: Entry)
      requires Valid() && ValidTime(newResult) && HistoryValid(Prepend(item, history))
      modifies this
      ensures Valid()
      ensures hours1 == old(hours1) && minutes1 == old(minutes1)
      ensures hours2 == old(hours2) && minutes2 == old(minutes2)
      ensures result == Some(newResult) && history == Prepend(item, old(history))
    {
      result := Some(newResult);
      history := Prepend(item, history);
    }

    /** `reset`: the fields and the result are cleared; history is kept. */
    method Reset()
      requires Valid()
      modifies this
      ensures Valid()
      ensures hours1 == "" && minutes1 == "" && hours2 == "" && minutes2 == ""
      ensures result == None && history == old(history)
    {
      hours1, minutes1, hours2, minutes2 := "", "", "", "";
      result := None;
      EmptyAccepted(FieldLength, MaxHours);
      EmptyAccepted(FieldLength, MaxMinutes);
    }

    /** `removeFromHistory`: the entries with that id are dropped, the rest
        kept in order; nothing else changes. */
    method RemoveFromHistory(id: nat)
      requires Valid()
      modifies this
      ensures Valid()
      ensures history == RemoveById(old(history), id)
      ensures hours1 == old(hours1) && minutes1 == old(minutes1)
      ensures hours2 == old(hours2) && minutes2 == old(minutes2)
      ensures result == old(result)
    {
      RemoveValid(history, id);
      history := RemoveById(history, id);
    }
  }
}
