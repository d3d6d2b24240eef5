# Clock-time calculator (calculadora-de-horas), modelled in Dafny

The repository is a single-page widget that adds or subtracts two times of
day given as hours and minutes and keeps a short history of past results.
All of its logic lives in the `App` component of
`codigo_fonte/src/App.jsx`, which holds six state cells: four text fields
(`hours1`, `minutes1`, `hours2`, `minutes2`), the current `result` and the
`history` list. This project models that component:

- `digits.dfy` (module `Digits`): digit strings, their values, and the
  slices of `parseInt`, `toString` and `padStart` the component relies on.
- `clock.dfy` (module `Clock`): minutes-of-day arithmetic. Add is
  `(t1 + t2) % 1440`. Subtract is `t1 - t2`, or `t1 + 1440 - t2` when the
  first time is the earlier one (the "next day" rule). The result is split
  back into hours and minutes. The module also defines the in-range
  zero-padded `HH:MM` strings the history stores.
- `input.dfy` (module `Input`): the keystroke filter of `handleInputChange`
  and the `validateInput` check.
- `history.dfy` (module `History`): history entries, the newest-first
  prepend cut to five entries, and removal by id.
- `app.dfy` (module `App`): the class `Calculator` with the six state cells
  as fields and the four handlers as methods. `Valid()` is the invariant
  the handlers keep: every field holds what the keystroke filter admits, a
  result is an in-range reading, and the history has at most five entries,
  each well formed. "Well formed" means its three strings are in-range
  `HH:MM` and its result string is what its operation gives on its two
  times.

Each handler's postcondition gives the whole new state in terms of the old
one. The pure functions it uses (`Evaluate`, `Prepend`, `RemoveById`,
`MakeEntry`) carry their own contracts and lemmas.

## Model

| member | source | states |
|---|---|---|
| `Digits.DigitsValue` | codigo_fonte/src/App.jsx:28 | the decimal value of a digit string is below 10 to the power of its length |
| `Digits.ParseDigits` | codigo_fonte/src/App.jsx:28 | the parse succeeds exactly on non-empty digit strings, and then its value is bounded by the length |
| `Digits.NatToString` | codigo_fonte/src/App.jsx:83-85 | `toString` of a number is a digit string that reads back as the number, has no leading zero, and is one character long exactly for numbers below 10 |
| `Digits.PadStart` | codigo_fonte/src/App.jsx:80-85 | `padStart` output is as long as the width (or the input, if longer), ends with the input, and is fill characters before it |
| `Digits.LeadingZeros` | codigo_fonte/src/App.jsx:80-81 | prefixing zeros to a digit string does not change its value |
| `Digits.PadZerosValue` | codigo_fonte/src/App.jsx:80-81 | zero-padding a digit string keeps a digit string of the same value |
| `Digits.TwoDigitString` | codigo_fonte/src/App.jsx:83-85 | the two-place spelling of a number below 100 is two digits that read back as the number |
| `Digits.FormatNumberRoundTrip` | codigo_fonte/src/App.jsx:83-85 | `n.toString().padStart(2, "0")` for n below 100 is two digits reading back as n, and equals the two-place spelling used in the model |
| `Input.KeystrokeAccepted` | codigo_fonte/src/App.jsx:19-21 | a new value is taken exactly when it has at most `maxLength` characters, all digits, and is either empty or at most `maxValue` (reading the empty value as "0" admits it whatever the maximum) |
| `Input.ValidateInput` | codigo_fonte/src/App.jsx:27-33 | a field passes exactly when it is a non-empty digit string whose value is at most the maximum |
| `Input.EmptyAccepted` | codigo_fonte/src/App.jsx:19-21 | the keystroke filter takes the empty string, which it reads as "0" |
| `Input.KeystrokeExamples` | codigo_fonte/src/App.jsx:18-25 | "25" is refused in an hours field, "9" is taken, and a three-character value is refused whatever the maximum |
| `Input.AcceptedValidIffNonEmpty` | codigo_fonte/src/App.jsx:18-33 | once a field has passed the keystroke filter, validation fails on it exactly when it is empty |
| `Clock.TotalMinutes` | codigo_fonte/src/App.jsx:51-52 | an in-range reading names a minute of the day below 1440 that divides back into the same hours and minutes |
| `Clock.AddMinutes` | codigo_fonte/src/App.jsx:55-57 | the sum modulo 1440 is below 1440 and is the plain sum, or the sum less one day when it passes midnight |
| `Clock.SubtractMinutes` | codigo_fonte/src/App.jsx:58-65 | the next-day rule gives exactly the difference reduced modulo 1440 |
| `Clock.Compute` | codigo_fonte/src/App.jsx:55-65 | the result is below 1440 and is `(t1 + t2) mod 1440` for add, `(t1 - t2) mod 1440` for subtract |
| `Clock.SplitMinutes` | codigo_fonte/src/App.jsx:67-68 | the floor division and remainder by 60 give hours 0-23 and minutes 0-59 with `hours*60 + minutes` equal to the minute of the day |
| `Clock.SplitJoin` | codigo_fonte/src/App.jsx:51-68 | splitting and joining minutes are inverse on the day |
| `Clock.SubtractInvertsAdd` | codigo_fonte/src/App.jsx:55-65 | adding back what was subtracted gives the first time, and subtracting what was added gives it too |
| `Clock.TimeSubtractInvertsAdd` | codigo_fonte/src/App.jsx:51-68 | the same on readings: (A - B) + B = A and (A + B) - B = A |
| `Clock.ClockTime` | codigo_fonte/src/App.jsx:80-85 | an `HH:MM` string names an in-range reading |
| `Clock.PadField` | codigo_fonte/src/App.jsx:80-81 | `field.padStart(2, "0")` is two characters long exactly when the field has at most two, and a digit field keeps its value |
| `Clock.FormatFields` | codigo_fonte/src/App.jsx:80-81 | two validated fields of one or two digits give an in-range `HH:MM` string that reads back as their values |
| `Clock.FormatTime` | codigo_fonte/src/App.jsx:83-85 | a valid result reading gives an in-range `HH:MM` string that reads back as it |
| `Clock.FormatTimeAsSource` | codigo_fonte/src/App.jsx:83-85 | that string is exactly `hours.toString().padStart(2, "0")`, a colon and `minutes.toString().padStart(2, "0")` |
| `History.OperationSymbol` | codigo_fonte/src/App.jsx:82 | the stored symbol is "+" exactly for add and "-" otherwise |
| `History.Prepend` | codigo_fonte/src/App.jsx:87 | after prepend-and-cut, the new entry is at index 0, the length is min(old + 1, 5), and the rest is the first min(old, 4) old entries in order |
| `History.PrependValid` | codigo_fonte/src/App.jsx:87 | prepending a well-formed entry keeps a history valid (at most five entries, all well formed) |
| `History.PrependAllTakesNewest` | codigo_fonte/src/App.jsx:87 | after any run of calculations the history is the new entries newest first, then the older history, cut to five |
| `History.FiveNewestRemain` | codigo_fonte/src/App.jsx:87 | five or more calculations leave exactly the five most recent entries, newest first |
| `History.RemoveById` | codigo_fonte/src/App.jsx:104-106 | removal never lengthens the history, and an entry is kept exactly when it was there and its id differs |
| `History.RemoveAbsent` | codigo_fonte/src/App.jsx:104-106 | removing an id no entry carries leaves the history unchanged |
| `History.RemoveKeepsOrder` | codigo_fonte/src/App.jsx:104-106 | the kept entries are a subsequence of the old history: their order is preserved |
| `History.RemoveCounts` | codigo_fonte/src/App.jsx:104-106 | every entry with another id is kept as often as it occurred, and every entry with that id is dropped |
| `History.RemoveIdempotent` | codigo_fonte/src/App.jsx:104-106 | removing the same id twice removes nothing more |
| `History.RemoveWellFormed` | codigo_fonte/src/App.jsx:104-106 | removal keeps every entry well formed |
| `History.RemoveValid` | codigo_fonte/src/App.jsx:104-106 | removal keeps a history valid |
| `History.PrependDistinct` | codigo_fonte/src/App.jsx:79-87 | an entry whose id is new keeps the ids distinct |
| `History.RemoveUnique` | codigo_fonte/src/App.jsx:104-106 | with distinct ids, removing an id that is present removes exactly one entry |
| `App.FieldMax` | codigo_fonte/src/App.jsx:130-164 | hours fields take at most 23 and minutes fields at most 59 |
| `App.FieldsValid` | codigo_fonte/src/App.jsx:36-41 | the calculation goes ahead exactly when both hours fields are non-empty digit strings of at most 23 and both minutes fields are non-empty digit strings of at most 59 |
| `App.Evaluate` | codigo_fonte/src/App.jsx:36-73 | a calculation happens exactly when all four fields validate, and then gives an in-range reading whose `hours*60 + minutes` is `(t1 + t2) mod 1440` for add, `(t1 - t2) mod 1440` for subtract |
| `App.MakeEntry` | codigo_fonte/src/App.jsx:78-86 | the history item carries the given id and stores "+" exactly for add; `MakeEntryWellFormed` states what its strings hold |
| `App.MakeEntryWellFormed` | codigo_fonte/src/App.jsx:78-86 | the new entry is well formed, carries the given id and symbol, its time strings read back as the field values, and its result string reads back as the computed reading |
| `App.RecordKeepsHistoryValid` | codigo_fonte/src/App.jsx:78-87 | recording a successful calculation keeps the history valid |
| `App.EntryWellFormed` | codigo_fonte/src/App.jsx:78-86 | three in-range `HH:MM` strings whose result is the operation's split result form a well-formed entry |
| `App.EvaluateExamples` | codigo_fonte/src/App.jsx:51-68 | 23:30 + 01:00 = 00:30, 23:30 - 01:00 = 22:30, 01:00 - 23:30 = 01:30, and an empty field yields no result |
| `App.Calculator.constructor` | codigo_fonte/src/App.jsx:10-15 | the state starts with four empty fields, no result and an empty history, and is valid |
| `App.Calculator.HandleInputChange` | codigo_fonte/src/App.jsx:18-25 | the chosen field takes the value exactly when the keystroke filter accepts it, and otherwise keeps its old value; the other fields, the result and the history do not change |
| `App.Calculator.HandleCalculate` | codigo_fonte/src/App.jsx:35-93 | the fields never change; the success notice is raised exactly when all four fields validate; otherwise result and history are untouched; on success the result is `Evaluate` of the fields and the history is the new entry prepended and cut to five; validity is kept |
| `App.Calculator.Record` | codigo_fonte/src/App.jsx:75-87 | the result is set and the entry prepended, with the fields unchanged and validity kept |
| `App.Calculator.Reset` | codigo_fonte/src/App.jsx:96-102 | all four fields become empty and the result none, and the history is unchanged |
| `App.Calculator.RemoveFromHistory` | codigo_fonte/src/App.jsx:104-106 | the history becomes the old one without the entries of that id, and nothing else changes |

## Left out

- The JSX markup, animations, icons and card and button components
  (codigo_fonte/src/App.jsx:108-245) are presentation only. The model keeps
  only the values the inputs pass to the handlers: `maxLength` 2, and
  `maxValue` 23 or 59 (`FieldLength`, `FieldMax`).
- Toast notifications (codigo_fonte/src/App.jsx:42-47, 89-92) are a UI
  library call. `HandleCalculate` returns a `Notice` (`Performed` or
  `InvalidInput`) in their place.
- `Date.now()` as the id source (codigo_fonte/src/App.jsx:79) reads the
  wall clock. The id is a natural number supplied by the caller. The source
  does not guarantee unique ids, so the model does not require a fresh one.
  `PrependDistinct` and `RemoveUnique` say what holds when it is fresh.
- JavaScript number coercion. `isNaN` and `parseInt` accept strings such
  as `"-1"`, `" 5"` or `"1."`. The model treats field values as strings of
  ASCII digits: the keystroke filter refuses any other string, and
  `ParseDigits` gives no number for one. The `num < 0` branch of
  `validateInput` (codigo_fonte/src/App.jsx:29) can only be reached through
  such strings, so it has no counterpart here. In the component, `"+1"`,
  `" 5"`, `"5."` and `"-0"` pass both the keystroke filter and
  `validateInput` (codigo_fonte/src/App.jsx:19-22, 28-29), and `padStart`
  leaves them as they are, so a calculation with hours `"+1"` and minutes
  `"00"` stores `"+1:00"` as `time1` (codigo_fonte/src/App.jsx:80). The
  field clause of `App.Calculator.Valid` and the `IsClockString` part of
  `History.WellFormed` and `History.HistoryValid` hold only because the
  model's filter refuses such strings; the component keeps no such
  invariant.
- React's batching of state updates is not modelled. Each handler is one
  atomic method call.
- `FormatTime` spells the result's hours and minutes directly as their
  tens and units digits (`TwoDigitString`, `Tens`, `Units`) instead of
  through `NatToString` and `PadStart`. This keeps division by ten out of
  the proofs about the calculate handler. `FormatNumberRoundTrip` and
  `FormatTimeAsSource` prove the two spellings equal for every value below
  100.
- codigo_fonte/vite.config.js is build and dev-server configuration
  (injected DOM observers, `postMessage`, `console.error` patching). It is
  not part of this model.
