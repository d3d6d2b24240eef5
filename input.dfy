/** The two checks applied to the four text fields: the keystroke filter
    (`handleInputChange`, codigo_fonte/src/App.jsx:18-25) and the
    validation before a calculation (`validateInput`,
    codigo_fonte/src/App.jsx:27-33). Field values are modelled as strings
    of ASCII digits. */
module Input {
  import opened Digits

  /** Every field is limited to two characters (`maxLength` 2 at each call site). */
  const FieldLength: nat := 2

  /** A new field value is taken when it is short enough, numeric, and,
      read with the empty string as "0", no larger than the maximum. */
  predicate KeystrokeAccepted(value: string, maxLength: nat, maxValue: nat): (ok: bool)
    ensures ok <==> |value| <= maxLength && AllDigits(value) && (value == [] || DigitsValue(value) <= maxValue)
  {
    var zero := "0";
    assert DigitsValue(zero) == 0;
    |value| <= maxLength && AllDigits(value) &&
    DigitsValue(if value == [] then zero else value) <= maxValue
  }

  /** `validateInput`: the field parses as a number in 0..max. */
  function ValidateInput(value: string, max: nat): (ok: bool)
    ensures ok <==> value != [] && AllDigits(value) && DigitsValue(value) <= max
  {
    match ParseDigits(value)
    case None => false
    case Some(n) => 0 <= n <= max
  }

  /** The keystroke filter accepts the empty string, whatever the maximum. */
  lemma EmptyAccepted(maxLength: nat, maxValue: nat)
    ensures KeystrokeAccepted("", maxLength, maxValue)
  {
    assert DigitsValue("0") == 0;
  }

  /** "25" is refused in an hours field and "9" is taken; "123" is refused
      anywhere however large the maximum. */
  lemma KeystrokeExamples()
    ensures !KeystrokeAccepted("25", FieldLength, 23)
    ensures KeystrokeAccepted("9", FieldLength, 23)
    ensures !KeystrokeAccepted("123", FieldLength, 1000)
  {
    assert "25"[..1] == "2";
    assert DigitsValue("25") == 25;
    assert DigitsValue("9") == 9;
  }

  /** Once a field has passed the keystroke filter, the validation before a
      calculation fails on it exactly when it is empty. */
  lemma AcceptedValidIffNonEmpty(value: string, maxLength: nat, maxValue: nat)
    requires KeystrokeAccepted(value, maxLength, maxValue)
    ensures ValidateInput(value, maxValue) <==> value != []
  {
  }
}
