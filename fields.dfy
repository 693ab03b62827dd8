/** Per-field validation of the contact form in js/main.js: `validateField`,
    run when a control loses focus, and the `input` listener that clears the
    field's `error` marker while the user edits. */
module Fields {
  import opened Text
  import opened Email
  import opened Phone

  /** The verdict `validateField` reaches for a control: it rejects exactly when
      the control is required and its trimmed value is empty, or it is named
      "email" or "phone", its trimmed value is non-empty and fails that check.
      In particular a blank value is rejected exactly when the field is
      required, whatever its name: blank email and phone values are not
      checked for shape. */
  predicate FieldAccepts(name: string, required: bool, value: string)
    ensures IsBlank(value) ==> (FieldAccepts(name, required, value) <==> !required)
  {
    TrimEmptyIffBlank(value);
    var v := Trim(value);
    !(required && v == []) &&
    !(name == "email" && v != [] && !IsValidEmail(v)) &&
    !(name == "phone" && v != [] && !IsValidPhone(v))
  }

  /** A form control: its `name` attribute, whether it carries `required`, its
      current value and whether its class list holds `error`. */
  class Field {
    const name: string
    const required: bool
    var value: string
    var error: bool

    constructor (name: string, required: bool, value: string)
      ensures this.name == name && this.required == required
      ensures this.value == value && !error
    {
      this.name := name;
      this.required := required;
      this.value := value;
      error := false;
    }

    /** `validateField`: the checks run in the source's order and the first
        failure marks the field; passing every check clears the marker. */
    method Validate() returns (valid: bool)
      modifies this`error
      ensures valid == FieldAccepts(name, required, value)
      ensures error == !valid
    {
      var v := Trim(value);
      if required && v == [] {
        error := true;
        return false;
      }
      if name == "email" && v != [] && !IsValidEmail(v) {
        error := true;
        return false;
      }
      if name == "phone" && v != [] && !IsValidPhone(v) {
        error := true;
        return false;
      }
      error := false;
      return true;
    }

    /** The `input` listener: the user's edit replaces the value and the
        `error` marker is removed without re-validating. */
    method Input(newValue: string)
      modifies this
      ensures value == newValue && !error
    {
      value := newValue;
      error := false;
    }
  }

  /** An accepted email or phone field that is not blank holds, once trimmed,
      a value that passes the shape check. */
  lemma AcceptedFieldShape(name: string, required: bool, value: string)
    requires FieldAccepts(name, required, value) && !IsBlank(value)
    ensures name == "email" ==> IsValidEmail(Trim(value))
    ensures name == "phone" ==> IsValidPhone(Trim(value))
  {
    TrimEmptyIffBlank(value);
  }

  /** The blur check trims before testing the e-mail shape, the submit check
      does not: a valid address with a leading no-break space (which an e-mail
      input keeps, while it strips ordinary spaces) passes the first and fails
      the second. */
  lemma PaddedEmailPassesBlurOnly(e: string)
    requires IsValidEmail(e)
    ensures FieldAccepts("email", true, ['\U{00A0}'] + e)
    ensures !IsValidEmail(['\U{00A0}'] + e)
  {
    var p := ['\U{00A0}'] + e;
    assert e != [] by {
      assert IndexOf(e, '@') < |e|;
    }
    assert !IsWhitespace(e[0]) && !IsWhitespace(e[|e| - 1]);
    assert TrimStart(p) == TrimStart(e) by {
      assert p[1..] == e;
    }
    TrimFixesUnpadded(e);
    assert TrimStart(e) == e;
    assert Trim(p) == e;
    assert IsWhitespace(p[0]);
  }
}
