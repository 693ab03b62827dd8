/** The contact form's submit handler in js/main.js. The handler is an async
    function that suspends once, at `await simulateFormSubmission(data)`; it is
    modelled as two steps: `Submit` runs everything up to the await, and
    `Finish` runs what follows once the transport has settled. The transport's
    outcome is the parameter of `Finish`, so either outcome can be chosen. */
module Contact {
  import opened Text
  import opened Email
  import opened Phone

  datatype Option<T> = None | Some(value: T)

  /** The form's entries by control name, as `new FormData(form)` collects them. */
  type Entries = map<string, string>

  /** `formData.get(key)`: the entry's value, or null (`None`) when there is none. */
  function Get(entries: Entries, key: string): Option<string> {
    if key in entries then Some(entries[key]) else None
  }

  /** JavaScript truthiness of a `string | null`: not null and not empty. */
  predicate Truthy(v: Option<string>) {
    v.Some? && v.value != ""
  }

  /** The record the handler builds from the form and hands to the transport. */
  datatype FormInput = FormInput(
    name: Option<string>,
    phone: Option<string>,
    email: Option<string>,
    location: string,
    inquiryType: Option<string>,
    message: Option<string>,
    wantCallback: bool)

  /** Builds the record: `location` falls back to '' through `||`, and
      `wantCallback` compares the checkbox entry with 'on'. */
  function Collect(entries: Entries): (d: FormInput)
    ensures d.location == (if "location" in entries then entries["location"] else "")
    ensures d.wantCallback <==> "callback" in entries && entries["callback"] == "on"
    ensures d.name.Some? <==> "name" in entries
    ensures d.phone.Some? <==> "phone" in entries
    ensures d.email.Some? <==> "email" in entries
    ensures d.message.Some? <==> "message" in entries
    ensures d.inquiryType.Some? <==> "inquiryType" in entries
    ensures d.name.Some? ==> d.name.value == entries["name"]
    ensures d.phone.Some? ==> d.phone.value == entries["phone"]
    ensures d.email.Some? ==> d.email.value == entries["email"]
    ensures d.message.Some? ==> d.message.value == entries["message"]
    ensures d.inquiryType.Some? ==> d.inquiryType.value == entries["inquiryType"]
  {
    var location := Get(entries, "location");
    FormInput(
      Get(entries, "name"),
      Get(entries, "phone"),
      Get(entries, "email"),
      if Truthy(location) then location.value else "",
      Get(entries, "inquiryType"),
      Get(entries, "message"),
      Get(entries, "callback") == Some("on"))
  }

  /** What a submission attempt can end in, other than success. */
  datatype SubmitError = MissingRequired | MalformedEmail | MalformedPhone | TransportFailure

  /** The text `showFormError` receives for each failure: a non-empty
      sentence. */
  function Message(e: SubmitError): (r: string)
    ensures r != [] && r[|r| - 1] == '.'
  {
    match e
    case MissingRequired => "Vennligst fyll ut alle p\U{00E5}krevde felt."
    case MalformedEmail => "Vennligst oppgi en gyldig e-postadresse."
    case MalformedPhone => "Vennligst oppgi et gyldig telefonnummer."
    case TransportFailure => "Noe gikk galt. Vennligst pr\U{00F8}v igjen eller ring oss direkte."
  }

  /** Each failure has its own text, so the visitor can tell them apart. */
  lemma MessageIdentifiesFailure(e: SubmitError, f: SubmitError)
    ensures Message(e) == Message(f) <==> e == f
  {
  }

  /** The label the submit button shows while the transport call is pending. */
  const BusyLabel: string := "<span>Sender...</span>"

  /** Name, phone, email and message are all present and non-empty. The test is
      on the raw values: a value of white space only passes it. */
  predicate HasRequired(d: FormInput) {
    Truthy(d.name) && Truthy(d.phone) && Truthy(d.email) && Truthy(d.message)
  }

  /** A record that passes every check, and so may reach the transport. */
  predicate Deliverable(d: FormInput) {
    HasRequired(d) && IsValidEmail(d.email.value) && IsValidPhone(d.phone.value)
  }

  /** The handler's three checks in order, stopping at the first failure:
      required fields, then the e-mail shape, then the phone shape. */
  function Check(d: FormInput): (r: Option<SubmitError>)
    ensures r == None <==> Deliverable(d)
    ensures r == Some(MissingRequired) <==> !HasRequired(d)
    ensures r == Some(MalformedEmail) <==> HasRequired(d) && !IsValidEmail(d.email.value)
    ensures r == Some(MalformedPhone) <==>
      HasRequired(d) && IsValidEmail(d.email.value) && !IsValidPhone(d.phone.value)
    ensures r != Some(TransportFailure)
  {
    if !Truthy(d.name) || !Truthy(d.phone) || !Truthy(d.email) || !Truthy(d.message) then
      Some(MissingRequired)
    else if !IsValidEmail(d.email.value) then
      Some(MalformedEmail)
    else if !IsValidPhone(d.phone.value) then
      Some(MalformedPhone)
    else
      None
  }

  /** What every record that reaches the transport satisfies: non-empty name
      and message, an address with exactly one '@' and no white space, and a
      phone number with 8 significant characters, or 11 with "+47". */
  lemma DeliverableRecordShape(d: FormInput)
    requires Check(d) == None
    ensures d.name.Some? && d.name.value != [] && d.message.Some? && d.message.value != []
    ensures d.email.Some? && CountOf(d.email.value, '@') == 1 && HasNoWhitespace(d.email.value)
    ensures d.phone.Some? && (|Clean(d.phone.value)| == 8 || |Clean(d.phone.value)| == 11)
  {
    AcceptedPhoneLength(d.phone.value);
  }

  /** A field of white space only passes the presence check of the submit
      handler although trimming it, as the blur check does, leaves nothing. */
  lemma BlankValuePassesPresence(s: string)
    requires s != [] && IsBlank(s)
    ensures Truthy(Some(s)) && Trim(s) == []
  {
    TrimEmptyIffBlank(s);
  }

  /** The form with its submit button, its success and error surfaces, and
      the records handed to the transport so far. */
  class ContactForm {
    /** The entries the form's controls currently hold. */
    var entries: Entries
    /** The entries `form.reset()` restores. */
    const defaults: Entries
    /** `contactForm.style.display = 'none'` has run. */
    var formHidden: bool
    /** The success surface carries `active`. */
    var successShown: bool
    /** The error surface carries `active`, with `errorText` as its text. */
    var errorShown: bool
    var errorText: string
    /** The submit button's `disabled` flag and `innerHTML`. */
    var buttonDisabled: bool
    var buttonLabel: string
    /** The handler is suspended at the transport call; `savedLabel` is its
        local `originalText`. */
    var pending: bool
    var savedLabel: string
    /** Every record handed to the transport, oldest first. */
    var sent: seq<FormInput>

    /** The button is disabled exactly while a call is pending, then shows the
        busy label, and nothing that fails a check was ever sent. */
    ghost predicate Valid()
      reads this
    {
      buttonDisabled == pending &&
      (pending ==> buttonLabel == BusyLabel) &&
      forall k | 0 <= k < |sent| :: Deliverable(sent[k])
    }

    constructor (defaults: Entries, initialLabel: string)
      ensures Valid()
      ensures this.defaults == defaults && entries == defaults
      ensures !formHidden && !successShown && !errorShown
      ensures !buttonDisabled && buttonLabel == initialLabel && !pending && sent == []
    {
      this.defaults := defaults;
      entries := defaults;
      formHidden, successShown := false, false;
      errorShown, errorText := false, "";
      buttonDisabled, buttonLabel := false, initialLabel;
      pending, savedLabel := false, "";
      sent := [];
    }

    /** `showFormError(message)`: the error surface shows `message`. */
    method ShowError(message: string)
      modifies this`errorShown, this`errorText
      ensures errorShown && errorText == message
    {
      errorShown, errorText := true, message;
    }

    /** `showFormSuccess()`: the form is hidden and the success surface shown. */
    method ShowSuccess()
      modifies this`formHidden, this`successShown
      ensures formHidden && successShown
    {
      formHidden, successShown := true, true;
    }

    /** The handler up to the await. A failed check shows its message and
        changes nothing else; otherwise the button is disabled with the busy
        label, its old label is saved, and the record goes to the transport. The
        form is assumed to have one submit button, the one the handler
        disables; the browser dispatches no submit while it is disabled, hence
        `!pending`. */
    method Submit()
      requires Valid() && !pending
      modifies this
      ensures Valid()
      ensures entries == old(entries) && formHidden == old(formHidden)
      ensures successShown == old(successShown)
      ensures Check(Collect(entries)).Some? ==>
        errorShown && errorText == Message(Check(Collect(entries)).value) &&
        !pending && buttonLabel == old(buttonLabel) && sent == old(sent)
      ensures Check(Collect(entries)).None? ==>
        pending && buttonDisabled && buttonLabel == BusyLabel &&
        savedLabel == old(buttonLabel) && sent == old(sent) + [Collect(entries)] &&
        errorShown == old(errorShown) && errorText == old(errorText)
    {
      var data := Collect(entries);
      if !Truthy(data.name) || !Truthy(data.phone) || !Truthy(data.email) || !Truthy(data.message) {
        ShowError(Message(MissingRequired));
        return;
      }
      if !IsValidEmail(data.email.value) {
        ShowError(Message(MalformedEmail));
        return;
      }
      if !IsValidPhone(data.phone.value) {
        ShowError(Message(MalformedPhone));
        return;
      }
      savedLabel := buttonLabel;
      buttonDisabled := true;
      buttonLabel := BusyLabel;
      sent := sent + [data];
      pending := true;
    }

    /** The handler after the await. On success the success surface is shown
        and the form reset; on failure the generic error is shown and the
        entries are kept. Either way the button is re-enabled with the label
        saved before the call. */
    method Finish(transportSucceeded: bool)
      requires Valid() && pending
      modifies this
      ensures Valid()
      ensures !pending && !buttonDisabled && buttonLabel == old(savedLabel) && sent == old(sent)
      ensures transportSucceeded ==>
        formHidden && successShown && entries == defaults &&
        errorShown == old(errorShown) && errorText == old(errorText)
      ensures !transportSucceeded ==>
        errorShown && errorText == Message(TransportFailure) &&
        entries == old(entries) && formHidden == old(formHidden) &&
        successShown == old(successShown)
    {
      if transportSucceeded {
        ShowSuccess();
        entries := defaults;
      } else {
        ShowError(Message(TransportFailure));
      }
      buttonDisabled := false;
      buttonLabel := savedLabel;
      pending := false;
    }

    /** One whole submission attempt whose transport call, if made, settles
        with `transportSucceeded`: the button ends enabled with the label it had
        before, exactly the records that pass every check are sent, and each
        outcome touches only its own surface. */
    method HandleSubmit(transportSucceeded: bool)
      requires Valid() && !pending
      modifies this
      ensures Valid() && !pending && !buttonDisabled && buttonLabel == old(buttonLabel)
      ensures Check(Collect(old(entries))).Some? ==>
        sent == old(sent) && entries == old(entries) &&
        errorShown && errorText == Message(Check(Collect(old(entries))).value)
      ensures Check(Collect(old(entries))).Some? ==>
        formHidden == old(formHidden) && successShown == old(successShown)
      ensures Check(Collect(old(entries))).None? ==>
        sent == old(sent) + [Collect(old(entries))]
      ensures Check(Collect(old(entries))).None? && transportSucceeded ==>
        formHidden && successShown && entries == defaults
      ensures Check(Collect(old(entries))).None? && transportSucceeded ==>
        errorShown == old(errorShown) && errorText == old(errorText)
      ensures Check(Collect(old(entries))).None? && !transportSucceeded ==>
        entries == old(entries) && errorShown && errorText == Message(TransportFailure)
      ensures Check(Collect(old(entries))).None? && !transportSucceeded ==>
        formHidden == old(formHidden) && successShown == old(successShown)
    {
      Submit();
      if pending {
        Finish(transportSucceeded);
      }
    }
  }
}
