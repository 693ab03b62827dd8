# Contact form and navigation rules of the Uno Ilebakke site script

This project is a Dafny model of the rule-bearing parts of `js/main.js`, the
client-side script of a plumbing business's static web site. It covers the
following parts:

- **Field predicates.** `isValidEmail` is a loose e-mail shape check.
  `isValidPhone` accepts Norwegian numbers: it strips separators, then allows
  an optional `+47` followed by a digit 2-9 and seven more digits. Both are
  written as character-level predicates. Each is proved equal to a
  definition that follows its regular expression part by part.
- **`validateField`.** This runs when a form control loses focus. It trims
  the value, decides valid or invalid, and sets or clears the control's
  `error` class. The `input` listener clears that class while the user types.
- **The submit handler.** It collects the form's entries into a record. It
  then checks, in order: required fields, the e-mail shape, the phone shape.
  If all pass, it disables the button, shows a busy label and calls a
  transport. On success it shows the success surface and resets the form; on
  failure it shows a generic error. In both cases it restores the button.
- **`setActiveNavLink`.** It derives the page name from the URL path and marks
  exactly the links whose `href` equals it.
- **The mobile menu.** Toggle, link click, outside click and Escape change
  two `active` classes and the body's `overflow` style.

The modules follow the script's sections:

- `Text` (`text.dfy`): the `\s` character set and `trim`.
- `Email` (`email.dfy`) and `Phone` (`phone.dfy`): the two predicates.
- `Fields` (`fields.dfy`): a `Field` class for `validateField`.
- `Contact` (`contact.dfy`): the `ContactForm` class for the submit handler.
- `Navigation` (`navigation.dfy`): the page name, the `NavLink` loop and the
  `MobileNav` class.

Modelling choices:

- JavaScript's `\s` and `trim` are the fixed ECMAScript white-space and
  line-terminator set. `\d` is the ASCII digits.
- `new FormData(form)` is a map from control name to value. `formData.get`
  yields `None` for JavaScript's `null`.
- The handler is `async` and suspends once, at the transport call. It is
  split there: `ContactForm.Submit` runs up to the `await`, and
  `ContactForm.Finish` runs the rest with the transport's outcome as a
  parameter, so both outcomes are covered. `ContactForm.HandleSubmit`
  composes the two.
- `ContactForm.sent` records every record handed to the transport. The class
  invariant says each one passed all three checks.
- `Submit` requires that no call is pending. The handler disables only the
  first `button[type="submit"]` of the form (js/main.js:144). The model
  assumes that it is the form's only submit button; the page markup is not
  part of this model. Under that assumption the browser dispatches no submit
  event while a call is pending, neither from a click nor from implicit
  submission.
- A link whose `href` attribute is missing reads as `null`, which never equals
  the non-empty page name. It is modelled as `""`, which never equals it
  either.
- The menu state starts closed with an empty `overflow` style.

Where the code differs from what its names suggest, the model follows the code:

- `validateField` picks the e-mail and phone checks by the control's `name`
  attribute, not by an input kind.
- The collected record's fields may be `null` before the checks run.
- After a success nothing in the code prevents another submission; the form
  is only hidden.

## Model

| member | source | states |
|---|---|---|
| `Text.Trim` | js/main.js:184 | `trim` returns a slice of the value with blank margins on both sides, and the slice neither starts nor ends with white space |
| `Text.TrimEmptyIffBlank` | js/main.js:184-187 | the trimmed value is empty exactly when every character of the raw value is white space |
| `Text.TrimFixesUnpadded` | js/main.js:184 | a value that neither starts nor ends with white space is unchanged by `trim` |
| `Email.IsValidEmail` | js/main.js:206-209 | an accepted address is at least 5 characters long and contains an '@' and a '.' |
| `Email.ValidEmailMatchesPattern` | js/main.js:206-209 | every string the character-level e-mail predicate accepts matches `^[^\s@]+@[^\s@]+\.[^\s@]+$` |
| `Email.PatternMatchIsValidEmail` | js/main.js:206-209 | every string the e-mail regular expression matches is accepted by the character-level predicate |
| `Email.EmailIffPattern` | js/main.js:206-209 | `isValidEmail` holds exactly when: no white space, exactly one '@', a non-empty part before it, and a '.' strictly inside the part after it (both directions against the pattern) |
| `Email.EmailExamples` | js/main.js:207 | "a@b.no" is accepted; "a@b" and "a b@c.no" are rejected |
| `Phone.IsSeparator` | js/main.js:213 | the stripped characters are white space, '-', '(' and ')'; no digit and no '+' is stripped |
| `Phone.IsValidPhone` | js/main.js:211-216 | every significant character of an accepted number after the first is a digit |
| `Phone.Clean` | js/main.js:213 | the cleaned number contains no white space, '-', '(' or ')' and is never longer than the input |
| `Phone.CleanAppend` | js/main.js:213 | cleaning distributes over concatenation, so characters that are kept stay in their original order |
| `Phone.CleanSingle` | js/main.js:213 | one character is removed exactly when it is a separator |
| `Phone.CleanSeparatorFree` | js/main.js:213 | a string without separators is left unchanged |
| `Phone.CleanIdempotent` | js/main.js:213 | cleaning twice gives the same result as cleaning once |
| `Phone.PhoneIffPattern` | js/main.js:211-216 | `isValidPhone` holds exactly when the cleaned string is a digit 2-9 followed by seven digits, or "+47" followed by such a string |
| `Phone.AcceptedPhoneLength` | js/main.js:214 | an accepted number has 8 significant characters, or 11 with the country code, and starts with '+' or a digit 2-9 |
| `Phone.LeadingZeroOrOneRejected` | js/main.js:214 | significant digits starting with 0 or 1 are rejected, with or without "+47" |
| `Phone.SeparatorInsertionInvariant` | js/main.js:213-215 | inserting a separator anywhere in the input never changes the verdict |
| `Phone.CleanDropsSeparator` | js/main.js:213 | a separator between two parts is removed and each part is cleaned on its own |
| `Phone.CleanSpacedGroup` | js/main.js:213 | a space in front of a separator-free group is removed and the group kept |
| `Phone.SpacedGroupsClean` | js/main.js:213 | four separator-free groups joined by single spaces clean to the groups run together |
| `Phone.SeparatedGroupsClean` | js/main.js:213 | three separator-free groups joined by a separator clean to the groups run together |
| `Phone.SpacedPhoneCleans` | js/main.js:213 | "+47 912 34 567" cleans to "+4791234567" |
| `Phone.CleansToCountryCodeNumber` | js/main.js:211-215 | any input that cleans to "+4791234567" is accepted |
| `Phone.SpacedPhoneAccepted` | js/main.js:211-215 | "+47 912 34 567" is accepted |
| `Phone.HyphenatedPhoneCleans` | js/main.js:213 | "123-456-78" cleans to "12345678" |
| `Phone.HyphenatedLeadingOneRejected` | js/main.js:213-215 | "123-456-78" is rejected, because its significant digits start with 1 |
| `Phone.ShortPhoneRejected` | js/main.js:214 | "12345" is rejected as too short |
| `Fields.Field.Validate` | js/main.js:183-204 | returns false exactly when the field is required and its trimmed value empty, or is named email or phone with a non-empty trimmed value failing that check; afterwards the field carries `error` exactly when it returned false |
| `Fields.Field.Input` | js/main.js:176-179 | an edit replaces the value and removes `error` without re-validating |
| `Fields.FieldAccepts` | js/main.js:183-204 | a blank value is rejected exactly when the field is required, whatever its name; blank email and phone values are not shape-checked |
| `Fields.AcceptedFieldShape` | js/main.js:192-200 | an accepted, non-blank email or phone field holds a trimmed value that passes its shape check |
| `Fields.PaddedEmailPassesBlurOnly` | js/main.js:184-192 | a valid address with a leading no-break space (U+00A0, which an e-mail input keeps) passes the blur check, which trims, but fails the shape check the submit handler applies to the raw value (line 132) |
| `Contact.Collect` | js/main.js:114-123 | the record's `location` is the entry's value or '' when absent, `wantCallback` holds exactly when the `callback` entry is 'on', and the other fields are the entries or null |
| `Contact.Message` | js/main.js:125-161 | each failure is reported with a non-empty sentence ending in '.' |
| `Contact.MessageIdentifiesFailure` | js/main.js:125-161 | two failures get the same text only when they are the same failure |
| `Contact.Check` | js/main.js:125-141 | missing name, phone, email or message gives the missing-fields error; otherwise a bad email gives the e-mail error; otherwise a bad phone gives the phone error; otherwise nothing; a transport failure is never reported here |
| `Contact.DeliverableRecordShape` | js/main.js:125-141 | a record that passes the checks has a non-empty name and message, an e-mail with exactly one '@' and no white space, and a phone with 8 or 11 significant characters |
| `Contact.BlankValuePassesPresence` | js/main.js:126 | a value of white space only passes the submit handler's presence check although trimming it leaves nothing |
| `Contact.ContactForm.ShowError` | js/main.js:218-222 | the error surface becomes visible with the given text |
| `Contact.ContactForm.ShowSuccess` | js/main.js:231-236 | the form is hidden and the success surface shown |
| `Contact.ContactForm.Submit` | js/main.js:110-147 | a failed check shows its message and calls no transport; otherwise the button is disabled with the busy label, the old label is saved, and the record is handed to the transport; the invariant that only records passing every check are sent is kept |
| `Contact.ContactForm.Finish` | js/main.js:149-166 | on success the success surface is shown and the entries reset to their defaults; on failure the generic error is shown and the entries are kept; in both cases the button is re-enabled with the label saved before the call |
| `Contact.ContactForm.HandleSubmit` | js/main.js:110-166 | over a whole attempt the button ends enabled with its earlier label, and a record is sent exactly when it passes every check; a failed check or a transport failure leaves the form and success surface as they were, and a success leaves the error surface as it was |
| `Navigation.LastSegment` | js/main.js:90 | `split('/').pop()` is the longest suffix of the path without '/' |
| `Navigation.PageName` | js/main.js:89-90 | the page name is never empty: the last segment, or "index.html" when that segment is empty |
| `Navigation.TrailingSlashSelectsDefault` | js/main.js:90 | a path ending in '/' selects "index.html" |
| `Navigation.PageNameIgnoresDirectories` | js/main.js:90 | the directories in front of the last segment do not affect the page name |
| `Navigation.IsActiveFor` | js/main.js:94-96 | a link whose href equals the page name is marked; any other marked link is "index.html" under an empty page name |
| `Navigation.ActiveIffHrefIsPage` | js/main.js:94-96 | the three-way test for marking a link reduces to href equal to the page name |
| `Navigation.SetActiveNavLink` | js/main.js:88-102 | afterwards each link is active exactly when its href equals the page name; every other link loses `active` |
| `Navigation.Header.constructor` | js/main.js:65-69 | `lastScroll` starts at 0 and the class list is as the markup gives it; without `scrolled` in the markup the marker already agrees with the position |
| `Navigation.Header.OnScroll` | js/main.js:71-82 | afterwards the header holds `scrolled` exactly when the position is more than 10 pixels, and the position is remembered |
| `Navigation.MobileNav.Close` | js/main.js:35-37 | both `active` classes are removed and the overflow style cleared |
| `Navigation.MobileNav.OnToggleClick` | js/main.js:26-30 | the toggle flips the menu state and keeps toggle, menu and overflow in agreement |
| `Navigation.MobileNav.OnLinkClick` | js/main.js:33-39 | a link click always closes the menu |
| `Navigation.MobileNav.OnDocumentClick` | js/main.js:42-50 | a click closes the menu only when it is open and the target is outside both the menu and the toggle; otherwise nothing changes |
| `Navigation.MobileNav.OnKeyDown` | js/main.js:53-59 | Escape closes an open menu; any other key, or Escape on a closed menu, changes nothing |
| `Navigation.MobileNav.ClickToggleButton` | js/main.js:26-50 | a click on the toggle that bubbles to the document's listener still flips the menu |

## Left out

- Looking up DOM elements and registering listeners (js/main.js:12-18, 170-180, 493-513) are not modelled. The guards that return early when an element is missing (lines 24, 66, 108, 219, 232) are left out too; the model assumes every element exists. The same holds for the submit button looked up at lines 144-145, which is used unchecked: a form without one would throw at line 145, outside the `try`.
- `Contact.ContactForm.ShowError`: does not model the `scrollIntoView` call or the 5-second timer that hides the error surface again; in the model the error stays shown. This is wall-clock behaviour.
- `Contact.ContactForm.ShowSuccess`: does not model `scrollIntoView`, which depends on browser layout.
- `Contact.ContactForm.Finish`: the `console.error` logging of the failure cause is I/O and is not modelled.
- `simulateFormSubmission` (lines 239-266), with its 1500 ms delay and its promise that always resolves, is not modelled. The transport is an outcome chosen by the caller of `Finish`.
- `Contact.ContactForm.Submit`: a second submission while one is pending is excluded by its precondition. The browser does not dispatch one while the only submit button is disabled, and a programmatic `requestSubmit()` or a second submit button is not modelled. Such a submission would save the busy label "<span>Sender...</span>" as its `originalText` (line 145), and after both calls settle the button would keep showing the busy label.
- `FormData` is modelled as a map, so a control name that occurs twice and file entries are not represented. The link between a `Field` object and the form's entries is not modelled either, and neither is the fact that `form.reset()` leaves the `error` classes in place.
- Header scroll handling: reading `window.pageYOffset` is a browser query, so the position is a parameter of `Navigation.Header.OnScroll`. The class list of the header before the first scroll event comes from the markup and is a constructor parameter.
- Smooth scrolling (lines 271-290) is not modelled; it is pixel arithmetic on browser layout.
- Phone-link analytics (lines 295-310), lazy images and scroll animation (lines 315-369), the footer year (lines 374-381), the service-worker stub (lines 435-448) and the map embed (lines 453-488) are not modelled. They are foreign calls, clock reads or browser observer callbacks.
- The keyboard helpers and the focus trap in the menu (lines 386-428) are not modelled; they depend on document focus state.
- Strings are sequences of Unicode scalar values rather than UTF-16 code units. Every character the predicates test lies in the Basic Multilingual Plane, so the verdicts are the same.
