# Rayo de Sol contact form — a Dafny model

This project models the contact form of the Rayo de Sol site (`script.js`). The form has four fields: `nombre`, `email`, `telefono` and `mensaje`. The model has four parts:

- **The phone formatter** (`text.dfy`, `phone.dfy`). The phone field's `input` listener keeps only digits and `+`. It may add the Chilean country code 56. It then regroups the digits as `+56 9 XXXX XXXX` and drops every digit after the eleventh. This part is modelled as pure functions over strings.
- **The field rules** (`rules.dfy`). `validateField` trims the value, then checks emptiness, then length, then a fixed pattern per field. It gives acceptance or the message of the first check that fails. The three regular expressions are written out as predicates:
  - the name character class;
  - the email shape;
  - the Chilean mobile shape.

  JavaScript's `trim`, `\s`, `\d` and `length` (in UTF-16 code units) are modelled explicitly in `text.dfy`.
- **The form** (`form.dfy`). The class `Form` holds each field's value, its `invalid`/`valid` classes and its error span's text and visibility. It also holds the submit button's label and `disabled` flag. Its methods are the page's handlers:
  - `showError` and `clearError`;
  - `validateField`;
  - the `blur` and `input` listeners;
  - the `submit` handler up to the request (`Submit`);
  - the request's settlement (`Complete`).

  The class invariant says four things:
  - the two classes are never both set;
  - the error span is shown exactly while the field is flagged invalid;
  - an invalid field shows the message its current value deserves;
  - the button is disabled exactly while a request is outstanding.

  After a delivered request, `Form.Complete` resets every field with the corrected `Reset` from the Findings row: the value is emptied, both classes are removed and the error span is cleared. script.js:272-277 leaves the span as it was; that behaviour is `ResetAsWritten`, stated per field. The invariant's second clause depends on the correction.
- **Concrete examples** (`scenarios.dfy`): names, addresses, numbers and messages that are proved to get the stated verdicts from the rules, and sessions on a `Form` whose outcomes are proved.

A blocked submission re-validates every field (script.js:239-244). A field that passes therefore becomes flagged valid, even if it was untouched before.

## Model

| member | source | states |
|---|---|---|
| Text.IsSpace | script.js:158 | the characters `\s` matches and `trim` removes: the ECMAScript WhiteSpace and LineTerminator code points |
| Text.IsDigit | script.js:195 | `\d` matches the ASCII digits only |
| Text.TrimStart | script.js:158 | the leading half of `trim`: drops whitespace from the front, one character at a time |
| Text.TrimEnd | script.js:158 | the trailing half of `trim`: drops whitespace from the back, one character at a time |
| Text.StartsWith | script.js:98-104 | `startsWith`: the value begins with the given prefix |
| Text.Trim | script.js:158 | `String.prototype.trim`: both halves; its properties are stated by `TrimSpec` |
| Text.TrimStartSpec | script.js:158 | `trim`'s leading half drops a prefix made only of whitespace and keeps a suffix that does not start with whitespace |
| Text.TrimEndSpec | script.js:158 | `trim`'s trailing half drops a suffix made only of whitespace and keeps a prefix that does not end with whitespace |
| Text.TrimSpec | script.js:158 | the trimmed value is a slice of the input with only whitespace around it and none at its ends; it is empty exactly when the input is all whitespace; a value with nothing to trim is unchanged |
| Text.Utf16Length | script.js:162-168 | `length` counts UTF-16 code units: at least one and at most two per character |
| Text.Utf16LengthBmp | script.js:207 | for text in the Basic Multilingual Plane, `length` is the number of characters |
| PhoneFormat.Filter | script.js:95 | a global `replace` of a negated class keeps only matching characters and never lengthens the value |
| PhoneFormat.FilterConcat | script.js:95 | filtering a concatenation filters each part |
| PhoneFormat.FilterAll | script.js:95 | filtering leaves a value unchanged when every character is kept |
| PhoneFormat.KeepDialable | script.js:95 | `replace(/[^\d+]/g, '')` leaves only digits and `+` |
| PhoneFormat.Digits | script.js:111 | `replace(/\D/g, '')` leaves only ASCII digits |
| PhoneFormat.DigitsOfDialable | script.js:95-111 | removing everything except digits and `+` keeps every digit |
| PhoneFormat.CountryDigits | script.js:95-111 | the digit string the layout works on holds only digits |
| PhoneFormat.AddCountryCode | script.js:98-107 | the prefixing branches in source order: a value that is empty or starts with `+` is kept; `56…` gains `+`; `9…` of at most nine characters and any value not starting with `0` gain `+56`; a value starting with `0` is kept; its effect on digits is stated by `PrefixedDigits` |
| PhoneFormat.Layout | script.js:110-123 | the grouping by digit count: empty, `+D`, `+D[0:2] D[2:]`, `+D[0:2] D[2:3] D[3:]`, or `+D[0:2] D[2:3] D[3:7] D[7:11]`; its properties are stated by `LayoutKeepsDigits` and `LayoutDigits` |
| PhoneFormat.Format | script.js:95-125 | the value the listener writes back: the layout of the digit string after prefixing; its properties are stated by `FormatIdempotent` and `FormatAcceptedIff` |
| PhoneFormat.Significant | script.js:122 | the layout keeps the first eleven digits: all of them when there are at most eleven, exactly eleven otherwise |
| PhoneFormat.PrefixedDigits | script.js:98-107 | a stripped value that is empty or starts with `+`, `0` or `56` gains no country-code digits; any other value gains `56` before its digits; a non-empty value not starting with `0` ends up starting with `+` |
| PhoneFormat.FilterJoin | script.js:118-122 | the spaces the layout inserts between groups are dropped by a later filter |
| PhoneFormat.LayoutKeepsDigits | script.js:113-123 | the output is empty exactly when the digit string is; otherwise it starts with `+`, has no whitespace at either end and holds only digits, `+` and spaces; the next keystroke's filter recovers `+` and the first eleven digits |
| PhoneFormat.AppendGroup | script.js:118-122 | appending a space and a digit group keeps the leading `+`; the next keystroke's filter recovers the group |
| PhoneFormat.LayoutThree | script.js:117-118 | with three digits the layout is trimmed, holds only display characters, and filters back to `+` and the digits |
| PhoneFormat.LayoutSeven | script.js:119-120 | the same for four to seven digits |
| PhoneFormat.LayoutEleven | script.js:121-122 | the same for eight to eleven digits |
| PhoneFormat.LayoutDigits | script.js:110-123 | the digits of the output are the first eleven digits of the digit string |
| PhoneFormat.LayoutOfSignificant | script.js:122 | digits past the eleventh never affect the output |
| PhoneFormat.FormatIdempotent | script.js:95-125 | formatting the formatter's own output returns it unchanged |
| FieldRules.Id | script.js:218 | the element id of each of the four fields |
| FieldRules.RequiredMessage | script.js:161-206 | each field's "obligatorio" message; the length and pattern messages (`NameTooShort`, `NameNotLetters`, `EmailMalformed`, `PhoneMalformed`, `MessageTooShort`) are constants with the source's text |
| FieldRules.IsNameChar | script.js:170 | the name class: ASCII letters, the accented vowels in both cases, `ñ`, `Ñ`, `ü`, `Ü` and whitespace |
| FieldRules.NamePattern | script.js:170 | `^[…]+$`: a non-empty value made only of name characters |
| FieldRules.IsAddressChar | script.js:182 | the class `[^\s@]` |
| FieldRules.AddressRun | script.js:182 | `[^\s@]+`: a non-empty run of that class |
| FieldRules.EmailPattern | script.js:182 | `^[^\s@]+@[^\s@]+\.[^\s@]+$`: an `@` and a later `.` split the value into three runs; characterised by `EmailPatternIff` |
| FieldRules.MobilePattern | script.js:195 | `^\+56\s?9\s?\d{4}\s?\d{4}$`: `+56`, then the rest after an optional whitespace character |
| FieldRules.AfterCountryCode | script.js:195 | `9\s?\d{4}\s?\d{4}$`: a `9`, then the two blocks after an optional whitespace character |
| FieldRules.TwoBlocks | script.js:195 | `\d{4}\s?\d{4}$`: four digits, an optional whitespace character and exactly four more digits |
| FieldRules.FieldNamed | script.js:160-214 | the `switch` on the element id selects the field with that id, and no rule for any other id |
| FieldRules.FieldNamedId | script.js:218-221 | each field's own id selects that field's rule |
| FieldRules.SkipSpace | script.js:195 | what `\s?` leaves when a `9` or a digit must follow: a leading whitespace character is consumed, anything else is left |
| FieldRules.SkipSpaceSplit | script.js:195 | `\s?` followed by a character that is not whitespace matches one way only: whatever the optional part took (nothing or one whitespace character), `SkipSpace` leaves exactly the rest |
| FieldRules.Check | script.js:157-212 | a value that trims to nothing gets the field's required message; every rejection carries a non-empty message |
| FieldRules.EmailPatternIff | script.js:182 | the email pattern holds exactly when the value has no whitespace, a single `@` that is not first, and a `.` strictly inside the part after the `@` |
| FieldRules.RunsCover | script.js:182 | three non-empty runs of non-space, non-`@` characters around an `@` and a `.` give that shape |
| FieldRules.ShapeSplits | script.js:182 | a value of that shape splits into the pattern's three runs |
| FieldRules.CheckAcceptsIff | script.js:158-212 | each rule accepts exactly the values whose trimmed form is long enough and matches the field's pattern; a non-empty rejected value gets the field's length or pattern message, in the source's order |
| FieldRules.RequiredIffBlank | script.js:158-206 | the required message is given exactly for values that are empty or all whitespace, for every field |
| FieldRules.SkipSpaceKeeps | script.js:195 | an optional whitespace character carries no digit and no `+` |
| FieldRules.TwoBlocksDigits | script.js:195 | `\d{4}\s?\d{4}` holds eight digits and nothing else the formatter keeps |
| FieldRules.AfterCountryCodeDigits | script.js:195 | `9\s?\d{4}\s?\d{4}` holds nine digits, the first a 9, and nothing else the formatter keeps |
| FieldRules.MobileDigits | script.js:195 | a value matching the phone pattern holds eleven digits starting 569, and its only other kept character is the leading `+` |
| FieldRules.CountryCodeSplit | script.js:195 | after `+56`, every kept character comes from the rest of the value |
| FieldRules.CountryCodeFilters | script.js:103 | the `+56` prefix contributes the digits 56 |
| FieldRules.LayoutIsMobile | script.js:122-195 | the layout of at least eleven digits starting 569 matches the phone pattern |
| FieldRules.PhoneCheckOfTrimmed | script.js:189-200 | on a value with nothing to trim, the phone rule accepts exactly the values matching the phone pattern |
| FieldRules.FormatAcceptedIff | script.js:94-198 | the formatted value passes the phone rule exactly when its digit string has at least eleven digits and starts with 569 |
| FieldRules.FormatPartialRejected | script.js:94-198 | a formatted value with between one and ten digits is refused with the pattern message |
| FieldRules.LayoutMobileIff | script.js:110-198 | the layout matches the phone pattern exactly when the digit string has at least eleven digits and starts with 569 |
| FieldRules.FormatKeepsMobile | script.js:94-198 | retyping an accepted number keeps its digits and it stays accepted |
| ContactForm.Consistent | script.js:130-154 | the state `showError` and `clearError` keep: never both classes, the span visible exactly while the field is invalid, and empty otherwise |
| ContactForm.CurrentError | script.js:156-215 | a field flagged invalid shows the message its rule gives its current value |
| ContactForm.Shown | script.js:130-141 | `showError` sets the message, shows the span, flags the field invalid and not valid, and keeps the value |
| ContactForm.Cleared | script.js:143-154 | `clearError` empties and hides the span, flags the field valid and not invalid, and keeps the value |
| ContactForm.Judged | script.js:130-154 | showing a verdict, through either `showError` or `clearError`, never changes the field's value |
| ContactForm.Judge | script.js:156-215 | what `validateField` does to a field: its rule's verdict on the current value, shown through `showError` or `clearError`; stated by `JudgedIsCurrent` and `JudgeIdempotent` |
| ContactForm.JudgedIsCurrent | script.js:130-215 | after a rule has run, the field is accepted exactly when it ends valid, not invalid, with no message, and rejected exactly when it ends invalid, not valid, with a non-empty message that matches its value |
| ContactForm.JudgeIdempotent | script.js:156-215 | validating a field twice is validating it once; its value is kept |
| ContactForm.ResetAsWritten | script.js:272-277 | the success reset as written: the value emptied and both classes removed, the span left as it was |
| ContactForm.ResetAsWrittenLeavesMessage | script.js:272-277 | after the success reset as written, a field invalidated during the request still shows its message on an empty, unflagged input |
| ContactForm.Reset | script.js:272-277 | the corrected reset empties the value, removes both classes and clears the error span; otherwise it agrees with the reset as written |
| ContactForm.Index | script.js:236 | each field has a position in document order |
| ContactForm.IndexOrder | script.js:236 | the field at a position has that position |
| ContactForm.FirstInvalid | script.js:248 | `querySelector('.invalid')` finds the first field flagged invalid in document order, or none when no field is flagged |
| ContactForm.Rewritten | script.js:223-224 | writing a new value into a field leaves every field consistent and every other field's message current; only that field's message may be stale |
| ContactForm.Rejudged | script.js:156-215 | showing a field's verdict on its current value brings its message up to date |
| ContactForm.AcceptedBeforeStep | script.js:239-244 | `isValid` after one more field is its value before, and that field's acceptance |
| ContactForm.JudgedBeforeStep | script.js:239-244 | the loop has validated the fields before the current one and has not yet touched the others |
| ContactForm.ResetBeforeStep | script.js:274-277 | the reset loop has reset the fields before the current one, left the others alone, and kept the invariant |
| ContactForm.Form.Valid | script.js:130-289 | the class invariant: every field `Consistent` with its message current, and the button disabled, labelled `Enviando...` and its label saved exactly while a request is outstanding |
| ContactForm.Form.constructor | script.js:90-91 | at page load every field is empty and unflagged, and the button is enabled with its label |
| ContactForm.Form.ShowError | script.js:130-141 | only the named field changes, as `showError` describes |
| ContactForm.Form.ClearError | script.js:143-154 | only the named field changes, as `clearError` describes |
| ContactForm.Form.Validate | script.js:157-214 | the field's rule runs on its current value; the result is whether it accepted; the verdict is shown on that field alone; the invariant is restored |
| ContactForm.Form.ValidateField | script.js:156-215 | an id selects the field's rule as above; an unknown id returns true and changes nothing |
| ContactForm.Form.SetValue | script.js:223-224 | the browser writes a new value; only that field's message may be stale |
| ContactForm.Form.FormatPhone | script.js:94-127 | the phone field's value becomes its formatted form, which is then validated |
| ContactForm.Form.RevalidateIfInvalid | script.js:223-227 | a field flagged invalid is validated again; any other field is left alone |
| ContactForm.Form.PhoneInput | script.js:94-127 | a keystroke in the phone field leaves it holding the formatted value, with that value's verdict shown |
| ContactForm.Form.Input | script.js:218-229 | a keystroke changes that field only: the phone field is formatted and validated, and another field is validated again only if it was flagged invalid |
| ContactForm.Form.Blur | script.js:221 | leaving a field validates it; the result is whether it was accepted, which is whether it ends flagged valid |
| ContactForm.Form.ValidateAll | script.js:236-244 | every field is validated, with no short-circuit; the result is whether all four passed |
| ContactForm.Form.Submit | script.js:232-258 | every field is validated; if one fails, nothing is sent, the button is untouched and focus goes to a rejected field with every earlier field accepted; otherwise the label is saved, the button shows `Enviando...` and is disabled, and every field is flagged valid |
| ContactForm.Form.Complete | script.js:262-289 | on success every field is reset; on failure the fields are unchanged; either way the button is enabled with its original label again |
| ContactForm.Form.ResetFields | script.js:272-277 | every field is reset to empty and unflagged, with its error span cleared |
| Scenarios.NameWithAccentsAccepted | script.js:166-175 | "José María" is accepted as a name |
| Scenarios.NameWithAccentsFacts | script.js:166-170 | "José María" is ten code units long and matches the name pattern |
| Scenarios.NameWithAccentsLetters | script.js:170 | "José María" matches the name pattern |
| Scenarios.ShortNameRejected | script.js:166-168 | "Jo" is refused as too short |
| Scenarios.NameWithDigitRejected | script.js:170-172 | "José3" is refused with the letters message |
| Scenarios.PaddedShortMessageRejected | script.js:158-209 | surrounding spaces do not count: "  Hola  " is too short for a message |
| Scenarios.BlankRejected | script.js:158-206 | a value of spaces, a tab and a newline gets the required message in every field |
| Scenarios.AddressAccepted | script.js:182-187 | "a@b.cl" is accepted |
| Scenarios.AddressWithoutDotRejected | script.js:182-184 | "a@b" is refused |
| Scenarios.AddressWithSpaceRejected | script.js:182-184 | "a b@c.cl" is refused |
| Scenarios.DisplayNumberAccepted | script.js:195-200 | "+56 9 1234 5678" is accepted |
| Scenarios.DisplayNumberMatches | script.js:195 | "+56 9 1234 5678" matches the phone pattern |
| Scenarios.NineThenBlocks | script.js:195 | "9 1234 5678" matches the part of the pattern after the country code |
| Scenarios.BlocksMatch | script.js:195 | "1234 5678" matches the two digit blocks |
| Scenarios.PartialNumberRejected | script.js:195-197 | "+56 9 1234 5" is refused |
| Scenarios.PartialNumberMismatch | script.js:195 | "+56 9 1234 5" does not match the phone pattern |
| Scenarios.ShortNumberRejected | script.js:94-198 | "123" is refused as typed, and also after formatting |
| Scenarios.ShortNumberDigits | script.js:98-111 | three digits that do not start with 0 or 56 become a five-digit string |
| Scenarios.LocalNumberDigits | script.js:98-111 | a 9 followed by eight digits gains the country code 56 |
| Scenarios.LocalNumberFormatted | script.js:94-123 | a 9 followed by eight digits is laid out as `+56 9 XXXX XXXX` |
| Scenarios.LocalNumberAccepted | script.js:94-198 | that layout passes the phone rule |
| Scenarios.DigitsAfterCountryCode | script.js:103-111 | after `+56`, the digits are 56 followed by the typed digits |
| Scenarios.GreetingAccepted | script.js:207-212 | "Hola, buenos días" is long enough for a message |
| Scenarios.ShortNameBlocksSubmission | script.js:236-252 | with only "Jo" typed into the name, submitting is blocked with focus on the name, which shows the too-short message; the button keeps its label and stays enabled |
| Scenarios.ValidFormIsSent | script.js:236-258 | with an accepted name, address and message and a local mobile number, submitting sends: every field is marked valid and the button shows `Enviando...` and is disabled; the form keeps its invariant, so a session can continue from it |
| Scenarios.Settle | script.js:221-289 | a valid form is sent, and while the request is outstanding the name is changed to "Jo" and left, so it shows the too-short message; the reset as written would leave that message visible on the emptied, unflagged name; the form ends with every field pristine on delivery and with the rejected name kept on failure, and the button is enabled with its label either way |
| Scenarios.Filled | script.js:94-127 | typing into each field of a fresh form leaves each holding what was typed, with the phone field formatted |

## Left out

- The mobile menu, smooth scrolling, the header shadow, active-section highlighting, fade-in and hover animations, parallax and lazy loading (script.js:7-85, 292-352) are presentation only, with no logic to verify.
- `fetch`, `FormData`, both `alert`s and `console.error` are network and UI I/O. The request's outcome is the `delivered` argument of `Form.Complete`. A rejected promise and a response that is not `ok` are the same `false`.
- `focus()` is I/O. `Form.Submit` returns the field that receives focus. Because the model proves that a field is always flagged invalid when submission is blocked, the `if (firstError)` check is never false here.
- The browser's own edits are not modelled: it stores the raw keystroke in the phone field, and the formatter overwrites that value before anything else reads it. `Form.Input` starts from the value typed.
- ContactForm.Form.ShowError: the element lookups by id and their null checks are not modelled. Every field and span is assumed to exist, so the method requires the field to be present.
- ContactForm.Form.ClearError: the same as ShowError.
- ContactForm.Form.Submit: requires that no request is outstanding. While one is, the submit button is disabled, and the page offers no other way to submit.
- The form's initial values are assumed empty, and document order is assumed to be `nombre, email, telefono, mensaje`. The HTML is not part of this model.
- Strings are sequences of Unicode scalar values, so lone UTF-16 surrogates cannot be represented. Whitespace is the ECMAScript WhiteSpace and LineTerminator set as of Unicode 15.
- The `digits` local in `validateField` (script.js:190) is never used and has no effect.
- `contactForm.reset()` is modelled as emptying the four values. Other form controls are not part of this model.

## Findings

| source | as written | input that shows it | evidently intended | confidence | as-written member | corrected member |
|---|---|---|---|---|---|---|
| script.js:272-277 | after a successful submission, `reset()` empties the values and both classes are removed, but the error spans keep their text and `visible` class | while the request is outstanding, type "Jo" into `nombre` and leave the field; the request then succeeds, and the empty, unflagged field still shows "Ingresa al menos 3 caracteres" | the form returns to its initial state, error spans cleared | not executed | ContactForm.ResetAsWrittenLeavesMessage | ContactForm.Reset |
