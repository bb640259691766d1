# Registration-form validation of main.js, in Dafny

This project models the validation engine behind the registration form of
the Travel Paradise site script `main.js`: the password-strength meter, the
email and phone format checks, the per-field validator with its label
table, the password-confirmation pairing, the form-level aggregation that
runs on submit, and the attraction filter. Everything the script paints
into the page (feedback text and classes, the meter's width and caption,
card visibility) is returned as a value instead.

Modules, one per concern of the script:

- `Options` (`options.dfy`): `Option`, for DOM attributes and elements that may be missing.
- `Text` (`text.dfy`): the whitespace class shared by `\s` and `String.prototype.trim`
  (the ECMAScript WhiteSpace and LineTerminator code points), the ASCII
  character classes, and trimming with its specification lemmas.
- `Formats` (`formats.dfy`): `isValidEmail` and `isValidPhone`, each as a predicate
  that follows its regular expression, plus lemmas that describe the
  accepted strings without the pattern.
- `Strength` (`strength.dfy`): `calculatePasswordStrength` as a method that adds up
  points the way the script does, specified against a count of satisfied
  criteria, and `updatePasswordStrength`'s painting as `ShowMeter`.
- `Fields` (`fields.dfy`): `getFieldLabel`, `validateField` (a method that overwrites
  its verdict through a sequence of checks, proved equal to a
  precedence-based reference `FieldVerdict`), and the confirmation handler.
- `Registration` (`registration.dfy`): `validateRegistrationForm` as a loop over the
  required controls.
- `Cards` (`cards.dfy`): the filter buttons' show/hide rule.

The host's date parser used by `isValidDate` is not visible, so every member
that needs it takes it as a parameter `isValidDate: string -> bool`.

Two behaviours of main.js that the model follows as written:

- An empty password still gets a 33% bar: the scorer gives percentage 33
  for every score up to 2, including 0, and `updatePasswordStrength` always
  applies it (main.js:443); only the caption changes, to "Password
  strength", and no level class is added. The 0% width is written only by
  the reset after a successful submit (main.js:303), which is timer-driven
  and not modelled.
- On submit, only the controls that carry the `required` attribute are
  validated (main.js:369); a control without it never reaches
  `validateField` there.

## Model

| member | source | states |
|---|---|---|
| Text.Trim | main.js:388 | `trim()` never lengthens a value; what it returns exactly is stated by `Text.TrimSpec` |
| Text.TrimStartSpec | main.js:388 | the leading-whitespace removal keeps a suffix of the input, drops only whitespace, and leaves a result that does not start with whitespace |
| Text.TrimEndSpec | main.js:388 | the trailing-whitespace removal keeps a prefix of the input, drops only whitespace, and leaves a result that does not end with whitespace |
| Text.TrimSpec | main.js:388 | `trim()` yields an infix of the input, with only whitespace before and after it, that neither starts nor ends with whitespace |
| Text.TrimIdempotent | main.js:388 | trimming an already trimmed value changes nothing |
| Text.TrimEmptyIffBlank | main.js:388-392 | the trimmed value is empty exactly when the raw value is all whitespace, so a whitespace-only value counts as missing |
| Formats.IsValidEmail | main.js:947-950 | the email regex followed piece by piece; an accepted address has at least five characters and starts and ends with a character that is neither whitespace nor `@`; the accepted strings are described by `Formats.EmailPatternIffShape` |
| Formats.EmailPatternIffShape | main.js:947-950 | the email regex accepts exactly the strings with no whitespace, exactly one `@`, a non-empty part before it, and a dot after it with at least one character on each side within the domain |
| Formats.Strip | main.js:954 | separator removal leaves no whitespace, `-`, `(` or `)`, never lengthens, and leaves separator-free input unchanged; that the other characters are kept in order is stated by `Formats.StripChar` and `Formats.KeepsOthers` |
| Formats.StripChar | main.js:954 | a single separator is removed and any other single character is kept, which with `Formats.StripConcat` fixes the value of the removal on every string |
| Formats.KeepsOthers | main.js:954 | a character that is not a separator survives the removal, in place between the stripped text before and after it |
| Formats.StripConcat | main.js:954 | separator removal works piece by piece: stripping a concatenation concatenates the stripped pieces |
| Formats.StripIdempotent | main.js:954 | stripping twice is the same as stripping once |
| Formats.IsValidPhone | main.js:952-955 | the phone regex on the stripped number; an accepted number keeps between 1 and 17 characters after stripping; the accepted strings are described by `Formats.PhoneAcceptedIff` |
| Formats.SeparatorInsensitive | main.js:952-955 | inserting a space, hyphen or parenthesis anywhere in a phone number never changes whether it is accepted |
| Formats.PhoneAcceptedIff | main.js:952-955 | a phone number is accepted iff, after stripping and an optional leading `+`, it is 1 to 16 decimal digits whose first digit is not 0 |
| Strength.Count | main.js:454-470 | the number of satisfied criteria is at most the number of criteria, and is zero exactly when none is satisfied |
| Strength.Score | main.js:454-470 | the score lies in 0..5 |
| Strength.RatingOf | main.js:472-493 | the step for a score keeps that score and has a percentage between 33 and 100; the steps themselves are stated by `Strength.RatingSteps` |
| Strength.CalculatePasswordStrength | main.js:453-494 | the score added up one point per test equals the number of satisfied criteria (length at least 8, `[a-z]`, `[A-Z]`, `[0-9]`, `[^A-Za-z0-9]`), and the result is the step for that score |
| Strength.ScoreZeroIffEmpty | main.js:457-470 | the score is zero exactly for the empty password, because every character meets one of the four character-class criteria |
| Strength.RatingSteps | main.js:472-493 | scores up to 2 are weak at 33%, score 3 is medium at 66%, scores 4 and 5 are strong at 100%, each in both directions |
| Strength.PercentageMonotone | main.js:472-493 | a higher score never gives a smaller percentage |
| Strength.ShowMeter | main.js:440-450 | the bar's width is the rating's percentage, and a level class is added exactly when the score is positive |
| Strength.MeterForPassword | main.js:440-450 | the bar always takes the rating's percentage, never below 33%; the empty password, and only it, gets no level class and the caption "Password strength"; any other password gets its step's class and caption |
| Strength.RatingExamples | main.js:453-494 | the empty password scores 0 at 33%, "abcdefgh" scores 2 (weak), "Abcdefg1" scores 4 and "Ab1!efgh" scores 5 (strong) |
| Strength.ShortPasswordCanRateStrong | main.js:457-493 | a four-character password can still rate strong, since length is one criterion of five |
| Fields.FieldLabel | main.js:962-975 | a known field gets its display name from the nine-entry table, an unknown one its raw name, and a field is shown under its raw name exactly when it is unknown |
| Fields.ValidateField | main.js:387-430 | the verdict built by overwriting through the required check and the four field rules equals the precedence-based verdict: blank values judged only by the required check, non-blank ones only by their field's rule, with success, error or cleared feedback |
| Fields.RuleFailure | main.js:399-418 | a failing field rule reports one of the four rule messages (email, phone, password length, date); when it fails is stated by `Fields.RuleFailureIffNotRulesHold` |
| Fields.RuleFailureIffNotRulesHold | main.js:397-418 | a field-specific rule fails exactly when the field's own rule (email, phone, password length, date) is not met |
| Fields.VerdictCharacterised | main.js:387-430 | a field is valid iff it is not a blank required field and, when not blank, passes its rule; the feedback is an error exactly when it is invalid, cleared exactly for a blank optional field, and success carries an empty message |
| Fields.VerdictOnTrimmedValue | main.js:388 | the verdict depends only on the trimmed value |
| Fields.BlankField | main.js:392-395 | an all-whitespace required field fails with "<label> is required"; an all-whitespace optional field is valid with cleared feedback |
| Fields.ErrorNamesTheFieldsRule | main.js:397-418 | for a non-blank value each rule message appears exactly when that field's rule rejects it, so one field never shows another field's message |
| Fields.RequiredEmailField | main.js:397-400 | a required email field is valid iff its trimmed value is accepted by the email check |
| Fields.RequiredPhoneField | main.js:402-405 | a required phone field is valid iff its trimmed value is accepted by the phone check |
| Fields.RequiredPasswordField | main.js:407-410 | a required password field is valid iff its trimmed value has at least 8 characters |
| Fields.PresenceOnlyField | main.js:387-430 | a field with no rule of its own is valid iff it is optional or its trimmed value is non-empty |
| Fields.FieldExamples | main.js:392-395 | a whitespace-only first name gives "First Name is required"; a field missing from the label table is named by its raw name |
| Fields.ConfirmationFeedback | main.js:333-344 | an empty confirmation clears the feedback; a non-empty one different from the password gives "Passwords do not match"; a non-empty one equal to it gives "Passwords match" |
| Fields.MatchedConfirmationMeetsPasswordRule | main.js:333-344 | a confirmation reported as matching a password that passes the length rule passes that rule too |
| Fields.PairingIsUntrimmed | main.js:335-337 | the pairing compares raw values: a trailing space gives a mismatch although both values trim alike |
| Fields.ConfirmationExamples | main.js:333-344 | worked pairings for an empty, an equal and a case-different confirmation |
| Registration.RequiredControls | main.js:369 | the selected controls are all required, and a control is selected iff it is in the form and is required |
| Registration.ValidateRegistrationForm | main.js:367-385 | the form is accepted iff every required control validates and the terms box, if present, is checked; every required control receives its feedback even after an earlier failure; an unchecked terms box receives "You must agree to the terms and conditions" |
| Registration.TermsFeedback | main.js:377-382 | the terms box gets an error exactly when it is present and unchecked |
| Registration.UncheckedTermsAloneRefuse | main.js:377-382 | with every required control valid, the form is refused exactly when the terms box is present and unchecked |
| Registration.OneFailureRefuses | main.js:371-375 | one failing required control refuses the form whatever the others and the terms say |
| Registration.OptionalControlsIgnored | main.js:369 | inserting a control without the `required` attribute anywhere in the form never changes acceptance |
| Cards.CardType | main.js:729 | a card's type is never empty, and is `all` exactly when its `data-type` is missing, empty or `all` |
| Cards.Visible | main.js:729-731 | a card is shown only under a present, non-empty filter value; which cards are shown is stated by `Cards.FilterCards` and the lemmas below |
| Cards.FilterCards | main.js:728-737 | every card is shown iff the filter is `all` or equals the card's type |
| Cards.AllShowsEverything | main.js:731 | the `all` filter shows every card, and every other filter shows a subset of that |
| Cards.UntypedCardOnlyUnderAll | main.js:729-731 | a card without a type is shown only under `all`; a button without `data-filter` shows no card |
| Cards.NamedFilterMatchesType | main.js:729-731 | under a non-empty filter other than `all`, a card is shown iff its `data-type` equals the filter |

## Left out

- DOM reads and writes (`querySelector`, `classList`, `style`, the `parentNode` traversal of the feedback helpers): fields arrive as values and feedback is returned.
- `isValidDate`: it rests on the host's `Date` string parser, which is not visible; it is a parameter.
- The `feedback` list that `calculatePasswordStrength` builds: it is never read or returned, so nothing observable depends on it.
- String length and character classes work on Unicode scalar values, not UTF-16 code units: a character outside the Basic Multilingual Plane counts once toward `length >= 8` here and twice in JavaScript.
- FieldLabel: names inherited from `Object.prototype` (such as `constructor`) make the JavaScript lookup return a function rather than fall back to the name; the model treats them as unknown names.
- The order of the two input listeners on the confirmation box (the generic `validateField` one and the pairing one): the model gives each verdict separately, not which one is painted last.
- When the terms box is itself a required control, `validateField` first paints it (its `value`, not its checked state, is what is tested) and the terms check then overwrites that feedback; the model returns both paintings separately.
- The real-time `input`/`blur` wiring, the newsletter form, the simulated submit with its timers and the meter reset, `showMessage`'s auto-hide, `debounce` and `throttle`: event scheduling and timing.
- Animation and slider libraries (GSAP, Swiper, AOS, ScrollReveal), ripple geometry, lazy loading, modal, navigation, accessibility helpers, global error handlers and logging: foreign calls, floating-point pixel arithmetic or presentation only.
- `getAttractionData`: a table of HTML content strings with no logic beyond a lookup.
