/**
 * Single-field validation of the registration form: the label table of
 * `getFieldLabel`, the per-field rules and feedback of `validateField`, and
 * the password-confirmation pairing done on every input of the
 * confirmation box. Painting feedback into the page becomes a returned
 * `Feedback` value:
 *   Success(m) for `showFieldSuccess(field, m)`,
 *   Error(m)   for `showFieldError(field, m)`,
 *   Cleared    for `clearFieldFeedback(field)`.
 */
module Fields {
  import opened Text
  import opened Formats
  import opened Options

  datatype Feedback = Success(message: string) | Error(message: string) | Cleared

  /** A form control as `validateField` reads it: its `name`, its raw
      `value` and whether it carries the `required` attribute. */
  datatype Field = Field(name: string, value: string, required: bool)

  /** What `validateField` returns and what it paints. */
  datatype Verdict = Verdict(valid: bool, feedback: Feedback)

  const EmailMessage := "Please enter a valid email address"
  const PhoneMessage := "Please enter a valid phone number"
  const PasswordMessage := "Password must be at least 8 characters long"
  const DateMessage := "Please enter a valid date"
  const MismatchMessage := "Passwords do not match"
  const MatchMessage := "Passwords match"

  /** The display names of the known fields. */
  const Labels: map<string, string> := map[
    "firstName" := "First Name",
    "lastName" := "Last Name",
    "email" := "Email",
    "phone" := "Phone Number",
    "password" := "Password",
    "confirmPassword" := "Confirm Password",
    "birthDate" := "Date of Birth",
    "country" := "Country",
    "terms" := "Terms and Conditions"
  ]

  /** `getFieldLabel`: the table's display name, or the field name itself
      for a field the table does not know. No known field is displayed
      under its own name. */
  function FieldLabel(name: string): (displayed: string)
    ensures name in Labels ==> displayed == Labels[name]
    ensures displayed == name <==> name !in Labels
  {
    if name in Labels then Labels[name] else name
  }

  /** The message of the one field-specific rule that rejects the
      (trimmed, non-empty) `value`, if any. */
  function RuleFailure(name: string, value: string, isValidDate: string -> bool): (failure: Option<string>)
    ensures failure.Some? ==> failure.value in {EmailMessage, PhoneMessage, PasswordMessage, DateMessage}
  {
    if name == "email" && !IsValidEmail(value) then Some(EmailMessage)
    else if name == "phone" && !IsValidPhone(value) then Some(PhoneMessage)
    else if name == "password" && |value| < 8 then Some(PasswordMessage)
    else if name == "birthDate" && !isValidDate(value) then Some(DateMessage)
    else None
  }

  /** The field-specific rules, each stated on its own. */
  predicate RulesHold(name: string, value: string, isValidDate: string -> bool) {
    && (name == "email" ==> IsValidEmail(value))
    && (name == "phone" ==> IsValidPhone(value))
    && (name == "password" ==> |value| >= 8)
    && (name == "birthDate" ==> isValidDate(value))
  }

  /** The verdict on one field, by precedence: a blank value is judged by the
      required check alone, a non-blank value by its field's rule alone. */
  function FieldVerdict(field: Field, isValidDate: string -> bool): Verdict {
    var value := Trim(field.value);
    if value == [] then
      if field.required then Verdict(false, Error(FieldLabel(field.name) + " is required"))
      else Verdict(true, Cleared)
    else
      match RuleFailure(field.name, value, isValidDate)
      case Some(message) => Verdict(false, Error(message))
      case None => Verdict(true, Success(""))
  }

  /** `validateField`: trims the value, runs the required check and then the
      four field-specific checks in turn, each of which may overwrite the
      verdict, and finally picks the feedback. `isValidDate` stands for the
      host's date parser. */
  method ValidateField(field: Field, isValidDate: string -> bool) returns (valid: bool, feedback: Feedback)
    ensures Verdict(valid, feedback) == FieldVerdict(field, isValidDate)
  {
    var value := Trim(field.value);
    var name := field.name;
    valid := true;
    var errorMessage := "";

    if field.required && value == [] {
      errorMessage := FieldLabel(name) + " is required";
      valid := false;
    }
    if value != [] && name == "email" && !IsValidEmail(value) {
      errorMessage := EmailMessage;
      valid := false;
    }
    if value != [] && name == "phone" && !IsValidPhone(value) {
      errorMessage := PhoneMessage;
      valid := false;
    }
    if value != [] && name == "password" && |value| < 8 {
      errorMessage := PasswordMessage;
      valid := false;
    }
    if value != [] && name == "birthDate" && !isValidDate(value) {
      errorMessage := DateMessage;
      valid := false;
    }

    RuleNamesDistinct();
    if valid && value != [] {
      feedback := Success("");
    } else if !valid {
      feedback := Error(errorMessage);
    } else {
      feedback := Cleared;
    }
  }

  lemma RuleNamesDistinct()
    ensures "email" != "phone" && "email" != "password" && "email" != "birthDate"
    ensures "phone" != "password" && "phone" != "birthDate" && "password" != "birthDate"
  {
    assert "email"[0] != "phone"[0];
  }

  /** A rule fails exactly when the rules do not all hold. */
  lemma RuleFailureIffNotRulesHold(name: string, value: string, isValidDate: string -> bool)
    ensures RuleFailure(name, value, isValidDate).None? <==> RulesHold(name, value, isValidDate)
  {
  }

  /** The field is valid iff it is not a blank required field and its value,
      when not blank, passes its field's rule; the feedback is an error
      exactly when the field is invalid, and is cleared exactly for a blank
      optional field. */
  lemma VerdictCharacterised(field: Field, isValidDate: string -> bool)
    ensures var v := FieldVerdict(field, isValidDate); var value := Trim(field.value);
      && (v.valid <==> (value == [] ==> !field.required)
                       && (value != [] ==> RulesHold(field.name, value, isValidDate)))
      && (v.valid <==> !v.feedback.Error?)
      && (v.feedback == Cleared <==> value == [] && !field.required)
      && (v.feedback.Success? ==> v.feedback.message == "")
  {
    RuleFailureIffNotRulesHold(field.name, Trim(field.value), isValidDate);
  }

  /** Only the trimmed value matters: trimming first changes nothing. */
  lemma VerdictOnTrimmedValue(field: Field, isValidDate: string -> bool)
    ensures FieldVerdict(field.(value := Trim(field.value)), isValidDate) == FieldVerdict(field, isValidDate)
  {
    TrimIdempotent(field.value);
  }

  /** A blank or all-whitespace required field gets "<label> is required";
      a blank optional field is valid with its feedback cleared. */
  lemma BlankField(field: Field, isValidDate: string -> bool)
    requires forall k :: 0 <= k < |field.value| ==> IsSpace(field.value[k])
    ensures field.required ==>
      FieldVerdict(field, isValidDate) == Verdict(false, Error(FieldLabel(field.name) + " is required"))
    ensures !field.required ==> FieldVerdict(field, isValidDate) == Verdict(true, Cleared)
  {
    TrimEmptyIffBlank(field.value);
  }

  /** The error shown for a non-blank value is the message of that field's
      own rule: email, phone, password and date never borrow each other's. */
  lemma ErrorNamesTheFieldsRule(field: Field, isValidDate: string -> bool)
    requires Trim(field.value) != []
    ensures var f := FieldVerdict(field, isValidDate).feedback;
      && (f == Error(EmailMessage) <==> field.name == "email" && !IsValidEmail(Trim(field.value)))
      && (f == Error(PhoneMessage) <==> field.name == "phone" && !IsValidPhone(Trim(field.value)))
      && (f == Error(PasswordMessage) <==> field.name == "password" && |Trim(field.value)| < 8)
      && (f == Error(DateMessage) <==> field.name == "birthDate" && !isValidDate(Trim(field.value)))
  {
  }

  /** A required email field is valid iff its trimmed value is an address. */
  lemma RequiredEmailField(value: string, isValidDate: string -> bool)
    ensures FieldVerdict(Field("email", value, true), isValidDate).valid <==> IsValidEmail(Trim(value))
  {
  }

  /** A required phone field is valid iff its trimmed value is a number. */
  lemma RequiredPhoneField(value: string, isValidDate: string -> bool)
    ensures FieldVerdict(Field("phone", value, true), isValidDate).valid <==> IsValidPhone(Trim(value))
  {
  }

  /** A required password field is valid iff its trimmed value has at least
      eight characters; composition is left to the strength meter. */
  lemma RequiredPasswordField(value: string, isValidDate: string -> bool)
    ensures FieldVerdict(Field("password", value, true), isValidDate).valid <==> |Trim(value)| >= 8
  {
  }

  /** A field with no rule of its own only needs a non-blank value when it is
      required; an optional one is always valid. */
  lemma PresenceOnlyField(field: Field, isValidDate: string -> bool)
    requires field.name !in {"email", "phone", "password", "birthDate"}
    ensures FieldVerdict(field, isValidDate).valid <==> !field.required || Trim(field.value) != []
  {
  }

  /** Worked verdicts: a whitespace-only first name, and a field missing from
      the label table, which is named by its raw name. */
  lemma FieldExamples(isValidDate: string -> bool)
    ensures FieldVerdict(Field("firstName", "  ", true), isValidDate)
            == Verdict(false, Error("First Name is required"))
    ensures FieldVerdict(Field("nickname", "", true), isValidDate)
            == Verdict(false, Error("nickname is required"))
  {
    assert Trim("  ") == [] by { TrimEmptyIffBlank("  "); }
    assert FieldLabel("firstName") + " is required" == "First Name is required";
    assert "nickname" !in Labels by {
      assert forall k | k in Labels :: k[0] != 'n';
    }
    assert FieldLabel("nickname") + " is required" == "nickname is required";
  }

  // ------------------------------------------------ password confirmation

  /** The confirmation box's input handler: no feedback while it is empty,
      otherwise an error or a success depending on whether it equals the
      password. Both values are compared as typed, untrimmed. */
  function ConfirmationFeedback(password: string, confirmation: string): (f: Feedback)
    ensures f == Cleared <==> confirmation == []
    ensures f == Error(MismatchMessage) <==> confirmation != [] && confirmation != password
    ensures f == Success(MatchMessage) <==> confirmation != [] && confirmation == password
  {
    if confirmation != [] && password != confirmation then Error(MismatchMessage)
    else if confirmation != [] && password == confirmation then Success(MatchMessage)
    else Cleared
  }

  /** A confirmation reported as matching a password that passes the
      password rule passes that rule too. */
  lemma MatchedConfirmationMeetsPasswordRule(password: string, confirmation: string, isValidDate: string -> bool)
    requires ConfirmationFeedback(password, confirmation) == Success(MatchMessage)
    requires FieldVerdict(Field("password", password, true), isValidDate).valid
    ensures |Trim(confirmation)| >= 8
  {
  }

  /** Pairing compares raw values, unlike `validateField`: a trailing space
      makes the confirmation a mismatch even though both trim alike. */
  lemma PairingIsUntrimmed()
    ensures Trim("secret123 ") == Trim("secret123")
    ensures ConfirmationFeedback("secret123", "secret123 ") == Error(MismatchMessage)
  {
  }

  /** Worked pairings. */
  lemma ConfirmationExamples()
    ensures ConfirmationFeedback("secret123", "") == Cleared
    ensures ConfirmationFeedback("secret123", "secret123") == Success("Passwords match")
    ensures ConfirmationFeedback("secret123", "Secret123") == Error("Passwords do not match")
  {
  }
}
