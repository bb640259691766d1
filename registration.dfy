/**
 * `validateRegistrationForm`: validates every required control of the
 * form, without stopping at the first failure, and then checks the terms
 * box. The controls are the ones `input[required], select[required]`
 * selects, in document order; the terms box is the element with id
 * `terms`, absent or present with its `checked` state.
 */
module Registration {
  import opened Options
  import opened Fields

  const TermsMessage := "You must agree to the terms and conditions"

  /** What the terms check paints on the terms box. */
  function TermsFeedback(terms: Option<bool>): (f: Option<Feedback>)
    ensures f.Some? <==> terms == Some(false)
  {
    if terms == Some(false) then Some(Error(TermsMessage)) else None
  }

  /** The form's input and select controls that carry the `required`
      attribute, in document order. */
  function RequiredControls(form: seq<Field>): (inputs: seq<Field>)
    ensures forall i :: 0 <= i < |inputs| ==> inputs[i].required
    ensures forall c :: c in inputs <==> c in form && c.required
  {
    if form == [] then []
    else if form[0].required then [form[0]] + RequiredControls(form[1..])
    else RequiredControls(form[1..])
  }

  /** The form is accepted iff every required control validates and the
      terms box, if there is one, is checked. */
  predicate FormAccepted(form: seq<Field>, terms: Option<bool>, isValidDate: string -> bool) {
    && (forall c :: c in form && c.required ==> FieldVerdict(c, isValidDate).valid)
    && terms != Some(false)
  }

  /** Runs `validateField` on each required control in turn, clearing the
      result flag on a failure but carrying on, so that every required
      control gets its feedback: `painted[i]` is the feedback the `i`-th
      required control received. */
  method ValidateRegistrationForm(form: seq<Field>, terms: Option<bool>, isValidDate: string -> bool)
    returns (valid: bool, painted: seq<Feedback>, termsPainted: Option<Feedback>)
    ensures valid <==> FormAccepted(form, terms, isValidDate)
    ensures var inputs := RequiredControls(form);
      && |painted| == |inputs|
      && forall i :: 0 <= i < |inputs| ==> painted[i] == FieldVerdict(inputs[i], isValidDate).feedback
    ensures termsPainted == TermsFeedback(terms)
  {
    var inputs := RequiredControls(form);
    valid := true;
    painted := [];
    var i := 0;
    while i < |inputs|
      invariant 0 <= i <= |inputs|
      invariant |painted| == i
      invariant forall j :: 0 <= j < i ==> painted[j] == FieldVerdict(inputs[j], isValidDate).feedback
      invariant valid <==> forall j :: 0 <= j < i ==> FieldVerdict(inputs[j], isValidDate).valid
    {
      var fieldValid, feedback := ValidateField(inputs[i], isValidDate);
      if !fieldValid {
        valid := false;
      }
      painted := painted + [feedback];
      i := i + 1;
    }
    assert valid <==> forall c :: c in inputs ==> FieldVerdict(c, isValidDate).valid;

    termsPainted := None;
    if terms == Some(false) {
      termsPainted := Some(Error(TermsMessage));
      valid := false;
    }
  }

  /** A form whose required controls all validate is still refused when the
      terms box is present and unchecked, and the terms check is then the
      only failure. */
  lemma UncheckedTermsAloneRefuse(form: seq<Field>, isValidDate: string -> bool)
    requires forall i :: 0 <= i < |form| && form[i].required ==> FieldVerdict(form[i], isValidDate).valid
    ensures !FormAccepted(form, Some(false), isValidDate)
    ensures FormAccepted(form, None, isValidDate) && FormAccepted(form, Some(true), isValidDate)
    ensures TermsFeedback(Some(false)) == Some(Error(TermsMessage))
  {
  }

  /** One failing required control refuses the whole form, whatever the
      others and the terms box say. */
  lemma OneFailureRefuses(form: seq<Field>, terms: Option<bool>, isValidDate: string -> bool, i: nat)
    requires i < |form| && form[i].required && !FieldVerdict(form[i], isValidDate).valid
    ensures !FormAccepted(form, terms, isValidDate)
  {
  }

  /** Controls that are not required never affect acceptance, wherever in
      the form they stand. */
  lemma OptionalControlsIgnored(a: seq<Field>, extra: Field, b: seq<Field>, terms: Option<bool>, isValidDate: string -> bool)
    requires !extra.required
    ensures FormAccepted(a + [extra] + b, terms, isValidDate) == FormAccepted(a + b, terms, isValidDate)
  {
    var longer, shorter := a + [extra] + b, a + b;
    assert forall c :: c in longer && c.required <==> c in shorter && c.required;
  }
}
