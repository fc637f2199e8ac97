/** The browser script's side of the download form (`frontend.js`): the
    check of one field as the visitor types, the cleaning of the phone
    input, the validation of the whole form before it is sent, and the
    submission it then posts to the server. */
module FormValidation {
  import opened Wrappers
  import opened Text
  import Email
  import Mobile
  import Settings
  import opened PhpValue
  import Frontend
  import Downloads

  /** An `input[data-field-type]` of the form as the script reads it: the
      `data-field-type`, the `name` attribute and the current value. */
  datatype Input = Input(fieldType: string, name: string, value: string)

  /** `!value.trim()`. */
  predicate Blank(value: string) {
    Trim(value) == ""
  }

  /** The rule the script applies to a field: an enabled rule stored under
      its name.  A field without one is not checked at all. */
  function ActiveRule(rules: Frontend.Rules, name: string): (r: Option<Frontend.Rule>)
    ensures r.Some? ==> r.value.enabled && (name, r.value) in rules
  {
    var config := Frontend.RuleFor(rules, name);
    if config.Some? && config.value.enabled then config else None
  }

  // ---------------------------------------------------------------------
  // One field
  // ---------------------------------------------------------------------

  /** `validateField`, leaving out the CSS class it toggles: a required
      field must not be blank, and a non-blank e-mail or phone field must
      pass `isValidEmail` or `isValidMobile` on its untrimmed value. */
  function ValidateField(rules: Frontend.Rules, input: Input): (ok: bool)
    ensures ActiveRule(rules, input.name).None? ==> ok
    ensures (ActiveRule(rules, input.name).Some? && ActiveRule(rules, input.name).value.required
             && Blank(input.value)) ==> !ok
  {
    var config := ActiveRule(rules, input.name);
    if config.None? then true
    else
      var value := input.value;
      var isValid := !(config.value.required && Blank(value));
      var isValid := if !Blank(value) && input.fieldType == "email" && !Email.IsValidEmail(value) then false else isValid;
      if !Blank(value) && input.fieldType == "phone" && !Mobile.IsValidMobileJs(value) then false else isValid
  }

  /** The type-specific condition on a non-blank value. */
  predicate TypeOk(fieldType: string, value: string) {
    && (fieldType == "email" ==> Email.IsValidEmail(value))
    && (fieldType == "phone" ==> Mobile.IsValidMobileJs(value))
  }

  /** The verdict on one field, stated case by case: an unchecked field
      passes; a blank one passes exactly when it is optional; a non-blank
      one passes exactly when its type's check does. */
  lemma FieldVerdict(rules: Frontend.Rules, input: Input)
    ensures ActiveRule(rules, input.name).None? ==> ValidateField(rules, input)
    ensures ActiveRule(rules, input.name).Some? && Blank(input.value)
        ==> (ValidateField(rules, input) <==> !ActiveRule(rules, input.name).value.required)
    ensures ActiveRule(rules, input.name).Some? && !Blank(input.value)
        ==> (ValidateField(rules, input) <==> TypeOk(input.fieldType, input.value))
  {
  }

  // ---------------------------------------------------------------------
  // The phone input
  // ---------------------------------------------------------------------

  /** The `input` handler: a phone field's value loses every character
      outside the phone class, then the field is checked.  The result is
      the field with its new value and the verdict. */
  function OnInput(rules: Frontend.Rules, input: Input): (r: (Input, bool))
    ensures r.0.name == input.name && r.0.fieldType == input.fieldType
    ensures input.fieldType != "phone" ==> r.0 == input
  {
    var value := if input.fieldType == "phone" then Mobile.CleanPhone(input.value) else input.value;
    var cleaned := input.(value := value);
    (cleaned, ValidateField(rules, cleaned))
  }

  /** Typing into a field the handler has just cleaned changes nothing:
      the cleaning is idempotent and keeps every digit typed. */
  lemma OnInputStable(rules: Frontend.Rules, input: Input)
    ensures OnInput(rules, OnInput(rules, input).0) == OnInput(rules, input)
    ensures Mobile.Digits(OnInput(rules, input).0.value) == Mobile.Digits(input.value)
  {
    if input.fieldType == "phone" {
      Mobile.CleanPhoneIdempotent(input.value);
      Mobile.CleanPhoneKeepsDigits(input.value);
    }
  }

  /** On a checked phone field whose cleaned value is not blank, the
      verdict depends only on the number of digits typed: seven to fifteen. */
  lemma OnInputPhoneVerdict(rules: Frontend.Rules, input: Input)
    requires input.fieldType == "phone" && ActiveRule(rules, input.name).Some?
    requires !Blank(Mobile.CleanPhone(input.value))
    ensures OnInput(rules, input).1
        <==> Mobile.MinDigits <= |Mobile.Digits(input.value)| <= Mobile.JsMaxDigits
  {
    Mobile.CleanedValidity(input.value);
    assert |Mobile.CleanPhone(input.value)| > 0;
  }

  // ---------------------------------------------------------------------
  // The whole form
  // ---------------------------------------------------------------------

  const MsgNameRequired: string := "Name is required."
  const MsgEmailRequired: string := "Email is required."
  const MsgPhoneRequired: string := "Phone number is required."
  const MsgInvalidEmail: string := "Please enter a valid email address."
  const MsgInvalidMobile: string := "Please enter a valid mobile number (minimum 7 digits)."
  const MsgFallback: string := "Please fill in all required fields."

  /** The message for a blank required field; none for a field type the
      script does not name. */
  function RequiredMessage(fieldType: string): (m: seq<string>)
    ensures |m| <= 1
  {
    if fieldType == "name" then [MsgNameRequired]
    else if fieldType == "email" then [MsgEmailRequired]
    else if fieldType == "phone" then [MsgPhoneRequired]
    else []
  }

  /** The messages `validateForm` pushes for one field, in order. */
  function FieldErrors(rules: Frontend.Rules, input: Input): (errors: seq<string>)
    ensures |errors| <= 2
  {
    var config := ActiveRule(rules, input.name);
    if config.None? then []
    else
      var value := input.value;
      (if config.value.required && Blank(value) then RequiredMessage(input.fieldType) else [])
        + (if !Blank(value) && input.fieldType == "email" && !Email.IsValidEmail(value) then [MsgInvalidEmail] else [])
        + (if !Blank(value) && input.fieldType == "phone" && !Mobile.IsValidMobileJs(value) then [MsgInvalidMobile] else [])
  }

  /** The messages for a list of fields, field by field. */
  function FormErrors(rules: Frontend.Rules, inputs: seq<Input>): seq<string> {
    if |inputs| == 0 then []
    else FormErrors(rules, inputs[..|inputs| - 1]) + FieldErrors(rules, inputs[|inputs| - 1])
  }

  /** The field types the form renders. */
  predicate KnownType(fieldType: string) {
    fieldType == "name" || fieldType == "email" || fieldType == "phone"
  }

  /** A field of a type the form renders fails exactly when it produces a
      message. */
  lemma FieldErrorsMatchVerdict(rules: Frontend.Rules, input: Input)
    requires KnownType(input.fieldType)
    ensures FieldErrors(rules, input) == [] <==> ValidateField(rules, input)
  {
  }

  /** No message ever comes from a field that passes. */
  lemma PassingFieldSilent(rules: Frontend.Rules, input: Input)
    requires ValidateField(rules, input)
    ensures FieldErrors(rules, input) == []
  {
  }

  /** The message `validateForm` reports: the first one collected, or the
      generic one when none was. */
  function FormMessage(rules: Frontend.Rules, inputs: seq<Input>): string {
    var errors := FormErrors(rules, inputs);
    if |errors| > 0 then errors[0] else MsgFallback
  }

  /** The body of `validateForm`'s loop for one field: whether it passes
      and the messages it pushes. */
  method CheckField(rules: Frontend.Rules, input: Input) returns (ok: bool, errors: seq<string>)
    ensures ok == ValidateField(rules, input)
    ensures errors == FieldErrors(rules, input)
  {
    ok := true;
    errors := [];
    var config := ActiveRule(rules, input.name);
    if config.Some? {
      var value := input.value;
      if config.value.required && Blank(value) {
        ok := false;
        errors := errors + RequiredMessage(input.fieldType);
      }
      if !Blank(value) {
        if input.fieldType == "email" && !Email.IsValidEmail(value) {
          ok := false;
          errors := errors + [MsgInvalidEmail];
        }
        if input.fieldType == "phone" && !Mobile.IsValidMobileJs(value) {
          ok := false;
          errors := errors + [MsgInvalidMobile];
        }
      }
    }
  }

  /** Whether every field of a list passes, field by field. */
  predicate AllPass(rules: Frontend.Rules, inputs: seq<Input>) {
    |inputs| == 0 || (AllPass(rules, inputs[..|inputs| - 1]) && ValidateField(rules, inputs[|inputs| - 1]))
  }

  /** `AllPass` is the plain statement that every field passes. */
  lemma {:induction false} AllPassMeans(rules: Frontend.Rules, inputs: seq<Input>)
    ensures AllPass(rules, inputs) <==> forall i :: 0 <= i < |inputs| ==> ValidateField(rules, inputs[i])
  {
    if |inputs| > 0 {
      var front := inputs[..|inputs| - 1];
      AllPassMeans(rules, front);
      assert forall i :: 0 <= i < |front| ==> front[i] == inputs[i];
    }
  }

  /** One more field, one more step of the two folds. */
  lemma StepFolds(rules: Frontend.Rules, inputs: seq<Input>, i: nat)
    requires i < |inputs|
    ensures AllPass(rules, inputs[..i + 1]) == (AllPass(rules, inputs[..i]) && ValidateField(rules, inputs[i]))
    ensures FormErrors(rules, inputs[..i + 1]) == FormErrors(rules, inputs[..i]) + FieldErrors(rules, inputs[i])
  {
    assert inputs[..i + 1][..i] == inputs[..i];
  }

  /** `validateForm`: every field is checked in turn, the form is valid when
      all of them pass, and the message is the first one collected. */
  method ValidateForm(rules: Frontend.Rules, inputs: seq<Input>) returns (isValid: bool, message: string)
    ensures isValid <==> forall i :: 0 <= i < |inputs| ==> ValidateField(rules, inputs[i])
    ensures message == FormMessage(rules, inputs)
  {
    isValid := true;
    var errors: seq<string> := [];
    var i := 0;
    while i < |inputs|
      invariant 0 <= i <= |inputs|
      invariant isValid == AllPass(rules, inputs[..i])
      invariant errors == FormErrors(rules, inputs[..i])
    {
      var ok, fieldErrors := CheckField(rules, inputs[i]);
      StepFolds(rules, inputs, i);
      isValid := isValid && ok;
      errors := errors + fieldErrors;
      i := i + 1;
    }
    assert inputs[..|inputs|] == inputs;
    AllPassMeans(rules, inputs);
    message := if |errors| > 0 then errors[0] else MsgFallback;
  }

  /** A valid form collects no message, so the generic one is shown. */
  lemma ValidFormSilent(rules: Frontend.Rules, inputs: seq<Input>)
    requires forall i :: 0 <= i < |inputs| ==> ValidateField(rules, inputs[i])
    ensures FormErrors(rules, inputs) == []
  {
    if |inputs| > 0 {
      ValidFormSilent(rules, inputs[..|inputs| - 1]);
      PassingFieldSilent(rules, inputs[|inputs| - 1]);
    }
  }

  /** On a form whose fields are all of the rendered types, a failing field
      always produces a message: the generic one is never shown for a form
      that fails. */
  lemma {:induction false} FailingFormExplained(rules: Frontend.Rules, inputs: seq<Input>, k: nat)
    requires forall i :: 0 <= i < |inputs| ==> KnownType(inputs[i].fieldType)
    requires k < |inputs| && !ValidateField(rules, inputs[k])
    ensures |FormErrors(rules, inputs)| > 0
    ensures FormMessage(rules, inputs) != MsgFallback
  {
    var last := |inputs| - 1;
    var front := inputs[..last];
    assert FormErrors(rules, inputs) == FormErrors(rules, front) + FieldErrors(rules, inputs[last]);
    if k == last {
      FieldErrorsMatchVerdict(rules, inputs[last]);
    } else {
      assert front[k] == inputs[k];
      FailingFormExplained(rules, front, k);
    }
    FormErrorsAreMessages(rules, inputs);
    assert FormErrors(rules, inputs)[0] in FormErrors(rules, inputs);
  }

  // ---------------------------------------------------------------------
  // The rendered form and the submission
  // ---------------------------------------------------------------------

  /** The inputs of a rendered form once the visitor has typed `typed(name)`
      into each field. */
  function Fill(fields: seq<Frontend.RenderedField>, typed: string -> string): (inputs: seq<Input>)
    ensures |inputs| == |fields|
    ensures forall j :: 0 <= j < |fields| ==> inputs[j].name == fields[j].name && inputs[j].fieldType == fields[j].fieldType
  {
    seq(|fields|, j requires 0 <= j < |fields| => Input(fields[j].fieldType, fields[j].name, typed(fields[j].name)))
  }

  predicate AllKnown(fields: seq<Frontend.RenderedField>) {
    forall j :: 0 <= j < |fields| ==> KnownType(fields[j].fieldType)
  }

  lemma AllKnownAppend(a: seq<Frontend.RenderedField>, b: seq<Frontend.RenderedField>)
    requires AllKnown(a) && AllKnown(b)
    ensures AllKnown(a + b)
  {
    assert forall j :: |a| <= j < |a| + |b| ==> (a + b)[j] == b[j - |a|];
  }

  lemma EntryKnown(spec: Frontend.FieldSpec, enabled: seq<string>, required: seq<string>)
    requires KnownType(spec.fieldType)
    ensures AllKnown(Frontend.FieldEntry(spec, enabled, required))
  {
  }

  lemma FormFieldsKnown(option: Option<PhpArray>)
    ensures AllKnown(Frontend.GetDownloadFormFields(option))
  {
    var enabled := Settings.GetEnabledFields(option);
    var required := Settings.GetRequiredFields(option);
    var f0 := Frontend.FieldEntry(Frontend.NameSpec, enabled, required);
    var f1 := Frontend.FieldEntry(Frontend.EmailSpec, enabled, required);
    var f2 := Frontend.FieldEntry(Frontend.PhoneSpec, enabled, required);
    EntryKnown(Frontend.NameSpec, enabled, required);
    EntryKnown(Frontend.EmailSpec, enabled, required);
    EntryKnown(Frontend.PhoneSpec, enabled, required);
    AllKnownAppend(f0, f1);
    AllKnownAppend(f0 + f1, f2);
  }

  /** The form's fields all have one of the rendered types. */
  lemma RenderedTypesKnown(option: Option<PhpArray>, typed: string -> string)
    ensures var inputs := Fill(Frontend.GetDownloadFormFields(option), typed);
      forall i :: 0 <= i < |inputs| ==> KnownType(inputs[i].fieldType)
  {
    FormFieldsKnown(option);
  }

  /** `formData[fieldName] = fieldValue` over the inputs: the value of the
      last input with that name, if any. */
  function ValueOf(inputs: seq<Input>, name: string): (r: Option<string>)
    ensures r.None? <==> forall j :: 0 <= j < |inputs| ==> inputs[j].name != name
  {
    if |inputs| == 0 then None
    else if inputs[|inputs| - 1].name == name then Some(inputs[|inputs| - 1].value)
    else ValueOf(inputs[..|inputs| - 1], name)
  }

  /** The request the script sends once the form passes: whether the
      form's nonce verifies on the server, the `post_id` input if present,
      and the three contact fields as far as the form has them. */
  function ClientPost(inputs: seq<Input>, nonceOk: bool, postId: Option<string>): Downloads.FormPost {
    Downloads.FormPost(nonceOk, postId,
                       ValueOf(inputs, Frontend.NameSpec.name),
                       ValueOf(inputs, Frontend.EmailSpec.name),
                       ValueOf(inputs, Frontend.PhoneSpec.name))
  }

  /** What `submitDownloadForm` does: show a message and send nothing, or
      post the form. */
  datatype Submission = Blocked(message: string) | Posted(post: Downloads.FormPost)

  /** `submitDownloadForm`: the whole form is checked first; a form that
      fails shows `validateForm`'s message and sends nothing, a form every
      field of which passes is posted. */
  method SubmitForm(rules: Frontend.Rules, inputs: seq<Input>, nonceOk: bool, postId: Option<string>)
    returns (s: Submission)
    ensures s.Posted? <==> forall i :: 0 <= i < |inputs| ==> ValidateField(rules, inputs[i])
    ensures s.Posted? ==> s.post == ClientPost(inputs, nonceOk, postId)
    ensures s.Blocked? ==> s.message == FormMessage(rules, inputs)
  {
    var isValid, message := ValidateForm(rules, inputs);
    if isValid {
      s := Posted(ClientPost(inputs, nonceOk, postId));
    } else {
      s := Blocked(message);
    }
  }

  /** Every message collected is one of the specific ones. */
  lemma {:induction false} FormErrorsAreMessages(rules: Frontend.Rules, inputs: seq<Input>)
    ensures forall m :: m in FormErrors(rules, inputs) ==> m != MsgFallback
  {
    if |inputs| > 0 {
      FormErrorsAreMessages(rules, inputs[..|inputs| - 1]);
    }
  }

  /** A required field that is shown and left blank stops the form. */
  lemma RequiredBlankBlocks(option: Option<PhpArray>, i: nat, value: string)
    requires i < |Frontend.Specs| && Settings.WellFormedOption(option)
    requires Settings.IsFieldRequired(option, Frontend.Specs[i].key) && Blank(value)
    ensures var spec := Frontend.Specs[i];
      !ValidateField(Frontend.GetFormValidationRules(option), Input(spec.fieldType, spec.name, value))
  {
    Frontend.RulesFollowSettings(option, i);
  }

  /** A field the settings switch off is never checked. */
  lemma DisabledFieldUnchecked(option: Option<PhpArray>, i: nat, input: Input)
    requires i < |Frontend.Specs| && Settings.WellFormedOption(option)
    requires !Settings.IsFieldEnabled(option, Frontend.Specs[i].key) && input.name == Frontend.Specs[i].name
    ensures ValidateField(Frontend.GetFormValidationRules(option), input)
    ensures FieldErrors(Frontend.GetFormValidationRules(option), input) == []
  {
    Frontend.RulesFollowSettings(option, i);
  }

  /** With the phone field switched off the form has no phone input, so
      the request the script sends carries no mobile number. */
  lemma PhoneOffNoMobile(option: Option<PhpArray>, typed: string -> string, nonceOk: bool, postId: Option<string>)
    requires Settings.WellFormedOption(option)
    requires !Settings.IsFieldEnabled(option, Frontend.PhoneSpec.key)
    ensures ClientPost(Fill(Frontend.GetDownloadFormFields(option), typed), nonceOk, postId).userMobile.None?
  {
    Frontend.FormFollowsSettings(option, 2);
    NoFieldNoValue(Frontend.GetDownloadFormFields(option), typed, Frontend.PhoneSpec.name);
  }

  /** A name no field of the form carries is not sent. */
  lemma NoFieldNoValue(fields: seq<Frontend.RenderedField>, typed: string -> string, name: string)
    requires Frontend.FieldNamed(fields, name).None?
    ensures ValueOf(Fill(fields, typed), name).None?
  {
  }

  /** The server as written refuses every request from such a form as
      incomplete, whatever the visitor typed. */
  lemma PhoneOffFormRefused(option: Option<PhpArray>, typed: string -> string, postId: Option<string>,
                            site: Downloads.Site, wp: Downloads.Wp, env: Downloads.Env, token: string)
    requires Settings.WellFormedOption(option)
    requires !Settings.IsFieldEnabled(option, Frontend.PhoneSpec.key)
    ensures var post := ClientPost(Fill(Frontend.GetDownloadFormFields(option), typed), true, postId);
      Downloads.SubmitDownloadForm(site, wp, env, post, token).reply == Downloads.JsonError(Downloads.MsgMissing)
  {
    var post := ClientPost(Fill(Frontend.GetDownloadFormFields(option), typed), true, postId);
    PhoneOffNoMobile(option, typed, true, postId);
    Downloads.MissingFieldRejectedFirst(site, wp, env, post, token);
  }
}
