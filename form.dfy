/**
 * The `FormValidation` component's state and its two event handlers. Each
 * handler is one atomic transition of the state; rendering is not modelled.
 */
module Form {
  import opened Text
  import opened Patterns
  import opened Strength
  import opened Validation

  /** The outcome of the last submit attempt (`'success'` or `'error'`). */
  datatype Status = Success | Error

  class FormValidation {
    /** The four input values (`formData`). */
    var formData: FormData
    /** The messages shown under the inputs (`errors`). */
    var errors: map<Field, string>
    /** `submissionStatus`: None until the first submit. */
    var submissionStatus: Option<Status>
    /** `passwordStrength`: None (the empty label) until the password is edited. */
    var passwordStrength: Option<Strength>
    /** The input values at the last submit. */
    ghost var submitted: FormData

    /** What the handlers keep true: the strength label, once shown, is that
        of the current password; the messages are those of the values last
        submitted (none before the first submit); and the status is Success
        exactly when that submit produced no message. */
    ghost predicate Valid()
      reads this
    {
      && (passwordStrength == None ==> formData.password == "")
      && (passwordStrength != None ==> passwordStrength.value == StrengthOf(formData.password))
      && (submissionStatus == None ==> errors == map[])
      && (submissionStatus != None ==> errors == ErrorsOf(submitted))
      && (submissionStatus == Some(Success) <==> submissionStatus != None && errors == map[])
    }

    /** The initial state: empty inputs, no messages, no status, no label. */
    constructor ()
      ensures Valid()
      ensures formData == EmptyForm && errors == map[]
      ensures submissionStatus == None && passwordStrength == None
    {
      formData := EmptyForm;
      errors := map[];
      submissionStatus := None;
      passwordStrength := None;
      submitted := EmptyForm;
    }

    /** `validateForm`: stores the error map of the current values and
        returns whether it is empty; the values themselves are untouched.
        The component reaches it only through `handleSubmit`
        (src/App.js:65), which also records the status and the submitted
        values; called alone it would leave `errors` out of step with them,
        so it neither needs nor keeps `Valid()`. */
    method ValidateForm() returns (isValid: bool)
      modifies this`errors
      ensures errors == ErrorsOf(formData)
      ensures isValid <==> errors == map[]
    {
      var e;
      e, isValid := ValidateFields(formData);
      errors := e;
    }

    /** `handleSubmit`: recomputes the messages from the current values and
        sets the status to Success exactly when there are none, which is
        exactly when the values are `Acceptable`; the values and the strength
        label are untouched. */
    method HandleSubmit()
      requires Valid()
      modifies this
      ensures Valid()
      ensures errors == ErrorsOf(formData)
      ensures submissionStatus == Some(if errors == map[] then Success else Error)
      ensures submissionStatus == Some(Success) <==> Acceptable(formData)
      ensures formData == old(formData) && passwordStrength == old(passwordStrength)
    {
      var ok := ValidateForm();
      if ok {
        submissionStatus := Some(Success);
      } else {
        submissionStatus := Some(Error);
      }
      submitted := formData;
      AcceptedIffAcceptable(formData);
    }

    /** `handleChange`: sets input `name` to `value` and no other; editing the
        password also relabels its strength from the new value; the messages
        and the status are untouched. */
    method HandleChange(name: Field, value: string)
      requires Valid()
      modifies this`formData, this`passwordStrength
      ensures Valid()
      ensures formData == old(formData).With(name, value)
      ensures formData.Get(name) == value
      ensures forall f :: f != name ==> formData.Get(f) == old(formData).Get(f)
      ensures passwordStrength == if name == Password then Some(StrengthOf(value)) else old(passwordStrength)
      ensures errors == old(errors) && submissionStatus == old(submissionStatus)
    {
      if name == Password {
        passwordStrength := Some(StrengthOf(value));
      }
      formData := formData.With(name, value);
      assert formData.password == formData.Get(Password);
    }
  }

  /** The values of the end-to-end example are each accepted on their own. */
  lemma ExampleValuesAccepted()
    ensures !AllSpace("joe") && EmailPattern("joe@x.com")
    ensures Utf16Length("Abc123!") == 7 && HasSpecial("Abc123!")
    ensures StrengthOf("Abc123!") == Strong
  {
    var u, e, p := "joe", "joe@x.com", "Abc123!";
    assert !IsSpace(u[0]);
    assert EmailMatchAt(e, 0, 3, 5, 9);
    Utf16LengthOfBmp(p);
    assert p[6] in SpecialChars;
    assert 'A' <= p[0] <= 'Z' && 'b' <= p[1] <= 'z' && '0' <= p[3] <= '9';
  }

  /** The end-to-end example: typing "joe", "joe@x.com" and "Abc123!" and then
      a confirmation, and submitting, succeeds exactly when the confirmation
      is "Abc123!"; otherwise the only message is the mismatch. The label
      shown is Strong either way. */
  method SubmitExample(confirm: string) returns (status: Option<Status>, errors: map<Field, string>, shown: Option<Strength>)
    ensures status == Some(Success) <==> confirm == "Abc123!"
    ensures status != Some(Success) ==> status == Some(Error) && errors == map[ConfirmPassword := PasswordsDiffer]
    ensures shown == Some(Strong)
  {
    var form := new FormValidation();
    form.HandleChange(Username, "joe");
    form.HandleChange(Email, "joe@x.com");
    form.HandleChange(Password, "Abc123!");
    form.HandleChange(ConfirmPassword, confirm);
    assert form.formData == FormData("joe", "joe@x.com", "Abc123!", confirm);
    ExampleValuesAccepted();
    UsernameRule(form.formData);
    EmailRule(form.formData);
    PasswordRule(form.formData);
    ConfirmRule(form.formData);
    form.HandleSubmit();
    status, errors, shown := form.submissionStatus, form.errors, form.passwordStrength;
  }
}
