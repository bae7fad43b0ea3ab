/**
 * The validation rules of the form: one rule per field, each producing at
 * most one message, and the routine that runs all four in order and
 * gathers their messages into a field-to-message map.
 */
module Validation {
  import opened Text
  import opened Patterns
  import opened Strength

  datatype Option<T> = None | Some(value: T)

  /** The four inputs of the form, named as their `name` attributes. */
  datatype Field = Username | Email | Password | ConfirmPassword

  /** The values of the four inputs (the `formData` state). */
  datatype FormData = FormData(username: string, email: string, password: string, confirmPassword: string)
  {
    /** The value of input `f`. */
    function Get(f: Field): string {
      match f
      case Username => username
      case Email => email
      case Password => password
      case ConfirmPassword => confirmPassword
    }

    /** `{ ...formData, [f]: v }`: input `f` set to `v`, the others kept. */
    function With(f: Field, v: string): (d: FormData)
      ensures d.Get(f) == v
      ensures forall g :: g != f ==> d.Get(g) == Get(g)
    {
      match f
      case Username => this.(username := v)
      case Email => this.(email := v)
      case Password => this.(password := v)
      case ConfirmPassword => this.(confirmPassword := v)
    }
  }

  /** The empty form the component starts with. */
  const EmptyForm := FormData("", "", "", "")

  const UsernameRequired := "Username is required"
  const EmailRequired := "Email is required"
  const EmailInvalid := "Email address is invalid"
  const PasswordRequired := "Password is required"
  const PasswordTooShort := "Password must be at least 6 characters"
  const PasswordNeedsSpecial := "Password must contain at least one special character"
  const PasswordsDiffer := "Passwords do not match"

  /** `!s.trim()`: the value is empty once trimmed. */
  predicate Blank(s: string) {
    Trim(s) == []
  }

  /** The username rule: "Username is required" exactly when the username
      is only white space. */
  function UsernameError(username: string): (r: Option<string>)
    ensures r.Some? <==> AllSpace(username)
    ensures r.Some? ==> r.value == UsernameRequired
  {
    if Blank(username) then Some(UsernameRequired) else None
  }

  /** The email rule: a message exactly when no substring has the address
      shape, "Email is required" when the email is only white space and
      "Email address is invalid" otherwise. */
  function EmailError(email: string): (r: Option<string>)
    ensures r.Some? <==> !EmailPattern(email)
    ensures r.Some? && AllSpace(email) ==> r.value == EmailRequired
    ensures r.Some? && !AllSpace(email) ==> r.value == EmailInvalid
  {
    if Blank(email) then BlankIsNoEmail(email); Some(EmailRequired)
    else if !EmailPattern(email) then Some(EmailInvalid)
    else None
  }

  /** The password rule: no message exactly when the password has six or
      more characters and a special character; otherwise the first failing
      check, in the order required, length, special character. */
  function PasswordError(password: string): (r: Option<string>)
    ensures r.None? <==> Utf16Length(password) >= 6 && HasSpecial(password)
    ensures r == Some(PasswordRequired) <==> AllSpace(password)
    ensures r == Some(PasswordTooShort) <==> !AllSpace(password) && Utf16Length(password) < 6
    ensures r == Some(PasswordNeedsSpecial) <==>
      !AllSpace(password) && Utf16Length(password) >= 6 && !HasSpecial(password)
  {
    if Blank(password) then Some(PasswordRequired)
    else if Utf16Length(password) < 6 then Some(PasswordTooShort)
    else if !HasSpecial(password) then Some(PasswordNeedsSpecial)
    else None
  }

  /** The confirmation rule: "Passwords do not match" exactly when the
      confirmation differs from the password as typed, untrimmed. */
  function ConfirmError(password: string, confirmPassword: string): (r: Option<string>)
    ensures r.Some? <==> password != confirmPassword
    ensures r.Some? ==> r.value == PasswordsDiffer
  {
    if password != confirmPassword then Some(PasswordsDiffer) else None
  }

  /** The message, if any, that the rules give field `f` of `d`. */
  function FieldError(d: FormData, f: Field): Option<string> {
    match f
    case Username => UsernameError(d.username)
    case Email => EmailError(d.email)
    case Password => PasswordError(d.password)
    case ConfirmPassword => ConfirmError(d.password, d.confirmPassword)
  }

  /** `m` with `o`'s message recorded under `f`, or `m` itself if there is
      no message. */
  function Record(m: map<Field, string>, f: Field, o: Option<string>): map<Field, string> {
    if o.Some? then m[f := o.value] else m
  }

  /** The error map of `d`: each field's message, if it has one, under that
      field's key. */
  function ErrorsOf(d: FormData): (m: map<Field, string>)
    ensures Username in m <==> UsernameError(d.username).Some?
    ensures Email in m <==> EmailError(d.email).Some?
    ensures Password in m <==> PasswordError(d.password).Some?
    ensures ConfirmPassword in m <==> ConfirmError(d.password, d.confirmPassword).Some?
    ensures Username in m ==> Some(m[Username]) == UsernameError(d.username)
    ensures Email in m ==> Some(m[Email]) == EmailError(d.email)
    ensures Password in m ==> Some(m[Password]) == PasswordError(d.password)
    ensures ConfirmPassword in m ==> Some(m[ConfirmPassword]) == ConfirmError(d.password, d.confirmPassword)
  {
    var m := Record(map[], Username, UsernameError(d.username));
    var m := Record(m, Email, EmailError(d.email));
    var m := Record(m, Password, PasswordError(d.password));
    Record(m, ConfirmPassword, ConfirmError(d.password, d.confirmPassword))
  }

  /** The form the rules accept, stated field by field without the rules'
      order: a username that is not only white space, an address-shaped
      email, a password of six or more characters with a special character,
      and an identical confirmation. */
  predicate Acceptable(d: FormData) {
    && !AllSpace(d.username)
    && EmailPattern(d.email)
    && Utf16Length(d.password) >= 6 && HasSpecial(d.password)
    && d.password == d.confirmPassword
  }

  /** The body of `validateForm` up to `setErrors`: runs the four checks in
      order, adding a message and clearing the validity flag whenever one
      fails, and returns the map and the flag. */
  method ValidateFields(d: FormData) returns (errors: map<Field, string>, isValid: bool)
    ensures errors == ErrorsOf(d)
    ensures isValid <==> errors == map[]
  {
    errors := map[];
    isValid := true;

    if Trim(d.username) == [] {
      errors := errors[Username := UsernameRequired];
      isValid := false;
    }

    if Trim(d.email) == [] {
      errors := errors[Email := EmailRequired];
      isValid := false;
    } else if !EmailPattern(d.email) {
      errors := errors[Email := EmailInvalid];
      isValid := false;
    }

    if Trim(d.password) == [] {
      errors := errors[Password := PasswordRequired];
      isValid := false;
    } else if Utf16Length(d.password) < 6 {
      errors := errors[Password := PasswordTooShort];
      isValid := false;
    } else if !HasSpecial(d.password) {
      errors := errors[Password := PasswordNeedsSpecial];
      isValid := false;
    }

    if d.password != d.confirmPassword {
      errors := errors[ConfirmPassword := PasswordsDiffer];
      isValid := false;
    }
    NoErrorsIffNoMessages(d);
  }

  /** The error map is empty exactly when no rule gives a message. */
  lemma NoErrorsIffNoMessages(d: FormData)
    ensures ErrorsOf(d) == map[] <==>
      && UsernameError(d.username) == None && EmailError(d.email) == None
      && PasswordError(d.password) == None && ConfirmError(d.password, d.confirmPassword) == None
  {
    if f :| FieldError(d, f) != None {
      assert f in ErrorsOf(d);
    } else {
      assert FieldError(d, Username) == FieldError(d, Email) == None;
      assert FieldError(d, Password) == FieldError(d, ConfirmPassword) == None;
    }
  }

  /** The username has a message exactly when it is only white space, and
      the message is "Username is required". */
  lemma UsernameRule(d: FormData)
    ensures Username in ErrorsOf(d) <==> AllSpace(d.username)
    ensures Username in ErrorsOf(d) ==> ErrorsOf(d)[Username] == UsernameRequired
  {
  }

  /** The email has a message exactly when no substring has the address
      shape; the message is "Email is required" when the email is only white
      space and "Email address is invalid" otherwise. */
  lemma EmailRule(d: FormData)
    ensures Email in ErrorsOf(d) <==> !EmailPattern(d.email)
    ensures Email in ErrorsOf(d) && AllSpace(d.email) ==> ErrorsOf(d)[Email] == EmailRequired
    ensures Email in ErrorsOf(d) && !AllSpace(d.email) ==> ErrorsOf(d)[Email] == EmailInvalid
  {
    if AllSpace(d.email) {
      BlankIsNoEmail(d.email);
    }
  }

  /** The password has no message exactly when it is six or more characters
      long and holds a special character. Otherwise it has exactly one, the
      first failing check in the order required, length, special character:
      "required" only for white space, "too short" only for a short password
      with some other character, "special character" only for a long enough
      one without any. */
  lemma PasswordRule(d: FormData)
    ensures Password !in ErrorsOf(d) <==> Utf16Length(d.password) >= 6 && HasSpecial(d.password)
    ensures Password in ErrorsOf(d) ==>
      (ErrorsOf(d)[Password] == PasswordRequired <==> AllSpace(d.password))
    ensures Password in ErrorsOf(d) ==>
      (ErrorsOf(d)[Password] == PasswordTooShort <==>
        !AllSpace(d.password) && Utf16Length(d.password) < 6)
    ensures Password in ErrorsOf(d) ==>
      (ErrorsOf(d)[Password] == PasswordNeedsSpecial <==>
        Utf16Length(d.password) >= 6 && !HasSpecial(d.password) && !AllSpace(d.password))
  {
    if HasSpecial(d.password) {
      SpecialIsNotBlank(d.password);
    }
  }

  /** The confirmation has a message exactly when it differs from the
      password as typed (no trimming), whatever the password's own message. */
  lemma ConfirmRule(d: FormData)
    ensures ConfirmPassword in ErrorsOf(d) <==> d.password != d.confirmPassword
    ensures ConfirmPassword in ErrorsOf(d) ==> ErrorsOf(d)[ConfirmPassword] == PasswordsDiffer
  {
  }

  /** The map holds only the seven messages, each under its own field. */
  lemma MessagesBelongToTheirFields(d: FormData, f: Field)
    requires f in ErrorsOf(d)
    ensures f == Username ==> ErrorsOf(d)[f] == UsernameRequired
    ensures f == Email ==> ErrorsOf(d)[f] in {EmailRequired, EmailInvalid}
    ensures f == Password ==> ErrorsOf(d)[f] in {PasswordRequired, PasswordTooShort, PasswordNeedsSpecial}
    ensures f == ConfirmPassword ==> ErrorsOf(d)[f] == PasswordsDiffer
  {
  }

  /** A form is accepted (the error map is empty) exactly when it is
      `Acceptable`. */
  lemma AcceptedIffAcceptable(d: FormData)
    ensures ErrorsOf(d) == map[] <==> Acceptable(d)
  {
    UsernameRule(d);
    EmailRule(d);
    PasswordRule(d);
    ConfirmRule(d);
    if ErrorsOf(d) != map[] {
      var f :| f in ErrorsOf(d);
    }
  }

  /** An accepted password is never labelled Weak, though a Strong label
      does not make a password acceptable (see `StrongIsNotEnough`). */
  lemma AcceptedPasswordIsNotWeak(d: FormData)
    requires ErrorsOf(d) == map[]
    ensures StrengthOf(d.password) != Weak
  {
    AcceptedIffAcceptable(d);
  }

  /** "Abcdef1" is labelled Strong yet is refused for lacking a special
      character. */
  lemma StrongIsNotEnough()
    ensures StrengthOf("Abcdef1") == Strong
    ensures PasswordError("Abcdef1") == Some(PasswordNeedsSpecial)
  {
    StrengthExamples();
    LongAlphanumericNeedsSpecial("Abcdef1");
  }

  /** A password of six or more ASCII letters and digits always gets the
      special-character message. */
  lemma LongAlphanumericNeedsSpecial(password: string)
    requires |password| >= 6 && forall i | 0 <= i < |password| :: IsAsciiAlphanumeric(password[i])
    ensures PasswordError(password) == Some(PasswordNeedsSpecial)
  {
    assert !IsSpace(password[0]);
    Utf16LengthOfBmp(password);
    AlphanumericHasNoSpecial(password);
  }

  /** The email examples that fail: "foo" is invalid and "" is missing. */
  lemma EmailFailureExamples()
    ensures EmailError("foo") == Some(EmailInvalid)
    ensures EmailError("") == Some(EmailRequired)
  {
    var t := "foo";
    assert !Blank(t) by { assert !IsSpace(t[0]); }
    assert !EmailPattern(t) by {
      assert forall i | 0 <= i < |t| :: t[i] != '@';
    }
  }

  /** The email examples that pass: "a@b.co", and any text containing an
      address-shaped word, such as "not an email: a@b.co". */
  lemma EmailSuccessExamples()
    ensures EmailError("a@b.co") == None
    ensures EmailError("not an email: a@b.co") == None
  {
    var e := "a@b.co";
    assert EmailPattern(e) by { assert EmailMatchAt(e, 0, 1, 3, 6); }
    var l := "not an email: a@b.co";
    assert EmailPattern(l) by {
      EmailPatternUnanchored("not an email: ", e, "");
      assert l == "not an email: " + e + "";
    }
  }

  /** The password examples that fail: "abc" is too short, "abcdef" lacks
      a special character, and six spaces count as missing. */
  lemma PasswordFailureExamples()
    ensures PasswordError("abc") == Some(PasswordTooShort)
    ensures PasswordError("abcdef") == Some(PasswordNeedsSpecial)
    ensures PasswordError("      ") == Some(PasswordRequired)
  {
    var a, b := "abc", "abcdef";
    assert !Blank(a) by { assert !IsSpace(a[0]); }
    assert Utf16Length(a) == 3 by { Utf16LengthOfBmp(a); }
    assert !Blank(b) by { assert !IsSpace(b[0]); }
    assert Utf16Length(b) == 6 by { Utf16LengthOfBmp(b); }
    AlphanumericHasNoSpecial(b);
    assert Blank("      ");
  }

  /** The password example that passes: "abc@12". */
  lemma PasswordSuccessExample()
    ensures PasswordError("abc@12") == None
  {
    var c := "abc@12";
    assert !Blank(c) by { assert !IsSpace(c[0]); }
    assert Utf16Length(c) == 6 by { Utf16LengthOfBmp(c); }
    assert HasSpecial(c) by { assert c[3] in SpecialChars; }
  }

  /** "Secret1!" against "Secret1" does not match; equal values always do. */
  lemma ConfirmExamples(p: string)
    ensures ConfirmError("Secret1!", "Secret1") == Some(PasswordsDiffer)
    ensures ConfirmError(p, p) == None
  {
    assert |"Secret1!"| != |"Secret1"|;
  }
}
