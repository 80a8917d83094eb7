/** The sign-up form of ctr_web/src/components/Registration.js: its field updates and the
    checks `handleSubmit` runs, in order, before it hands the form to `onRegister`. The
    `await` on `onRegister` splits the submission in two steps: `Submit` up to the call, and
    `CallSettled` once the call resolves or rejects. */
module Registration {
  import opened Wrappers
  import opened Text

  datatype FormData = FormData(
    username: string,
    password: string,
    confirmPassword: string,
    email: string,
    firstName: string,
    lastName: string)

  datatype FormField = Username | Password | ConfirmPassword | Email | FirstName | LastName

  const EmptyForm := FormData("", "", "", "", "", "")

  const RequiredMessage := "Please fill in all required fields"
  const MismatchMessage := "Passwords do not match"
  const ShortPasswordMessage := "Password must be at least 6 characters long"

  /** `{ ...prevState, [name]: value }` */
  function WithField(fd: FormData, field: FormField, value: string): FormData {
    match field
    case Username => fd.(username := value)
    case Password => fd.(password := value)
    case ConfirmPassword => fd.(confirmPassword := value)
    case Email => fd.(email := value)
    case FirstName => fd.(firstName := value)
    case LastName => fd.(lastName := value)
  }

  /** An input change sets the named field and leaves the other five as they were. */
  lemma WithFieldChangesOneField(fd: FormData, field: FormField, value: string)
    ensures var g := WithField(fd, field, value);
      g.username == (if field == Username then value else fd.username)
      && g.password == (if field == Password then value else fd.password)
      && g.confirmPassword == (if field == ConfirmPassword then value else fd.confirmPassword)
      && g.email == (if field == Email then value else fd.email)
      && g.firstName == (if field == FirstName then value else fd.firstName)
      && g.lastName == (if field == LastName then value else fd.lastName)
  {
  }

  /** `!username.trim() || !password.trim() || !email.trim() || !firstName.trim()` */
  predicate MissingRequired(fd: FormData) {
    Trim(fd.username) == [] || Trim(fd.password) == [] || Trim(fd.email) == []
    || Trim(fd.firstName) == []
  }

  /** The message of the first failing check, or none when all pass. */
  function PreSubmitError(fd: FormData): Option<string> {
    if MissingRequired(fd) then
      Some(RequiredMessage)
    else if fd.password != fd.confirmPassword then
      Some(MismatchMessage)
    else if JsLength(fd.password) < 6 then
      Some(ShortPasswordMessage)
    else
      None
  }

  /** Only white space (or nothing at all). */
  predicate Blank(s: string) {
    forall i :: 0 <= i < |s| ==> IsWhitespace(s[i])
  }

  /** The checks run in order and the first failure decides the message: a required field that
      is blank, else a confirmation that differs, else a password under 6 UTF-16 code units
      (`password.length`). The last name is never checked. */
  lemma PreSubmitChecksInOrder(fd: FormData, lastName: string)
    ensures var required := Blank(fd.username) || Blank(fd.password) || Blank(fd.email)
                            || Blank(fd.firstName);
      (PreSubmitError(fd) == Some(RequiredMessage) <==> required)
      && (PreSubmitError(fd) == Some(MismatchMessage) <==>
            !required && fd.password != fd.confirmPassword)
      && (PreSubmitError(fd) == Some(ShortPasswordMessage) <==>
            !required && fd.password == fd.confirmPassword && JsLength(fd.password) < 6)
      && (PreSubmitError(fd) == None <==>
            !required && fd.password == fd.confirmPassword && JsLength(fd.password) >= 6)
    ensures PreSubmitError(fd.(lastName := lastName)) == PreSubmitError(fd)
  {
    MessagesDiffer();
    MissingRequiredIffBlank(fd);
  }

  /** A required field is missing iff one of the four is only white space. */
  lemma MissingRequiredIffBlank(fd: FormData)
    ensures MissingRequired(fd) <==>
      Blank(fd.username) || Blank(fd.password) || Blank(fd.email) || Blank(fd.firstName)
  {
    TrimBlank(fd.username);
    TrimBlank(fd.password);
    TrimBlank(fd.email);
    TrimBlank(fd.firstName);
  }

  /** The three messages differ; all start with 'P', so the proof compares later characters. */
  lemma MessagesDiffer()
    ensures RequiredMessage != MismatchMessage && RequiredMessage != ShortPasswordMessage
    ensures MismatchMessage != ShortPasswordMessage
  {
    assert RequiredMessage[1] == 'l' && MismatchMessage[1] == 'a' && ShortPasswordMessage[1] == 'a';
    assert MismatchMessage[8] == 's' && ShortPasswordMessage[8] == ' ';
  }

  class RegistrationForm {
    var formData: FormData
    var loading: bool
    var error: string

    constructor ()
      ensures formData == EmptyForm && !loading && error == ""
    {
      formData := EmptyForm;
      loading := false;
      error := "";
    }

    /** `handleInputChange`: sets one field and clears any error. */
    method HandleInputChange(field: FormField, value: string)
      modifies this`formData, this`error
      ensures formData == WithField(old(formData), field, value)
      ensures error == ""
    {
      formData := WithField(formData, field, value);
      if error != "" {
        error := "";
      }
    }

    /** `handleSubmit` up to the `await`: a failed check sets its message and stops, and
        `onRegister` is not called; otherwise the error is cleared, `loading` is set, and the
        form, unchanged, is what `onRegister` receives. */
    method Submit() returns (call: Option<FormData>)
      modifies this`loading, this`error
      ensures PreSubmitError(formData).Some? ==>
        call.None? && error == PreSubmitError(formData).value && loading == old(loading)
      ensures PreSubmitError(formData).None? ==> call == Some(formData) && loading && error == ""
    {
      if MissingRequired(formData) {
        error := RequiredMessage;
        call := None;
        return;
      }
      if formData.password != formData.confirmPassword {
        error := MismatchMessage;
        call := None;
        return;
      }
      if JsLength(formData.password) < 6 {
        error := ShortPasswordMessage;
        call := None;
        return;
      }
      loading := true;
      error := "";
      call := Some(formData);
    }

    /** `handleSubmit` after the `await`: a rejection's message becomes the error, and `loading`
        is false whatever the outcome. */
    method CallSettled(rejection: Option<string>)
      modifies this`loading, this`error
      ensures !loading
      ensures error == if rejection.Some? then rejection.value else old(error)
    {
      if rejection.Some? {
        error := rejection.value;
      }
      loading := false;
    }
  }
}
