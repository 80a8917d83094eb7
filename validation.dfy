/** The business rules of ctr_web/src/validation/entityValidation.js: the constants, the four
    custom tests, and the field rules of the entity, registration and login schemas.

    A schema field runs every one of its rules and reports the message of each rule that fails,
    in the order the rules are declared; the form shows the first. Each `...Errors` function
    below is that list. Yup's own `.email()` check is an opaque predicate here, passed in as
    `wellFormed`; as in Yup it is not applied to the empty string. */
module EntityValidation {
  import opened Wrappers
  import opened Text

  const MinAge := 18
  const MaxAge := 65
  const AllowedEmailDomains: seq<string> := ["@company.com", "@corp.company.com"]
  const ForbiddenNames: seq<string> := ["admin", "test", "user", "root"]

  /** `/^[A-Z]/`, false on the empty string. */
  predicate StartsWithCapital(v: string) {
    v != [] && IsUpper(v[0])
  }

  /** `/^[A-Za-z]+$/`, false on the empty string. */
  predicate OnlyLetters(v: string) {
    v != [] && forall i :: 0 <= i < |v| ==> IsLetter(v[i])
  }

  /** The lower-cased address ends with one of the allowed domains; false on the empty string. */
  predicate IsCorporateEmail(v: string) {
    v != [] && exists k :: 0 <= k < |AllowedEmailDomains| && EndsWith(Lower(v), AllowedEmailDomains[k])
  }

  /** True on the empty string; otherwise the lower-cased value is not a forbidden name. */
  predicate IsNotForbiddenName(v: string) {
    v == [] || Lower(v) !in ForbiddenNames
  }

  /** The message of a rule, when it fails. */
  function Check(ok: bool, message: string): seq<string> {
    if ok then [] else [message]
  }

  // ===== entity schema =====

  function EntityFirstNameErrors(v: string): seq<string> {
    Check(v != [], "First name is required")
    + Check(JsLength(v) >= 2, "First name must be at least 2 characters")
    + Check(JsLength(v) <= 50, "First name must be less than 50 characters")
    + Check(StartsWithCapital(v), "First name must start with a capital letter")
    + Check(OnlyLetters(v), "First name must contain only letters")
    + Check(IsNotForbiddenName(v), "This name is not allowed")
  }

  function EntityLastNameErrors(v: string): seq<string> {
    Check(v != [], "Last name is required")
    + Check(JsLength(v) >= 2, "Last name must be at least 2 characters")
    + Check(JsLength(v) <= 50, "Last name must be less than 50 characters")
    + Check(StartsWithCapital(v), "Last name must start with a capital letter")
    + Check(OnlyLetters(v), "Last name must contain only letters")
  }

  const CorporateEmailMessage := "Email must be a corporate email (@company.com or @corp.company.com)"

  function EntityEmailErrors(v: string, wellFormed: bool): seq<string> {
    Check(v != [], "Email is required")
    + Check(v == [] || wellFormed, "Invalid email format")
    + Check(IsCorporateEmail(v), CorporateEmailMessage)
  }

  /** The age field after Yup's number cast: absent, not a number, or a number. */
  datatype AgeInput = Missing | NotANumber | Number(x: real)

  /** A cast failure reports only the type error; an absent value only `required`. */
  function AgeErrors(a: AgeInput): seq<string> {
    match a
    case Missing => ["Age is required"]
    case NotANumber => ["Age must be a number"]
    case Number(x) =>
      Check(x.Floor as real == x, "Age must be a whole number")
      + Check(x >= MinAge as real, "Employee must be at least 18 years old")
      + Check(x <= MaxAge as real, "Employee must be no older than 65 years")
  }

  /** A first name passes iff it has 2 to 50 characters, starts with a capital, has only ASCII
      letters and is not a forbidden name in any case; an empty one is first told it is required.
      ASCII letters are one UTF-16 code unit each, so here JavaScript's length is the character
      count. */
  lemma EntityFirstNameAcceptedIff(v: string)
    ensures EntityFirstNameErrors(v) == [] <==>
      2 <= |v| <= 50 && IsUpper(v[0]) && (forall i :: 0 <= i < |v| ==> IsLetter(v[i]))
      && Lower(v) !in ForbiddenNames
    ensures v == [] ==> EntityFirstNameErrors(v)[0] == "First name is required"
  {
  }

  /** A last name passes iff it has 2 to 50 characters, starts with a capital and has only ASCII
      letters; forbidden names are allowed here. */
  lemma EntityLastNameAcceptedIff(v: string)
    ensures EntityLastNameErrors(v) == [] <==>
      2 <= |v| <= 50 && IsUpper(v[0]) && (forall i :: 0 <= i < |v| ==> IsLetter(v[i]))
    ensures EntityLastNameErrors("Admin") == []
    ensures v == [] ==> EntityLastNameErrors(v)[0] == "Last name is required"
  {
    assert OnlyLetters("Admin") by {
      forall i | 0 <= i < 5 ensures IsLetter("Admin"[i]) { }
    }
  }

  /** An email passes iff it is present, well formed and, lower-cased, ends with an allowed domain. */
  lemma EntityEmailAcceptedIff(v: string, wellFormed: bool)
    ensures EntityEmailErrors(v, wellFormed) == [] <==>
      v != [] && wellFormed
      && (EndsWith(Lower(v), "@company.com") || EndsWith(Lower(v), "@corp.company.com"))
  {
    if EndsWith(Lower(v), "@corp.company.com") {
      assert EndsWith(Lower(v), AllowedEmailDomains[1]);
    }
    if EndsWith(Lower(v), "@company.com") {
      assert EndsWith(Lower(v), AllowedEmailDomains[0]);
    }
  }

  /** An age passes iff it is a whole number from 18 to 65. */
  lemma AgeAcceptedIff(a: AgeInput)
    ensures AgeErrors(a) == [] <==>
      a.Number? && a.x.Floor as real == a.x && MinAge <= a.x.Floor <= MaxAge
  {
  }

  /** The domain and forbidden-name tests ignore case; an empty value is not corporate and not
      forbidden, and every corporate address ends in "company.com". */
  lemma CustomTestsIgnoreCase(v: string)
    ensures IsCorporateEmail(v) <==> IsCorporateEmail(Lower(v))
    ensures IsNotForbiddenName(v) <==> IsNotForbiddenName(Lower(v))
    ensures !IsCorporateEmail("") && IsNotForbiddenName("")
    ensures IsCorporateEmail(v) ==> EndsWith(Lower(v), "company.com")
  {
    LowerIdempotent(v);
    if IsCorporateEmail(v) {
      var k :| 0 <= k < |AllowedEmailDomains| && EndsWith(Lower(v), AllowedEmailDomains[k]);
      DomainEndsWithCompanyCom(k);
      EndsWithTransitive(Lower(v), AllowedEmailDomains[k], "company.com");
    }
  }

  /** Both allowed domains end in "company.com". */
  lemma DomainEndsWithCompanyCom(k: int)
    requires 0 <= k < |AllowedEmailDomains|
    ensures EndsWith(AllowedEmailDomains[k], "company.com")
  {
    var d := AllowedEmailDomains[k];
    assert d[|d| - 11..] == "company.com";
  }

  // ===== registration schema =====

  function RegistrationFirstNameErrors(v: string): seq<string> {
    Check(v != [], "First name is required")
    + Check(JsLength(v) >= 2, "First name must be at least 2 characters")
    + Check(StartsWithCapital(v), "Must start with a capital letter")
  }

  /** An absent last name passes; a present one, even empty, must have 2 characters, and a
      non-empty one must start with a capital. */
  function RegistrationLastNameErrors(v: Option<string>): seq<string> {
    match v
    case None => []
    case Some(s) =>
      Check(JsLength(s) >= 2, "Last name must be at least 2 characters")
      + Check(s == [] || StartsWithCapital(s), "Must start with a capital letter")
  }

  function RegistrationEmailErrors(v: string, wellFormed: bool): seq<string> {
    Check(v != [], "Email is required")
    + Check(v == [] || wellFormed, "Invalid email format")
  }

  function UsernameErrors(v: string): seq<string> {
    Check(v != [], "Username is required")
    + Check(JsLength(v) >= 3, "Username must be at least 3 characters")
    + Check(JsLength(v) <= 20, "Username must be less than 20 characters")
    + Check(v != [] && forall i :: 0 <= i < |v| ==> IsWordChar(v[i]),
            "Username can only contain letters, numbers and underscores")
    + Check(IsNotForbiddenName(v), "This username is not allowed")
  }

  /** The text before the first line terminator: where `.` in a lookahead can reach from `^`. */
  function FirstLine(v: string): (r: string)
    ensures |r| <= |v| && r == v[..|r|]
    ensures forall i :: 0 <= i < |r| ==> !IsLineTerminator(r[i])
    ensures |r| < |v| ==> IsLineTerminator(v[|r|])
  {
    if v == [] || IsLineTerminator(v[0]) then []
    else [v[0]] + FirstLine(v[1..])
  }

  /** `/^(?=.*[a-z])(?=.*[A-Z])(?=.*\d)/` */
  predicate PasswordPattern(v: string) {
    var line := FirstLine(v);
    (exists i :: 0 <= i < |line| && IsLower(line[i]))
    && (exists i :: 0 <= i < |line| && IsUpper(line[i]))
    && (exists i :: 0 <= i < |line| && IsDigit(line[i]))
  }

  function PasswordErrors(v: string): seq<string> {
    Check(v != [], "Password is required")
    + Check(JsLength(v) >= 8, "Password must be at least 8 characters")
    + Check(PasswordPattern(v),
            "Password must contain at least one uppercase letter, one lowercase letter, and one number")
  }

  function ConfirmPasswordErrors(password: string, confirm: string): seq<string> {
    Check(confirm != [], "Please confirm your password")
    + Check(confirm == password, "Passwords must match")
  }

  /** A username passes iff it has 3 to 20 characters from [A-Za-z0-9_] and is not a forbidden
      name in any case (those characters are one code unit each). */
  lemma UsernameAcceptedIff(v: string)
    ensures UsernameErrors(v) == [] <==>
      3 <= |v| <= 20 && (forall i :: 0 <= i < |v| ==> IsWordChar(v[i]))
      && Lower(v) !in ForbiddenNames
  {
  }

  /** "Root" is well formed but forbidden: it gets exactly the not-allowed message. */
  lemma RootIsNotAllowed(v: string)
    requires v == "Root"
    ensures UsernameErrors(v) == ["This username is not allowed"]
  {
    assert |v| == 4 && IsUpper(v[0]) && IsLower(v[1]) && IsLower(v[2]) && IsLower(v[3]);
    assert forall i :: 0 <= i < |v| ==> IsWordChar(v[i]);
    assert Lower(v) == "root";
  }

  /** A password passes iff it has at least 8 UTF-16 code units and its first line holds a
      lowercase letter, an uppercase letter and a digit; the confirmation passes iff it is
      present and equal to the password. */
  lemma PasswordAcceptedIff(v: string, confirm: string)
    ensures PasswordErrors(v) == [] <==> JsLength(v) >= 8 && PasswordPattern(v)
    ensures ConfirmPasswordErrors(v, confirm) == [] <==> confirm != [] && confirm == v
  {
  }

  /** The first line ends at the first line terminator, or at the end of the text. */
  lemma FirstLineEndsAtTerminator(v: string, k: nat)
    requires k <= |v| && (k < |v| ==> IsLineTerminator(v[k]))
    requires forall i :: 0 <= i < k ==> !IsLineTerminator(v[i])
    ensures FirstLine(v) == v[..k]
  {
  }

  /** "Abcdefg1" passes. */
  lemma PasswordExampleAccepted(v: string)
    requires v == "Abcdefg1"
    ensures PasswordErrors(v) == []
  {
    assert |v| == 8;
    assert !IsLineTerminator(v[0]) && !IsLineTerminator(v[1]) && !IsLineTerminator(v[2])
      && !IsLineTerminator(v[3]) && !IsLineTerminator(v[4]) && !IsLineTerminator(v[5])
      && !IsLineTerminator(v[6]) && !IsLineTerminator(v[7]);
    FirstLineEndsAtTerminator(v, 8);
    assert v[..8] == v;
    var line := FirstLine(v);
    assert IsUpper(line[0]) && IsLower(line[1]) && IsDigit(line[7]);
  }

  /** In "ABCDEFG1\na" the lowercase letter on the second line is not found. */
  lemma PasswordPatternSeesFirstLineOnly(v: string)
    requires v == "ABCDEFG1\na"
    ensures !PasswordPattern(v)
  {
    assert |v| == 10 && IsLineTerminator(v[8]);
    assert !IsLineTerminator(v[0]) && !IsLineTerminator(v[1]) && !IsLineTerminator(v[2])
      && !IsLineTerminator(v[3]) && !IsLineTerminator(v[4]) && !IsLineTerminator(v[5])
      && !IsLineTerminator(v[6]) && !IsLineTerminator(v[7]);
    FirstLineEndsAtTerminator(v, 8);
    var line := FirstLine(v);
    assert line == "ABCDEFG1";
    assert forall i :: 0 <= i < |line| ==> !IsLower(line[i]);
  }

  /** Registration: the first name needs 2 code units and a capital; an absent last name passes,
      an empty one does not, and a present one needs 2 code units and a capital. */
  lemma RegistrationNamesAcceptedIff(first: string, last: Option<string>)
    ensures RegistrationFirstNameErrors(first) == [] <==> JsLength(first) >= 2 && IsUpper(first[0])
    ensures RegistrationLastNameErrors(last) == [] <==>
      last.None? || (JsLength(last.value) >= 2 && IsUpper(last.value[0]))
    ensures RegistrationLastNameErrors(Some("")) == ["Last name must be at least 2 characters"]
  {
  }

  /** Registration email: present and well formed; an empty one is only told it is required. */
  lemma RegistrationEmailAcceptedIff(v: string, wellFormed: bool)
    ensures RegistrationEmailErrors(v, wellFormed) == [] <==> v != [] && wellFormed
    ensures RegistrationEmailErrors("", wellFormed) == ["Email is required"]
  {
  }

  // ===== login schema =====

  function LoginErrors(username: string, password: string): seq<string> {
    Check(username != [], "Username is required")
    + Check(JsLength(username) >= 3, "Username must be at least 3 characters")
    + Check(password != [], "Password is required")
    + Check(JsLength(password) >= 6, "Password must be at least 6 characters")
  }

  /** The login form passes iff the username has 3 UTF-16 code units and the password 6. */
  lemma LoginAcceptedIff(username: string, password: string)
    ensures LoginErrors(username, password) == [] <==> JsLength(username) >= 3 && JsLength(password) >= 6
  {
  }
}
