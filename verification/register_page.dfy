/** The sign-up form of frontend/src/pages/RegisterPage.jsx: its validation
    and the multipart payload it sends. */
module RegisterPage {
  import opened Common
  import Validators

  datatype RegisterForm = RegisterForm(
    firstName: string,
    lastName: string,
    email: string,
    password: string,
    confirmPassword: string,
    phoneNumber: string,
    role: string,
    profilePhoto: Option<string>)

  /** The form as the page first shows it: empty fields, role "user", no
      photo. */
  const InitialForm: RegisterForm := RegisterForm("", "", "", "", "", "", "user", None)

  const MinLength: nat := 6

  const MissingField: string := "Please fill all required fields"
  const NoMatch: string := "Passwords do not match"
  const TooShort: string := "Password must be at least 6 characters"

  predicate AllFilled(f: RegisterForm) {
    f.firstName != "" && f.lastName != "" && f.email != "" && f.password != "" && f.confirmPassword != ""
  }

  /** `validateForm`: the five required fields, then equal passwords, then
      the length, reported in that order. */
  function ValidateForm(f: RegisterForm): (v: Verdict)
    ensures v == Pass <==> AllFilled(f) && f.password == f.confirmPassword && |f.password| >= MinLength
    ensures !AllFilled(f) ==> v == Fail(MissingField)
    ensures AllFilled(f) && f.password != f.confirmPassword ==> v == Fail(NoMatch)
    ensures AllFilled(f) && f.password == f.confirmPassword && |f.password| < MinLength ==> v == Fail(TooShort)
  {
    if !AllFilled(f) then Fail(MissingField)
    else if f.password != f.confirmPassword then Fail(NoMatch)
    else if |f.password| < MinLength then Fail(TooShort)
    else Pass
  }

  /** The untouched form is refused for its empty fields. */
  lemma InitialFormRefused()
    ensures ValidateForm(InitialForm) == Fail(MissingField)
  {
  }

  /** A value of the multipart body. */
  datatype FormValue = Text(s: string) | Upload(file: string)

  type Entries = seq<(string, FormValue)>

  /** The loop over the form's keys in declaration order: everything but
      the confirmation and a null photo is appended, empty strings
      included. */
  function Payload(f: RegisterForm): (p: Entries)
    ensures |p| >= 6 && p[..6] == [("firstName", Text(f.firstName)), ("lastName", Text(f.lastName)), ("email", Text(f.email)),
                       ("password", Text(f.password)), ("phoneNumber", Text(f.phoneNumber)), ("role", Text(f.role))]
    ensures f.profilePhoto.None? ==> |p| == 6
    ensures f.profilePhoto.Some? ==> p[6..] == [("profilePhoto", Upload(f.profilePhoto.value))]
  {
    [("firstName", Text(f.firstName)), ("lastName", Text(f.lastName)), ("email", Text(f.email)),
     ("password", Text(f.password)), ("phoneNumber", Text(f.phoneNumber)), ("role", Text(f.role))]
    + (match f.profilePhoto
       case None => []
       case Some(file) => [("profilePhoto", Upload(file))])
  }

  /** The confirmation never leaves the page. */
  lemma PayloadOmitsConfirmation(f: RegisterForm)
    ensures "confirmPassword" !in Keys(Payload(f))
  {
  }

  /** The page asks for six characters where the shared password validator
      asks for eight and a digit: "abcdef" passes the form and fails the
      validator. */
  lemma FormWeakerThanValidator()
    ensures ValidateForm(InitialForm.(firstName := "A", lastName := "B", email := "a@b.cd",
                                      password := "abcdef", confirmPassword := "abcdef")) == Pass
    ensures !Validators.ValidatePassword("abcdef")
  {
  }

  /** Every password the shared validator accepts, the form accepts too
      (when typed twice and the other fields are filled). */
  lemma ValidatorStrongerThanForm(f: RegisterForm)
    requires AllFilled(f) && f.password == f.confirmPassword
    requires Validators.ValidatePassword(f.password)
    ensures ValidateForm(f) == Pass
  {
  }
}
