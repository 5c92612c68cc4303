/** The profile form of frontend/src/pages/ProfilePage.jsx: its validation
    of a password change and the update payload it sends. */
module ProfilePage {
  import opened Common

  datatype ProfileForm = ProfileForm(
    firstName: string,
    lastName: string,
    email: string,
    phoneNumber: string,
    currentPassword: string,
    newPassword: string,
    confirmNewPassword: string)

  const MinNewPasswordLength: nat := 6

  const NeedCurrent: string := "Current password is required to change password"
  const NoMatch: string := "New passwords do not match"
  const TooShort: string := "New password must be at least 6 characters"

  /** `validateForm`: a password change (either new-password box filled)
      needs the current password, two equal new passwords, and at least six
      characters, checked and reported in that order. */
  function ValidateForm(f: ProfileForm): (v: Verdict)
    ensures f.newPassword == "" && f.confirmNewPassword == "" ==> v == Pass
    ensures v == Pass <==>
      (f.newPassword == "" && f.confirmNewPassword == "")
      || (f.currentPassword != "" && f.newPassword == f.confirmNewPassword && |f.newPassword| >= MinNewPasswordLength)
    ensures (f.newPassword != "" || f.confirmNewPassword != "") && f.currentPassword == "" ==> v == Fail(NeedCurrent)
    ensures ((f.newPassword != "" || f.confirmNewPassword != "") && f.currentPassword != ""
             && f.newPassword != f.confirmNewPassword) ==> v == Fail(NoMatch)
    ensures ((f.newPassword != "" || f.confirmNewPassword != "") && f.currentPassword != ""
             && f.newPassword == f.confirmNewPassword && |f.newPassword| < MinNewPasswordLength) ==> v == Fail(TooShort)
  {
    if f.newPassword != "" || f.confirmNewPassword != "" then
      if f.currentPassword == "" then Fail(NeedCurrent)
      else if f.newPassword != f.confirmNewPassword then Fail(NoMatch)
      else if |f.newPassword| < MinNewPasswordLength then Fail(TooShort)
      else Pass
    else Pass
  }

  /** The body of the profile update request. */
  type Payload = seq<(string, string)>

  /** The update data `handleSubmit` builds: the names and the phone number
      always, the current and new passwords only when a new one is typed. */
  function UpdatePayload(f: ProfileForm): (p: Payload)
    ensures |p| >= 3 && p[..3] == [("firstName", f.firstName), ("lastName", f.lastName), ("phoneNumber", f.phoneNumber)]
    ensures f.newPassword == "" ==> |p| == 3
    ensures f.newPassword != "" ==> p[3..] == [("currentPassword", f.currentPassword), ("newPassword", f.newPassword)]
  {
    [("firstName", f.firstName), ("lastName", f.lastName), ("phoneNumber", f.phoneNumber)]
    + (if f.newPassword != "" then [("currentPassword", f.currentPassword), ("newPassword", f.newPassword)] else [])
  }

  /** The email is shown on the form but never sent, and no confirmation
      field is sent either. */
  lemma PayloadOmitsEmail(f: ProfileForm)
    ensures "email" !in Keys(UpdatePayload(f))
    ensures "confirmNewPassword" !in Keys(UpdatePayload(f))
  {
  }

  /** A submitted password change always carries a non-empty current
      password and a new password of at least six characters. */
  lemma SubmittedChangeIsChecked(f: ProfileForm)
    requires ValidateForm(f) == Pass
    requires f.newPassword != ""
    ensures ("currentPassword", f.currentPassword) in UpdatePayload(f) && f.currentPassword != ""
    ensures ("newPassword", f.newPassword) in UpdatePayload(f) && |f.newPassword| >= MinNewPasswordLength
  {
    assert UpdatePayload(f)[3] == ("currentPassword", f.currentPassword);
    assert UpdatePayload(f)[4] == ("newPassword", f.newPassword);
  }

  /** A confirmation typed without a new password still blocks the form. */
  lemma ConfirmationAloneBlocks(f: ProfileForm)
    requires f.newPassword == "" && f.confirmNewPassword != ""
    ensures ValidateForm(f).Fail?
  {
  }
}
