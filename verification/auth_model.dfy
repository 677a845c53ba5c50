/**
 * The request-body schemas of the authentication routes: field lengths and the
 * cross-field refinements, each refinement returning the fields it flags.
 */
module AuthModel {
  import opened Wrappers

  datatype RegisterBody = RegisterBody(
    email: string, password: string, name: string, phoneNumber: string,
    confirmPassword: string, code: string)

  datatype LoginBody = LoginBody(email: string, password: string, totpCode: Option<string>, code: Option<string>)

  datatype ForgotPasswordBody = ForgotPasswordBody(
    email: string, code: string, newPassword: string, confirmNewPassword: string)

  datatype DisableTwoFactorBody = DisableTwoFactorBody(totpCode: Option<string>, code: Option<string>)

  /** The field an issue is reported on (the `path` of ctx.addIssue). */
  datatype Field = TotpCodeField | CodeField | ConfirmPasswordField | ConfirmNewPasswordField

  /** Every one-time and TOTP code is exactly six characters long. */
  const CodeLength: nat := 6
  /** Bounds on confirmPassword, newPassword and confirmNewPassword. */
  const PasswordMin: nat := 6
  const PasswordMax: nat := 100

  predicate CodeOk(s: string)
  {
    |s| == CodeLength
  }

  predicate OptionalCodeOk(o: Option<string>)
  {
    o.None? || CodeOk(o.value)
  }

  predicate PasswordLengthOk(s: string)
  {
    PasswordMin <= |s| <= PasswordMax
  }

  /** RegisterBodySchema's refinement: the confirmation must equal the password. */
  function RegisterIssues(b: RegisterBody): (r: seq<Field>)
    ensures r == [] <==> b.confirmPassword == b.password
    ensures r != [] ==> r == [ConfirmPasswordField]
  {
    if b.confirmPassword != b.password then [ConfirmPasswordField] else []
  }

  /** LoginBodySchema's refinement: never both codes; the issue is raised on both fields. */
  function LoginIssues(b: LoginBody): (r: seq<Field>)
    ensures r == [] <==> (b.totpCode.None? || b.code.None?)
    ensures r != [] ==> r == [TotpCodeField, CodeField]
  {
    if b.totpCode.Some? && b.code.Some? then [TotpCodeField, CodeField] else []
  }

  /** ForgotPasswordBodySchema's refinement: the confirmation must equal the new password. */
  function ForgotPasswordIssues(b: ForgotPasswordBody): (r: seq<Field>)
    ensures r == [] <==> b.confirmNewPassword == b.newPassword
    ensures r != [] ==> r == [ConfirmNewPasswordField]
  {
    if b.confirmNewPassword != b.newPassword then [ConfirmNewPasswordField] else []
  }

  /** DisableTwoFactorAuthBodySchema's refinement: exactly one of the two codes. */
  function DisableTwoFactorIssues(b: DisableTwoFactorBody): (r: seq<Field>)
    ensures r == [] <==> (b.totpCode.Some? <==> b.code.None?)
    ensures r != [] ==> r == [TotpCodeField, CodeField]
  {
    if b.totpCode.Some? == b.code.Some? then [TotpCodeField, CodeField] else []
  }

  /** The whole RegisterBodySchema as far as the model reads it. */
  predicate AcceptsRegister(b: RegisterBody)
  {
    CodeOk(b.code) && PasswordLengthOk(b.confirmPassword) && RegisterIssues(b) == []
  }

  predicate AcceptsLogin(b: LoginBody)
  {
    OptionalCodeOk(b.totpCode) && OptionalCodeOk(b.code) && LoginIssues(b) == []
  }

  predicate AcceptsForgotPassword(b: ForgotPasswordBody)
  {
    && CodeOk(b.code) && PasswordLengthOk(b.newPassword) && PasswordLengthOk(b.confirmNewPassword)
    && ForgotPasswordIssues(b) == []
  }

  predicate AcceptsDisableTwoFactor(b: DisableTwoFactorBody)
  {
    OptionalCodeOk(b.totpCode) && OptionalCodeOk(b.code) && DisableTwoFactorIssues(b) == []
  }

  /** An accepted register body's password has the confirmation's length bounds. */
  lemma AcceptedRegisterPasswordBounded(b: RegisterBody)
    requires AcceptsRegister(b)
    ensures PasswordMin <= |b.password| <= PasswordMax
  {
  }

  /**
   * An accepted disable body carries exactly one code, and that code is non-empty,
   * so the service's truthiness tests see exactly one of them.
   */
  lemma AcceptedDisableHasExactlyOneCode(b: DisableTwoFactorBody)
    requires AcceptsDisableTwoFactor(b)
    ensures (b.totpCode.Some? && b.totpCode.value != "") != (b.code.Some? && b.code.value != "")
  {
  }
}
