/**
 * The registration form of data/register.py: three string fields, each
 * guarded by DataRequired. A field the request leaves out arrives as the
 * empty string, so "required" means "non-empty".
 */
module RegisterForms {

  datatype RegisterForm = RegisterForm(username: string, password: string, confirmPassword: string)

  /** The fields of the form; `Username` is the one labelled 'Login'. */
  datatype RegisterField = Username | Password | ConfirmPassword

  /** The fields whose DataRequired validator fails. */
  function Errors(f: RegisterForm): (failed: set<RegisterField>)
    ensures Username in failed <==> f.username == ""
    ensures Password in failed <==> f.password == ""
    ensures ConfirmPassword in failed <==> f.confirmPassword == ""
  {
    (if f.username == "" then {Username} else {})
    + (if f.password == "" then {Password} else {})
    + (if f.confirmPassword == "" then {ConfirmPassword} else {})
  }

  /** The form validates when no field reports an error. */
  predicate Validates(f: RegisterForm) {
    Errors(f) == {}
  }

  /** Validation succeeds exactly when all three fields are filled in. */
  lemma ValidatesIffAllFilled(f: RegisterForm)
    ensures Validates(f) <==> f.username != "" && f.password != "" && f.confirmPassword != ""
  {
    if f.username == "" { assert Username in Errors(f); }
    if f.password == "" { assert Password in Errors(f); }
    if f.confirmPassword == "" { assert ConfirmPassword in Errors(f); }
  }

  /** The form does not compare the password with its confirmation. */
  lemma MismatchStillValidates(username: string, password: string, confirm: string)
    requires username != "" && password != "" && confirm != ""
    requires password != confirm
    ensures Validates(RegisterForm(username, password, confirm))
  {
    ValidatesIffAllFilled(RegisterForm(username, password, confirm));
  }
}
