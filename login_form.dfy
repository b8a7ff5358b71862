/**
 * The login form that main.py binds (its module data/login.py is not part
 * of this model): a required login, a required password and an optional
 * "remember me" check box.
 */
module LoginForms {

  datatype LoginForm = LoginForm(username: string, password: string, rememberMe: bool)

  /** Both text fields must be filled in; the check box is optional. */
  predicate Validates(f: LoginForm) {
    f.username != "" && f.password != ""
  }
}
