/**
 * The login screen: an e-mail and a password field, the form check, and the login
 * button, which is enabled only for a valid form while no login is in progress.
 */
module Login {
  import opened Wrappers
  import opened Text
  import opened Credentials

  class LoginForm {
    var email: string
    var password: string
    var isLoading: bool
    var errorMessage: Option<string>

    /** The screen opens with empty fields, nothing loading and no error message. */
    constructor ()
      ensures email == [] && password == [] && !isLoading && errorMessage == None
    {
      email, password, isLoading, errorMessage := [], [], false, None;
    }

    /** `isFormValid`: a valid e-mail and a valid password. */
    predicate IsFormValid()
      reads this
    {
      IsEmailValid(email) && IsPasswordValid(password)
    }

    /** The login button's `enabled` condition. */
    predicate IsLoginEnabled()
      reads this
    {
      IsFormValid() && !isLoading
    }

    /** The e-mail field's error text is shown. */
    predicate EmailErrorShown()
      reads this
    {
      ErrorShown(email, IsEmailValid(email))
    }

    /** The password field's error text is shown. */
    predicate PasswordErrorShown()
      reads this
    {
      ErrorShown(password, IsPasswordValid(password))
    }

    method EditEmail(typed: string)
      modifies this`email
      ensures email == typed
    {
      email := typed;
    }

    method EditPassword(typed: string)
      modifies this`password
      ensures password == typed
    {
      password := typed;
    }

    /**
     * A press on the login button. A disabled button ignores the press; an enabled one
     * starts loading and clears the error message. Either way the button is disabled afterwards.
     */
    method PressLogin() returns (accepted: bool)
      modifies this`isLoading, this`errorMessage
      ensures accepted == old(IsLoginEnabled())
      ensures accepted ==> isLoading && errorMessage == None
      ensures !accepted ==> isLoading == old(isLoading) && errorMessage == old(errorMessage)
      ensures !IsLoginEnabled()
    {
      accepted := IsLoginEnabled();
      if accepted {
        isLoading := true;
        errorMessage := None;
      }
    }
  }

  /** The login form is valid exactly for a well-formed e-mail address and a password of six or more characters. */
  lemma LoginFormMeaning(form: LoginForm)
    ensures form.IsFormValid() <==> WellFormedEmail(form.email) && |form.password| >= 6
  {
    EmailPatternMeaning(form.email);
  }

  /** An empty field shows no error text, and neither does a field that passes its check. */
  lemma LoginErrorsOnlyForBadInput(form: LoginForm)
    ensures form.EmailErrorShown() <==> form.email != [] && !WellFormedEmail(form.email)
    ensures form.PasswordErrorShown() <==> 0 < |form.password| < 6
  {
    EmailPatternMeaning(form.email);
  }
}
