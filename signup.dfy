/**
 * The sign-up screen: user name, e-mail, password and its confirmation, the form
 * check, and the sign-up button, enabled only for a valid form while no sign-up is
 * in progress.
 */
module Signup {
  import opened Text
  import opened Credentials

  class SignupForm {
    var username: string
    var email: string
    var password: string
    var confirmPassword: string
    var isLoading: bool

    /** The screen opens with empty fields and nothing loading. */
    constructor ()
      ensures username == [] && email == [] && password == [] && confirmPassword == [] && !isLoading
    {
      username, email, password, confirmPassword, isLoading := [], [], [], [], false;
    }

    /** `isConfirmPasswordValid`: the confirmation repeats the password exactly. */
    predicate IsConfirmPasswordValid()
      reads this
    {
      confirmPassword == password
    }

    /** `isFormValid`: valid e-mail and password, a matching confirmation, and a user name. */
    predicate IsFormValid()
      reads this
    {
      IsEmailValid(email) && IsPasswordValid(password) && IsConfirmPasswordValid() && username != []
    }

    /** The sign-up button's `enabled` condition. */
    predicate IsSignupEnabled()
      reads this
    {
      IsFormValid() && !isLoading
    }

    predicate EmailErrorShown()
      reads this
    {
      ErrorShown(email, IsEmailValid(email))
    }

    predicate PasswordErrorShown()
      reads this
    {
      ErrorShown(password, IsPasswordValid(password))
    }

    /** The "Passwords do not match" text is shown. */
    predicate MismatchErrorShown()
      reads this
    {
      ErrorShown(confirmPassword, IsConfirmPasswordValid())
    }

    method EditUsername(typed: string)
      modifies this`username
      ensures username == typed
    {
      username := typed;
    }

    method EditEmail(typed: string)
      modifies this`email
      ensures email == typed
    {
      email := typed;
    }

    method EditPassword(typed: string)
      modifies this`password
      ensures password == typed
    {
      password := typed;
    }

    method EditConfirmPassword(typed: string)
      modifies this`confirmPassword
      ensures confirmPassword == typed
    {
      confirmPassword := typed;
    }

    /**
     * A press on the sign-up button. A disabled button ignores the press; an enabled one
     * starts loading and raises the "Signup Successful!" notice. Either way the button is
     * disabled afterwards.
     */
    method PressSignup() returns (successNotice: bool)
      modifies this`isLoading
      ensures successNotice == old(IsSignupEnabled())
      ensures successNotice ==> isLoading
      ensures !successNotice ==> isLoading == old(isLoading)
      ensures !IsSignupEnabled()
    {
      successNotice := IsSignupEnabled();
      if successNotice {
        isLoading := true;
      }
    }
  }

  /**
   * The sign-up form is valid exactly for a well-formed e-mail address, a password of six
   * or more characters repeated exactly in the confirmation, and a non-empty user name.
   */
  lemma SignupFormMeaning(form: SignupForm)
    ensures form.IsFormValid() <==>
              WellFormedEmail(form.email) && |form.password| >= 6 &&
              form.confirmPassword == form.password && |form.username| > 0
  {
    EmailPatternMeaning(form.email);
  }

  /** Each error text appears only once something is typed in its field and the field fails its check. */
  lemma SignupErrorsOnlyForBadInput(form: SignupForm)
    ensures form.MismatchErrorShown() <==> form.confirmPassword != [] && form.confirmPassword != form.password
    ensures form.EmailErrorShown() <==> form.email != [] && !WellFormedEmail(form.email)
    ensures form.PasswordErrorShown() <==> 0 < |form.password| < MinPasswordLength
  {
    EmailPatternMeaning(form.email);
  }
}
