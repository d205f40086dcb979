/** The login form of `AuthView`: three ordered checks on the e-mail and
    password fields; on success the e-mail is stored and the user is
    logged in. */
module Auth {

  datatype Option<T> = None | Some(value: T)

  const FillInAllFields: string := "Please fill in all fields"
  const EnterValidEmail: string := "Please enter a valid email"
  const PasswordTooShort: string := "Password must be at least 6 characters"

  /** Shortest accepted password, in characters. */
  const MinimumPasswordLength: nat := 6

  /** The `UserDefaults` key under which the e-mail is stored. */
  const UserEmailKey: string := "userEmail"

  /** The message of the first check that fails, if any: both fields must
      be non-empty, the e-mail must contain "@", and the password must have
      at least six characters. */
  function AuthFailure(email: string, password: string): (r: Option<string>)
    ensures r == Some(FillInAllFields) <==> email == [] || password == []
    ensures r == Some(EnterValidEmail) <==> email != [] && password != [] && '@' !in email
    ensures r == Some(PasswordTooShort) <==>
      email != [] && password != [] && '@' in email && |password| < MinimumPasswordLength
    ensures r == None <==> '@' in email && |password| >= MinimumPasswordLength
  {
    if email == [] || password == [] then Some(FillInAllFields)
    else if '@' !in email then Some(EnterValidEmail)
    else if |password| < MinimumPasswordLength then Some(PasswordTooShort)
    else None
  }

  /** The state of `AuthView`, with the `UserDefaults` store it writes. */
  class AuthView {
    var isLoggedIn: bool
    var email: string
    var password: string
    var isSignUp: bool
    var showError: bool
    var errorMessage: string
    var userDefaults: map<string, string>

    constructor (isLoggedIn: bool, userDefaults: map<string, string>)
      ensures this.isLoggedIn == isLoggedIn && this.userDefaults == userDefaults
      ensures email == "" && password == "" && !isSignUp && !showError && errorMessage == ""
    {
      this.isLoggedIn := isLoggedIn;
      this.userDefaults := userDefaults;
      email := "";
      password := "";
      isSignUp := false;
      showError := false;
      errorMessage := "";
    }

    /** The button that switches between logging in and signing up. */
    method ToggleSignUp()
      modifies this`isSignUp
      ensures isSignUp == !old(isSignUp)
    {
      isSignUp := !isSignUp;
    }

    /** Tapping "OK" on the error alert: its `isPresented` binding sets the
        flag back to false. */
    method DismissError()
      modifies this`showError
      ensures !showError
    {
      showError := false;
    }

    /** `handleAuth()`. The sign-up mode plays no part. */
    method HandleAuth()
      modifies this`errorMessage, this`showError, this`isLoggedIn, this`userDefaults
      ensures AuthFailure(email, password).Some? ==>
        errorMessage == AuthFailure(email, password).value && showError &&
        isLoggedIn == old(isLoggedIn) && userDefaults == old(userDefaults)
      ensures AuthFailure(email, password).None? ==>
        isLoggedIn && userDefaults == old(userDefaults)[UserEmailKey := email] &&
        errorMessage == old(errorMessage) && showError == old(showError)
    {
      if email == [] || password == [] {
        errorMessage := FillInAllFields;
        showError := true;
        return;
      }
      if '@' !in email {
        errorMessage := EnterValidEmail;
        showError := true;
        return;
      }
      if |password| < MinimumPasswordLength {
        errorMessage := PasswordTooShort;
        showError := true;
        return;
      }
      userDefaults := userDefaults[UserEmailKey := email];
      isLoggedIn := true;
    }
  }
}
