/**
 * The login screen: the two text fields, the validation of the form and the
 * navigation to the home screen when the form is valid.
 */
module Login {
  import opened Wrappers
  import opened Text

  /** The error messages shown under the two fields ('' means no error). */
  datatype Errors = Errors(username: string, password: string)

  /** A navigation request: the target screen and the username passed to it. */
  datatype Route = Route(screen: string, username: string)

  const UsernameRequired: string := "Username is required"
  const PasswordRequired: string := "Password is required"
  const PasswordTooShort: string := "Password must be at least 6 characters"
  const MinPasswordLength: nat := 6
  const HomeScreenName: string := "Home"

  /**
   * `s.trim() === ''`: the field counts as empty exactly when every
   * character of it is whitespace.
   */
  predicate IsBlank(s: string)
    ensures IsBlank(s) <==> forall i :: 0 <= i < |s| ==> IsWhitespace(s[i])
  {
    TrimEmptyIff(s);
    Trim(s) == []
  }

  /**
   * The form the login screen accepts: some non-whitespace character in the
   * username, some in the password, and at least six code units of raw
   * password (so at least three characters).
   */
  predicate AcceptedForm(username: string, password: string)
    ensures AcceptedForm(username, password) <==>
              (exists i :: 0 <= i < |username| && !IsWhitespace(username[i])) &&
              (exists j :: 0 <= j < |password| && !IsWhitespace(password[j])) &&
              Utf16Length(password) >= MinPasswordLength
    ensures AcceptedForm(username, password) ==> |password| >= MinPasswordLength / 2
  {
    !IsBlank(username) && !IsBlank(password) && Utf16Length(password) >= MinPasswordLength
  }

  /** Six spaces are a blank password although their length is 6. */
  lemma SixSpacesAreBlank()
    ensures IsBlank("      ") && Utf16Length("      ") == MinPasswordLength
  {
    assert forall i :: 0 <= i < 6 ==> "      "[i] == ' ';
  }

  class LoginScreen {
    var username: string
    var password: string
    var errors: Errors

    /** Both fields and both messages start empty. */
    constructor ()
      ensures username == "" && password == "" && errors == Errors("", "")
    {
      username := "";
      password := "";
      errors := Errors("", "");
    }

    /** `onChangeText` of the username field. */
    method SetUsername(text: string)
      modifies this`username
      ensures username == text
    {
      username := text;
    }

    /** `onChangeText` of the password field. */
    method SetPassword(text: string)
      modifies this`password
      ensures password == text
    {
      password := text;
    }

    /**
     * `validateForm`: the form is valid iff the trimmed username and the
     * trimmed password are non-empty and the untrimmed password has at least
     * six code units. The username message depends on the username only and
     * the password message on the password only; a blank password is reported
     * as missing and never as too short. The messages are stored.
     */
    method ValidateForm() returns (valid: bool)
      modifies this`errors
      ensures valid <==> AcceptedForm(username, password)
      ensures errors.username == if IsBlank(username) then UsernameRequired else ""
      ensures errors.password ==
                if IsBlank(password) then PasswordRequired
                else if Utf16Length(password) < MinPasswordLength then PasswordTooShort
                else ""
      ensures valid <==> errors == Errors("", "")
      ensures username == old(username) && password == old(password)
    {
      valid := true;
      var errorMessages := Errors("", "");

      if IsBlank(username) {
        errorMessages := errorMessages.(username := UsernameRequired);
        valid := false;
      }

      if IsBlank(password) {
        errorMessages := errorMessages.(password := PasswordRequired);
        valid := false;
      } else if Utf16Length(password) < MinPasswordLength {
        errorMessages := errorMessages.(password := PasswordTooShort);
        valid := false;
      }

      errors := errorMessages;
    }

    /**
     * `handleSubmit`: navigates to the home screen with exactly the entered
     * username iff the form is valid; otherwise there is no navigation. The
     * messages `validateForm` computed stay stored either way.
     */
    method HandleSubmit() returns (nav: Option<Route>)
      modifies this`errors
      ensures nav.Some? <==> AcceptedForm(username, password)
      ensures nav.Some? ==> nav.value == Route(HomeScreenName, username)
      ensures errors.username == if IsBlank(username) then UsernameRequired else ""
      ensures errors.password ==
                if IsBlank(password) then PasswordRequired
                else if Utf16Length(password) < MinPasswordLength then PasswordTooShort
                else ""
      ensures nav.Some? <==> errors == Errors("", "")
      ensures username == old(username) && password == old(password)
    {
      var valid := ValidateForm();
      if valid {
        nav := Some(Route(HomeScreenName, username));
      } else {
        nav := None;
      }
    }
  }
}
