/** The checks `registerUser` in react_app/src/Components/SignUp.js makes before it posts to `/register`. */
module SignUp {
  import opened Forms
  import opened EmailPattern
  import SignIn

  /** The body of the `/register` request. */
  datatype Registration = Registration(username: string, email: string, password: string)

  const MinPasswordLength: nat := 6

  /**
    Username present, email present, email pattern, password length; the
    first failing check's message is shown, and the messages are the form's own.
   */
  function RegisterUserCheck(username: string, email: string, password: string): (r: FormCheck<Registration>)
    ensures r == Rejected("Please enter your username") <==> username == []
    ensures r == Rejected("Please enter you email") <==> username != [] && email == []
    ensures r == Rejected("Invalid email") <==> username != [] && email != [] && !EmailRegexTest(email)
    ensures r == Rejected("Password must include at least 6 characters") <==>
              username != [] && email != [] && EmailRegexTest(email) && Utf16Length(password) < MinPasswordLength
    ensures r.Accepted? <==>
              username != [] && email != [] && EmailRegexTest(email) && Utf16Length(password) >= MinPasswordLength
    ensures r.Accepted? ==> r.payload == Registration(username, email, password)
  {
    if username == [] then Rejected("Please enter your username")
    else if email == [] then Rejected("Please enter you email")
    else if !EmailRegexTest(email) then Rejected("Invalid email")
    else if Utf16Length(password) < MinPasswordLength then Rejected("Password must include at least 6 characters")
    else Accepted(Registration(username, email, password))
  }

  /** The form sends exactly a named, well-formed address with a password of six code units or more. */
  lemma RegisterAcceptsExactly(username: string, email: string, password: string)
    ensures RegisterUserCheck(username, email, password).Accepted? <==>
              username != [] && WellFormedEmail(email) && Utf16Length(password) >= MinPasswordLength
  {
    EmailRegexCharacterised(email);
  }

  /** An empty username is reported whatever the other fields hold. */
  lemma UsernameCheckedFirst(email: string, password: string)
    ensures RegisterUserCheck([], email, password) == Rejected("Please enter your username")
  {
  }

  /** Six characters are enough: the length bound is inclusive. */
  lemma SixCharactersPass(username: string, email: string, password: string)
    requires username != [] && WellFormedEmail(email) && |password| == MinPasswordLength
    ensures RegisterUserCheck(username, email, password) == Accepted(Registration(username, email, password))
  {
    EmailRegexCharacterised(email);
  }

  /** Five code units are not: the bound is six. */
  lemma FiveUnitsFail(username: string, email: string, password: string)
    requires username != [] && WellFormedEmail(email) && Utf16Length(password) == MinPasswordLength - 1
    ensures RegisterUserCheck(username, email, password) == Rejected("Password must include at least 6 characters")
  {
    EmailRegexCharacterised(email);
    assert email != [];
  }

  /** The presence check on the email never changes what is sent: the pattern already rejects "". */
  lemma EmptyEmailFailsThePattern()
    ensures !EmailRegexTest([])
  {
    RegexRejects([]);
  }

  /** What the sign-up form sends, the sign-in form accepts with the same email and password. */
  lemma RegisteredCanLogIn(username: string, email: string, password: string)
    requires RegisterUserCheck(username, email, password).Accepted?
    ensures SignIn.LogInUserCheck(email, password) == Accepted(SignIn.LoginData(email, password))
  {
  }
}
