/** The checks `logInUser` in react_frontend/src/Components/SignIn.js makes before it posts to `/login`. */
module SignIn {
  import opened Forms
  import opened EmailPattern

  /** The body of the `/login` request. */
  datatype LoginData = LoginData(email: string, password: string)

  /** The email pattern first, then a non-empty password; the first failure's message is shown. */
  function LogInUserCheck(email: string, password: string): (r: FormCheck<LoginData>)
    ensures r == Rejected("Invalid email") <==> !EmailRegexTest(email)
    ensures r == Rejected("Invalid password") <==> EmailRegexTest(email) && Utf16Length(password) == 0
    ensures r.Accepted? <==> EmailRegexTest(email) && Utf16Length(password) != 0
    ensures r.Accepted? ==> r.payload == LoginData(email, password)
  {
    if !EmailRegexTest(email) then Rejected("Invalid email")
    else if Utf16Length(password) == 0 then Rejected("Invalid password")
    else Accepted(LoginData(email, password))
  }

  /** The form sends exactly the well-formed addresses with a non-empty password. */
  lemma LogInAcceptsExactly(email: string, password: string)
    ensures LogInUserCheck(email, password).Accepted? <==> WellFormedEmail(email) && password != []
  {
    EmailRegexCharacterised(email);
  }

  /** A bad email is reported as such even when the password is empty too. */
  lemma EmailCheckedFirst(email: string)
    requires !WellFormedEmail(email)
    ensures LogInUserCheck(email, "") == Rejected("Invalid email")
  {
    EmailRegexCharacterised(email);
  }
}
