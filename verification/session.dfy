/** The session store's pure part: the user record and the simulated login
    check. The artificial one-second delays are not modelled; every call
    completes synchronously. */
module Session {
  import opened Common

  datatype User = User(name: string, email: string, address: string, phone: string)

  /** The fixed profile values every simulated login hands out. */
  const MockName := "John Doe"
  const MockAddress := "123 Health St, Wellness City"
  const MockPhone := "1234567890"

  datatype LoginError = InvalidCredentials

  /** `login(email, password)`: accepted exactly when the email contains an
      `@` and the password has at least six characters; the user returned
      carries the given email and the fixed mock profile. */
  function Login(email: string, password: string): (r: Result<User, LoginError>)
    ensures r.Ok? <==> (exists i :: 0 <= i < |email| && email[i] == '@') && |password| >= 6
    ensures r.Ok? ==> r.value == User(MockName, email, MockAddress, MockPhone)
    ensures r.Err? ==> r.error == InvalidCredentials
  {
    if '@' in email && |password| >= 6 then
      Ok(User(MockName, email, MockAddress, MockPhone))
    else
      Err(InvalidCredentials)
  }

  /** The three sample calls a reader would try first. */
  lemma LoginExamples()
    ensures Login("a@b.com", "123456") == Ok(User(MockName, "a@b.com", MockAddress, MockPhone))
    ensures Login("bad", "123456") == Err(InvalidCredentials)
    ensures Login("a@b.com", "123") == Err(InvalidCredentials)
  {
    assert "a@b.com"[1] == '@';
  }
}
