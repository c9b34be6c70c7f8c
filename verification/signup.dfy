/** The sign-up form's validation: four checks run in order and the first
    failing one names the error; only a form that passes all four is sent. */
module SignupForm {

  datatype Form = Form(name: string, email: string, password: string, address: string, phone: string)

  const FillAllFields := "Please fill all fields."
  const InvalidEmail := "Invalid email address."
  const ShortPassword := "Password must be at least 6 characters."
  const BadPhone := "Phone must be at least 10 digits."

  /** A character JavaScript's `\s` matches: the ECMAScript white-space and
      line-terminator characters. */
  predicate IsJsSpace(c: char) {
    || c == '\t' || c == '\n' || c == '\U{000B}' || c == '\U{000C}' || c == '\r'
    || c == ' ' || c == '\U{00A0}' || c == '\U{1680}' || ('\U{2000}' <= c <= '\U{200A}')
    || c == '\U{2028}' || c == '\U{2029}' || c == '\U{202F}' || c == '\U{205F}'
    || c == '\U{3000}' || c == '\U{FEFF}'
  }

  /** `/\S+@\S+\.\S+/` matches `s` with the `@` at `a` and the `.` at `d`:
      a non-space character right before the `@`, at least one character
      between `@` and `.`, none of them space, and a non-space character
      right after the `.`. */
  ghost predicate MatchAt(s: string, a: int, d: int) {
    && 1 <= a && a + 2 <= d && d + 1 < |s|
    && s[a] == '@' && s[d] == '.'
    && !IsJsSpace(s[a - 1]) && !IsJsSpace(s[d + 1])
    && forall k :: a < k < d ==> !IsJsSpace(s[k])
  }

  /** The pattern matches somewhere in `s` (the test is unanchored). */
  ghost predicate EmailShaped(s: string) {
    exists a, d :: MatchAt(s, a, d)
  }

  /** A match that ends before position `n`. */
  ghost predicate MatchBefore(s: string, n: int) {
    exists a, d :: MatchAt(s, a, d) && d + 1 < n
  }

  /** `/\S+@\S+\.\S+/.test(s)` in one left-to-right pass. It tracks the run
      of non-space characters the scan is in and the first `@` of that run
      that has a character before it; a match ends at a non-space character
      right after a `.` that comes at least two places after that `@`. */
  method TestEmail(s: string) returns (matched: bool)
    ensures matched <==> EmailShaped(s)
  {
    var runStart := 0;
    var at := -1;
    matched := false;
    var i := 0;
    while i < |s|
      invariant 0 <= runStart <= i <= |s|
      invariant forall k :: runStart <= k < i ==> !IsJsSpace(s[k])
      invariant runStart > 0 ==> IsJsSpace(s[runStart - 1])
      invariant at != -1 ==> runStart < at < i && s[at] == '@'
      invariant forall k :: runStart < k < (if at == -1 then i else at) ==> s[k] != '@'
      invariant matched <==> MatchBefore(s, i)
    {
      var c := s[i];
      if IsJsSpace(c) {
        NoMatchEndsAtSpace(s, i);
        runStart := i + 1;
        at := -1;
      } else {
        var ends := at != -1 && i - 1 >= at + 2 && s[i - 1] == '.';
        MatchEndingAt(s, i, runStart, at, ends);
        matched := matched || ends;
        if c == '@' && at == -1 && i > runStart {
          at := i;
        }
      }
      i := i + 1;
    }
    assert MatchBefore(s, |s|) <==> EmailShaped(s);
  }

  /** No match ends just before a space. */
  lemma NoMatchEndsAtSpace(s: string, i: int)
    requires 0 <= i < |s| && IsJsSpace(s[i])
    ensures MatchBefore(s, i + 1) <==> MatchBefore(s, i)
  {
    if MatchBefore(s, i + 1) {
      var a, d :| MatchAt(s, a, d) && d + 1 < i + 1;
      assert d + 1 != i;
    }
  }

  /** A match ends at position `i` exactly when the run's first usable `@`
      is followed, at least two places on, by a `.` at `i - 1`. */
  lemma MatchEndingAt(s: string, i: int, runStart: int, at: int, ends: bool)
    requires 0 <= runStart <= i < |s| && !IsJsSpace(s[i])
    requires forall k :: runStart <= k < i ==> !IsJsSpace(s[k])
    requires runStart > 0 ==> IsJsSpace(s[runStart - 1])
    requires at != -1 ==> runStart < at < i && s[at] == '@'
    requires forall k :: runStart < k < (if at == -1 then i else at) ==> s[k] != '@'
    requires ends == (at != -1 && i - 1 >= at + 2 && s[i - 1] == '.')
    ensures MatchBefore(s, i + 1) <==> MatchBefore(s, i) || ends
  {
    if ends {
      assert MatchAt(s, at, i - 1);
    }
    if MatchBefore(s, i + 1) && !MatchBefore(s, i) {
      var a, d :| MatchAt(s, a, d) && d + 1 < i + 1;
      assert d == i - 1;
      // The characters from a - 1 to i are all non-space, so the run began
      // no later than a - 1.
      assert a - 1 >= runStart;
      assert at != -1 && at <= a;
    }
  }

  /** `/^\d{10,}$/`: ten or more ASCII digits and nothing else. */
  predicate PhoneShaped(p: string) {
    |p| >= 10 && forall k :: 0 <= k < |p| ==> '0' <= p[k] <= '9'
  }

  predicate AnyEmpty(f: Form) {
    |f.name| == 0 || |f.email| == 0 || |f.password| == 0 || |f.address| == 0 || |f.phone| == 0
  }

  /** `validate()`: the message of the first failing check, or `''`. */
  method Validate(f: Form) returns (msg: string)
    ensures msg == FillAllFields <==> AnyEmpty(f)
    ensures msg == InvalidEmail <==> !AnyEmpty(f) && !EmailShaped(f.email)
    ensures msg == ShortPassword <==> !AnyEmpty(f) && EmailShaped(f.email) && |f.password| < 6
    ensures msg == BadPhone <==>
      !AnyEmpty(f) && EmailShaped(f.email) && |f.password| >= 6 && !PhoneShaped(f.phone)
    ensures msg == "" <==>
      !AnyEmpty(f) && EmailShaped(f.email) && |f.password| >= 6 && PhoneShaped(f.phone)
  {
    if AnyEmpty(f) {
      return FillAllFields;
    }
    var emailOk := TestEmail(f.email);
    if !emailOk {
      return InvalidEmail;
    }
    if |f.password| < 6 {
      return ShortPassword;
    }
    if !PhoneShaped(f.phone) {
      return BadPhone;
    }
    return "";
  }

  datatype Submission =
    | Rejected(message: string)   // the error is shown and `signup` is not called
    | SignedUp                    // `signup(form)` ran; the page moves on to the login page

  /** `handleSubmit`: a form with an error stops before `signup` is called. */
  method HandleSubmit(f: Form) returns (r: Submission)
    ensures r.SignedUp? <==>
      !AnyEmpty(f) && EmailShaped(f.email) && |f.password| >= 6 && PhoneShaped(f.phone)
    ensures r.Rejected? ==> r.message != ""
  {
    var error := Validate(f);
    if error != "" {
      return Rejected(error);
    }
    return SignedUp;
  }
}
