/** auth/register.js: the checks `handleRegister` makes before it contacts
    the server, and the two validators `validateEmail` and
    `validatePassword`. */
module Register {
  import opened Seqs
  import opened Chars
  import opened Ascii

  const AllFieldsRequired := "All fields are required"
  const PasswordsDoNotMatch := "Passwords do not match"
  const PasswordTooShort := "Password must be at least 8 characters"
  const MinPasswordLength := 8

  /** Either the request may be sent, or `handleRegister` throws an error
      with this message. */
  datatype Verdict = Proceed | Rejected(message: string)

  /** The guards of `handleRegister`, in their order: every field present,
      then the two passwords equal, then the password long enough. An empty
      string is the only falsy string. */
  function CheckRegistration(name: string, email: string, password: string, confirmPassword: string): (r: Verdict)
    ensures r.Proceed? <==>
              name != [] && email != [] && password != [] && password == confirmPassword &&
              |password| >= MinPasswordLength
    ensures name == [] || email == [] || password == [] ==> r == Rejected(AllFieldsRequired)
    ensures name != [] && email != [] && password != [] && password != confirmPassword ==>
              r == Rejected(PasswordsDoNotMatch)
    ensures r == Rejected(PasswordTooShort) <==>
              name != [] && email != [] && password != [] && password == confirmPassword &&
              |password| < MinPasswordLength
  {
    if name == [] || email == [] || password == [] then Rejected(AllFieldsRequired)
    else if password != confirmPassword then Rejected(PasswordsDoNotMatch)
    else if |password| < MinPasswordLength then Rejected(PasswordTooShort)
    else Proceed
  }

  /** `[^\s@]+`: one or more characters, none of them white space or `@`. */
  predicate IsAtom(s: string) {
    s != [] && forall k :: 0 <= k < |s| ==> !IsWhiteSpace(s[k]) && s[k] != '@'
  }

  /** `validateEmail(email)`: the whole string matches
      `^[^\s@]+@[^\s@]+\.[^\s@]+$`, that is, it splits at some `@` and some
      later `.` into three such runs. */
  predicate ValidateEmail(email: string)
    ensures ValidateEmail(email) ==> |email| >= 5 && !IsWhiteSpace(email[0]) && email[0] != '@'
  {
    exists at, dot | 0 < at < |email| && at < dot < |email| ::
      email[at] == '@' && email[dot] == '.' &&
      IsAtom(email[..at]) && IsAtom(email[at + 1..dot]) && IsAtom(email[dot + 1..])
  }

  /** The shape the expression accepts, said plainly: no white space,
      exactly one `@` with something before it, and a `.` after it that is
      neither the first nor the last character of the part after the `@`. */
  ghost predicate PlainAddress(email: string) {
    (forall k :: 0 <= k < |email| ==> !IsWhiteSpace(email[k])) &&
    exists at :: 0 < at < |email| && email[at] == '@' &&
      (forall k :: 0 <= k < |email| && k != at ==> email[k] != '@') &&
      exists dot :: at + 1 < dot < |email| - 1 && email[dot] == '.'
  }

  lemma ValidateEmailIsPlainAddress(email: string)
    ensures ValidateEmail(email) <==> PlainAddress(email)
  {
    if ValidateEmail(email) {
      MatchIsPlain(email);
    }
    if PlainAddress(email) {
      PlainMatches(email);
    }
  }

  lemma MatchIsPlain(email: string)
    requires ValidateEmail(email)
    ensures PlainAddress(email)
  {
    var at, dot :| 0 < at < |email| && at < dot < |email| &&
      email[at] == '@' && email[dot] == '.' &&
      IsAtom(email[..at]) && IsAtom(email[at + 1..dot]) && IsAtom(email[dot + 1..]);
    var local, host, top := email[..at], email[at + 1..dot], email[dot + 1..];
    forall k | 0 <= k < |email|
      ensures !IsWhiteSpace(email[k])
      ensures k != at ==> email[k] != '@'
    {
      if k < at {
        assert email[k] == local[k];
      } else if at < k < dot {
        assert email[k] == host[k - at - 1];
      } else if dot < k {
        assert email[k] == top[k - dot - 1];
      }
    }
    assert |host| > 0 && |top| > 0;
  }

  lemma PlainMatches(email: string)
    requires PlainAddress(email)
    ensures ValidateEmail(email)
  {
    var at :| 0 < at < |email| && email[at] == '@' &&
      (forall k :: 0 <= k < |email| && k != at ==> email[k] != '@') &&
      exists dot :: at + 1 < dot < |email| - 1 && email[dot] == '.';
    var dot :| at + 1 < dot < |email| - 1 && email[dot] == '.';
    var local, host, top := email[..at], email[at + 1..dot], email[dot + 1..];
    assert forall k :: 0 <= k < |local| ==> local[k] == email[k];
    assert forall k :: 0 <= k < |host| ==> host[k] == email[k + at + 1];
    assert forall k :: 0 <= k < |top| ==> top[k] == email[k + dot + 1];
    assert IsAtom(local) && IsAtom(host) && IsAtom(top);
  }

  /** One of `!@#$%^&*`. */
  predicate IsSpecial(c: char) {
    c == '!' || c == '@' || c == '#' || c == '$' || c == '%' || c == '^' || c == '&' || c == '*'
  }

  /** What `validatePassword` returns. */
  datatype PasswordChecks = PasswordChecks(length: bool, hasNumber: bool, hasUppercase: bool, hasSpecial: bool)

  /** `validatePassword(password)`: four independent flags. */
  function ValidatePassword(password: string): (r: PasswordChecks)
    ensures r.length <==> |password| >= MinPasswordLength
    ensures r.hasNumber <==> exists k :: 0 <= k < |password| && '0' <= password[k] <= '9'
    ensures r.hasUppercase <==> exists k :: 0 <= k < |password| && 'A' <= password[k] <= 'Z'
    ensures r.hasSpecial <==> exists k :: 0 <= k < |password| && IsSpecial(password[k])
  {
    PasswordChecks(
      |password| >= MinPasswordLength,
      Any(password, IsDecimalDigit),
      Any(password, IsUpperLetter),
      Any(password, IsSpecial))
  }

  /** The `length` flag and the length guard of `handleRegister` agree: once
      the fields are present and the passwords equal, the request goes out
      exactly when the flag is set. */
  lemma LengthFlagMatchesGuard(name: string, email: string, password: string)
    requires name != [] && email != []
    ensures CheckRegistration(name, email, password, password).Proceed? <==> ValidatePassword(password).length
  {
  }
}
