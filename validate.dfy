/** The request-body validators of server/src/middleware/validate.js: the
    register and login rule chains (express-validator) and the handler at
    the end of each chain that answers 400 with every failed rule or passes
    the sanitised body on. E-mail syntax and normalisation belong to the
    validator library and are parameters here. A missing field is the empty
    string, which is what the library validates in its place. */
module Validate {
  import opened Common

  /** One entry of `errors.array()`: the field and the rule's message. */
  datatype FieldError = FieldError(field: string, message: string)

  /** What the last handler of a chain does: call `next()` with the
      sanitised body, or answer 400 `{ success: false, message: 'Validation
      failed', errors }`. */
  datatype Verdict<T> = Next(body: T) | Invalid(errors: seq<FieldError>)
  {
    function Status(): int {
      if Next? then 200 else 400
    }

    function Message(): string {
      if Next? then "" else "Validation failed"
    }
  }

  // ---------------------------------------------------------------------------
  // Character classes

  predicate IsDigit(c: char) {
    '0' <= c <= '9'
  }

  predicate IsLower(c: char) {
    'a' <= c <= 'z'
  }

  predicate IsUpper(c: char) {
    'A' <= c <= 'Z'
  }

  /** `[a-zA-Z0-9_]`. */
  predicate IsWordChar(c: char) {
    IsDigit(c) || IsLower(c) || IsUpper(c) || c == '_'
  }

  /** `/^[a-zA-Z0-9_]+$/`. */
  predicate MatchesUsernamePattern(s: string) {
    |s| >= 1 && forall i :: 0 <= i < |s| ==> IsWordChar(s[i])
  }

  /** `/[0-9]/`, `/[a-z]/`, `/[A-Z]/`: somewhere in the string. */
  predicate HasDigit(s: string) {
    exists i :: 0 <= i < |s| && IsDigit(s[i])
  }

  predicate HasLower(s: string) {
    exists i :: 0 <= i < |s| && IsLower(s[i])
  }

  predicate HasUpper(s: string) {
    exists i :: 0 <= i < |s| && IsUpper(s[i])
  }

  function AllWordChars(s: string): (r: bool)
    ensures r <==> forall i :: 0 <= i < |s| ==> IsWordChar(s[i])
  {
    if s == [] then true else IsWordChar(s[0]) && AllWordChars(s[1..])
  }

  function ContainsWhere(s: string, p: char -> bool): (r: bool)
    ensures r <==> exists i :: 0 <= i < |s| && p(s[i])
  {
    if s == [] then false
    else if p(s[0]) then true
    else
      assert forall i :: 1 <= i < |s| ==> s[i] == s[1..][i - 1];
      ContainsWhere(s[1..], p)
  }

  // ---------------------------------------------------------------------------
  // Messages

  const UsernameLengthMessage := "Username must be at least 3 characters long"
  const UsernamePatternMessage := "Username can only contain letters, numbers, and underscores"
  const EmailMessage := "Please provide a valid email"
  const PasswordLengthMessage := "Password must be at least 6 characters long"
  const PasswordDigitMessage := "Password must contain at least one number"
  const PasswordLowerMessage := "Password must contain at least one lowercase letter"
  const PasswordUpperMessage := "Password must contain at least one uppercase letter"
  const PasswordRequiredMessage := "Password is required"

  lemma MessagesDistinct()
    ensures UsernameLengthMessage != UsernamePatternMessage
    ensures PasswordLengthMessage != PasswordDigitMessage
    ensures PasswordLengthMessage != PasswordLowerMessage
    ensures PasswordLengthMessage != PasswordUpperMessage
    ensures PasswordDigitMessage != PasswordLowerMessage
    ensures PasswordDigitMessage != PasswordUpperMessage
    ensures PasswordLowerMessage != PasswordUpperMessage
  {
    assert |UsernameLengthMessage| != |UsernamePatternMessage|;
    assert PasswordLengthMessage[14] != PasswordDigitMessage[14];
    assert PasswordLengthMessage[14] != PasswordLowerMessage[14];
    assert PasswordLengthMessage[14] != PasswordUpperMessage[14];
    assert PasswordDigitMessage[35] != PasswordLowerMessage[35];
    assert PasswordDigitMessage[35] != PasswordUpperMessage[35];
    assert PasswordLowerMessage[35] != PasswordUpperMessage[35];
  }

  // ---------------------------------------------------------------------------
  // The rule chains. Every rule of a chain runs, and each failing one adds
  // its message, in the order the rules are written.

  /** `body('username').trim().isLength({ min: 3 }).matches(...)`. */
  function UsernameErrors(username: string): (r: seq<FieldError>)
    ensures var u := Trim(username);
      && (FieldError("username", UsernameLengthMessage) in r <==> |u| < 3)
      && (FieldError("username", UsernamePatternMessage) in r <==> !MatchesUsernamePattern(u))
      && (r == [] <==> |u| >= 3 && MatchesUsernamePattern(u))
      && forall i :: 0 <= i < |r| ==> r[i].field == "username"
  {
    MessagesDistinct();
    var u := Trim(username);
    (if |u| < 3 then [FieldError("username", UsernameLengthMessage)] else [])
    + (if |u| >= 1 && AllWordChars(u) then [] else [FieldError("username", UsernamePatternMessage)])
  }

  /** `body('email').trim().isEmail()`. */
  function EmailErrors(email: string, isEmail: string -> bool): (r: seq<FieldError>)
    ensures r == [] <==> isEmail(Trim(email))
    ensures r != [] ==> r == [FieldError("email", EmailMessage)]
  {
    if isEmail(Trim(email)) then [] else [FieldError("email", EmailMessage)]
  }

  /** `body('password').isLength({ min: 6 }).matches(/[0-9]/).matches(/[a-z]/)
      .matches(/[A-Z]/)`: the password is not trimmed. */
  function PasswordErrors(password: string): (r: seq<FieldError>)
    ensures FieldError("password", PasswordLengthMessage) in r <==> |password| < 6
    ensures FieldError("password", PasswordDigitMessage) in r <==> !HasDigit(password)
    ensures FieldError("password", PasswordLowerMessage) in r <==> !HasLower(password)
    ensures FieldError("password", PasswordUpperMessage) in r <==> !HasUpper(password)
    ensures r == [] <==> |password| >= 6 && HasDigit(password) && HasLower(password) && HasUpper(password)
    ensures forall i :: 0 <= i < |r| ==> r[i].field == "password"
  {
    MessagesDistinct();
    (if |password| < 6 then [FieldError("password", PasswordLengthMessage)] else [])
    + (if ContainsWhere(password, IsDigit) then [] else [FieldError("password", PasswordDigitMessage)])
    + (if ContainsWhere(password, IsLower) then [] else [FieldError("password", PasswordLowerMessage)])
    + (if ContainsWhere(password, IsUpper) then [] else [FieldError("password", PasswordUpperMessage)])
  }

  // ---------------------------------------------------------------------------
  // validateRegister and validateLogin

  datatype RegisterBody = RegisterBody(username: string, email: string, password: string)

  datatype LoginBody = LoginBody(email: string, password: string)

  /** The register rules, stated field by field. */
  predicate RegisterAcceptable(b: RegisterBody, isEmail: string -> bool) {
    && |Trim(b.username)| >= 3 && MatchesUsernamePattern(Trim(b.username))
    && isEmail(Trim(b.email))
    && |b.password| >= 6 && HasDigit(b.password) && HasLower(b.password) && HasUpper(b.password)
  }

  /** `validateRegister`: the errors of the three chains in order, or the body
      with the username trimmed and the e-mail trimmed and normalised. */
  function ValidateRegister(b: RegisterBody, isEmail: string -> bool,
                            normalizeEmail: string -> string): (r: Verdict<RegisterBody>)
    ensures r.Next? <==> RegisterAcceptable(b, isEmail)
    ensures r.Next? ==> r.body == RegisterBody(Trim(b.username), normalizeEmail(Trim(b.email)), b.password)
    ensures r.Invalid? ==> r.errors != [] && r.Status() == 400
    ensures r.Invalid? ==>
      r.errors == UsernameErrors(b.username) + EmailErrors(b.email, isEmail) + PasswordErrors(b.password)
  {
    var errors := UsernameErrors(b.username) + EmailErrors(b.email, isEmail) + PasswordErrors(b.password);
    if errors == [] then Next(RegisterBody(Trim(b.username), normalizeEmail(Trim(b.email)), b.password))
    else Invalid(errors)
  }

  /** `validateLogin`: a valid e-mail and a non-empty password. */
  function ValidateLogin(b: LoginBody, isEmail: string -> bool,
                         normalizeEmail: string -> string): (r: Verdict<LoginBody>)
    ensures r.Next? <==> isEmail(Trim(b.email)) && b.password != ""
    ensures r.Next? ==> r.body == LoginBody(normalizeEmail(Trim(b.email)), b.password)
    ensures r.Invalid? ==>
      && r.Status() == 400
      && (FieldError("password", PasswordRequiredMessage) in r.errors <==> b.password == "")
      && (FieldError("email", EmailMessage) in r.errors <==> !isEmail(Trim(b.email)))
    ensures r.Invalid? ==>
      r.errors == (if isEmail(Trim(b.email)) then [] else [FieldError("email", EmailMessage)])
                  + (if b.password == "" then [FieldError("password", PasswordRequiredMessage)] else [])
  {
    var errors := EmailErrors(b.email, isEmail)
                  + (if b.password == "" then [FieldError("password", PasswordRequiredMessage)] else []);
    if errors == [] then Next(LoginBody(normalizeEmail(Trim(b.email)), b.password))
    else Invalid(errors)
  }

  // ---------------------------------------------------------------------------
  // Properties

  /** Whatever registration accepts, login accepts with the same e-mail and
      password, and both normalise the e-mail alike. */
  lemma RegisterAcceptedLoginAccepted(b: RegisterBody, isEmail: string -> bool,
                                      normalizeEmail: string -> string)
    requires ValidateRegister(b, isEmail, normalizeEmail).Next?
    ensures var l := ValidateLogin(LoginBody(b.email, b.password), isEmail, normalizeEmail);
            l.Next? && l.body.email == ValidateRegister(b, isEmail, normalizeEmail).body.email
  {
  }

  /** Trimming first changes nothing: the username rules see the same
      string either way. */
  lemma UsernameRulesIgnorePadding(username: string)
    ensures UsernameErrors(Trim(username)) == UsernameErrors(username)
  {
    TrimIdempotent(username);
  }

  /** An accepted username holds only word characters, so it has no
      whitespace at all, inside or around. */
  lemma AcceptedUsernameHasNoSpace(b: RegisterBody, isEmail: string -> bool,
                                   normalizeEmail: string -> string)
    requires ValidateRegister(b, isEmail, normalizeEmail).Next?
    ensures var u := ValidateRegister(b, isEmail, normalizeEmail).body.username;
            |u| >= 3 && forall i :: 0 <= i < |u| ==> !IsWhitespace(u[i])
  {
    var u := Trim(b.username);
    forall i | 0 <= i < |u| ensures !IsWhitespace(u[i]) {
      WordCharIsNotSpace(u[i]);
    }
  }

  lemma WordCharIsNotSpace(c: char)
    requires IsWordChar(c)
    ensures !IsWhitespace(c)
  {
  }
}
