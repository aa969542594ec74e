/** Registration and sign-in (src/services/authService.js): input checks that
    run before the identity provider is asked, the mapping of its error texts
    to user-facing messages, and the classification of its answer. The
    provider is a parameter: a function from the (trimmed) email and the
    password to its answer. */
module AuthService {
  import opened Common
  import opened Text

  datatype User = User(id: string, email: string)

  /** What `signUp` / `signInWithPassword` do: resolve with an error, resolve
      with data (a user or not, a session or not), or throw. */
  datatype Reply =
    | ReplyError(message: string)
    | ReplyData(user: Option<User>, hasSession: bool)
    | Threw(message: string)

  /** The `{ success, message, user, requiresConfirmation }` object returned;
      absent fields are None / false. */
  datatype Outcome = Outcome(success: bool, message: Option<string>, user: Option<User>, requiresConfirmation: bool)

  function Failure(message: string): Outcome {
    Outcome(false, Some(message), None, false)
  }

  const InvalidEmailMessage: string := "Please enter a valid email address"
  const ShortPasswordMessage: string := "Password must be at least 6 characters"
  const MissingPasswordMessage: string := "Please enter your password"
  const AlreadyRegisteredMessage: string := "This email is already registered. Please try logging in instead."
  const PasswordRequirementsMessage: string := "Password does not meet requirements"
  const ConfirmEmailMessage: string := "Please check your email to confirm your account"
  const RegistrationFailedMessage: string := "Registration failed. Please try again."
  const InvalidCredentialsMessage: string := "Invalid email or password. Please check your credentials and try again."
  const EmailNotConfirmedMessage: string :=
    "Please confirm your email address before logging in. Check your inbox for the confirmation link."
  const TooManyAttemptsMessage: string := "Too many login attempts. Please wait a moment and try again."
  const LoginFailedMessage: string := "Login failed. Please try again."
  const MinPasswordLength: nat := 6

  /** `email && email.includes("@")` */
  predicate EmailAccepted(email: string) {
    email != [] && Contains(email, "@")
  }

  /** The check is exactly "has an at sign". */
  lemma EmailAcceptedIffAt(email: string)
    ensures EmailAccepted(email) <==> '@' in email
  {
    if '@' in email {
      var i :| 0 <= i < |email| && email[i] == '@';
      assert email[i..i + 1] == "@";
      assert OccursAt(email, "@", i);
    }
    if EmailAccepted(email) {
      var i :| OccursAt(email, "@", i);
      assert email[i..i + 1][0] == email[i];
    }
  }

  /** The sign-up error texts, checked in this order. */
  function SignUpErrorMessage(raw: string): (m: string)
    ensures Contains(raw, "already registered") ==> m == AlreadyRegisteredMessage
    ensures !Contains(raw, "already registered") && Contains(raw, "Invalid email") ==> m == InvalidEmailMessage
    ensures !Contains(raw, "already registered") && !Contains(raw, "Invalid email") && Contains(raw, "Password") ==>
      m == PasswordRequirementsMessage
    ensures !Contains(raw, "already registered") && !Contains(raw, "Invalid email") && !Contains(raw, "Password") ==>
      m == raw
    ensures m != raw ==> m in {AlreadyRegisteredMessage, InvalidEmailMessage, PasswordRequirementsMessage}
  {
    if Contains(raw, "already registered") then AlreadyRegisteredMessage
    else if Contains(raw, "Invalid email") then InvalidEmailMessage
    else if Contains(raw, "Password") then PasswordRequirementsMessage
    else raw
  }

  /** The sign-in error texts: anything mentioning "Invalid" is reported as bad
      credentials, before the other two checks are made. */
  function SignInErrorMessage(raw: string): (m: string)
    ensures Contains(raw, "Invalid") ==> m == InvalidCredentialsMessage
    ensures !Contains(raw, "Invalid") && Contains(raw, "Email not confirmed") ==> m == EmailNotConfirmedMessage
    ensures !Contains(raw, "Invalid") && !Contains(raw, "Email not confirmed") && Contains(raw, "too many requests") ==>
      m == TooManyAttemptsMessage
    ensures !Contains(raw, "Invalid") && !Contains(raw, "Email not confirmed") && !Contains(raw, "too many requests") ==>
      m == raw
    ensures m != raw ==> m in {InvalidCredentialsMessage, EmailNotConfirmedMessage, TooManyAttemptsMessage}
  {
    if Contains(raw, "Invalid login credentials") || Contains(raw, "Invalid") then
      if Contains(raw, "Invalid login credentials") then
        CredentialsTestSubsumed(raw);
        InvalidCredentialsMessage
      else InvalidCredentialsMessage
    else if Contains(raw, "Email not confirmed") then EmailNotConfirmedMessage
    else if Contains(raw, "too many requests") then TooManyAttemptsMessage
    else raw
  }

  /** The test for "Invalid login credentials" adds nothing to the test for
      "Invalid": a text that passes the first passes the second. */
  lemma CredentialsTestSubsumed(raw: string)
    requires Contains(raw, "Invalid login credentials")
    ensures Contains(raw, "Invalid")
  {
    assert "Invalid login credentials"[0..|"Invalid"|] == "Invalid";
    assert OccursAt("Invalid login credentials", "Invalid", 0);
    ContainsPart(raw, "Invalid login credentials", "Invalid");
  }

  /** `err.message || fallback` for a thrown error. */
  function ThrownMessage(message: string, fallback: string): string {
    if message == [] then fallback else message
  }

  /** `register(email, password)` */
  function Register(email: string, password: string, signUp: (string, string) -> Reply): (r: Outcome)
    ensures !EmailAccepted(email) ==> r == Failure(InvalidEmailMessage)
    ensures EmailAccepted(email) && |password| < MinPasswordLength ==> r == Failure(ShortPasswordMessage)
    ensures r.success <==>
      EmailAccepted(email) && |password| >= MinPasswordLength && signUp(Trim(email), password).ReplyData?
    ensures EmailAccepted(email) && |password| >= MinPasswordLength ==>
      var reply := signUp(Trim(email), password);
      && (reply.ReplyError? ==> r == Failure(SignUpErrorMessage(reply.message)))
      && (reply.Threw? ==> r == Failure(ThrownMessage(reply.message, RegistrationFailedMessage)))
      && (reply.ReplyData? ==> r.user == reply.user)
    ensures r.requiresConfirmation <==>
      EmailAccepted(email) && |password| >= MinPasswordLength &&
      var reply := signUp(Trim(email), password); reply.ReplyData? && reply.user.Some? && !reply.hasSession
    ensures r.requiresConfirmation ==> r.success && r.user.Some? && r.message == Some(ConfirmEmailMessage)
  {
    if !EmailAccepted(email) then Failure(InvalidEmailMessage)
    else if |password| < MinPasswordLength then Failure(ShortPasswordMessage)
    else
      match signUp(Trim(email), password)
      case Threw(m) => Failure(ThrownMessage(m, RegistrationFailedMessage))
      case ReplyError(m) => Failure(SignUpErrorMessage(m))
      case ReplyData(user, hasSession) =>
        if user.Some? && !hasSession then Outcome(true, Some(ConfirmEmailMessage), user, true)
        else Outcome(true, None, user, false)
  }

  /** `login(email, password)`: there is no length rule here. */
  function Login(email: string, password: string, signIn: (string, string) -> Reply): (r: Outcome)
    ensures !EmailAccepted(email) ==> r == Failure(InvalidEmailMessage)
    ensures EmailAccepted(email) && password == [] ==> r == Failure(MissingPasswordMessage)
    ensures r.success <==>
      EmailAccepted(email) && password != [] &&
      var reply := signIn(Trim(email), password); reply.ReplyData? && reply.user.Some?
    ensures r.success ==> r.user == signIn(Trim(email), password).user
    ensures EmailAccepted(email) && password != [] ==>
      var reply := signIn(Trim(email), password);
      && (reply.ReplyError? ==> r == Failure(SignInErrorMessage(reply.message)))
      && (reply.Threw? ==> r == Failure(ThrownMessage(reply.message, LoginFailedMessage)))
      && (reply.ReplyData? && reply.user.None? ==> r == Failure(LoginFailedMessage))
    ensures !r.requiresConfirmation
  {
    if !EmailAccepted(email) then Failure(InvalidEmailMessage)
    else if password == [] then Failure(MissingPasswordMessage)
    else
      match signIn(Trim(email), password)
      case Threw(m) => Failure(ThrownMessage(m, LoginFailedMessage))
      case ReplyError(m) => Failure(SignInErrorMessage(m))
      case ReplyData(user, _) =>
        if user.None? then Failure(LoginFailedMessage) else Outcome(true, None, user, false)
  }

  /** Input that fails validation gets its answer before the provider is
      asked: any two providers give the same outcome. */
  lemma ValidationPrecedesRemote(email: string, password: string, p: (string, string) -> Reply, q: (string, string) -> Reply)
    ensures !EmailAccepted(email) || |password| < MinPasswordLength ==> Register(email, password, p) == Register(email, password, q)
    ensures !EmailAccepted(email) || password == [] ==> Login(email, password, p) == Login(email, password, q)
  {
  }
}
