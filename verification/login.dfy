/** The login route: its schema (email and password), the transform that
    runs the credential strategy on a final submission, the scrubbing of the
    password from what is sent back, and its action. */
module Login {
  import opened Base
  import opened Users
  import opened Validation
  import opened Strategy
  import opened Http

  const EmailRule: StringRule :=
    StringRule("Email is required", "Email is too short", "Email is too long", 3, 100)
  const PasswordRule: StringRule :=
    StringRule("Password is required", "Password is too short", "Password is too long", 6, 100)

  /** The one message every strategy failure turns into. */
  const InvalidCredentials: string := "Invalid username or password"
  const WelcomeToast: string := "Welcome!"

  /** The validated login value: the lower-cased email, the password (until
      it is deleted), and the strategy's user (null unless the strategy ran
      and succeeded). */
  datatype LoginValue = LoginValue(email: string, password: Option<string>, session: Option<User>)

  /** The schema run, with the store as the strategy left it. */
  datatype Attempt = Attempt(parsed: Parsed<LoginValue>, store: Store)

  /** The field rules accept the form. */
  predicate FieldsAccepted(form: FormData, isEmail: string -> bool) {
    && Present(Get(form, "email")).Some?
    && isEmail(Present(Get(form, "email")).value)
    && EmailRule.min <= |Present(Get(form, "email")).value| <= EmailRule.max
    && Present(Get(form, "password")).Some?
    && PasswordRule.min <= |Present(Get(form, "password")).value| <= PasswordRule.max
  }

  function FieldIssuesOf(form: FormData, isEmail: string -> bool): (issues: seq<Issue>)
    ensures issues == [] <==> FieldsAccepted(form, isEmail)
  {
    FieldIssues("email", ParseEmail(EmailRule, Get(form, "email"), isEmail))
    + FieldIssues("password", ParseText(PasswordRule, Get(form, "password")))
  }

  /** The schema with its transform. The transform runs only when both
      fields pass; it calls the strategy only for the "submit" intent, on the
      RAW form, and turns any strategy failure into one form-level issue. */
  function Parse(req: Request, store: Store, isEmail: string -> bool, bcrypt: Bcrypt, salt: Salt): (c: Attempt)
    ensures c.parsed.value.Some? <==> c.parsed.issues == []
    ensures !FieldsAccepted(req.form, isEmail) ==>
              c.parsed.value.None? && c.store == store
              && c.parsed.issues == FieldIssuesOf(req.form, isEmail)
    ensures c.parsed.value.Some? ==>
              && FieldsAccepted(req.form, isEmail)
              && c.parsed.value.value.email == Lower(Present(Get(req.form, "email")).value)
              && c.parsed.value.value.password == Some(Present(Get(req.form, "password")).value)
    // the strategy is not consulted for other intents, and the session is null
    ensures req.intent != SubmitIntent ==>
              c.store == store
              && (FieldsAccepted(req.form, isEmail) ==> c.parsed.value.Some? && c.parsed.value.value.session.None?)
    // on "submit", a session exactly when the strategy succeeds
    ensures req.intent == SubmitIntent && FieldsAccepted(req.form, isEmail) ==>
              var step := Authenticate(req.form, store, bcrypt, salt);
              && c.store == step.store
              && (step.result.Ok? ==> c.parsed.value == Some(LoginValue(
                    Lower(Present(Get(req.form, "email")).value),
                    Some(Present(Get(req.form, "password")).value),
                    Some(step.result.value))))
              && (step.result.Err? ==> c.parsed == Parsed([Issue(FormLevel, InvalidCredentials)], None))
  {
    var email := ParseEmail(EmailRule, Get(req.form, "email"), isEmail);
    var password := ParseText(PasswordRule, Get(req.form, "password"));
    var issues := FieldIssues("email", email) + FieldIssues("password", password);
    if issues != [] then Attempt(Parsed(issues, None), store)
    else if req.intent != SubmitIntent then
      Attempt(Parsed([], Some(LoginValue(email.value, Some(password.value), None))), store)
    else
      var step := Authenticate(req.form, store, bcrypt, salt);
      match step.result
      case Ok(user) =>
        Attempt(Parsed([], Some(LoginValue(email.value, Some(password.value), Some(user)))), step.store)
      case Err(_) =>
        Attempt(Parsed([Issue(FormLevel, InvalidCredentials)], None), store)
  }

  /** The value with its password deleted. */
  function Scrub(v: Option<LoginValue>): (r: Option<LoginValue>)
    ensures r.Some? <==> v.Some?
    ensures r.Some? ==> r.value.password.None?
                        && r.value.email == v.value.email && r.value.session == v.value.session
  {
    match v
    case None => None
    case Some(lv) => Some(lv.(password := None))
  }

  /** The password never travels back: not in the echoed fields, and not in
      the value. */
  predicate PasswordWithheld(r: Response<LoginValue>) {
    r.Redirect? ||
    (&& "password" !in r.submission.payload
     && (r.submission.value.Some? ==> r.submission.value.value.password.None?))
  }

  /** The login action. */
  function Action(req: Request, store: Store, isEmail: string -> bool,
                  bcrypt: Bcrypt, salt: Salt): (h: Handled<LoginValue>)
    ensures PasswordWithheld(h.response)
    // any intent but "submit" answers idle (200) and leaves the store alone
    ensures req.intent != SubmitIntent <==> Status(h.response) == 200
    ensures req.intent != SubmitIntent ==> h.store == store
    // an error carries no value and no session, and changes nothing
    ensures h.response.Error? ==> h.response.submission.value.None? && h.store == store
    ensures h.response.Idle? || h.response.Error? ==>
              && h.response.submission.payload == req.form - {"password"}
              && h.response.submission.error == ErrorMap(Parse(req, store, isEmail, bcrypt, salt).parsed.issues)
    ensures h.response.Redirect? <==>
              req.intent == SubmitIntent && FieldsAccepted(req.form, isEmail)
              && Authenticate(req.form, store, bcrypt, salt).result.Ok?
    ensures h.response.Redirect? ==>
              && h.response.location == Home
              && h.response.toast == WelcomeToast
              && h.store == Authenticate(req.form, store, bcrypt, salt).store
              && SignedInUser(h.response.session) == Some(Authenticate(req.form, store, bcrypt, salt).result.value)
              && SignedInUser(h.response.session).value.password == None
              && SignedInWith(h.response.session) == Some(FormStrategyName)
              && forall k :: k in req.session && k != SessionKey && k != StrategyKey ==>
                   k in h.response.session && h.response.session[k] == req.session[k]
  {
    var c := Parse(req, store, isEmail, bcrypt, salt);
    var payload := req.form - {"password"};
    if req.intent != SubmitIntent then
      Handled(Idle(Submission(req.intent, payload, ErrorMap(c.parsed.issues), Scrub(c.parsed.value))), c.store)
    else if c.parsed.value.None? || c.parsed.value.value.session.None? then
      Handled(Error(Submission(req.intent, payload, ErrorMap(c.parsed.issues), c.parsed.value)), c.store)
    else
      Handled(Redirect(Home, WelcomeToast, SignIn(req.session, c.parsed.value.value.session.value)), c.store)
  }

  /** Whatever made the strategy fail (a wrong password, an unknown email
      without names, a failed input invariant), the answer is the same:
      400 with the single form-level message, and nothing else. */
  lemma FailureIsUniform(req: Request, store: Store, isEmail: string -> bool, bcrypt: Bcrypt, salt: Salt)
    requires req.intent == SubmitIntent && FieldsAccepted(req.form, isEmail)
    requires Authenticate(req.form, store, bcrypt, salt).result.Err?
    ensures Action(req, store, isEmail, bcrypt, salt)
              == Handled(Error(Submission(SubmitIntent, req.form - {"password"},
                                          map[FormLevel := [InvalidCredentials]], None)), store)
  {
    ErrorMapSingle(InvalidCredentials);
  }

  /** Two failed logins with the same form read alike, whichever store and
      whichever cause: a wrong password cannot be told from an unknown
      email. */
  lemma NoEnumeration(req: Request, store1: Store, store2: Store, isEmail: string -> bool,
                      bcrypt1: Bcrypt, bcrypt2: Bcrypt, salt1: Salt, salt2: Salt)
    requires req.intent == SubmitIntent && FieldsAccepted(req.form, isEmail)
    requires Authenticate(req.form, store1, bcrypt1, salt1).result.Err?
    requires Authenticate(req.form, store2, bcrypt2, salt2).result.Err?
    ensures Action(req, store1, isEmail, bcrypt1, salt1).response
              == Action(req, store2, isEmail, bcrypt2, salt2).response
  {
    FailureIsUniform(req, store1, isEmail, bcrypt1, salt1);
    FailureIsUniform(req, store2, isEmail, bcrypt2, salt2);
  }

  /** A password shorter than six characters is reported as too short and
      the strategy is not consulted. */
  lemma ShortPasswordRejected(req: Request, store: Store, isEmail: string -> bool, bcrypt: Bcrypt, salt: Salt)
    requires Present(Get(req.form, "password")).Some? && |Present(Get(req.form, "password")).value| < 6
    ensures var h := Action(req, store, isEmail, bcrypt, salt);
            && h.store == store
            && "password" in h.response.submission.error
            && "Password is too short" in h.response.submission.error["password"]
  {
    var issues := FieldIssuesOf(req.form, isEmail);
    var i := TooShortAt(req.form, isEmail);
    MessageFiled(issues, i);
  }

  /** Where the too-short issue sits among the field issues. */
  lemma TooShortAt(form: FormData, isEmail: string -> bool) returns (i: nat)
    requires Present(Get(form, "password")).Some? && |Present(Get(form, "password")).value| < 6
    ensures !FieldsAccepted(form, isEmail)
    ensures i < |FieldIssuesOf(form, isEmail)|
    ensures FieldIssuesOf(form, isEmail)[i] == Issue("password", "Password is too short")
  {
    var emailIssues := FieldIssues("email", ParseEmail(EmailRule, Get(form, "email"), isEmail));
    var pw := ParseText(PasswordRule, Get(form, "password"));
    i := |emailIssues|;
    assert FieldIssues("password", pw)[0] == Issue("password", "Password is too short");
  }

  /** Login as written also signs up: an unknown email with both names in
      the form creates a user through the login route. */
  lemma LoginCanCreateUser(req: Request, store: Store, isEmail: string -> bool, bcrypt: Bcrypt, salt: Salt)
    requires req.intent == SubmitIntent && FieldsAccepted(req.form, isEmail)
    requires Present(Get(req.form, "email")).value !in store
    requires Str(Get(req.form, "firstName")).Some? && Str(Get(req.form, "lastName")).Some?
    ensures Action(req, store, isEmail, bcrypt, salt).response.Redirect?
    ensures Action(req, store, isEmail, bcrypt, salt).store.Keys
              == store.Keys + {Present(Get(req.form, "email")).value}
  {
  }
}
