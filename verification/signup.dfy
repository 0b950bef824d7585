/** The sign-up route: its schema (five string fields, a password match
    check, and a server-side "email already taken" check) and its action,
    which calls the credential strategy on the RAW form. */
module Signup {
  import opened Base
  import opened Users
  import opened Validation
  import opened Strategy
  import opened Http

  const FirstNameRule: StringRule :=
    StringRule("First Name is required", "First Name is too short", "First Name is too long", 3, 100)
  const LastNameRule: StringRule :=
    StringRule("Last Name is required", "Last Name is too short", "Last Name is too long", 3, 100)
  const EmailRule: StringRule :=
    StringRule("Email is required", "Email is too short", "Email is too long", 3, 100)
  /** Shared by `password` and `confirmPassword`, messages included. */
  const PasswordRule: StringRule :=
    StringRule("Password is required", "Password is too short", "Password is too long", 6, 100)

  const PasswordMismatch: string := "The passwords did not match"
  const EmailTaken: string := "A user already exists with this email"
  const CreatedToast: string := "Your account has been created!"

  /** The validated sign-up value; `email` is lower-cased. */
  datatype SignupValue = SignupValue(
    firstName: string,
    lastName: string,
    email: string,
    password: string,
    confirmPassword: string)

  /** The five fields after their own checks. */
  datatype Fields = Fields(
    firstName: FieldResult,
    lastName: FieldResult,
    email: FieldResult,
    password: FieldResult,
    confirmPassword: FieldResult)
  {
    /** No field failed hard, so the refinements run. */
    predicate Refinable() {
      firstName.Checked? && lastName.Checked? && email.Checked?
      && password.Checked? && confirmPassword.Checked?
    }

    predicate AllValid() {
      firstName.Valid() && lastName.Valid() && email.Valid()
      && password.Valid() && confirmPassword.Valid()
    }

    function Issues(): (issues: seq<Issue>)
      ensures issues == [] <==> AllValid()
      ensures forall i :: 0 <= i < |issues| ==> issues[i].path != FormLevel
    {
      FieldIssues("firstName", firstName) + FieldIssues("lastName", lastName)
      + FieldIssues("email", email) + FieldIssues("password", password)
      + FieldIssues("confirmPassword", confirmPassword)
    }
  }

  /** Every field holds a non-empty string. */
  predicate AllPresent(form: FormData) {
    && Present(Get(form, "firstName")).Some?
    && Present(Get(form, "lastName")).Some?
    && Present(Get(form, "email")).Some?
    && Present(Get(form, "password")).Some?
    && Present(Get(form, "confirmPassword")).Some?
  }

  function CheckFields(form: FormData, isEmail: string -> bool): (f: Fields)
    ensures f.Refinable() <==> AllPresent(form)
  {
    Fields(
      ParseText(FirstNameRule, Get(form, "firstName")),
      ParseText(LastNameRule, Get(form, "lastName")),
      ParseEmail(EmailRule, Get(form, "email"), isEmail),
      ParseText(PasswordRule, Get(form, "password")),
      ParseText(PasswordRule, Get(form, "confirmPassword")))
  }

  /** The field rules accept the form: each value present, in its length
      window, and the email in the accepted format. */
  predicate FieldsAccepted(form: FormData, isEmail: string -> bool) {
    && AllPresent(form)
    && FirstNameRule.min <= |Present(Get(form, "firstName")).value| <= FirstNameRule.max
    && LastNameRule.min <= |Present(Get(form, "lastName")).value| <= LastNameRule.max
    && isEmail(Present(Get(form, "email")).value)
    && EmailRule.min <= |Present(Get(form, "email")).value| <= EmailRule.max
    && PasswordRule.min <= |Present(Get(form, "password")).value| <= PasswordRule.max
    && PasswordRule.min <= |Present(Get(form, "confirmPassword")).value| <= PasswordRule.max
  }

  /** The field checks all pass exactly when the field rules accept the
      form, and then they yield the typed values, the email lower-cased. */
  lemma FieldsValidity(form: FormData, isEmail: string -> bool)
    ensures CheckFields(form, isEmail).AllValid() <==> FieldsAccepted(form, isEmail)
    ensures CheckFields(form, isEmail).Refinable() ==>
              && CheckFields(form, isEmail).firstName.value == Present(Get(form, "firstName")).value
              && CheckFields(form, isEmail).lastName.value == Present(Get(form, "lastName")).value
              && CheckFields(form, isEmail).password.value == Present(Get(form, "password")).value
              && CheckFields(form, isEmail).confirmPassword.value == Present(Get(form, "confirmPassword")).value
    ensures CheckFields(form, isEmail).AllValid() ==>
              CheckFields(form, isEmail).email.value == Lower(Present(Get(form, "email")).value)
  {
  }

  /** The schema with the server-side uniqueness refinement. The email the
      store is asked about is the lower-cased one when the email field
      passed its checks, and the typed one otherwise. */
  function Parse(form: FormData, store: Store, isEmail: string -> bool): (p: Parsed<SignupValue>)
    ensures p.value.Some? <==> p.issues == []
    // accepted exactly when every field passes, the passwords match and the
    // lower-cased email is not yet in the store
    ensures p.value.Some? <==>
              && FieldsAccepted(form, isEmail)
              && Present(Get(form, "password")) == Present(Get(form, "confirmPassword"))
              && Lower(Present(Get(form, "email")).value) !in store
    ensures p.value.Some? ==>
              p.value.value == SignupValue(
                Present(Get(form, "firstName")).value,
                Present(Get(form, "lastName")).value,
                Lower(Present(Get(form, "email")).value),
                Present(Get(form, "password")).value,
                Present(Get(form, "confirmPassword")).value)
  {
    var f := CheckFields(form, isEmail);
    FieldsValidity(form, isEmail);
    if !f.Refinable() then
      Parsed(f.Issues(), None)
    else
      var mismatch := if f.confirmPassword.value != f.password.value
                      then [Issue(FormLevel, PasswordMismatch)] else [];
      var taken := if f.email.value in store then [Issue("email", EmailTaken)] else [];
      var issues := f.Issues() + mismatch + taken;
      Parsed(issues,
        if issues == [] then
          Some(SignupValue(f.firstName.value, f.lastName.value, f.email.value,
                           f.password.value, f.confirmPassword.value))
        else None)
  }

  /** The issues the refinements add once no field failed hard. */
  lemma RefinementIssues(form: FormData, store: Store, isEmail: string -> bool)
    requires AllPresent(form)
    ensures Parse(form, store, isEmail).issues
              == CheckFields(form, isEmail).Issues()
                 + (if Present(Get(form, "password")) != Present(Get(form, "confirmPassword"))
                    then [Issue(FormLevel, PasswordMismatch)] else [])
                 + (if CheckFields(form, isEmail).email.value in store
                    then [Issue("email", EmailTaken)] else [])
  {
    FieldsValidity(form, isEmail);
  }

  /** Exactly when all five fields hold non-empty strings and the two
      passwords differ, the schema reports the path-less mismatch issue; a
      missing field stops the object before the refinement runs. */
  lemma MismatchIssue(form: FormData, store: Store, isEmail: string -> bool)
    ensures Issue(FormLevel, PasswordMismatch) in Parse(form, store, isEmail).issues <==>
              AllPresent(form) && Present(Get(form, "password")) != Present(Get(form, "confirmPassword"))
  {
    var f := CheckFields(form, isEmail);
    assert Issue(FormLevel, PasswordMismatch) !in f.Issues();
    if AllPresent(form) {
      RefinementIssues(form, store, isEmail);
    }
  }

  /** Exactly when no field failed hard and the store already holds the
      email the refinement looks up, the schema reports on the email path
      that the user exists. */
  lemma TakenIssue(form: FormData, store: Store, isEmail: string -> bool)
    ensures Issue("email", EmailTaken) in Parse(form, store, isEmail).issues <==>
              AllPresent(form) && CheckFields(form, isEmail).email.value in store
  {
    var f := CheckFields(form, isEmail);
    EmailIssuesNotTaken(Get(form, "email"), isEmail);
    assert Issue("email", EmailTaken) !in f.Issues();
    if AllPresent(form) {
      RefinementIssues(form, store, isEmail);
    }
  }

  /** No message the email field itself reports reads like the uniqueness
      issue. */
  lemma EmailIssuesNotTaken(e: Option<FormEntry>, isEmail: string -> bool)
    ensures Issue("email", EmailTaken) !in FieldIssues("email", ParseEmail(EmailRule, e, isEmail))
  {
    var r := ParseEmail(EmailRule, e, isEmail);
    var issues := FieldIssues("email", r);
    forall i | 0 <= i < |issues| ensures issues[i].message != EmailTaken {
      assert issues[i].message in {EmailRule.required, NotAString, InvalidEmail,
                                   EmailRule.tooShort, EmailRule.tooLong};
      assert issues[i].message[0] == 'E';
    }
  }

  /** When the email passed its own checks, the looked-up email is the
      lower-cased one. */
  lemma TakenIssueValidEmail(form: FormData, store: Store, isEmail: string -> bool)
    requires AllPresent(form) && CheckFields(form, isEmail).email.Valid()
    ensures Issue("email", EmailTaken) in Parse(form, store, isEmail).issues <==>
              Lower(Present(Get(form, "email")).value) in store
  {
    TakenIssue(form, store, isEmail);
  }

  /** The validated email is lower case, so converting it again changes
      nothing. */
  lemma ValidatedEmailIsLowerCase(form: FormData, store: Store, isEmail: string -> bool)
    requires Parse(form, store, isEmail).value.Some?
    ensures IsLowerCase(Parse(form, store, isEmail).value.value.email)
    ensures Lower(Parse(form, store, isEmail).value.value.email) == Parse(form, store, isEmail).value.value.email
  {
    LowerIsLowerCase(TypedEmail(form));
    LowerIdempotent(TypedEmail(form));
  }

  /** The sign-up action, as written: the strategy receives the raw form, so
      it looks up and stores the email exactly as typed. */
  function Action(req: Request, store: Store, isEmail: string -> bool,
                  bcrypt: Bcrypt, salt: Salt): (h: Handled<SignupValue>)
    // any intent but "submit" answers idle (200), whatever the validity
    ensures req.intent != SubmitIntent <==> Status(h.response) == 200
    // a submission the schema rejects answers 400 without a session
    ensures (req.intent == SubmitIntent && Parse(req.form, store, isEmail).value.None?)
              ==> h.response.Error? && h.response.submission.value.None?
    ensures h.response.Idle? || h.response.Error? ==>
              h.store == store
              && h.response.submission.payload == req.form
              && h.response.submission.error == ErrorMap(Parse(req.form, store, isEmail).issues)
    ensures h.response.Redirect? <==>
              req.intent == SubmitIntent && Parse(req.form, store, isEmail).value.Some?
              && Authenticate(req.form, store, bcrypt, salt).result.Ok?
    ensures h.response.Redirect? ==>
              && h.response.location == Home
              && h.response.toast == CreatedToast
              && h.store == Authenticate(req.form, store, bcrypt, salt).store
              && SignedInUser(h.response.session) == Some(Authenticate(req.form, store, bcrypt, salt).result.value)
              && SignedInUser(h.response.session).value.password == None
              && SignedInWith(h.response.session) == Some(FormStrategyName)
              && forall k :: k in req.session && k != SessionKey && k != StrategyKey ==>
                   k in h.response.session && h.response.session[k] == req.session[k]
  {
    var p := Parse(req.form, store, isEmail);
    var sub := Submission(req.intent, req.form, ErrorMap(p.issues), p.value);
    if req.intent != SubmitIntent then Handled(Idle(sub), store)
    else if p.value.None? then Handled(Error(sub), store)
    else
      var step := Authenticate(req.form, store, bcrypt, salt);
      match step.result
      case Ok(user) => Handled(Redirect(Home, CreatedToast, SignIn(req.session, user)), step.store)
      case Err(_) => Handled(Error(sub), store)
  }

  /** The schema's rejection decides the answer before the strategy could
      run: neither the password hashing nor its salt plays any part. */
  lemma RejectedNeverAuthenticates(req: Request, store: Store, isEmail: string -> bool,
                                   bcrypt1: Bcrypt, salt1: Salt, bcrypt2: Bcrypt, salt2: Salt)
    requires req.intent == SubmitIntent
    requires Parse(req.form, store, isEmail).value.None?
    ensures Action(req, store, isEmail, bcrypt1, salt1) == Action(req, store, isEmail, bcrypt2, salt2)
    ensures Status(Action(req, store, isEmail, bcrypt1, salt1).response) == 400
  {
  }

  /** The password-length window: 5 is too short, 6 and 100 pass, 101 is
      too long. */
  lemma PasswordBoundaries(s5: string, s6: string, s100: string, s101: string)
    requires |s5| == 5 && |s6| == 6 && |s100| == 100 && |s101| == 101
    ensures ParseText(PasswordRule, Some(Text(s5))) == Checked(s5, ["Password is too short"])
    ensures ParseText(PasswordRule, Some(Text(s6))).Valid()
    ensures ParseText(PasswordRule, Some(Text(s100))).Valid()
    ensures ParseText(PasswordRule, Some(Text(s101))) == Checked(s101, ["Password is too long"])
  {
  }

  /** The name-length window: 2 is too short, 3 and 100 pass, 101 is too
      long; an absent name is required. */
  lemma NameBoundaries(s2: string, s3: string, s100: string, s101: string)
    requires |s2| == 2 && |s3| == 3 && |s100| == 100 && |s101| == 101
    ensures ParseText(FirstNameRule, Some(Text(s2))) == Checked(s2, ["First Name is too short"])
    ensures ParseText(FirstNameRule, Some(Text(s3))).Valid()
    ensures ParseText(LastNameRule, Some(Text(s100))).Valid()
    ensures ParseText(LastNameRule, Some(Text(s101))) == Checked(s101, ["Last Name is too long"])
    ensures ParseText(FirstNameRule, None) == Missing("First Name is required")
    ensures ParseText(LastNameRule, Some(Text(""))) == Missing("Last Name is required")
  {
  }

  /** The email the user typed, when the form holds one. */
  function TypedEmail(form: FormData): string
    requires Present(Get(form, "email")).Some?
  {
    Present(Get(form, "email")).value
  }

  /** A successful sign-up passed the uniqueness check on the lower-cased
      email, then either created one row under the email AS TYPED, or (when
      a row already sits under the typed email, which can only differ from
      its lower-cased form) signed in to that row and created nothing. */
  lemma SignupStoresTypedEmail(req: Request, store: Store, isEmail: string -> bool, bcrypt: Bcrypt, salt: Salt)
    requires Action(req, store, isEmail, bcrypt, salt).response.Redirect?
    ensures AllPresent(req.form)
    ensures Lower(TypedEmail(req.form)) !in store
    ensures TypedEmail(req.form) !in store ==>
              && Action(req, store, isEmail, bcrypt, salt).store.Keys == store.Keys + {TypedEmail(req.form)}
              && Action(req, store, isEmail, bcrypt, salt).store[TypedEmail(req.form)].email == TypedEmail(req.form)
              && Action(req, store, isEmail, bcrypt, salt).store[TypedEmail(req.form)].password
                   == Some(bcrypt.hash(Present(Get(req.form, "password")).value, salt))
    ensures TypedEmail(req.form) in store ==>
              && Action(req, store, isEmail, bcrypt, salt).store == store
              && Lower(TypedEmail(req.form)) != TypedEmail(req.form)
  {
    var p := Parse(req.form, store, isEmail);
    FieldsValidity(req.form, isEmail);
  }

  /** When the typed email is already lower case, signing up twice with the
      same form is refused the second time with the uniqueness issue. */
  lemma LowercaseReplayIsDuplicate(req: Request, store: Store, isEmail: string -> bool,
                                   bcrypt: Bcrypt, salt1: Salt, salt2: Salt)
    requires Action(req, store, isEmail, bcrypt, salt1).response.Redirect?
    requires IsLowerCase(TypedEmail(req.form))
    ensures var h1 := Action(req, store, isEmail, bcrypt, salt1);
            var h2 := Action(req, h1.store, isEmail, bcrypt, salt2);
            && h2.response.Error?
            && h2.store == h1.store
            && Issue("email", EmailTaken) in Parse(req.form, h1.store, isEmail).issues
  {
    var h1 := Action(req, store, isEmail, bcrypt, salt1);
    var e := TypedEmail(req.form);
    SignupStoresTypedEmail(req, store, isEmail, bcrypt, salt1);
    LowerFixes(e);
    FieldsValidity(req.form, isEmail);
    TakenIssueValidEmail(req.form, h1.store, isEmail);
  }

  /** As written, a mixed-case email slips past the uniqueness check on a
      second identical sign-up: the check asks about the lower-cased email,
      the row sits under the typed one, and the strategy signs the visitor
      in to the row the first sign-up created. */
  lemma MixedCaseReplaySignsIn(req: Request, store: Store, isEmail: string -> bool,
                               bcrypt: Bcrypt, salt1: Salt, salt2: Salt)
    requires Action(req, store, isEmail, bcrypt, salt1).response.Redirect?
    requires TypedEmail(req.form) !in store
    requires Lower(TypedEmail(req.form)) != TypedEmail(req.form)
    requires bcrypt.compare(Present(Get(req.form, "password")).value,
                            bcrypt.hash(Present(Get(req.form, "password")).value, salt1))
    ensures var h1 := Action(req, store, isEmail, bcrypt, salt1);
            var h2 := Action(req, h1.store, isEmail, bcrypt, salt2);
            && h2.response.Redirect?
            && h2.store == h1.store
            && Issue("email", EmailTaken) !in Parse(req.form, h1.store, isEmail).issues
  {
    var h1 := Action(req, store, isEmail, bcrypt, salt1);
    SignupStoresTypedEmail(req, store, isEmail, bcrypt, salt1);
    FieldsValidity(req.form, isEmail);
    TakenIssueValidEmail(req.form, h1.store, isEmail);
  }

  /** A sign-up form whose email is typed in mixed case. */
  const MixedCaseForm: FormData :=
    map["firstName" := Text("Jane"), "lastName" := Text("Doe"),
        "email" := Text("test@Test.com"), "password" := Text("test1234"),
        "confirmPassword" := Text("test1234")]

  lemma MixedCaseFormAccepted(isEmail: string -> bool)
    requires isEmail("test@Test.com")
    ensures Parse(MixedCaseForm, map[], isEmail).value.Some?
    ensures Get(MixedCaseForm, "email") == Some(Text("test@Test.com"))
    ensures Get(MixedCaseForm, "password") == Some(Text("test1234"))
    ensures Get(MixedCaseForm, "firstName") == Some(Text("Jane"))
    ensures Get(MixedCaseForm, "lastName") == Some(Text("Doe"))
  {
    var form := MixedCaseForm;
    assert Get(form, "email") == Some(Text("test@Test.com"));
    assert Get(form, "password") == Some(Text("test1234"));
    assert Get(form, "confirmPassword") == Some(Text("test1234"));
    assert Get(form, "firstName") == Some(Text("Jane"));
    assert Get(form, "lastName") == Some(Text("Doe"));
    assert FieldsAccepted(form, isEmail);
  }

  lemma MixedCaseFormSignsUp(isEmail: string -> bool, bcrypt: Bcrypt, salt: Salt, session: Session)
    requires isEmail("test@Test.com")
    ensures var h := Action(Request(MixedCaseForm, SubmitIntent, session), map[], isEmail, bcrypt, salt);
            h.response.Redirect? && h.store == Authenticate(MixedCaseForm, map[], bcrypt, salt).store
  {
    var req := Request(MixedCaseForm, SubmitIntent, session);
    MixedCaseFormAccepted(isEmail);
    UnknownEmailCreatesOneUser(MixedCaseForm, map[], bcrypt, salt, "test@Test.com", "test1234", "Jane", "Doe");
    var step := Authenticate(MixedCaseForm, map[], bcrypt, salt);
    var h := Action(req, map[], isEmail, bcrypt, salt);
    assert h.response.Redirect?;
  }

  /** The sign-up scenario with a mixed-case email: the row is created under
      "test@Test.com", as typed, and nothing is stored under the lower-cased
      email that the schema validated. */
  lemma MixedCaseScenario(isEmail: string -> bool, bcrypt: Bcrypt, salt: Salt, session: Session)
    requires isEmail("test@Test.com")
    ensures var h := Action(Request(MixedCaseForm, SubmitIntent, session), map[], isEmail, bcrypt, salt);
            && h.response.Redirect?
            && "test@Test.com" in h.store
            && Lower("test@Test.com") !in h.store
  {
    MixedCaseFormSignsUp(isEmail, bcrypt, salt, session);
    MixedCaseFormAccepted(isEmail);
    UnknownEmailCreatesOneUser(MixedCaseForm, map[], bcrypt, salt, "test@Test.com", "test1234", "Jane", "Doe");
    MixedCaseDiffers();
  }

  lemma MixedCaseDiffers()
    ensures Lower("test@Test.com") != "test@Test.com"
  {
    assert Lower("test@Test.com")[5] == LowerChar('T') == 't';
  }

  /** The form the strategy would see if it were handed the validated,
      lower-cased email instead of the typed one. */
  function WithEmail(form: FormData, email: string): (f: FormData)
    ensures Get(f, "email") == Some(Text(email))
    ensures forall k :: k in form && k != "email" ==> k in f && f[k] == form[k]
  {
    form["email" := Text(email)]
  }

  /** The sign-up action with the evident intent of "we store it in lower
      case": the strategy receives the validated, lower-cased email. */
  function ActionNormalised(req: Request, store: Store, isEmail: string -> bool,
                            bcrypt: Bcrypt, salt: Salt): (h: Handled<SignupValue>)
    ensures req.intent != SubmitIntent <==> Status(h.response) == 200
    ensures h.response.Idle? || h.response.Error? ==> h.store == store
    // every row the sign-up adds sits under a lower-case email
    ensures forall e :: e in h.store && e !in store ==> IsLowerCase(e)
    ensures h.response.Redirect? ==>
              && h.response.location == Home
              && h.response.toast == CreatedToast
              && SignedInUser(h.response.session).Some?
              && SignedInUser(h.response.session).value.password == None
              && SignedInWith(h.response.session) == Some(FormStrategyName)
  {
    var p := Parse(req.form, store, isEmail);
    var sub := Submission(req.intent, req.form, ErrorMap(p.issues), p.value);
    if req.intent != SubmitIntent then Handled(Idle(sub), store)
    else if p.value.None? then Handled(Error(sub), store)
    else
      var email := p.value.value.email;
      assert email == Lower(TypedEmail(req.form));
      LowerIsLowerCase(TypedEmail(req.form));
      var step := Authenticate(WithEmail(req.form, email), store, bcrypt, salt);
      match step.result
      case Ok(user) => Handled(Redirect(Home, CreatedToast, SignIn(req.session, user)), step.store)
      case Err(_) => Handled(Error(sub), store)
  }

  /** The corrected action answers idle and error exactly as the action as
      written does, and redirects exactly on an accepted submission whose
      lower-cased email the strategy accepts. */
  lemma NormalisedOutcome(req: Request, store: Store, isEmail: string -> bool, bcrypt: Bcrypt, salt: Salt)
    ensures var h := ActionNormalised(req, store, isEmail, bcrypt, salt);
            h.response.Idle? || h.response.Error? ==>
              && h.response.submission.payload == req.form
              && h.response.submission.error == ErrorMap(Parse(req.form, store, isEmail).issues)
              && h.response.submission.value == Parse(req.form, store, isEmail).value
    ensures ActionNormalised(req, store, isEmail, bcrypt, salt).response.Redirect? <==>
              req.intent == SubmitIntent && Parse(req.form, store, isEmail).value.Some?
              && Authenticate(WithEmail(req.form, Lower(TypedEmail(req.form))), store, bcrypt, salt).result.Ok?
  {
    var p := Parse(req.form, store, isEmail);
    if req.intent == SubmitIntent && p.value.Some? {
      assert p.value.value.email == Lower(TypedEmail(req.form));
    }
  }

  /** With the email normalised, signing up twice with the same form, in
      whatever case, is refused the second time with the uniqueness issue
      and creates nothing. */
  lemma NormalisedReplayIsDuplicate(req: Request, store: Store, isEmail: string -> bool,
                                    bcrypt: Bcrypt, salt1: Salt, salt2: Salt)
    requires ActionNormalised(req, store, isEmail, bcrypt, salt1).response.Redirect?
    ensures var h1 := ActionNormalised(req, store, isEmail, bcrypt, salt1);
            var h2 := ActionNormalised(req, h1.store, isEmail, bcrypt, salt2);
            && Lower(TypedEmail(req.form)) in h1.store
            && h2.response.Error?
            && h2.store == h1.store
            && Issue("email", EmailTaken) in Parse(req.form, h1.store, isEmail).issues
  {
    var h1 := ActionNormalised(req, store, isEmail, bcrypt, salt1);
    FieldsValidity(req.form, isEmail);
    TakenIssueValidEmail(req.form, h1.store, isEmail);
  }
}
