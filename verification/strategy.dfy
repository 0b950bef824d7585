/** The "form" credential strategy: check the raw form inputs, then find the
    user by email or create one, verify the password, and hand back the user
    with the digest removed. */
module Strategy {
  import opened Base
  import opened Users

  /** Why the strategy threw. The first six are failed input invariants. */
  datatype AuthError =
    | EmailNotString
    | EmailEmpty
    | PasswordNotString
    | PasswordEmpty
    | FirstNameNotString
    | LastNameNotString
    | InvalidPassword

  /** How the app is built. The invariant helper keeps its message in a
      development build and drops it in a production build. */
  datatype Build = Development | Production

  /** The prefix the invariant helper puts before its message. */
  const InvariantPrefix: string := "Invariant failed"

  /** The text of the error the strategy throws. A failed input invariant
      throws the helper's prefix, followed in a development build by ": " and
      the message written at the check; a wrong password throws its own
      text. In either build, only a wrong password for a known email reads
      "Invalid password". */
  function Message(e: AuthError, build: Build): (text: string)
    ensures text == "Invalid password" <==> e == InvalidPassword
    ensures e != InvalidPassword ==> InvariantPrefix <= text
  {
    if e == InvalidPassword then "Invalid password"
    else if build == Production then InvariantPrefix
    else InvariantPrefix + ": " + InvariantMessage(e)
  }

  /** The message written at each input check. */
  function InvariantMessage(e: AuthError): string
    requires e != InvalidPassword
  {
    match e
    case EmailNotString => "username must be a string"
    case EmailEmpty => "username must not be empty"
    case PasswordNotString => "password must be a string"
    case PasswordEmpty => "password must not be empty"
    case FirstNameNotString => "firstName must be a string"
    case LastNameNotString => "lastName must be a string"
  }

  /** The strategy's answer together with the user store afterwards. */
  datatype Step = Step(result: Result<User, AuthError>, store: Store)

  /** The row the strategy creates for an unknown email. */
  function NewUser(email: string, password: string, firstName: string, lastName: string,
                   bcrypt: Bcrypt, salt: Salt): User
  {
    User(email, Some(bcrypt.hash(password, salt)), firstName, lastName, [DefaultRole])
  }

  /** The input invariants on email and password, checked in source order
      before the store is touched. */
  function CheckCredentials(form: FormData): (r: Result<(string, string), AuthError>)
    ensures r.Ok? <==> (Str(Get(form, "email")).Some? && Str(Get(form, "email")).value != ""
                        && Str(Get(form, "password")).Some? && Str(Get(form, "password")).value != "")
    ensures r.Ok? ==> r.value == (Str(Get(form, "email")).value, Str(Get(form, "password")).value)
    ensures r.Err? ==> r.error in {EmailNotString, EmailEmpty, PasswordNotString, PasswordEmpty}
    ensures Str(Get(form, "email")).None? ==> r == Err(EmailNotString)
    ensures Str(Get(form, "email")) == Some("") ==> r == Err(EmailEmpty)
    // the password is checked only once the email has passed
    ensures (Str(Get(form, "email")).Some? && Str(Get(form, "email")).value != ""
             && Str(Get(form, "password")).None?) ==> r == Err(PasswordNotString)
    ensures (Str(Get(form, "email")).Some? && Str(Get(form, "email")).value != ""
             && Str(Get(form, "password")) == Some("")) ==> r == Err(PasswordEmpty)
  {
    match Str(Get(form, "email"))
    case None => Err(EmailNotString)
    case Some(email) =>
      if email == "" then Err(EmailEmpty)
      else match Str(Get(form, "password"))
        case None => Err(PasswordNotString)
        case Some(password) =>
          if password == "" then Err(PasswordEmpty) else Ok((email, password))
  }

  /** The `FormStrategy` callback. The email is used exactly as the form
      carries it: it is neither trimmed nor lower-cased. */
  function Authenticate(form: FormData, store: Store, bcrypt: Bcrypt, salt: Salt): (s: Step)
    // a failure leaves the store as it was
    ensures s.result.Err? ==> s.store == store
    // a user handed out never carries the digest
    ensures s.result.Ok? ==> s.result.value.password == None
    // existing rows are never modified or removed
    ensures forall e :: e in store ==> e in s.store && s.store[e] == store[e]
    // at most one row, under the raw email, is added
    ensures forall e :: e in s.store && e !in store ==>
              Str(Get(form, "email")) == Some(e)
    ensures WellKeyed(store) ==> WellKeyed(s.store)
  {
    match CheckCredentials(form)
    case Err(e) => Step(Err(e), store)
    case Ok((email, password)) =>
      if email !in store then
        match (Str(Get(form, "firstName")), Str(Get(form, "lastName")))
        case (None, _) => Step(Err(FirstNameNotString), store)
        case (_, None) => Step(Err(LastNameNotString), store)
        case (Some(first), Some(last)) =>
          var u := NewUser(email, password, first, last, bcrypt, salt);
          Step(Ok(Public(u)), store[email := u])
      else
        var stored := store[email];
        if !bcrypt.compare(password, StoredDigest(stored)) then Step(Err(InvalidPassword), store)
        else Step(Ok(Public(stored)), store)
  }

  /** The digest `compare` is run against: the stored one, or "" when null. */
  function StoredDigest(u: User): (digest: string)
    ensures u.password.Some? ==> digest == u.password.value
    ensures u.password.None? ==> digest == ""
  {
    if u.password.Some? then u.password.value else ""
  }

  /** A bad email input is rejected before any store access: the answer is
      the same whatever the store holds. */
  lemma BadEmailRejectedEarly(form: FormData, store1: Store, store2: Store, bcrypt: Bcrypt, salt: Salt)
    requires Str(Get(form, "email")).None? || Str(Get(form, "email")) == Some("")
    ensures Authenticate(form, store1, bcrypt, salt).result.Err?
    ensures Authenticate(form, store1, bcrypt, salt).result.error in {EmailNotString, EmailEmpty}
    ensures Authenticate(form, store1, bcrypt, salt).result == Authenticate(form, store2, bcrypt, salt).result
    ensures Authenticate(form, store1, bcrypt, salt).store == store1
  {
  }

  /** A bad password input is rejected before any store access. */
  lemma BadPasswordRejectedEarly(form: FormData, store1: Store, store2: Store, bcrypt: Bcrypt, salt: Salt)
    requires Str(Get(form, "password")).None? || Str(Get(form, "password")) == Some("")
    ensures Authenticate(form, store1, bcrypt, salt).result.Err?
    ensures Authenticate(form, store1, bcrypt, salt).result == Authenticate(form, store2, bcrypt, salt).result
    ensures Authenticate(form, store1, bcrypt, salt).store == store1
  {
  }

  /** Unknown email with both names: exactly one row is added, under the
      email as typed, holding the digest and the default role. */
  lemma UnknownEmailCreatesOneUser(form: FormData, store: Store, bcrypt: Bcrypt, salt: Salt,
                                   email: string, password: string, first: string, last: string)
    requires Get(form, "email") == Some(Text(email)) && email != ""
    requires Get(form, "password") == Some(Text(password)) && password != ""
    requires Get(form, "firstName") == Some(Text(first))
    requires Get(form, "lastName") == Some(Text(last))
    requires email !in store
    ensures Authenticate(form, store, bcrypt, salt).store
              == store[email := User(email, Some(bcrypt.hash(password, salt)), first, last, ["USER"])]
    ensures |Authenticate(form, store, bcrypt, salt).store| == |store| + 1
    ensures Authenticate(form, store, bcrypt, salt).result
              == Ok(User(email, None, first, last, ["USER"]))
  {
  }

  /** Unknown email with a missing name: the strategy fails and creates
      nothing. */
  lemma UnknownEmailWithoutNamesFails(form: FormData, store: Store, bcrypt: Bcrypt, salt: Salt)
    requires CheckCredentials(form).Ok? && CheckCredentials(form).value.0 !in store
    requires Str(Get(form, "firstName")).None? || Str(Get(form, "lastName")).None?
    ensures Authenticate(form, store, bcrypt, salt).result.Err?
    ensures Authenticate(form, store, bcrypt, salt).result.error in {FirstNameNotString, LastNameNotString}
    ensures Authenticate(form, store, bcrypt, salt).store == store
  {
  }

  /** Known email: success exactly when `compare` accepts the password
      against the stored digest (or ""), and then the stored user comes
      back without its digest and the store is untouched. */
  lemma KnownEmail(form: FormData, store: Store, bcrypt: Bcrypt, salt: Salt)
    requires CheckCredentials(form).Ok? && CheckCredentials(form).value.0 in store
    ensures Authenticate(form, store, bcrypt, salt).store == store
    ensures (Authenticate(form, store, bcrypt, salt).result.Ok?
             <==> bcrypt.compare(CheckCredentials(form).value.1,
                                 StoredDigest(store[CheckCredentials(form).value.0])))
    ensures Authenticate(form, store, bcrypt, salt).result.Ok? ==>
              Authenticate(form, store, bcrypt, salt).result.value
                == Public(store[CheckCredentials(form).value.0])
    ensures Authenticate(form, store, bcrypt, salt).result.Err? ==>
              Authenticate(form, store, bcrypt, salt).result.error == InvalidPassword
              && forall build :: Message(Authenticate(form, store, bcrypt, salt).result.error, build) == "Invalid password"
  {
  }

  /** The strategy succeeds exactly when the inputs pass their invariants
      and either the email is unknown and both names are strings, or the
      email is known and `compare` accepts the password. */
  lemma AuthenticateOutcome(form: FormData, store: Store, bcrypt: Bcrypt, salt: Salt)
    ensures Authenticate(form, store, bcrypt, salt).result.Ok? <==>
              && CheckCredentials(form).Ok?
              && var (email, password) := CheckCredentials(form).value;
                 if email !in store
                 then Str(Get(form, "firstName")).Some? && Str(Get(form, "lastName")).Some?
                 else bcrypt.compare(password, StoredDigest(store[email]))
  {
  }

  /** In a development build the strategy's failures are told apart by
      their texts: two errors with the same message are the same error. */
  lemma MessageIdentifiesError(a: AuthError, b: AuthError)
    ensures Message(a, Development) == Message(b, Development) <==> a == b
  {
    var ma, mb := Message(a, Development), Message(b, Development);
    if ma == mb && a != InvalidPassword && b != InvalidPassword {
      assert ma[|InvariantPrefix + ": "|..] == InvariantMessage(a);
      assert mb[|InvariantPrefix + ": "|..] == InvariantMessage(b);
      InvariantMessageInjective(a, b);
    }
  }

  lemma InvariantMessageInjective(a: AuthError, b: AuthError)
    requires a != InvalidPassword && b != InvalidPassword
    ensures InvariantMessage(a) == InvariantMessage(b) ==> a == b
  {
    var x, y := InvariantMessage(a), InvariantMessage(b);
    if x == y {
      // the first letter and the length tell the six texts apart
      assert x[0] == y[0] && |x| == |y|;
    }
  }

  /** In a production build only the wrong password keeps a text of its
      own: every failed input invariant throws the same bare prefix. */
  lemma ProductionMessagesCollapse(a: AuthError, b: AuthError)
    ensures Message(a, Production) == Message(b, Production)
            <==> (a == InvalidPassword <==> b == InvalidPassword)
  {
  }

  /** A second authentication with the form that created a user is checked
      against the digest stored at creation: it succeeds exactly when
      `compare` accepts the password against `hash(password, salt)`, and
      then it returns the created user and adds nothing. */
  lemma ReturningUserChecksStoredDigest(form: FormData, store: Store, bcrypt: Bcrypt,
                                        salt1: Salt, salt2: Salt)
    requires CheckCredentials(form).Ok? && CheckCredentials(form).value.0 !in store
    requires Authenticate(form, store, bcrypt, salt1).result.Ok?
    ensures var s1 := Authenticate(form, store, bcrypt, salt1);
            var s2 := Authenticate(form, s1.store, bcrypt, salt2);
            var (email, password) := CheckCredentials(form).value;
            && StoredDigest(s1.store[email]) == bcrypt.hash(password, salt1)
            && (s2.result.Ok? <==> bcrypt.compare(password, bcrypt.hash(password, salt1)))
            && (s2.result.Ok? ==> s2.result == s1.result)
            && s2.store == s1.store
  {
    var (email, password) := CheckCredentials(form).value;
    var s1 := Authenticate(form, store, bcrypt, salt1);
    KnownEmail(form, s1.store, bcrypt, salt2);
  }
}
