/** What a route action receives and returns: the request, the session
    record, the form-library submission echoed back, and the three kinds of
    response the auth routes produce. */
module Http {
  import opened Base
  import opened Users

  /** A value stored in the cookie session. */
  datatype SessionValue = UserValue(user: User) | TextValue(text: string)

  /** The session the cookie carries, as a key-value record. */
  type Session = map<string, SessionValue>

  /** The authenticator's session keys (the authentication library's
      defaults) and the name the credential strategy is registered under. */
  const SessionKey: string := "user"
  const StrategyKey: string := "strategy"
  const FormStrategyName: string := "form"

  /** Where a successful sign-up or login redirects. */
  const Home: string := "/"

  /** The intent that marks a final submission. */
  const SubmitIntent: string := "submit"

  /** The user a session is signed in as, read the way the authenticator
      reads it. */
  function SignedInUser(session: Session): (r: Option<User>)
    ensures r.Some? <==> SessionKey in session && session[SessionKey].UserValue?
  {
    if SessionKey in session && session[SessionKey].UserValue?
    then Some(session[SessionKey].user) else None
  }

  /** The strategy tag a session carries, if any. */
  function SignedInWith(session: Session): (r: Option<string>)
    ensures r.Some? <==> StrategyKey in session && session[StrategyKey].TextValue?
  {
    if StrategyKey in session && session[StrategyKey].TextValue?
    then Some(session[StrategyKey].text) else None
  }

  /** Put the user under the session key and "form" under the strategy key;
      every other entry of the incoming session is kept. */
  function SignIn(session: Session, user: User): (r: Session)
    ensures r.Keys == session.Keys + {SessionKey, StrategyKey}
    ensures forall k :: k in session && k != SessionKey && k != StrategyKey ==> r[k] == session[k]
    ensures SignedInUser(r) == Some(user)
    ensures SignedInWith(r) == Some(FormStrategyName)
  {
    session[SessionKey := UserValue(user)][StrategyKey := TextValue(FormStrategyName)]
  }

  /** One POST to an auth route. `intent` is the submission intent the form
      library reads from the form ("submit" unless the form says otherwise);
      `session` is what the incoming cookie holds. */
  datatype Request = Request(form: FormData, intent: string, session: Session)

  /** The form library's report: the intent, the fields as received
      (`payload`), the error map, and the validated value when there is no
      issue. */
  datatype Submission<V> = Submission(
    intent: string,
    payload: FormData,
    error: map<string, seq<string>>,
    value: Option<V>)

  /** The three outcomes of an auth action. `Error` carries no session: no
      cookie is set on it. */
  datatype Response<V> =
    | Idle(submission: Submission<V>)
    | Error(submission: Submission<V>)
    | Redirect(location: string, toast: string, session: Session)

  /** The HTTP status of a response. A redirect uses the framework's default
      redirect status. */
  function Status<V>(r: Response<V>): (code: int)
    ensures r.Idle? <==> code == 200
    ensures r.Error? <==> code == 400
    ensures r.Redirect? <==> code == 302
  {
    match r
    case Idle(_) => 200
    case Error(_) => 400
    case Redirect(_, _, _) => 302
  }

  /** A response together with the user store after the request. */
  datatype Handled<V> = Handled(response: Response<V>, store: Store)
}
