# Password sign-up and login: a Dafny model

This project models the password authentication pipeline of a Remix starter
application. It covers three parts:

- **Form-field validation.** The sign-up schema has first name, last name,
  email, password and password confirmation. The login schema has email and
  password. Each field is required and has a length window. The email must
  pass a format check and is then lower-cased. Sign-up also checks that the
  two passwords match and that no user already has the email. Issues are
  gathered into the error map the form library returns.
- **The "form" credential strategy.** It checks its raw inputs. It then
  either creates the user, or verifies the password of the existing user.
  On success it hands back the user with the password digest removed.
- **Each route's action.** The action decides between three responses: an
  idle answer (200), an error answer (400, no cookie), or a redirect to `/`
  with a toast and a session holding the user and the strategy tag `"form"`.

Everything is pure. The user store is a `map` from email to user. The bcrypt
hash and compare functions and the email-format predicate are parameters that
the model never interprets. The hash takes an explicit salt. Lower-casing is
modelled concretely (ASCII letters), so its idempotence is proved rather than
assumed.

Modules: `Base` (options, results, form entries, lower-casing), `Users` (user
row, store, bcrypt), `Strategy` (`app/utils/auth.server.ts`), `Validation`
(field rules, issues, error map), `Http` (request, session record, responses),
`Signup` (`app/routes/_main._auth.signup.tsx`), `Login`
(`app/routes/_main._auth.login.tsx`).

## Behaviour of the code worth knowing (the model follows the code)

- Only the route schemas lower-case the email. The strategy reads the raw
  form, then looks up and stores the email as typed, although the schema's
  comment at `app/routes/_main._auth.signup.tsx:32` says the email is stored
  in lower case. The model keeps both values: `Signup.TypedEmail` is the raw
  email, and the schema value `SignupValue.email` is the lower-cased one. See
  "## Findings".
- Only login keeps the password out of its answers, by deleting it from the
  payload. The sign-up action returns the whole payload on idle and error
  answers, passwords included. `Signup.Action` states `payload == req.form`.
- In a development build the strategy's failures carry distinct texts
  (`Strategy.MessageIdentifiesError`). In a production build the invariant
  helper drops its message, so all six failed input checks throw the same
  "Invariant failed" and only a wrong password keeps its own text
  (`Strategy.ProductionMessagesCollapse`). Either way it is the login route
  that turns every failure into one message (`Login.FailureIsUniform`). On a strategy failure,
  sign-up answers 400 with the schema's error map, which holds no issue for
  this failure.
- A second identical sign-up is refused as a duplicate only when the email
  was typed in lower case (`Signup.LowercaseReplayIsDuplicate`). Otherwise
  the second sign-up signs the visitor in (`Signup.MixedCaseReplaySignsIn`).
- Login can also create a user. This happens when the form carries
  `firstName` and `lastName` for an unknown email
  (`Login.LoginCanCreateUser`).

## Model

| member | source | states |
|---|---|---|
| Base.Lower | app/routes/_main._auth.signup.tsx:33 | lower-casing keeps the length and maps every character to its lower-case form |
| Base.LowerFixes | app/routes/_main._auth.login.tsx:32 | a string is unchanged by lower-casing exactly when it contains no upper-case letter |
| Base.LowerIdempotent | app/routes/_main._auth.signup.tsx:32-33 | lower-casing twice gives the same as lower-casing once |
| Strategy.Message | app/utils/auth.server.ts:23-47 | in either build, "Invalid password" is the text of exactly the wrong-password failure; every failed input check throws a text that starts with "Invariant failed" |
| Strategy.MessageIdentifiesError | app/utils/auth.server.ts:23-47 | in a development build, two failures have the same text exactly when they are the same failure |
| Strategy.ProductionMessagesCollapse | app/utils/auth.server.ts:23-47 | in a production build, two failures have the same text exactly when both or neither are the wrong-password failure |
| Strategy.ReturningUserChecksStoredDigest | app/utils/auth.server.ts:35-49 | after the strategy creates a user, a second run with the same form compares the password against the digest stored at creation, `hash(password, salt)`; it succeeds exactly when that compare accepts, then returns the same user, and it never adds a row |
| Strategy.CheckCredentials | app/utils/auth.server.ts:23-27 | passes exactly when email and password are non-empty strings; the email is checked first, then the password |
| Strategy.Authenticate | app/utils/auth.server.ts:14-54 | a failure leaves the store unchanged; a success returns a user with no password; existing rows are never changed; the only row that can be added sits under the raw email |
| Strategy.BadEmailRejectedEarly | app/utils/auth.server.ts:23-24 | a missing, non-string or empty email fails in the same way whatever the store holds, and changes nothing |
| Strategy.BadPasswordRejectedEarly | app/utils/auth.server.ts:26-27 | a missing, non-string or empty password fails in the same way whatever the store holds, and changes nothing |
| Strategy.UnknownEmailCreatesOneUser | app/utils/auth.server.ts:30-44 | an unknown email with both names adds one row under the email as given, with the given names, the digest (not the plaintext) and `["USER"]`; the result is that row without its password |
| Strategy.UnknownEmailWithoutNamesFails | app/utils/auth.server.ts:31-33 | an unknown email with a missing name fails with a name error, and the store is unchanged |
| Strategy.KnownEmail | app/utils/auth.server.ts:45-49 | for a known email: success exactly when `compare(password, stored digest or "")` holds, and then the result is the stored user without its password; otherwise the error is "Invalid password"; the store is unchanged either way |
| Strategy.AuthenticateOutcome | app/utils/auth.server.ts:29-49 | success exactly when the inputs are valid and either the email is unknown with both names present, or it is known and the password compares equal |
| Validation.LengthMessages | app/routes/_main._auth.signup.tsx:34-37 | no message exactly inside the window; too short is reported below the minimum and too long above the maximum |
| Validation.ParseText | app/routes/_main._auth.signup.tsx:19-26 | an absent or empty field gets the required message, and a non-string gets the library's type message; a string field passes exactly when its length is inside the window |
| Validation.ParseEmail | app/routes/_main._auth.signup.tsx:27-33 | the email passes exactly when it is well-formed and its length is inside the window, and then its value is the lower-cased input; otherwise the value stays raw and the format message is reported first |
| Validation.FieldIssues | app/routes/_main._auth.signup.tsx:17-42 | a field adds no issue exactly when it passes; each issue it adds carries that field's path and one failed check's message |
| Validation.Collect | app/routes/_main._auth.login.tsx:42-64 | folding issues into a map gives each path the map's earlier messages followed by that path's messages in issue order |
| Validation.ErrorMap | app/routes/_main._auth.signup.tsx:55-71 | the error map's keys are exactly the paths that carry an issue, and each key holds that path's messages in order |
| Validation.MessageFiled | app/routes/_main._auth.login.tsx:42-64 | every issue's message appears in the error map under its path |
| Validation.ErrorMapSingle | app/routes/_main._auth.login.tsx:54-57 | a single form-level issue gives exactly the map `{"": [message]}` |
| Http.SignIn | app/routes/_main._auth.signup.tsx:88-93 | the session afterwards is signed in as the user, with strategy tag "form", and keeps every other entry of the incoming session |
| Signup.CheckFields | app/routes/_main._auth.signup.tsx:17-42 | the refinements run exactly when all five fields hold non-empty strings |
| Signup.FieldsValidity | app/routes/_main._auth.signup.tsx:17-42 | all five field checks pass exactly when every field is inside its window and the email is well-formed; the field values are then the typed values, with the email lower-cased |
| Signup.Parse | app/routes/_main._auth.signup.tsx:55-71 | a value exists exactly when there are no issues, which happens exactly when every field passes, the passwords match and the lower-cased email is not in the store; the value holds the typed fields with the email lower-cased |
| Signup.RefinementIssues | app/routes/_main._auth.signup.tsx:43-68 | once no field has failed hard, the issues are the field issues, then the mismatch issue, then the email-taken issue |
| Signup.MismatchIssue | app/routes/_main._auth.signup.tsx:43-50 | the form-level issue "The passwords did not match" appears exactly when all five fields hold non-empty strings and the two passwords differ; a missing field stops the object before the refinement runs |
| Signup.TakenIssue | app/routes/_main._auth.signup.tsx:56-68 | "A user already exists with this email" appears on the email path exactly when no field failed hard and the store holds the email that was looked up |
| Signup.TakenIssueValidEmail | app/routes/_main._auth.signup.tsx:57-58 | when the email passed its checks, the uniqueness lookup uses the lower-cased email |
| Signup.ValidatedEmailIsLowerCase | app/routes/_main._auth.signup.tsx:32-33 | the validated email is lower case and a fixed point of lower-casing |
| Signup.Action | app/routes/_main._auth.signup.tsx:52-107 | a non-"submit" intent answers 200 whatever the validity; a rejected submission answers 400 with no session; idle and error answers leave the store unchanged and echo the raw payload; a redirect happens exactly on submit with a valid form and a strategy success, and then goes to "/" with "Your account has been created!", a session holding the password-less user and "form", and the strategy's store |
| Signup.RejectedNeverAuthenticates | app/routes/_main._auth.signup.tsx:76-78 | a submission the schema rejects gets the same 400 answer whatever bcrypt and the salt do, so the strategy is never consulted |
| Signup.PasswordBoundaries | app/routes/_main._auth.signup.tsx:34-41 | a password of length 5 gets "Password is too short"; lengths 6 and 100 pass; length 101 gets "Password is too long" |
| Signup.NameBoundaries | app/routes/_main._auth.signup.tsx:19-26 | a name of length 2 is too short; lengths 3 and 100 pass; length 101 is too long; an absent or empty name is required |
| Signup.SignupStoresTypedEmail | app/routes/_main._auth.signup.tsx:80-84 | a successful sign-up passed the check on the lower-cased email; it either created one row under the email as typed, with the digest, or signed in to a row already under the typed email and changed nothing |
| Signup.LowercaseReplayIsDuplicate | app/routes/_main._auth.signup.tsx:56-68 | when the email is typed in lower case, repeating a successful sign-up is refused with the email-taken issue and creates nothing |
| Signup.MixedCaseReplaySignsIn | app/routes/_main._auth.signup.tsx:56-84 | when the email is typed in mixed case, repeating a successful sign-up passes the uniqueness check and signs in to the first row, without being refused |
| Signup.MixedCaseScenario | app/routes/_main._auth.signup.tsx:32-33 | signing up "test@Test.com" on an empty store creates the row under "test@Test.com", and nothing under its lower-cased form |
| Signup.ActionNormalised | app/routes/_main._auth.signup.tsx:32-33 | corrected action: the strategy receives the lower-cased email; every row that sign-up adds sits under a lower-case email; idle and error answers leave the store unchanged; a redirect goes to "/" with the creation toast and a session holding a password-less user and "form" |
| Signup.NormalisedOutcome | app/routes/_main._auth.signup.tsx:73-106 | the corrected action's idle and error answers carry the raw payload, the schema's error map and its value, as the action as written does; it redirects exactly on submit with an accepted form and a strategy success on the lower-cased email |
| Signup.NormalisedReplayIsDuplicate | app/routes/_main._auth.signup.tsx:56-68 | with the corrected action, repeating a successful sign-up in any case is refused with the email-taken issue, and the lower-cased email is in the store |
| Login.FieldIssuesOf | app/routes/_main._auth.login.tsx:25-37 | the login fields add no issue exactly when the email is well-formed and 3..100 long and the password is 6..100 long |
| Login.Parse | app/routes/_main._auth.login.tsx:42-64 | the strategy runs only on "submit" with valid fields, and on the raw form; other intents get session null and leave the store unchanged; a strategy failure gives exactly one form-level issue, "Invalid username or password", and no value |
| Login.Action | app/routes/_main._auth.login.tsx:39-93 | no idle or error answer carries the password, in the payload or in the value; a non-"submit" intent answers 200 and changes nothing; an error answer has no value and changes nothing; a redirect happens exactly on submit with valid fields and a strategy success, and then goes to "/" with "Welcome!" and a session holding the strategy's user and "form" |
| Login.FailureIsUniform | app/routes/_main._auth.login.tsx:48-58 | any strategy failure gives the same 400 answer: the payload without the password, the error map `{"": ["Invalid username or password"]}`, no value, and the store unchanged |
| Login.NoEnumeration | app/routes/_main._auth.login.tsx:53-57 | two failed logins with the same form answer identically, whatever the store, the bcrypt functions or the cause of failure |
| Login.ShortPasswordRejected | app/routes/_main._auth.login.tsx:33-36 | a password shorter than 6 puts "Password is too short" under "password" in the error map, and the store is unchanged |
| Login.LoginCanCreateUser | app/routes/_main._auth.login.tsx:49-52 | an unknown email with both names in the form creates one user through login and redirects |

## Left out

- bcrypt internals (`app/utils/auth.server.ts:35,46`). `hash` and `compare` are uninterpreted parameters, and the cost factor 10 is not modelled. Nothing assumes that `compare(p, hash(p, s))` holds. The lemma that needs it, `Signup.MixedCaseReplaySignsIn`, takes it as a precondition.
- The email format check. Its regular expression belongs to the schema library, so it is an uninterpreted predicate `isEmail`.
- Base.Lower: it case-folds only the ASCII letters, not all of Unicode, because the full Unicode tables are library data. Under full Unicode, some letters change length when lower-cased. The model's lower-casing always keeps the length.
- Validation.LengthMessages: lengths count Unicode characters (`|s|`), while the schema library counts UTF-16 code units (JavaScript's `.length`). A character outside the Basic Multilingual Plane, such as an emoji, counts once here and twice in the source, so the model accepts some names, emails and passwords that the source reports as too long. The same holds for `Validation.ParseText`, `Validation.ParseEmail`, `Signup.PasswordBoundaries` and `Signup.NameBoundaries`. Encoding strings as UTF-16 would add a layer nothing else in the model needs.
- The database. The user table is a `map` keyed by email, matched exactly. The source looks a user up by the `email` column. The two agree when every row sits under its own email (`Users.WellKeyed`). `Strategy.Authenticate` preserves that property but does not require it, so on a store that breaks it the model's lookup by key can differ from the source's lookup by column. Row ids, timestamps, the image column and the role enum type are not modelled; roles are strings. Storage-level uniqueness and races between requests are concurrency and are left out.
- Session cookie signing, serialisation and expiry, `commitSession`, and the toast cookie that `redirectWithToast` writes. These are not part of this model. The session is a key-value record and the toast is its description string. A redirect's status is the framework's default, 302.
- Form-library internals. The intent is given as a field of the request rather than read from the form. Multi-valued fields and nested payloads are not modelled. The coercion of `""` to absent and the error-map fold are modelled as the library documents them.
- Strategy.MessageIdentifiesError: holds only for a development build. In a production build the six failed input checks all throw "Invariant failed", and only `InvalidPassword` keeps a distinct text (`Strategy.ProductionMessagesCollapse`). Both routes discard the text anyway.
- Asynchrony and exceptions. Awaits are sequential steps, and a thrown error is a `Result.Err`.
- Everything else: the React components of both routes, the layouts, navigation, `app/root.tsx` (loader, i18n, toasts, logout), seeds, factories, tests and build configuration.

## Findings

| source | as written | input that shows it | evidently intended | confidence | as-written member | corrected member |
|---|---|---|---|---|---|---|
| app/routes/_main._auth.signup.tsx:80-84 | The schema lower-cases the email and checks uniqueness on the lower-cased value. The strategy then receives the raw form, so it looks up and stores the email as typed. | Sign up with email "test@Test.com" (other fields valid) on an empty store. The row is stored under "test@Test.com". Submitting the same form again passes the uniqueness check and signs in, instead of being refused. | Store the lower-cased email, as the comment at line 32 says, so that a repeat sign-up is refused as a duplicate. | not executed; high | Signup.MixedCaseReplaySignsIn | Signup.ActionNormalised |

`Signup.MixedCaseScenario` exhibits the concrete input. `Signup.NormalisedReplayIsDuplicate` proves the intended property of the corrected action. `Signup.Action` stays the model of the route as it is written. `Login.Action` also passes the raw email to the strategy, so it finds only rows stored under exactly the typed email.
