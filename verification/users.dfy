/** The user record, the user store that the database provides, and the
    password hashing library, as the credential strategy sees them. */
module Users {
  import opened Base

  /** A user row. `password` holds the bcrypt digest, or is null; the
      strategy nulls it before handing a user to anyone. */
  datatype User = User(
    email: string,
    password: Option<string>,
    firstName: string,
    lastName: string,
    roles: seq<string>)

  /** The role every newly created user receives. */
  const DefaultRole: string := "USER"

  /** The user table, keyed by the email column exactly as stored. */
  type Store = map<string, User>

  /** Every row sits under its own email. */
  predicate WellKeyed(store: Store) {
    forall e :: e in store ==> store[e].email == e
  }

  /** The random salt bcrypt draws for one hash. */
  type Salt = nat

  /** bcrypt: `hash(plaintext, salt)` and `compare(plaintext, digest)`, left
      uninterpreted; nothing is assumed about how they relate. */
  datatype Bcrypt = Bcrypt(
    hash: (string, Salt) -> string,
    compare: (string, string) -> bool)

  /** The record handed out after `user.password = null`. */
  function Public(u: User): (r: User)
    ensures r.password == None
    ensures r.email == u.email && r.firstName == u.firstName
    ensures r.lastName == u.lastName && r.roles == u.roles
  {
    u.(password := None)
  }
}
