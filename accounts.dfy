/**
 * Users, the request and response shapes, and the user repository that
 * both account services write through. The password encoder is a function
 * parameter: BCrypt itself is not part of this model.
 */
module Accounts {
  import opened Wrappers

  datatype Role = USER | ADMIN

  datatype User = User(firstname: string, lastname: string, email: string, password: string,
                       role: Role, enabled: bool, locked: bool)

  /** A registration form; the role may be left null. */
  datatype RegisterRequest = RegisterRequest(firstname: string, lastname: string, email: string,
                                             password: string, role: Option<Role>)

  datatype AuthenticationRequest = AuthenticationRequest(email: string, password: string)

  /** The credential a response carries: a JWT from the API service, a session id from the web service. */
  datatype Credential = Bearer(token: string) | Session(sessionId: string)

  datatype AuthenticationResponse = AuthenticationResponse(credential: Credential, email: string,
                                                           firstname: string, lastname: string, role: Role)

  /**
   * `IllegalArgumentException` for a taken email, the authentication
   * manager's rejection of the credentials, `UsernameNotFoundException`.
   */
  datatype AccountError = DuplicateEmail(message: string) | BadCredentials | UserNotFound

  function DuplicateEmailMessage(email: string): string
  {
    "User with email " + email + " already exists"
  }

  /** The entity `createUserAccount` builds from a form, before it is saved. */
  function NewAccount(request: RegisterRequest, encode: string -> string): User
  {
    User(request.firstname, request.lastname, request.email, encode(request.password),
         if request.role.Some? then request.role.value else USER, true, false)
  }

  /** The response both services build: the credential and the user's own fields. */
  function ResponseFor(credential: Credential, user: User): AuthenticationResponse
  {
    AuthenticationResponse(credential, user.email, user.firstname, user.lastname, user.role)
  }

  /** `UserRepository`: users keyed by their email. */
  class UserRepository {
    var users: map<string, User>

    ghost predicate Valid()
      reads this
    {
      forall email | email in users :: users[email].email == email
    }

    constructor (users0: map<string, User>)
      requires forall email | email in users0 :: users0[email].email == email
      ensures Valid() && users == users0
    {
      users := users0;
    }

    /** `existsByEmail` */
    function ExistsByEmail(email: string): (b: bool)
      reads this
      requires Valid()
      ensures b <==> FindByEmail(email).Some?
    {
      email in users
    }

    /** `findByEmail` */
    function FindByEmail(email: string): (r: Option<User>)
      reads this
      requires Valid()
      ensures r.Some? ==> r.value.email == email && r.value in users.Values
    {
      if email in users then Some(users[email]) else None
    }

    /** `save`: the row for the user's email becomes this user. */
    method Save(user: User) returns (saved: User)
      requires Valid()
      modifies this
      ensures Valid()
      ensures saved == user
      ensures users == old(users)[user.email := user]
    {
      users := users[user.email := user];
      saved := user;
    }
  }

  /** `userExists`: exactly `existsByEmail`. */
  function UserExists(repository: UserRepository, email: string): (b: bool)
    reads repository
    requires repository.Valid()
    ensures b <==> email in repository.users
  {
    repository.ExistsByEmail(email)
  }

  /**
   * `createUserAccount`: saves a user holding the encoded password, the
   * requested role or `USER`, enabled and unlocked. It checks nothing:
   * an existing row with the same email is replaced.
   */
  method CreateUserAccount(repository: UserRepository, request: RegisterRequest, encode: string -> string) returns (user: User)
    requires repository.Valid()
    modifies repository
    ensures repository.Valid()
    ensures user.email == request.email && user.firstname == request.firstname && user.lastname == request.lastname
    ensures user.password == encode(request.password)
    ensures user.role == (if request.role.Some? then request.role.value else USER)
    ensures user.enabled && !user.locked
    ensures repository.users == old(repository.users)[request.email := user]
  {
    user := repository.Save(NewAccount(request, encode));
  }
}
