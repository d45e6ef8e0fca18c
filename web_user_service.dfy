/**
 * `WebUserServiceImpl`: the account service of the browser pipeline. It
 * issues session ids through the registry. `credentialsOk` stands for the
 * authentication manager (true when `authenticate` returns, false when it
 * throws) and `encode` for the password encoder.
 */
module WebUserService {
  import opened Wrappers
  import opened Accounts
  import Base64
  import opened SessionStore

  /**
   * `register`: a taken email is refused before anything is saved or any
   * session is created; otherwise the account is created, a session is
   * registered for its email, and the response carries that session id.
   */
  method Register(repository: UserRepository, registry: SessionRegistry, request: RegisterRequest,
                  encode: string -> string, uuid: string, storeUp: bool)
    returns (r: Result<AuthenticationResponse, AccountError>)
    requires repository.Valid() && registry.Valid()
    requires Base64.IsUuidText(uuid)
    modifies repository, registry
    ensures repository.Valid() && registry.Valid()
    ensures request.email in old(repository.users) ==>
      && r == Failure(DuplicateEmail(DuplicateEmailMessage(request.email)))
      && repository.users == old(repository.users)
      && registry.State() == old(registry.State())
    ensures request.email !in old(repository.users) ==>
      var user := NewAccount(request, encode);
      var id := Base64.SessionIdOf(uuid);
      && repository.users == old(repository.users)[request.email := user]
      && registry.State() == AfterRegister(old(registry.State()), id, request.email, storeUp)
      && Resolve(registry.State(), id, storeUp) == Some(request.email)
      && r == Success(ResponseFor(Session(id), user))
  {
    if UserExists(repository, request.email) {
      return Failure(DuplicateEmail(DuplicateEmailMessage(request.email)));
    }
    var user := CreateUserAccount(repository, request, encode);
    var sessionId := registry.RegisterSession(Some(user.email), uuid, storeUp);
    ResolveAfterRegister(old(registry.State()), sessionId.value, user.email, storeUp);
    return Success(ResponseFor(Session(sessionId.value), user));
  }

  /**
   * `authenticate`: rejected credentials escape before the repository is
   * read; a user missing after a successful check gives `UserNotFound`; in
   * both cases no session is created. Otherwise one session is registered
   * for the stored user's email.
   */
  method Authenticate(repository: UserRepository, registry: SessionRegistry, request: AuthenticationRequest,
                      credentialsOk: (string, string) -> bool, uuid: string, storeUp: bool)
    returns (r: Result<AuthenticationResponse, AccountError>)
    requires repository.Valid() && registry.Valid()
    requires Base64.IsUuidText(uuid)
    modifies registry
    ensures registry.Valid()
    ensures !credentialsOk(request.email, request.password) ==>
      r == Failure(BadCredentials) && registry.State() == old(registry.State())
    ensures credentialsOk(request.email, request.password) && request.email !in repository.users ==>
      r == Failure(UserNotFound) && registry.State() == old(registry.State())
    ensures credentialsOk(request.email, request.password) && request.email in repository.users ==>
      var user := repository.users[request.email];
      var id := Base64.SessionIdOf(uuid);
      && registry.State() == AfterRegister(old(registry.State()), id, user.email, storeUp)
      && r == Success(ResponseFor(Session(id), user))
  {
    if !credentialsOk(request.email, request.password) {
      return Failure(BadCredentials);
    }
    var found := repository.FindByEmail(request.email);
    if found.None? {
      return Failure(UserNotFound);
    }
    var user := found.value;
    var sessionId := registry.RegisterSession(Some(user.email), uuid, storeUp);
    return Success(ResponseFor(Session(sessionId.value), user));
  }
}
