/**
 * `UserServiceImpl`: the account service of the API pipeline. It issues a
 * JWT and holds no session state: it is given no registry at all.
 * `generateToken` stands for the JWT service.
 */
module JwtUserService {
  import opened Wrappers
  import opened Accounts

  /**
   * `register`: a taken email is refused with nothing saved and no token
   * made; otherwise the new account is saved and the response carries
   * `generateToken` of the saved user.
   */
  method Register(repository: UserRepository, request: RegisterRequest,
                  encode: string -> string, generateToken: User -> string)
    returns (r: Result<AuthenticationResponse, AccountError>)
    requires repository.Valid()
    modifies repository
    ensures repository.Valid()
    ensures request.email in old(repository.users) ==>
      r == Failure(DuplicateEmail(DuplicateEmailMessage(request.email))) && repository.users == old(repository.users)
    ensures request.email !in old(repository.users) ==>
      var user := NewAccount(request, encode);
      && repository.users == old(repository.users)[request.email := user]
      && r == Success(ResponseFor(Bearer(generateToken(user)), user))
  {
    if UserExists(repository, request.email) {
      return Failure(DuplicateEmail(DuplicateEmailMessage(request.email)));
    }
    var user := CreateUserAccount(repository, request, encode);
    return Success(ResponseFor(Bearer(generateToken(user)), user));
  }

  /**
   * `authenticate`: reads the repository only. A rejected check escapes
   * before the lookup; a missing user gives `UserNotFound`; only a found
   * user gets a token, and the response is a bearer token for that user.
   */
  method Authenticate(repository: UserRepository, request: AuthenticationRequest,
                      credentialsOk: (string, string) -> bool, generateToken: User -> string)
    returns (r: Result<AuthenticationResponse, AccountError>)
    requires repository.Valid()
    ensures !credentialsOk(request.email, request.password) ==> r == Failure(BadCredentials)
    ensures credentialsOk(request.email, request.password) ==> (r.Success? <==> request.email in repository.users)
    ensures credentialsOk(request.email, request.password) && request.email !in repository.users ==> r == Failure(UserNotFound)
    ensures r.Success? ==>
      var user := repository.users[request.email];
      r.value == ResponseFor(Bearer(generateToken(user)), user) && r.value.email == request.email
  {
    if !credentialsOk(request.email, request.password) {
      return Failure(BadCredentials);
    }
    var found := repository.FindByEmail(request.email);
    if found.None? {
      return Failure(UserNotFound);
    }
    var user := found.value;
    return Success(ResponseFor(Bearer(generateToken(user)), user));
  }
}
