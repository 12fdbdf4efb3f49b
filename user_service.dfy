/**
 * The user application service: profile visibility, administration of
 * accounts, registration, password login with access and refresh tokens,
 * token refresh and logout.
 */
module UserService {
  import opened Wrappers
  import opened Primitives
  import opened Text
  import Query
  import opened UserEntities
  import opened DbContext
  import Repo = UserRepository

  datatype ServiceError = Unauthorized(message: string) | InvalidOperation(message: string) | Db(error: DbError)

  const SecondsPerHour: int := 3600

  /**
   * Password hashing. `hash` stands for the BCrypt hash one call computes (the
   * random salt included); `verify` for `BCrypt.Verify`.
   */
  datatype Crypto = Crypto(hash: string -> string, verify: (string, string) -> bool)

  /** A password always verifies against its own hash. */
  ghost predicate Sound(crypto: Crypto)
  {
    forall password :: crypto.verify(password, crypto.hash(password))
  }

  /** The token service: the access token issued for a user and the next random refresh token. */
  datatype Tokens = Tokens(accessToken: User -> string, refreshToken: string)

  datatype UserDto = UserDto(
    id: Guid, email: string, firstName: string, lastName: string, role: string, status: string,
    createdAt: DateTime, updatedAt: DateTime, lastLoginAt: Option<DateTime>,
    fullName: string, isAdmin: bool, isActive: bool)

  function MapToDto(u: User): UserDto
  {
    UserDto(u.id, u.email, u.firstName, u.lastName, u.role, u.status, u.createdAt, u.updatedAt, u.lastLoginAt,
            u.FullName(), u.IsAdmin(), u.IsActive())
  }

  /** A user DTO's computed fields agree with its own columns; the hash and tokens never leave the service. */
  lemma DtoConsistent(u: User)
    ensures var d := MapToDto(u);
            && d.id == u.id && d.email == u.email
            && d.fullName == d.firstName + " " + d.lastName
            && (d.isAdmin <==> d.role == "admin")
            && (d.isActive <==> d.status == "active")
  {
  }

  function MapAll(us: seq<User>): (r: seq<UserDto>)
    ensures |r| == |us| && forall i :: 0 <= i < |us| ==> r[i] == MapToDto(us[i])
  {
    seq(|us|, i requires 0 <= i < |us| => MapToDto(us[i]))
  }

  // ---------------------------------------------------------------------------
  // Profiles

  /** Administrators see every profile, anybody else only their own, anonymous callers none. */
  function GetByIdAsync(us: seq<User>, id: Guid, currentUser: Option<User>): (r: Option<UserDto>)
    ensures r.Some? <==> Repo.GetByIdAsync(us, id).Some? && currentUser.Some? &&
                         (currentUser.value.IsAdmin() || currentUser.value.id == id)
    ensures r.Some? ==> r.value == MapToDto(Repo.GetByIdAsync(us, id).value) && r.value.id == id
  {
    match Repo.GetByIdAsync(us, id)
    case None => None
    case Some(u) =>
      if currentUser.None? || (!currentUser.value.IsAdmin() && currentUser.value.id != id) then None
      else Some(MapToDto(u))
  }

  /**
   * The lookup ignores case but the ownership test does not: a caller who is not
   * an administrator sees a profile only when asking with exactly their own address.
   */
  function GetByEmailAsync(us: seq<User>, email: string, currentUser: Option<User>): (r: Option<UserDto>)
    ensures r.Some? <==> Repo.GetByEmailAsync(us, email).Some? && currentUser.Some? &&
                         (currentUser.value.IsAdmin() || currentUser.value.email == email)
    ensures r.Some? ==> r.value == MapToDto(Repo.GetByEmailAsync(us, email).value) &&
                        EqualsIgnoreCase(r.value.email, email)
  {
    match Repo.GetByEmailAsync(us, email)
    case None => None
    case Some(u) =>
      if currentUser.None? || (!currentUser.value.IsAdmin() && currentUser.value.email != email) then None
      else Some(MapToDto(u))
  }

  /** Asking for one's own profile in other letter case finds nothing unless one is an administrator. */
  lemma OwnEmailOtherCaseHidden(us: seq<User>, me: User)
    requires !me.IsAdmin() && me.email != ToLower(me.email)
    ensures GetByEmailAsync(us, ToLower(me.email), Some(me)).None?
    ensures GetByEmailAsync(us, me.email, Some(me)).Some? <==> Repo.GetByEmailAsync(us, me.email).Some?
  {
  }

  // ---------------------------------------------------------------------------
  // Search and count

  /** The search request and its defaults: sort by "createdat", newest first, page 1 of 20. */
  datatype UserSearchRequest = UserSearchRequest(
    search: Option<string>, role: Option<string>, status: Option<string>,
    createdFrom: Option<DateTime>, createdTo: Option<DateTime>, sortBy: Option<string>, sortDescending: bool,
    page: int, pageSize: int)

  const DefaultSearchRequest := UserSearchRequest(None, None, None, None, None, Some("createdat"), true, 1, 20)

  datatype UserSearchResponse = UserSearchResponse(
    users: seq<UserDto>, totalCount: nat, page: int, pageSize: int, totalPages: Option<int>)

  predicate IsAdminCaller(currentUser: Option<User>)
  {
    currentUser.Some? && currentUser.value.IsAdmin()
  }

  function SearchCriteria(request: UserSearchRequest): Repo.UserSearchCriteria
  {
    Repo.UserSearchCriteria(request.search, request.role, request.status, request.createdFrom, request.createdTo,
                            request.sortBy, request.sortDescending)
  }

  /** Administrators only; the response pages the repository search and counts its pages. */
  function SearchAsync(us: seq<User>, request: UserSearchRequest, currentUser: Option<User>)
    : (r: Result<UserSearchResponse, ServiceError>)
    ensures r.Err? <==> !IsAdminCaller(currentUser)
    ensures r.Err? ==> r.error == Unauthorized("Only admins can search users")
    ensures r.Ok? ==>
              var c := SearchCriteria(request);
              && (exists res :: Query.IsPageOfOrdering(res, Repo.Filtered(us, c), Repo.SearchKey(c), c.sortDescending,
                                                       request.page, request.pageSize) &&
                                r.value.users == MapAll(res.items) && r.value.totalCount == res.totalCount)
              && r.value.page == request.page && r.value.pageSize == request.pageSize
              && r.value.totalPages == Query.TotalPages(r.value.totalCount, request.pageSize)
  {
    if !IsAdminCaller(currentUser) then Err(Unauthorized("Only admins can search users"))
    else
      var res := Repo.SearchAsync(us, SearchCriteria(request), request.page, request.pageSize);
      Ok(UserSearchResponse(MapAll(res.items), res.totalCount, request.page, request.pageSize,
                            Query.TotalPages(res.totalCount, request.pageSize)))
  }

  /** Administrators only; the filters of the request without its sort, or no criteria at all. */
  function GetUserCountAsync(us: seq<User>, request: Option<UserSearchRequest>, currentUser: Option<User>)
    : (r: Result<nat, ServiceError>)
    ensures r.Err? <==> !IsAdminCaller(currentUser)
    ensures r.Err? ==> r.error == Unauthorized("Only admins can get user count")
    ensures r.Ok? && request.None? ==> r.value == |us|
  {
    if !IsAdminCaller(currentUser) then Err(Unauthorized("Only admins can get user count"))
    else if request.None? then Ok(Repo.GetCountAsync(us, None))
    else Ok(Repo.GetCountAsync(us, Some(SearchCriteria(request.value).(sortBy := None, sortDescending := true))))
  }

  /** For an administrator the count for a request is the total of the search for it. */
  lemma CountAgreesWithSearch(us: seq<User>, request: UserSearchRequest, currentUser: Option<User>)
    requires IsAdminCaller(currentUser)
    ensures GetUserCountAsync(us, Some(request), currentUser).value == SearchAsync(us, request, currentUser).value.totalCount
  {
    var c := SearchCriteria(request);
    Repo.CountMatchesSearch(us, c, request.page, request.pageSize);
  }

  // ---------------------------------------------------------------------------
  // Registration

  /** The registration request; `role` defaults to "customer". */
  datatype CreateUserRequest = CreateUserRequest(email: string, password: string, firstName: string, lastName: string,
                                                 role: string)

  /** The account `CreateAsync` builds: active, the role as requested, the password hashed. */
  function NewAccount(request: CreateUserRequest, crypto: Crypto, id: Guid, now: DateTime): (u: User)
    ensures u.id == id && u.email == request.email && u.role == request.role && u.IsActive()
    ensures u.passwordHash == crypto.hash(request.password)
    ensures u.createdAt == now && u.updatedAt == now && u.lastLoginAt.None? && u.refreshToken.None?
  {
    User(id, request.email, crypto.hash(request.password), request.firstName, request.lastName, request.role, "active",
         now, now, None, None, None, false, None, None)
  }

  /**
   * `CreateAsync`: refuses an address any stored one equals ignoring case, so the
   * save can fail only on the drawn id `newId`.
   */
  method CreateAsync(db: Database, request: CreateUserRequest, crypto: Crypto, newId: Guid, now: DateTime)
    returns (r: Result<UserDto, ServiceError>)
    requires db.Valid()
    modifies db`users
    ensures Repo.ExistsByEmailAsync(old(db.users), request.email) ==>
              r == Err(InvalidOperation("User with email '" + request.email + "' already exists"))
    ensures !Repo.ExistsByEmailAsync(old(db.users), request.email) ==> (r.Ok? <==> newId !in UserIds(old(db.users)))
    ensures r.Ok? ==> r.value == MapToDto(NewAccount(request, crypto, newId, now)) &&
                      db.users == old(db.users) + [NewAccount(request, crypto, newId, now)]
    ensures r.Err? ==> db.users == old(db.users)
    ensures db.Valid()
    ensures Repo.EmailsDistinctIgnoringCase(old(db.users)) ==> Repo.EmailsDistinctIgnoringCase(db.users)
  {
    if Repo.ExistsByEmailAsync(db.users, request.email) {
      return Err(InvalidOperation("User with email '" + request.email + "' already exists"));
    }
    var user := NewAccount(request, crypto, newId, now);
    ghost var before := db.users;
    UserKeyPresent(before, newId);
    AppendKeepsEmailsDistinct(before, user);
    var saved := Repo.AddAsync(db, user);
    match saved {
      case Ok(u) => r := Ok(MapToDto(u));
      case Err(e) => r := Err(Db(e));
    }
  }

  lemma UserKeyPresent(us: seq<User>, id: Guid)
    ensures id in UserIds(us) <==> exists i :: 0 <= i < |us| && us[i].id == id
  {
    if id in UserIds(us) {
      var u :| u in us && u.id == id;
      var i :| 0 <= i < |us| && us[i] == u;
    }
  }

  /** An account whose address no stored one matches, ignoring case, keeps the addresses distinct. */
  lemma AppendKeepsEmailsDistinct(us: seq<User>, user: User)
    requires !Repo.ExistsByEmailAsync(us, user.email)
    ensures Repo.EmailsDistinctIgnoringCase(us) ==> Repo.EmailsDistinctIgnoringCase(us + [user])
  {
    if Repo.EmailsDistinctIgnoringCase(us) {
      var r := us + [user];
      forall i, j | 0 <= i < j < |r| ensures !EqualsIgnoreCase(r[i].email, r[j].email) {
        if j == |us| {
          assert r[i] == us[i] && r[j] == user;
        } else {
          assert r[i] == us[i] && r[j] == us[j];
        }
      }
    }
  }

  // ---------------------------------------------------------------------------
  // Update and delete

  datatype UpdateUserRequest = UpdateUserRequest(
    firstName: Option<string>, lastName: Option<string>, role: Option<string>, status: Option<string>)

  /** Each non-empty field overwrites the stored one. */
  function ApplyUpdate(u: User, request: UpdateUserRequest, now: DateTime): User
  {
    u.(firstName := if IsNullOrEmpty(request.firstName) then u.firstName else request.firstName.value,
       lastName := if IsNullOrEmpty(request.lastName) then u.lastName else request.lastName.value,
       role := if IsNullOrEmpty(request.role) then u.role else request.role.value,
       status := if IsNullOrEmpty(request.status) then u.status else request.status.value,
       updatedAt := now)
  }

  /** An update keeps the id, address, password and tokens; empty or missing fields keep their values. */
  lemma UpdateKeepsAccount(u: User, request: UpdateUserRequest, now: DateTime)
    ensures var v := ApplyUpdate(u, request, now);
            && v.id == u.id && v.email == u.email && v.passwordHash == u.passwordHash
            && v.refreshToken == u.refreshToken && v.createdAt == u.createdAt && v.updatedAt == now
            && (IsNullOrEmpty(request.role) ==> v.role == u.role)
            && (IsNullOrEmpty(request.status) ==> v.status == u.status)
            && (request.firstName == Some("") ==> v.firstName == u.firstName)
  {
  }

  /** What `UpdateAsync` refuses, in the order it checks. */
  function UpdateRefusal(us: seq<User>, id: Guid, request: UpdateUserRequest, currentUser: User): Option<ServiceError>
  {
    if !currentUser.IsAdmin() && currentUser.id != id then Some(Unauthorized("You can only update your own profile"))
    else if Repo.IndexOfId(us, id).None? then Some(InvalidOperation("User not found"))
    else if !IsNullOrEmpty(request.role) && !currentUser.IsAdmin() then Some(Unauthorized("Only admins can change user roles"))
    else if !IsNullOrEmpty(request.status) && !currentUser.IsAdmin() then Some(Unauthorized("Only admins can change user status"))
    else None
  }

  /** Only administrators change roles or statuses; anybody else can at most rename themselves. */
  lemma NoSelfPromotion(us: seq<User>, id: Guid, request: UpdateUserRequest, currentUser: User, now: DateTime)
    requires !currentUser.IsAdmin() && UpdateRefusal(us, id, request, currentUser).None?
    ensures id == currentUser.id
    ensures var k := Repo.IndexOfId(us, id).value;
            ApplyUpdate(us[k], request, now).role == us[k].role && ApplyUpdate(us[k], request, now).status == us[k].status
  {
  }

  /** `UpdateAsync`: unless refused, the merged account replaces the stored one. The save cannot fail: the address is unchanged. */
  method UpdateAsync(db: Database, id: Guid, request: UpdateUserRequest, currentUser: User, now: DateTime)
    returns (r: Result<UserDto, ServiceError>)
    requires db.Valid()
    modifies db`users
    ensures UpdateRefusal(old(db.users), id, request, currentUser).Some? ==>
              r == Err(UpdateRefusal(old(db.users), id, request, currentUser).value) && db.users == old(db.users)
    ensures UpdateRefusal(old(db.users), id, request, currentUser).None? ==>
              var k := Repo.IndexOfId(old(db.users), id).value;
              var v := ApplyUpdate(old(db.users)[k], request, now);
              r == Ok(MapToDto(v)) && db.users == old(db.users)[k := v]
    ensures db.Valid()
  {
    var refusal := UpdateRefusal(db.users, id, request, currentUser);
    if refusal.Some? {
      return Err(refusal.value);
    }
    var k := Repo.IndexOfId(db.users, id).value;
    var v := ApplyUpdate(db.users[k], request, now);
    forall i | 0 <= i < |db.users| && db.users[i].id != v.id ensures db.users[i].email != v.email {
      assert i != k;
    }
    var saved := Repo.UpdateAsync(db, v);
    match saved
    case Ok(u) => r := Ok(MapToDto(u));
    case Err(e) => r := Err(Db(e));
  }

  /** `DeleteAsync`: administrators only; an unknown id is "User not found"; a user with orders stays. */
  method DeleteAsync(db: Database, id: Guid, currentUser: User) returns (r: Result<(), ServiceError>)
    requires db.Valid()
    modifies db`users
    ensures !currentUser.IsAdmin() ==> r == Err(Unauthorized("Only admins can delete users"))
    ensures currentUser.IsAdmin() && Repo.IndexOfId(old(db.users), id).None? ==> r == Err(InvalidOperation("User not found"))
    ensures currentUser.IsAdmin() && Repo.IndexOfId(old(db.users), id).Some? ==>
              (r.Err? <==> Repo.HasOrders(db.orders, id)) &&
              (r.Ok? ==> db.users == Query.RemoveAt(old(db.users), Repo.IndexOfId(old(db.users), id).value))
    ensures r.Err? ==> db.users == old(db.users)
    ensures db.Valid()
  {
    if !currentUser.IsAdmin() {
      return Err(Unauthorized("Only admins can delete users"));
    }
    if Repo.IndexOfId(db.users, id).None? {
      return Err(InvalidOperation("User not found"));
    }
    var deleted := Repo.DeleteAsync(db, id);
    match deleted
    case Ok(_) => r := Ok(());
    case Err(e) => r := Err(Db(e));
  }

  // ---------------------------------------------------------------------------
  // Authentication

  datatype LoginRequest = LoginRequest(email: string, password: string)

  datatype LoginResponse = LoginResponse(accessToken: string, refreshToken: string, expiresAt: DateTime, user: UserDto)

  /** The refresh token lives 7 days, the access token 24 hours. */
  const RefreshLifetime: int := 7 * SecondsPerDay
  const AccessLifetime: int := 24 * SecondsPerHour

  /** The credential check: an unknown address and a wrong password fail alike; an inactive account is told so. */
  function LoginRefusal(us: seq<User>, request: LoginRequest, crypto: Crypto): (r: Option<ServiceError>)
    ensures var found := Repo.GetByEmailAsync(us, request.email);
            r.None? <==> found.Some? && crypto.verify(request.password, found.value.passwordHash) && found.value.IsActive()
    ensures var found := Repo.GetByEmailAsync(us, request.email);
            r == Some(InvalidOperation("Account is not active")) ==>
              found.Some? && crypto.verify(request.password, found.value.passwordHash)
  {
    match Repo.GetByEmailAsync(us, request.email)
    case None => Some(InvalidOperation("Invalid email or password"))
    case Some(u) =>
      if !crypto.verify(request.password, u.passwordHash) then Some(InvalidOperation("Invalid email or password"))
      else if !u.IsActive() then Some(InvalidOperation("Account is not active"))
      else None
  }

  /** The account state after a login, as the service's tracked instance sees it. */
  function LoggedIn(u: User, now: DateTime): User
  {
    u.(lastLoginAt := Some(now))
  }

  /**
   * `LoginAsync`: stamps the last login, issues tokens and stores the refresh token
   * with its expiry. The returned profile already shows the new last-login time.
   */
  method LoginAsync(db: Database, request: LoginRequest, crypto: Crypto, tokens: Tokens, now: DateTime)
    returns (r: Result<LoginResponse, ServiceError>)
    requires db.Valid()
    modifies db`users
    ensures LoginRefusal(old(db.users), request, crypto).Some? ==>
              r == Err(LoginRefusal(old(db.users), request, crypto).value) && db.users == old(db.users)
    ensures LoginRefusal(old(db.users), request, crypto).None? ==>
              var u := Repo.GetByEmailAsync(old(db.users), request.email).value;
              && db.users == Repo.WithRefreshToken(Repo.WithLastLogin(old(db.users), u.id, now), u.id,
                                                   Some(tokens.refreshToken), Some(now + RefreshLifetime))
              && r == Ok(LoginResponse(tokens.accessToken(LoggedIn(u, now)), tokens.refreshToken, now + AccessLifetime,
                                       MapToDto(LoggedIn(u, now))))
    ensures db.Valid()
  {
    var refusal := LoginRefusal(db.users, request, crypto);
    if refusal.Some? {
      return Err(refusal.value);
    }
    var u := Repo.GetByEmailAsync(db.users, request.email).value;
    Repo.UpdateLastLoginAsync(db, u.id, now);
    var current := LoggedIn(u, now);
    var access := tokens.accessToken(current);
    Repo.UpdateRefreshTokenAsync(db, u.id, Some(tokens.refreshToken), Some(now + RefreshLifetime));
    r := Ok(LoginResponse(access, tokens.refreshToken, now + AccessLifetime, MapToDto(current)));
  }

  /** Whoever asks, a wrong password and an unknown address are answered the same way. */
  lemma LoginDoesNotRevealAccounts(us: seq<User>, request: LoginRequest, crypto: Crypto)
    requires Repo.GetByEmailAsync(us, request.email).Some? ==>
               !crypto.verify(request.password, Repo.GetByEmailAsync(us, request.email).value.passwordHash)
    ensures LoginRefusal(us, request, crypto) == Some(InvalidOperation("Invalid email or password"))
  {
  }

  /**
   * The account `FirstOrDefault` picks among those holding `token`: the users
   * query includes the `Orders` collection, so its rows come ordered by the
   * user key, and the holder with the least `Id` is the first one.
   */
  function TokenOwner(us: seq<User>, token: string): (r: Option<nat>)
    ensures r.None? <==> forall i :: 0 <= i < |us| ==> us[i].refreshToken != Some(token)
    ensures r.Some? ==> r.value < |us| && us[r.value].refreshToken == Some(token) &&
                        forall j :: 0 <= j < |us| && us[j].refreshToken == Some(token) ==> us[r.value].id <= us[j].id
    decreases |us|
  {
    if |us| == 0 then None
    else
      var k := |us| - 1;
      var rest := TokenOwner(us[..k], token);
      assert forall j :: 0 <= j < k ==> us[..k][j] == us[j];
      if us[k].refreshToken != Some(token) then rest
      else if rest.Some? && us[rest.value].id <= us[k].id then rest
      else Some(k)
  }

  /** A stored expiry later than `now`, or none at all. */
  predicate Unexpired(u: User, now: DateTime)
  {
    u.refreshTokenExpiryTime.None? || now < u.refreshTokenExpiryTime.value
  }

  /**
   * The refresh check: the token must belong to an account and must not have
   * expired; a stored token without an expiry passes. Then the account must be active.
   */
  function RefreshRefusal(us: seq<User>, token: string, now: DateTime): (r: Option<ServiceError>)
    ensures r.None? <==> TokenOwner(us, token).Some? && Unexpired(us[TokenOwner(us, token).value], now) &&
                         us[TokenOwner(us, token).value].IsActive()
    ensures r == Some(InvalidOperation("Account is not active")) ==>
              TokenOwner(us, token).Some? && Unexpired(us[TokenOwner(us, token).value], now)
  {
    match TokenOwner(us, token)
    case None => Some(InvalidOperation("Invalid refresh token"))
    case Some(k) =>
      if us[k].refreshTokenExpiryTime.Some? && us[k].refreshTokenExpiryTime.value <= now
      then Some(InvalidOperation("Invalid refresh token"))
      else if !us[k].IsActive() then Some(InvalidOperation("Account is not active"))
      else None
  }

  /** `RefreshTokenAsync`: replaces the account's refresh token with a new one valid for 7 days. */
  method RefreshTokenAsync(db: Database, token: string, tokens: Tokens, now: DateTime)
    returns (r: Result<LoginResponse, ServiceError>)
    requires db.Valid()
    modifies db`users
    ensures RefreshRefusal(old(db.users), token, now).Some? ==>
              r == Err(RefreshRefusal(old(db.users), token, now).value) && db.users == old(db.users)
    ensures RefreshRefusal(old(db.users), token, now).None? ==>
              var u := old(db.users)[TokenOwner(old(db.users), token).value];
              && db.users == Repo.WithRefreshToken(old(db.users), u.id, Some(tokens.refreshToken), Some(now + RefreshLifetime))
              && r == Ok(LoginResponse(tokens.accessToken(u), tokens.refreshToken, now + AccessLifetime, MapToDto(u)))
    ensures db.Valid()
  {
    var refusal := RefreshRefusal(db.users, token, now);
    if refusal.Some? {
      return Err(refusal.value);
    }
    var u := db.users[TokenOwner(db.users, token).value];
    var access := tokens.accessToken(u);
    Repo.UpdateRefreshTokenAsync(db, u.id, Some(tokens.refreshToken), Some(now + RefreshLifetime));
    r := Ok(LoginResponse(access, tokens.refreshToken, now + AccessLifetime, MapToDto(u)));
  }

  /** A stored token with no expiry never expires. */
  lemma MissingExpiryNeverExpires(us: seq<User>, k: nat, token: string, now: DateTime)
    requires ValidUsers(us)
    requires k < |us| && us[k].refreshToken == Some(token) && us[k].refreshTokenExpiryTime.None? && us[k].IsActive()
    requires forall j :: 0 <= j < |us| && us[j].refreshToken == Some(token) ==> us[k].id <= us[j].id
    ensures RefreshRefusal(us, token, now).None?
  {
    var o := TokenOwner(us, token).value;
    assert us[o].id == us[k].id;
    assert o == k;
  }

  /** `LogoutAsync`: clears the caller's refresh token and its expiry. */
  method LogoutAsync(db: Database, currentUser: User)
    requires db.Valid()
    modifies db`users
    ensures db.users == Repo.WithRefreshToken(old(db.users), currentUser.id, None, None)
    ensures db.Valid()
  {
    Repo.UpdateRefreshTokenAsync(db, currentUser.id, None, None);
  }

  /** After logging out, no refresh token leads back to the caller's account. */
  lemma LogoutRevokesToken(us: seq<User>, currentUser: User, token: string)
    requires ValidUsers(us)
    ensures var after := Repo.WithRefreshToken(us, currentUser.id, None, None);
            TokenOwner(after, token).Some? ==> after[TokenOwner(after, token).value].id != currentUser.id
  {
    var after := Repo.WithRefreshToken(us, currentUser.id, None, None);
    if TokenOwner(after, token).Some? {
      var k := TokenOwner(after, token).value;
      if Repo.IndexOfId(us, currentUser.id) != Some(k) {
        assert after[k] == us[k];
      }
    }
  }

  /**
   * The refresh token a login stores works until it expires, as long as no
   * account earlier in the table holds the same token.
   */
  lemma LoginTokenRefreshes(us: seq<User>, request: LoginRequest, crypto: Crypto, tokens: Tokens, now: DateTime, later: DateTime)
    requires ValidUsers(us) && LoginRefusal(us, request, crypto).None? && later < now + RefreshLifetime
    requires forall i :: 0 <= i < |us| ==> us[i].refreshToken != Some(tokens.refreshToken)
    ensures var u := Repo.GetByEmailAsync(us, request.email).value;
            var after := Repo.WithRefreshToken(Repo.WithLastLogin(us, u.id, now), u.id,
                                               Some(tokens.refreshToken), Some(now + RefreshLifetime));
            RefreshRefusal(after, tokens.refreshToken, later).None? &&
            after[TokenOwner(after, tokens.refreshToken).value].id == u.id
  {
    var u := Repo.GetByEmailAsync(us, request.email).value;
    var i :| 0 <= i < |us| && us[i] == u;
    var expiry := Some(now + RefreshLifetime);
    LoginStoreUpdate(us, i, now, Some(tokens.refreshToken), expiry);
    var after := us[i := u.(lastLoginAt := Some(now), refreshToken := Some(tokens.refreshToken), refreshTokenExpiryTime := expiry)];
    forall j | 0 <= j < |after| && j != i
      ensures after[j].refreshToken != Some(tokens.refreshToken)
    {
      assert after[j] == us[j];
    }
    SoleHolderOwns(after, i, tokens.refreshToken);
    assert after[i].refreshTokenExpiryTime == expiry;
  }

  /** On a valid store, the two login writes replace the account's row and nothing else. */
  lemma LoginStoreUpdate(us: seq<User>, k: nat, now: DateTime, token: Option<string>, expiry: Option<DateTime>)
    requires ValidUsers(us) && k < |us|
    ensures var id := us[k].id;
            Repo.WithRefreshToken(Repo.WithLastLogin(us, id, now), id, token, expiry) ==
              us[k := us[k].(lastLoginAt := Some(now), refreshToken := token, refreshTokenExpiryTime := expiry)]
  {
    var id := us[k].id;
    assert Repo.IndexOfId(us, id) == Some(k);
    var mid := us[k := us[k].(lastLoginAt := Some(now))];
    assert Repo.WithLastLogin(us, id, now) == mid;
    assert Repo.IndexOfId(mid, id) == Some(k);
  }

  /** The only account holding a token is its owner. */
  lemma SoleHolderOwns(us: seq<User>, k: nat, token: string)
    requires k < |us| && us[k].refreshToken == Some(token)
    requires forall j :: 0 <= j < |us| && j != k ==> us[j].refreshToken != Some(token)
    ensures TokenOwner(us, token) == Some(k)
  {
    var o := TokenOwner(us, token).value;
    assert us[o].refreshToken == Some(token);
  }

  /** `ValidatePasswordAsync`: the address is known (ignoring case) and the password verifies. */
  function ValidatePasswordAsync(us: seq<User>, email: string, password: string, crypto: Crypto): (r: bool)
    ensures r <==> Repo.GetByEmailAsync(us, email).Some? &&
                   crypto.verify(password, Repo.GetByEmailAsync(us, email).value.passwordHash)
  {
    match Repo.GetByEmailAsync(us, email)
    case None => false
    case Some(u) => crypto.verify(password, u.passwordHash)
  }

  /** The password given at registration validates afterwards, under any letter case of the address. */
  lemma RegisteredPasswordValidates(us: seq<User>, request: CreateUserRequest, crypto: Crypto, id: Guid, now: DateTime,
                                    email: string)
    requires Sound(crypto) && !Repo.ExistsByEmailAsync(us, request.email) && EqualsIgnoreCase(email, request.email)
    ensures ValidatePasswordAsync(us + [NewAccount(request, crypto, id, now)], email, request.password, crypto)
  {
    var after := us + [NewAccount(request, crypto, id, now)];
    assert !EqualsIgnoreCase(after[|us|].email, email) ==> false;
    forall i | 0 <= i < |us| ensures !EqualsIgnoreCase(after[i].email, email) {
      assert after[i] == us[i];
    }
    assert Repo.GetByEmailAsync(after, email).value == after[|us|];
  }
}
