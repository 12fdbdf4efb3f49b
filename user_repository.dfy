/**
 * The user repository over the in-memory store: lookups by id and by e-mail
 * (ignoring case), the e-mail uniqueness query, the filtered, sorted and paged
 * search, the count, and the writes (add, update, delete, last login, refresh token).
 */
module UserRepository {
  import opened Wrappers
  import opened Primitives
  import opened Text
  import Query
  import opened UserEntities
  import opened OrderEntities
  import opened DbContext
  import ProductEntities

  datatype UserSearchCriteria = UserSearchCriteria(
    search: Option<string>,
    role: Option<string>,
    status: Option<string>,
    createdFrom: Option<DateTime>,
    createdTo: Option<DateTime>,
    sortBy: Option<string>,
    sortDescending: bool)

  const NoCriteria := UserSearchCriteria(None, None, None, None, None, None, true)

  // ---------------------------------------------------------------------------
  // Lookups

  function IndexOfId(us: seq<User>, id: Guid): (r: Option<nat>)
    ensures r.None? <==> forall i :: 0 <= i < |us| ==> us[i].id != id
    ensures r.Some? ==> r.value < |us| && us[r.value].id == id && forall j :: 0 <= j < r.value ==> us[j].id != id
  {
    Query.FirstMatch(us, (u: User) => u.id == id)
  }

  function GetByIdAsync(us: seq<User>, id: Guid): (r: Option<User>)
    ensures r.None? <==> forall i :: 0 <= i < |us| ==> us[i].id != id
    ensures r.Some? ==> r.value in us && r.value.id == id
  {
    match IndexOfId(us, id)
    case Some(i) => Some(us[i])
    case None => None
  }

  /** The first user whose e-mail equals `email` ignoring case. */
  function GetByEmailAsync(us: seq<User>, email: string): (r: Option<User>)
    ensures r.None? <==> forall i :: 0 <= i < |us| ==> !EqualsIgnoreCase(us[i].email, email)
    ensures r.Some? ==> r.value in us && EqualsIgnoreCase(r.value.email, email)
  {
    match Query.FirstMatch(us, (u: User) => EqualsIgnoreCase(u.email, email))
    case Some(i) => Some(us[i])
    case None => None
  }

  /** Some user has this e-mail, ignoring case. */
  function ExistsByEmailAsync(us: seq<User>, email: string): (r: bool)
    ensures r <==> exists i :: 0 <= i < |us| && EqualsIgnoreCase(us[i].email, email)
  {
    GetByEmailAsync(us, email).Some?
  }

  /** No user other than `excludeUserId` has this e-mail, ignoring case. */
  function IsEmailUniqueAsync(us: seq<User>, email: string, excludeUserId: Option<Guid>): (r: bool)
    ensures r <==> forall i :: 0 <= i < |us| && EqualsIgnoreCase(us[i].email, email) ==>
                                excludeUserId.Some? && us[i].id == excludeUserId.value
  {
    Query.FirstMatch(us, (u: User) => EqualsIgnoreCase(u.email, email) &&
                                      (excludeUserId.None? || u.id != excludeUserId.value)).None?
  }

  /** Without an excluded id, uniqueness is the negation of existence. */
  lemma UniqueIffNotExists(us: seq<User>, email: string)
    ensures IsEmailUniqueAsync(us, email, None) == !ExistsByEmailAsync(us, email)
  {
  }

  /** E-mail lookups ignore case: looking up the lower-cased address finds the same user. */
  lemma EmailLookupIgnoresCase(us: seq<User>, email: string)
    ensures GetByEmailAsync(us, ToLower(email)) == GetByEmailAsync(us, email)
  {
    ToLowerIdempotent(email);
    Query.FirstMatchExt(us, (u: User) => EqualsIgnoreCase(u.email, ToLower(email)),
                            (u: User) => EqualsIgnoreCase(u.email, email));
  }

  /** A user's own e-mail is unique when that user is excluded and no other user shares it. */
  lemma OwnEmailUnique(us: seq<User>, k: nat)
    requires k < |us| && EmailsDistinctIgnoringCase(us)
    ensures IsEmailUniqueAsync(us, us[k].email, Some(us[k].id))
    ensures !IsEmailUniqueAsync(us, us[k].email, None)
  {
  }

  /** No two users' e-mails differ only in case (what the registration check maintains). */
  ghost predicate EmailsDistinctIgnoringCase(us: seq<User>)
  {
    forall i, j :: 0 <= i < j < |us| ==> !EqualsIgnoreCase(us[i].email, us[j].email)
  }

  // ---------------------------------------------------------------------------
  // Search and count

  /** Lower-cased `term` occurs in the lower-cased e-mail, first, last or full name. */
  predicate MatchesSearch(u: User, term: string)
  {
    var t := ToLower(term);
    Contains(ToLower(u.email), t) || Contains(ToLower(u.firstName), t) ||
    Contains(ToLower(u.lastName), t) || Contains(ToLower(u.FullName()), t)
  }

  predicate Matches(c: UserSearchCriteria, u: User)
  {
    && (IsNullOrEmpty(c.search) || MatchesSearch(u, c.search.value))
    && (IsNullOrEmpty(c.role) || EqualsIgnoreCase(u.role, c.role.value))
    && (IsNullOrEmpty(c.status) || EqualsIgnoreCase(u.status, c.status.value))
    && (c.createdFrom.None? || u.createdAt >= c.createdFrom.value)
    && (c.createdTo.None? || u.createdAt <= c.createdTo.value)
  }

  function MatchFn(c: UserSearchCriteria): User -> bool
  {
    (u: User) => Matches(c, u)
  }

  function Filtered(us: seq<User>, c: UserSearchCriteria): (r: seq<User>)
    ensures forall u :: u in r <==> u in us && Matches(c, u)
  {
    Query.FilterBy(us, MatchFn(c))
  }

  /** The separate name tests add nothing: a match on the full name covers either part. */
  lemma SearchByFullName(u: User, term: string)
    ensures MatchesSearch(u, term) <==>
              Contains(ToLower(u.email), ToLower(term)) || Contains(ToLower(u.FullName()), ToLower(term))
  {
    FullNameSubsumesParts(u, ToLower(term));
  }

  /** An account created on either bound of the date range is kept. */
  lemma CreatedRangeInclusive(u: User)
    ensures Matches(NoCriteria.(createdFrom := Some(u.createdAt), createdTo := Some(u.createdAt)), u)
  {
  }

  /** The sort column; anything not on the list, or no `SortBy`, sorts by creation time. */
  function SortKey(sortBy: Option<string>, u: User): Query.Key
  {
    var s := if sortBy.None? then "" else ToLower(sortBy.value);
    if s == "email" then Query.Text(u.email)
    else if s == "firstname" then Query.Text(u.firstName)
    else if s == "lastname" then Query.Text(u.lastName)
    else if s == "role" then Query.Text(u.role)
    else if s == "status" then Query.Text(u.status)
    else if s == "updatedat" then Query.Num(u.updatedAt)
    else if s == "lastloginat" then (if u.lastLoginAt.None? then Query.Null else Query.Num(u.lastLoginAt.value))
    else Query.Num(u.createdAt)
  }

  lemma SortKeyFallback(sortBy: string, u: User)
    ensures ToLower(sortBy) !in {"email", "firstname", "lastname", "role", "status", "updatedat", "lastloginat"} ==>
              SortKey(Some(sortBy), u) == SortKey(None, u) == Query.Num(u.createdAt)
  {
  }

  function SearchKey(c: UserSearchCriteria): User -> Query.Key
  {
    (u: User) => SortKey(c.sortBy, u)
  }

  function SearchAsync(us: seq<User>, c: UserSearchCriteria, page: int, pageSize: int): (r: Query.SearchResult<User>)
    ensures Query.IsPageOfOrdering(r, Filtered(us, c), SearchKey(c), c.sortDescending, page, pageSize)
  {
    var matching := Filtered(us, c);
    Query.SearchResult(Query.Page(Query.SortBy(matching, SearchKey(c), c.sortDescending), page, pageSize), |matching|)
  }

  function GetCountAsync(us: seq<User>, c: Option<UserSearchCriteria>): (r: nat)
    ensures r <= |us|
    ensures c.None? ==> r == |us|
  {
    if c.None? then |us| else |Filtered(us, c.value)|
  }

  /** The count equals a search's total for the same filters, whatever the sort and page. */
  lemma CountMatchesSearch(us: seq<User>, c: UserSearchCriteria, page: int, pageSize: int)
    ensures GetCountAsync(us, Some(c)) == SearchAsync(us, c, page, pageSize).totalCount
    ensures GetCountAsync(us, Some(c.(sortBy := None, sortDescending := true))) == GetCountAsync(us, Some(c))
  {
    Query.FilterExt(us, MatchFn(c.(sortBy := None, sortDescending := true)), MatchFn(c));
  }

  /** Every user a search returns passes the filters; the page is sorted and holds the rows the limit lets through. */
  lemma SearchResultsMatch(us: seq<User>, c: UserSearchCriteria, page: int, pageSize: int)
    ensures var r := SearchAsync(us, c, page, pageSize);
            (forall u :: u in r.items ==> u in us && Matches(c, u)) &&
            |r.items| == Query.PageLength(|Filtered(us, c)|, page, pageSize) &&
            Query.SortedBy(r.items, SearchKey(c), c.sortDescending)
  {
    var r := SearchAsync(us, c, page, pageSize);
    Query.PageOfOrderingFacts(r, Filtered(us, c), SearchKey(c), c.sortDescending, page, pageSize);
    forall u | u in r.items ensures u in us && Matches(c, u) {
      assert u in multiset(r.items);
      assert u in multiset(Filtered(us, c));
    }
  }

  // ---------------------------------------------------------------------------
  // Field updates

  /** The store after `UpdateLastLoginAsync(userId)` at instant `now`. */
  function WithLastLogin(us: seq<User>, userId: Guid, now: DateTime): (r: seq<User>)
    ensures |r| == |us|
    ensures forall i :: 0 <= i < |us| ==> if us[i].id == userId && IndexOfId(us, userId) == Some(i)
                                           then r[i] == us[i].(lastLoginAt := Some(now)) else r[i] == us[i]
  {
    match IndexOfId(us, userId)
    case None => us
    case Some(k) => us[k := us[k].(lastLoginAt := Some(now))]
  }

  /** The store after `UpdateRefreshTokenAsync(userId, token, expiry)`. */
  function WithRefreshToken(us: seq<User>, userId: Guid, token: Option<string>, expiry: Option<DateTime>): (r: seq<User>)
    ensures |r| == |us|
    ensures forall i :: 0 <= i < |us| ==> if IndexOfId(us, userId) == Some(i)
                                           then r[i] == us[i].(refreshToken := token, refreshTokenExpiryTime := expiry)
                                           else r[i] == us[i]
  {
    match IndexOfId(us, userId)
    case None => us
    case Some(k) => us[k := us[k].(refreshToken := token, refreshTokenExpiryTime := expiry)]
  }

  /** Replacing non-key columns of one user keeps ids, e-mails and therefore validity. */
  lemma SameKeysValid(us: seq<User>, r: seq<User>, os: seq<Order>, ps: seq<ProductEntities.Product>)
    requires ValidUsers(us) && ValidOrders(os, us, ps) && |r| == |us|
    requires forall i :: 0 <= i < |us| ==> r[i].id == us[i].id && r[i].email == us[i].email
    ensures ValidUsers(r) && ValidOrders(os, r, ps) && UserIds(r) == UserIds(us)
    ensures EmailsDistinctIgnoringCase(us) ==> EmailsDistinctIgnoringCase(r)
  {
    assert UserIds(r) == UserIds(us) by {
      forall x | x in UserIds(us) ensures x in UserIds(r) {
        var u :| u in us && u.id == x;
        var i :| 0 <= i < |us| && us[i] == u;
        assert r[i] in r;
      }
      forall x | x in UserIds(r) ensures x in UserIds(us) {
        var u :| u in r && u.id == x;
        var i :| 0 <= i < |r| && r[i] == u;
        assert us[i] in us;
      }
    }
  }

  /** `UpdateLastLoginAsync`: only `LastLoginAt` of that user changes; an unknown id changes nothing. */
  method UpdateLastLoginAsync(db: Database, userId: Guid, now: DateTime)
    requires db.Valid()
    modifies db`users
    ensures db.users == WithLastLogin(old(db.users), userId, now)
    ensures db.Valid()
    ensures EmailsDistinctIgnoringCase(old(db.users)) ==> EmailsDistinctIgnoringCase(db.users)
  {
    SameKeysValid(db.users, WithLastLogin(db.users, userId, now), db.orders, db.products);
    var found := IndexOfId(db.users, userId);
    if found.Some? {
      var k := found.value;
      db.users := db.users[k := db.users[k].(lastLoginAt := Some(now))];
    }
  }

  /** `UpdateRefreshTokenAsync`: sets both token and expiry (either may be null); nothing else changes. */
  method UpdateRefreshTokenAsync(db: Database, userId: Guid, token: Option<string>, expiry: Option<DateTime>)
    requires db.Valid()
    modifies db`users
    ensures db.users == WithRefreshToken(old(db.users), userId, token, expiry)
    ensures db.Valid()
    ensures EmailsDistinctIgnoringCase(old(db.users)) ==> EmailsDistinctIgnoringCase(db.users)
  {
    SameKeysValid(db.users, WithRefreshToken(db.users, userId, token, expiry), db.orders, db.products);
    var found := IndexOfId(db.users, userId);
    if found.Some? {
      var k := found.value;
      db.users := db.users[k := db.users[k].(refreshToken := token, refreshTokenExpiryTime := expiry)];
    }
  }

  // ---------------------------------------------------------------------------
  // Writes

  /**
   * `AddAsync`: inserts the user. A taken primary key, or an e-mail equal (with
   * the database's case-sensitive collation) to a stored one, fails the save.
   */
  method AddAsync(db: Database, user: User) returns (r: Result<User, DbError>)
    requires db.Valid()
    modifies db`users
    ensures r.Err? <==> exists i :: 0 <= i < |old(db.users)| && (old(db.users)[i].id == user.id || old(db.users)[i].email == user.email)
    ensures r.Ok? ==> r.value == user && db.users == old(db.users) + [user]
    ensures r.Err? ==> db.users == old(db.users)
    ensures db.Valid()
  {
    if exists i :: 0 <= i < |db.users| && db.users[i].id == user.id {
      return Err(UniqueViolation("PK_Users"));
    }
    if exists i :: 0 <= i < |db.users| && db.users[i].email == user.email {
      return Err(UniqueViolation("IX_Users_Email"));
    }
    assert UserIds(db.users) <= UserIds(db.users + [user]) by {
      forall x | x in UserIds(db.users) ensures x in UserIds(db.users + [user]) {
        var u :| u in db.users && u.id == x;
        assert u in db.users + [user];
      }
    }
    db.users := db.users + [user];
    r := Ok(user);
  }

  /**
   * `UpdateAsync`: saves the user over the stored row with its id; a missing row is
   * a concurrency failure, and an e-mail taken by another user violates the index.
   */
  method UpdateAsync(db: Database, user: User) returns (r: Result<User, DbError>)
    requires db.Valid()
    modifies db`users
    ensures r.Err? ==> db.users == old(db.users)
    ensures IndexOfId(old(db.users), user.id).None? ==> r == Err(ConcurrencyViolation)
    ensures r.Ok? ==> (r.value == user && IndexOfId(old(db.users), user.id).Some? &&
                       db.users == old(db.users)[IndexOfId(old(db.users), user.id).value := user])
    ensures IndexOfId(old(db.users), user.id).Some? ==>
              (r.Err? <==> exists i :: 0 <= i < |old(db.users)| && old(db.users)[i].id != user.id &&
                                        old(db.users)[i].email == user.email)
    ensures db.Valid()
  {
    var found := IndexOfId(db.users, user.id);
    if found.None? {
      return Err(ConcurrencyViolation);
    }
    if exists i :: 0 <= i < |db.users| && db.users[i].id != user.id && db.users[i].email == user.email {
      return Err(UniqueViolation("IX_Users_Email"));
    }
    var k := found.value;
    assert UserIds(db.users) <= UserIds(db.users[k := user]) by {
      forall x | x in UserIds(db.users) ensures x in UserIds(db.users[k := user]) {
        var u :| u in db.users && u.id == x;
        var i :| 0 <= i < |db.users| && db.users[i] == u;
        assert db.users[k := user][i] in db.users[k := user];
      }
    }
    db.users := db.users[k := user];
    r := Ok(user);
  }

  /** Some order belongs to the user. */
  predicate HasOrders(os: seq<Order>, id: Guid)
  {
    exists i :: 0 <= i < |os| && os[i].userId == id
  }

  /**
   * `DeleteAsync`: an unknown id does nothing; a user with orders cannot be deleted
   * (restrict) and nothing changes; otherwise the user is removed.
   */
  method DeleteAsync(db: Database, id: Guid) returns (r: Result<(), DbError>)
    requires db.Valid()
    modifies db`users
    ensures IndexOfId(old(db.users), id).None? ==> r.Ok? && db.users == old(db.users)
    ensures IndexOfId(old(db.users), id).Some? ==>
              (r.Err? <==> HasOrders(db.orders, id)) &&
              (r.Err? ==> db.users == old(db.users)) &&
              (r.Ok? ==> db.users == Query.RemoveAt(old(db.users), IndexOfId(old(db.users), id).value))
    ensures db.Valid()
  {
    var found := IndexOfId(db.users, id);
    if found.None? {
      return Ok(());
    }
    if HasOrders(db.orders, id) {
      return Err(ForeignKeyViolation("FK_Orders_Users_UserId"));
    }
    var k := found.value;
    RemoveKeepsValid(db.users, db.orders, db.products, k);
    db.users := Query.RemoveAt(db.users, k);
    r := Ok(());
  }

  /** Removing a user without orders keeps the users valid and every order's owner stored. */
  lemma RemoveKeepsValid(us: seq<User>, os: seq<Order>, ps: seq<ProductEntities.Product>, k: nat)
    requires ValidUsers(us) && ValidOrders(os, us, ps) && k < |us| && !HasOrders(os, us[k].id)
    ensures ValidUsers(Query.RemoveAt(us, k)) && ValidOrders(os, Query.RemoveAt(us, k), ps)
  {
    var rest := Query.RemoveAt(us, k);
    forall i, j | 0 <= i < j < |rest| ensures rest[i].id != rest[j].id && rest[i].email != rest[j].email {
      var i0, j0 := if i < k then i else i + 1, if j < k then j else j + 1;
      assert rest[i] == us[i0] && rest[j] == us[j0] && i0 < j0;
    }
    forall i | 0 <= i < |os| ensures os[i].userId in UserIds(rest) {
      assert os[i].userId in UserIds(us);
      var u :| u in us && u.id == os[i].userId;
      var m :| 0 <= m < |us| && us[m] == u;
      assert m != k;
      assert rest[if m < k then m else m - 1] == u;
    }
  }
}
