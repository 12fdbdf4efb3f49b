/** Accounts, with the role and status predicates computed from them. */
module UserEntities {
  import opened Wrappers
  import opened Primitives
  import Text

  datatype User = User(
    id: Guid,
    email: string,
    passwordHash: string,
    firstName: string,
    lastName: string,
    role: string,
    status: string,
    createdAt: DateTime,
    updatedAt: DateTime,
    lastLoginAt: Option<DateTime>,
    refreshToken: Option<string>,
    refreshTokenExpiryTime: Option<DateTime>,
    isOnline: bool,
    lastSeenAt: Option<DateTime>,
    connectionId: Option<string>)
  {
    /** First and last name joined by one space. */
    function FullName(): (r: string)
      ensures |r| == |firstName| + 1 + |lastName|
      ensures r[..|firstName|] == firstName && r[|firstName|] == ' ' && r[|firstName| + 1..] == lastName
    {
      firstName + " " + lastName
    }

    /** Roles and statuses compare exactly, case included. */
    predicate IsAdmin() { role == "admin" }

    predicate IsActive() { status == "active" }

    predicate IsWholesale() { role == "wholesale" }

    predicate IsRetail() { role == "retail" }
  }

  /** The state of a user built with the entity's initialisers, at instant `now`. */
  function NewUser(id: Guid, now: DateTime): (r: User)
    ensures r.role == "wholesale" && r.status == "active"
    ensures r.IsWholesale() && r.IsActive() && !r.IsAdmin() && !r.IsRetail()
    ensures r.refreshToken.None? && r.lastLoginAt.None? && r.createdAt == now
  {
    User(id, "", "", "", "", "wholesale", "active", now, now, None, None, None, false, None, None)
  }

  /** A user holds at most one of the admin, wholesale and retail roles. */
  lemma RolesExclusive(u: User)
    ensures !(u.IsAdmin() && u.IsWholesale())
    ensures !(u.IsAdmin() && u.IsRetail())
    ensures !(u.IsWholesale() && u.IsRetail())
  {
  }

  /** The role test is case-sensitive: "Admin" is not an administrator. */
  lemma AdminIsCaseSensitive(u: User)
    requires u.role == "Admin"
    ensures !u.IsAdmin() && Text.EqualsIgnoreCase(u.role, "admin")
  {
    assert Text.ToLower(u.role) == "admin" by {
      assert Text.ToLower(u.role)[0] == 'a';
    }
  }

  /**
   * A term found in the lower-cased first or last name is found in the lower-cased
   * full name too, so searching the full name subsumes searching either part.
   */
  lemma FullNameSubsumesParts(u: User, term: string)
    ensures Text.Contains(Text.ToLower(u.firstName), term) ==> Text.Contains(Text.ToLower(u.FullName()), term)
    ensures Text.Contains(Text.ToLower(u.lastName), term) ==> Text.Contains(Text.ToLower(u.FullName()), term)
  {
    Text.ToLowerConcat(u.firstName + " ", u.lastName);
    Text.ToLowerConcat(u.firstName, " ");
    var lf, ls, ll := Text.ToLower(u.firstName), Text.ToLower(" "), Text.ToLower(u.lastName);
    assert u.FullName() == (u.firstName + " ") + u.lastName;
    Text.ContainsInConcat(lf, ls, term);
    Text.ContainsInConcat(lf + ls, ll, term);
  }
}
