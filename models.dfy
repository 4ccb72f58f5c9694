/** The persisted records of the service (domain/models). Only the fields the
    session and login code reads or writes are kept. Times are whole seconds
    since the epoch. */
module Models {
  import opened Password

  /** A login session. The Go struct in models/session.go lacks IsActive,
      LastUsedAt and IPAddress, but the repository and the login flows use
      them; the record here has the fields the code uses. */
  datatype Session = Session(
    id: string,
    userId: nat,
    refreshJti: string,
    userAgent: string,
    ipAddress: string,
    isActive: bool,
    lastUsedAt: int)

  /** A user account (models/user.go). */
  datatype User = User(
    id: nat,
    firstName: string,
    lastName: string,
    email: string,
    username: string,
    passwordHash: Digest,
    refreshTokenHash: Digest,
    oidcProvider: string,
    oidcSubject: string,
    isActive: bool)

  /** The profile part of a login response (userdto.UserProfileRes). */
  datatype Profile = Profile(id: nat, firstName: string, lastName: string, email: string, username: string)

  /** The profile a login or registration returns for an account: its id,
      names, email and username, copied unchanged. */
  function ProfileOf(u: User): (p: Profile)
    ensures p.id == u.id && p.email == u.email && p.username == u.username
    ensures p.firstName == u.firstName && p.lastName == u.lastName
  {
    Profile(u.id, u.firstName, u.lastName, u.email, u.username)
  }
}
