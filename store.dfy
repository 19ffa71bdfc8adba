/** The relational store the services work on, reduced to two tables held in
    memory: the user accounts and the refresh-token records. Commits are
    no-ops; a query with `.first()` is the first matching row in insertion
    order. */
module Store {
  import opened Common
  import opened Crypto

  /** A user account, restricted to the fields the authentication and recovery
      services read or write. `tempPassword` and `tempPasswordExpires` hold the
      hashed one-time recovery code and the instant it stops being accepted. */
  datatype User = User(
    id: int,
    login: string,
    email: string,
    password: Hash,
    tag: string,
    plan: string,
    tempPassword: Option<Hash>,
    tempPasswordExpires: Option<int>)

  /** One stored refresh token, with its owner, validity window and usage metadata. */
  datatype RefreshToken = RefreshToken(
    userId: int,
    token: string,
    expiresAt: int,
    isRevoked: bool,
    createdAt: int,
    lastUsedAt: Option<int>,
    ipAddress: Option<string>,
    userAgent: Option<string>)

  /** What a write the store refuses reports: the unique constraint on the token column. */
  datatype StoreError = DuplicateToken

  /** Some stored record, revoked or not, already carries `token`. */
  predicate HasToken(ts: seq<RefreshToken>, token: string)
  {
    exists i :: 0 <= i < |ts| && ts[i].token == token
  }

  /** The unique constraint on the token column. */
  ghost predicate UniqueTokens(ts: seq<RefreshToken>)
  {
    forall i, j :: 0 <= i < j < |ts| ==> ts[i].token != ts[j].token
  }

  /** The foreign key on the owner column: every record's owner is a stored user. */
  ghost predicate OwnersExist(users: seq<User>, ts: seq<RefreshToken>)
  {
    forall i :: 0 <= i < |ts| ==> exists j :: 0 <= j < |users| && users[j].id == ts[i].userId
  }

  /** The first account with this login. */
  function UserByLogin(users: seq<User>, login: string): Option<nat>
  {
    IndexOfFirst(users, (u: User) => u.login == login)
  }

  /** The first account with this email. */
  function UserByEmail(users: seq<User>, email: string): Option<nat>
  {
    IndexOfFirst(users, (u: User) => u.email == email)
  }

  /** The account a refresh token belongs to (the `user` relationship), if it exists. */
  function UserById(users: seq<User>, id: int): (r: Option<User>)
    ensures r.Some? ==> r.value in users && r.value.id == id
    ensures r.None? <==> forall j :: 0 <= j < |users| ==> users[j].id != id
  {
    match IndexOfFirst(users, (u: User) => u.id == id)
    case None => None
    case Some(i) => Some(users[i])
  }

  /** The store: the two tables, updated in place by the services. */
  class Database {
    var users: seq<User>
    var refreshTokens: seq<RefreshToken>

    /** The constraints the store itself enforces. */
    ghost predicate Valid()
      reads this
    {
      UniqueTokens(refreshTokens)
    }

    /** A store holding the given accounts and no refresh tokens. */
    constructor (accounts: seq<User>)
      ensures Valid() && users == accounts && refreshTokens == []
    {
      users := accounts;
      refreshTokens := [];
    }
  }
}
