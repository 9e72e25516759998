/** The user record of the `users` table, shared by the user, auth and
    comment services. */
module UserRecords {
  import opened Wrappers

  type Id = string

  datatype Role = Admin | User

  datatype Status = Active | Banned

  /** A row of the `users` table. Timestamps are milliseconds since the epoch;
      `password` holds the bcrypt hash. */
  datatype User = User(
    username: string,
    firstname: string,
    lastname: string,
    email: string,
    password: string,
    isVerified: bool,
    role: Role,
    status: Status,
    verificationToken: Option<string>,
    verificationTokenExpires: Option<int>,
    resetToken: Option<string>,
    resetTokenExpires: Option<int>)

  /** A user as the API shows it: every field but the password hash. */
  datatype PublicUser = PublicUser(
    username: string,
    firstname: string,
    lastname: string,
    email: string,
    isVerified: bool,
    role: Role,
    status: Status,
    verificationToken: Option<string>,
    verificationTokenExpires: Option<int>,
    resetToken: Option<string>,
    resetTokenExpires: Option<int>)

  /** `const { password, ...rest } = user`: the response drops the password and
      keeps every other field as it is. */
  function WithoutPassword(u: User): (p: PublicUser)
    ensures p.username == u.username && p.email == u.email
    ensures p.firstname == u.firstname && p.lastname == u.lastname
    ensures p.role == u.role && p.status == u.status && p.isVerified == u.isVerified
  {
    PublicUser(u.username, u.firstname, u.lastname, u.email, u.isVerified, u.role, u.status,
               u.verificationToken, u.verificationTokenExpires, u.resetToken, u.resetTokenExpires)
  }

  /** Putting the password back gives the user: nothing but the password is dropped. */
  lemma WithoutPasswordLosesOnlyPassword(u: User, v: User)
    requires WithoutPassword(u) == WithoutPassword(v)
    ensures u == v.(password := u.password)
  {
  }

  /** The columns the services look a user up by. */
  datatype Column = Email | Username | ResetToken | VerificationToken

  /** `findOne({ where: { <column>: value } })` matches `u`. */
  predicate Matches(u: User, column: Column, value: string) {
    match column
    case Email => u.email == value
    case Username => u.username == value
    case ResetToken => u.resetToken == Some(value)
    case VerificationToken => u.verificationToken == Some(value)
  }

  /** The `unique` constraints on `email` and `username`. */
  ghost predicate Unique(users: map<Id, User>) {
    && (forall a, b :: a in users && b in users && users[a].email == users[b].email ==> a == b)
    && (forall a, b :: a in users && b in users && users[a].username == users[b].username ==> a == b)
  }

  /** A token and its expiry are set together and cleared together. */
  predicate TokensPaired(u: User) {
    && (u.verificationToken.Some? <==> u.verificationTokenExpires.Some?)
    && (u.resetToken.Some? <==> u.resetTokenExpires.Some?)
  }

  /** `findOne({ where: { <column>: value } })`: some matching row, if any. */
  method FindBy(users: map<Id, User>, column: Column, value: string) returns (r: Option<Id>)
    ensures r.Some? ==> r.value in users && Matches(users[r.value], column, value)
    ensures r.None? ==> forall id :: id in users ==> !Matches(users[id], column, value)
  {
    if exists id :: id in users && Matches(users[id], column, value) {
      var id :| id in users && Matches(users[id], column, value);
      return Some(id);
    }
    return None;
  }

  /** Under the unique constraints an email or a username names one user. */
  lemma UniqueLookup(users: map<Id, User>, column: Column, value: string, a: Id, b: Id)
    requires Unique(users) && (column == Email || column == Username)
    requires a in users && b in users && Matches(users[a], column, value) && Matches(users[b], column, value)
    ensures a == b
  {
  }

  /** Rewriting a row without touching its email or username keeps the
      constraints. */
  lemma StoreKeepsUnique(users: map<Id, User>, id: Id, v: User)
    requires Unique(users) && id in users
    requires v.email == users[id].email && v.username == users[id].username
    ensures Unique(users[id := v])
  {
  }

  /** A new row whose email and username are not taken keeps the constraints. */
  lemma InsertKeepsUnique(users: map<Id, User>, id: Id, v: User)
    requires Unique(users) && id !in users
    requires forall x :: x in users ==> users[x].email != v.email && users[x].username != v.username
    ensures Unique(users[id := v])
  {
  }
}
