/** The admin-facing user service and the profile endpoints of the user
    controller, over the same `users` table the auth flows use. */
module Users {
  import opened Wrappers
  import opened UserRecords
  import opened AuthUtils

  /** `Partial<UserDto>` as `create` reads it; email and username are taken
      as given. */
  datatype CreateRequest = CreateRequest(
    username: string,
    firstname: string,
    lastname: string,
    email: string,
    password: Option<string>,
    role: Option<Role>,
    status: Option<Status>)

  /** `UpdateUserDto`: every property optional. */
  datatype UpdateRequest = UpdateRequest(
    username: Option<string>,
    firstname: Option<string>,
    lastname: Option<string>,
    email: Option<string>,
    password: Option<string>,
    role: Option<Role>,
    isVerified: Option<bool>,
    status: Option<Status>)

  /** The `{ message, user }` body of `create` and `update`, with the row id. */
  datatype Reply = Reply(message: string, id: Id, user: User)

  /** The row `create` stores. A supplied password is stored as it is given;
      only the fallback `defaultHash` (the hash of the default password) is
      a bcrypt hash. */
  function NewUser(req: CreateRequest, defaultHash: string): (u: User)
    ensures u.username == req.username && u.email == req.email
    ensures u.firstname == req.firstname && u.lastname == req.lastname
    ensures Truthy(req.password) ==> u.password == req.password.value
    ensures !Truthy(req.password) ==> u.password == defaultHash
    ensures u.role == req.role.GetOr(Role.User) && u.status == req.status.GetOr(Active)
    ensures !u.isVerified && u.verificationToken.None? && u.resetToken.None? && TokensPaired(u)
  {
    UserRecords.User.User(req.username, req.firstname, req.lastname, req.email,
                          if Truthy(req.password) then req.password.value else defaultHash,
                          false, req.role.GetOr(Role.User), req.status.GetOr(Active),
                          None, None, None, None)
  }

  /** What a successful `update` makes of a row: each provided property
      replaces the stored one, a non-empty password by its hash `hashed`;
      email and username only when non-empty. */
  function Patched(u: User, req: UpdateRequest, hashed: string): (v: User)
    ensures v.email == if Truthy(req.email) then req.email.value else u.email
    ensures v.username == if Truthy(req.username) then req.username.value else u.username
    ensures v.firstname == req.firstname.GetOr(u.firstname) && v.lastname == req.lastname.GetOr(u.lastname)
    ensures v.password == if Truthy(req.password) then hashed else u.password
    ensures v.role == req.role.GetOr(u.role) && v.status == req.status.GetOr(u.status)
    ensures v.isVerified == req.isVerified.GetOr(u.isVerified)
    ensures v.verificationToken == u.verificationToken && v.verificationTokenExpires == u.verificationTokenExpires
    ensures v.resetToken == u.resetToken && v.resetTokenExpires == u.resetTokenExpires
  {
    u.(email := if Truthy(req.email) then req.email.value else u.email,
       username := if Truthy(req.username) then req.username.value else u.username,
       firstname := req.firstname.GetOr(u.firstname),
       lastname := req.lastname.GetOr(u.lastname),
       password := if Truthy(req.password) then hashed else u.password,
       role := req.role.GetOr(u.role),
       status := req.status.GetOr(u.status),
       isVerified := req.isVerified.GetOr(u.isVerified))
  }

  /** An update with no properties leaves the row as it is. */
  lemma EmptyPatchChangesNothing(u: User, hashed: string)
    ensures Patched(u, UpdateRequest(None, None, None, None, None, None, None, None), hashed) == u
  {
  }

  /** Sending the same update twice has the effect of sending it once. */
  lemma PatchIdempotent(u: User, req: UpdateRequest, hashed: string)
    ensures Patched(Patched(u, req, hashed), req, hashed) == Patched(u, req, hashed)
  {
  }

  /** The DTO `updateUserProfile` passes on: an Admin's as sent, anyone
      else's without `role` and `status`. */
  function ProfileRequest(callerRole: Option<Role>, req: UpdateRequest): (r: UpdateRequest)
    ensures callerRole == Some(Admin) ==> r == req
    ensures callerRole != Some(Admin) ==> r.role.None? && r.status.None?
    ensures r == req.(role := r.role, status := r.status)
  {
    if callerRole == Some(Admin) then req else req.(role := None, status := None)
  }

  /** A profile update by a non-Admin never changes role or status. */
  lemma ProfileKeepsPrivileges(u: User, callerRole: Option<Role>, req: UpdateRequest, hashed: string)
    requires callerRole != Some(Admin)
    ensures Patched(u, ProfileRequest(callerRole, req), hashed).role == u.role
    ensures Patched(u, ProfileRequest(callerRole, req), hashed).status == u.status
  {
  }

  /** Only `role` and `status` are stripped: a non-Admin can set
      `isVerified` on their own row through the profile endpoint, without
      the email verification flow. */
  lemma ProfileCanSetVerified(u: User, callerRole: Option<Role>, req: UpdateRequest, hashed: string)
    requires callerRole != Some(Admin) && req.isVerified.Some?
    ensures Patched(u, ProfileRequest(callerRole, req), hashed).isVerified == req.isVerified.value
  {
  }

  /** Replacing a row by one whose email and username are its own or free
      keeps the unique constraints. */
  lemma PatchKeepsUnique(users: map<Id, User>, id: Id, v: User)
    requires Unique(users) && id in users
    requires v.email == users[id].email || forall x :: x in users ==> users[x].email != v.email
    requires v.username == users[id].username || forall x :: x in users ==> users[x].username != v.username
    ensures Unique(users[id := v])
  {
  }

  /** The assignments `update` makes once the email and username checks
      have passed, property by property. The service assigns step by step;
      its ensures proves the steps equal to `Patched`. */
  method AssignFields(user: User, req: UpdateRequest, hashed: string) returns (v: User)
    ensures v == Patched(user, req.(email := None, username := None), hashed)
  {
    v := user;
    if req.firstname.Some? {
      v := v.(firstname := req.firstname.value);
    }
    if req.lastname.Some? {
      v := v.(lastname := req.lastname.value);
    }
    if Truthy(req.password) {
      v := v.(password := hashed);
    }
    if req.role.Some? {
      v := v.(role := req.role.value);
    }
    if req.status.Some? {
      v := v.(status := req.status.value);
    }
    if req.isVerified.Some? {
      v := v.(isVerified := req.isVerified.value);
    }
  }

  class UserService {
    var users: map<Id, User>

    ghost predicate Valid()
      reads this
    {
      Unique(users)
    }

    constructor (users: map<Id, User>)
      requires Unique(users)
      ensures Valid() && this.users == users
    {
      this.users := users;
    }

    /** `getAll()`: every user whose role is not Admin. */
    function GetAll(): (r: map<Id, User>)
      reads this
      ensures forall id :: id in r <==> id in users && users[id].role != Admin
      ensures forall id :: id in r ==> r[id] == users[id]
    {
      map id | id in users && users[id].role != Admin :: users[id]
    }

    /** `findAllUsers()`: every user whose role is User. */
    function FindAllUsers(): (r: map<Id, User>)
      reads this
      ensures forall id :: id in r <==> id in users && IsUser(users[id].role)
      ensures forall id :: id in r ==> r[id] == users[id]
    {
      map id | id in users && IsUser(users[id].role) :: users[id]
    }

    /** With two roles, "not Admin" and "User" select the same rows. */
    lemma {:induction false} ListingsAgree()
      ensures GetAll() == FindAllUsers()
    {
      forall id | id in users
        ensures users[id].role != Admin <==> IsUser(users[id].role)
      {
        RolesPartition(users[id].role);
      }
    }

    /** Whether a user other than `id` would clash with the email `update`
        is asked to set. */
    ghost predicate EmailClash(id: Id, req: UpdateRequest)
      reads this
      requires id in users
    {
      && Truthy(req.email) && req.email.value != users[id].email
      && exists x :: x in users && users[x].email == req.email.value
    }

    ghost predicate UsernameClash(id: Id, req: UpdateRequest)
      reads this
      requires id in users
    {
      && Truthy(req.username) && req.username.value != users[id].username
      && exists x :: x in users && users[x].username == req.username.value
    }

    /** `getById(id)` */
    method GetById(id: Id) returns (r: Result<User>)
      ensures id in users <==> r.Ok?
      ensures r.Ok? ==> r.value == users[id]
      ensures r.Err? ==> r.error == NotFound("User not found")
    {
      if id !in users {
        return Err(NotFound("User not found"));
      }
      return Ok(users[id]);
    }

    /** `create(dto)`; `defaultHash` is the hash of the default password. */
    method Create(req: CreateRequest, defaultHash: string) returns (r: Result<Reply>)
      requires Valid()
      modifies this`users
      ensures Valid()
      ensures r.Err? ==> users == old(users)
      ensures (exists x :: x in old(users) && old(users)[x].email == req.email) ==>
        r == Err(BadRequest("Email already exists"))
      ensures (forall x :: x in old(users) ==> old(users)[x].email != req.email) &&
              (exists x :: x in old(users) && old(users)[x].username == req.username) ==>
        r == Err(BadRequest("Username already exists"))
      ensures r.Ok? <==> forall x :: x in old(users) ==>
        old(users)[x].email != req.email && old(users)[x].username != req.username
      ensures r.Ok? ==>
        && r.value.message == "User created successfully" && r.value.id !in old(users)
        && r.value.user == NewUser(req, defaultHash) && users == old(users)[r.value.id := r.value.user]
    {
      var byEmail := FindBy(users, Email, req.email);
      if byEmail.Some? {
        return Err(BadRequest("Email already exists"));
      }
      var byUsername := FindBy(users, Username, req.username);
      if byUsername.Some? {
        return Err(BadRequest("Username already exists"));
      }
      var user := NewUser(req, defaultHash);
      FreshKeyExists(users.Keys);
      var id :| id !in users;
      InsertKeepsUnique(users, id, user);
      users := users[id := user];
      return Ok(Reply("User created successfully", id, user));
    }

    /** `update(id, dto)`; `hashed` is the hash of `dto.password`. A new
        email or username is checked against the other users; an unchanged
        one is not looked up. */
    method Update(id: Id, req: UpdateRequest, hashed: string) returns (r: Result<Reply>)
      requires Valid()
      modifies this`users
      ensures Valid()
      ensures r.Err? ==> users == old(users)
      ensures id !in old(users) ==> r == Err(NotFound("User not found"))
      ensures id in old(users) ==> (r.Err? <==> old(EmailClash(id, req)) || old(UsernameClash(id, req)))
      ensures id in old(users) && old(EmailClash(id, req)) ==> r == Err(BadRequest("Email already exists"))
      ensures id in old(users) && !old(EmailClash(id, req)) && old(UsernameClash(id, req)) ==>
        r == Err(BadRequest("Username already exists"))
      ensures r.Ok? ==>
        && id in old(users)
        && r.value == Reply("User updated successfully", id, Patched(old(users)[id], req, hashed))
        && users == old(users)[id := r.value.user]
    {
      if id !in users {
        return Err(NotFound("User not found"));
      }
      var user := users[id];
      if Truthy(req.email) && req.email.value != user.email {
        var existing := FindBy(users, Email, req.email.value);
        if existing.Some? {
          return Err(BadRequest("Email already exists"));
        }
        user := user.(email := req.email.value);
      }
      if Truthy(req.username) && req.username.value != user.username {
        var existing := FindBy(users, Username, req.username.value);
        if existing.Some? {
          return Err(BadRequest("Username already exists"));
        }
        user := user.(username := req.username.value);
      }
      user := AssignFields(user, req, hashed);
      assert user == Patched(users[id], req, hashed);
      PatchKeepsUnique(users, id, user);
      users := users[id := user];
      return Ok(Reply("User updated successfully", id, user));
    }

    /** `delete(id)` */
    method Delete(id: Id) returns (r: Result<string>)
      requires Valid()
      modifies this`users
      ensures Valid()
      ensures id !in old(users) ==> r == Err(NotFound("User not found")) && users == old(users)
      ensures id in old(users) ==> r == Ok("User deleted successfully") && users == old(users) - {id}
    {
      if id !in users {
        return Err(NotFound("User not found"));
      }
      users := users - {id};
      return Ok("User deleted successfully");
    }

    /** `getUserProfile`: the caller's own row without its password;
        `caller` is the id the JWT carried, if any. */
    function Profile(caller: Option<Id>): (r: Result<PublicUser>)
      reads this
      ensures !Truthy(caller) ==> r == Err(Unauthorized("User not authenticated"))
      ensures Truthy(caller) && caller.value !in users ==> r == Err(NotFound("User not found"))
      ensures r.Ok? <==> Truthy(caller) && caller.value in users
      ensures r.Ok? ==> r.value == WithoutPassword(users[caller.value])
    {
      if !Truthy(caller) then Err(Unauthorized("User not authenticated"))
      else if caller.value !in users then Err(NotFound("User not found"))
      else Ok(WithoutPassword(users[caller.value]))
    }

    /** `updateUserProfile`: the caller updates their own row; `callerRole`
        is the role the JWT carried. */
    method UpdateProfile(caller: Option<Id>, callerRole: Option<Role>, req: UpdateRequest, hashed: string)
      returns (r: Result<Reply>)
      requires Valid()
      modifies this`users
      ensures Valid()
      ensures r.Err? ==> users == old(users)
      ensures !Truthy(caller) ==> r == Err(Unauthorized("User not authenticated"))
      ensures Truthy(caller) && caller.value !in old(users) ==> r == Err(NotFound("User not found"))
      ensures r.Ok? ==>
        && Truthy(caller) && caller.value in old(users) && r.value.id == caller.value
        && r.value.user == Patched(old(users)[caller.value], ProfileRequest(callerRole, req), hashed)
        && users == old(users)[caller.value := r.value.user]
      ensures r.Ok? && callerRole != Some(Admin) ==>
        r.value.user.role == old(users)[caller.value].role && r.value.user.status == old(users)[caller.value].status
    {
      if !Truthy(caller) {
        return Err(Unauthorized("User not authenticated"));
      }
      r := Update(caller.value, ProfileRequest(callerRole, req), hashed);
    }
  }
}
